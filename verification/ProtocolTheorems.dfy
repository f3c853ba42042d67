/** What the login protocol guarantees over every interleaving. */
module ProtocolTheorems {
  import opened Options
  import opened LoginProtocol
  import opened ProtocolInvariants
  import opened ProtocolSteps
  import opened ProtocolRuns
  import opened ProtocolTables
  import opened ProtocolTableSteps
  import opened ProtocolNames
  import opened ProtocolCauses
  import ActionRegistry
  import Base64Url
  import Recovery = RecoveryCodes
  import Window = AttemptWindow

  // ----- provenance -----

  /** What approved request `rid` at event p: an `approve_login_<rid>` action that
      resolved the future of an attempt still current when it wrote its outcome; or a
      recovery code that was submitted for this very login and account, within the limits,
      and whose row, of that account and made from that code, was spent on it. */
  ghost predicate ApprovedBy(rows: seq<Recovery.Row>, log: seq<Event>, p: nat, rid: Id, account: string) {
    && p < |log| && (log[p].Kept? || log[p].RecoveryApproved?) && log[p].rid == rid && log[p].account == account
    && (if log[p].Kept? then
          && log[p].outcome == Approved && Began(log[..p], rid, log[p].tid, log[p].n)
          && log[p].tapped < p
          && log[log[p].tapped] == Tapped("approve_login_" + rid, rid, true, log[p].tid)
          && (forall j | 0 <= j < p :: StillCurrent(log, j, rid, log[p].n))
        else
          var a := log[p].accepted;
          && a < p && CodeAcceptedAt(log, a, rid, log[p].tid, account)
          && SpentRow(rows, account, log[a].id, log[a].code)
          && Submitted(log[..a], rid, account, log[a].ip, log[a].code))
  }

  /** A challenge was answered with the verifier it is the digest of: padded again and
      decoded, it is that digest. */
  predicate Proves(cfg: Config, challenge: Option<string>, verifier: Option<string>) {
    challenge.Some? ==>
      verifier.Some? && verifier.value != ""
      && Base64Url.Decode(Base64Url.Repad(challenge.value)) == Some(cfg.sha256(verifier.value))
  }

  lemma PkceProves(cfg: Config, challenge: Option<string>, verifier: Option<string>)
    requires PkceOk(cfg, challenge, verifier)
    ensures Proves(cfg, challenge, verifier)
  {
    if challenge.Some? {
      Base64Url.RoundTrip(cfg.sha256(verifier.value));
    }
  }

  /** A code whose challenge is the digest of `secret` is worth nothing without a verifier
      of that digest, and one without a challenge needs none. */
  lemma PkceExactlyWhen(cfg: Config, secret: string, verifier: Option<string>)
    ensures PkceOk(cfg, None, verifier)
    ensures PkceOk(cfg, Some(Base64Url.Encode(cfg.sha256(secret))), verifier)
            <==> verifier.Some? && verifier.value != "" && cfg.sha256(verifier.value) == cfg.sha256(secret)
  {
    if verifier.Some? {
      Base64Url.EncodeInjective(cfg.sha256(verifier.value), cfg.sha256(secret));
    }
  }

  /** The whole way from a token back to the `/authorize` it answers. */
  ghost predicate FullChain(cfg: Config, s: State, r: nat)
    requires r < |s.log| && s.log[r].Redeemed?
  {
    var log, token := s.log, s.log[r];
    && token.completed < r && log[token.completed].Completed?
    && var done := log[token.completed];
    && done.code == token.code && 0.0 <= token.at - done.at <= 60.0
    && done.authorized < token.completed && log[done.authorized].Authorized?
    && var asked := log[done.authorized];
    && asked.rid == done.rid
    && token.claims.aud == asked.clientId && token.claims.nonce == asked.nonce
    && Proves(cfg, asked.challenge, token.verifier)
    && token.claims.email.Some? && token.claims.sub == Some(cfg.normalize(token.claims.email.value))
    && done.approved < token.completed && ApprovalAt(log, done.approved, done.rid)
    && ApprovedBy(s.recovery.rows, log, done.approved, done.rid, log[done.approved].account)
    && var before := log[..token.completed];
    && WasGiven(before, done.rid, asked.hint, token.claims.email.value)
    && OfGiven(cfg, before, done.rid, asked.hint, log[done.approved].account)
    && (OneAccount(cfg, before, done.rid, asked.hint) ==> log[done.approved].account == token.claims.sub.value)
  }

  lemma ApprovalMeaning(cfg: Config, s: State, p: nat, rid: Id)
    requires Reachable(cfg, s) && ApprovalAt(s.log, p, rid)
    ensures ApprovedBy(s.recovery.rows, s.log, p, rid, s.log[p].account)
  {
    ReachableInv(cfg, s);
    ReachableTables(cfg, s);
    assert EventOk(cfg, s.log, p);
    assert ActionRegistry.ActionName(rid, true) == "approve_login_" + rid;
    if s.log[p].RecoveryApproved? {
      assert AcceptedAt(s.recovery.rows, s.log, s.log[p].accepted);
    }
  }

  /** Every token of every run has the whole chain, down to the tap or the code that
      approved its request. Token and approval are of accounts the request was given an
      address of; and of the same one, unless it came with a hint of one account and an
      address of another was submitted for it. */
  lemma TokenProvenance(cfg: Config, s: State, r: nat)
    requires Reachable(cfg, s) && r < |s.log| && s.log[r].Redeemed?
    ensures FullChain(cfg, s, r)
  {
    ReachableInv(cfg, s);
    assert EventOk(cfg, s.log, r);
    var c := s.log[r].completed;
    assert EventOk(cfg, s.log, c);
    ApprovalMeaning(cfg, s, s.log[c].approved, s.log[c].rid);
    CompletedNames(cfg, s, c);
    PkceProves(cfg, s.log[c].entry.challenge, s.log[r].verifier);
  }

  lemma CompletedNames(cfg: Config, s: State, c: nat)
    requires Reachable(cfg, s) && c < |s.log| && s.log[c].Completed?
    ensures s.log[c].authorized < c && s.log[s.log[c].authorized].Authorized?
    ensures s.log[c].approved < c && ApprovalAt(s.log, s.log[c].approved, s.log[c].rid)
    ensures s.log[c].entry.account.Some? && s.log[c].entry.email.Some?
    ensures var done, before := s.log[c], s.log[..c];
            var hint, account := s.log[done.authorized].hint, s.log[done.approved].account;
            && WasGiven(before, done.rid, hint, done.entry.email.value)
            && OfGiven(cfg, before, done.rid, hint, account)
            && (OneAccount(cfg, before, done.rid, hint) ==> account == done.entry.account.value)
  {
    ReachableInv(cfg, s);
    ReachableNames(cfg, s);
    assert EventOk(cfg, s.log, c);
    var done := s.log[c];
    ApproverNamed(cfg, s, done.approved, c, done.authorized, done.rid);
    OwnerNamed(cfg, s, c, done.authorized);
    if OneAccount(cfg, s.log[..c], done.rid, s.log[done.authorized].hint) {
      AccountsAgree(cfg, s.log, c, done.rid, s.log[done.authorized].hint, s.log[done.approved].account,
                    done.entry.account.value);
    }
  }

  lemma ApproverNamed(cfg: Config, s: State, p: nat, c: nat, k: nat, rid: Id)
    requires Names(cfg, s) && p < c <= |s.log| && ApprovalAt(s.log, p, rid)
    requires k < |s.log| && s.log[k].Authorized? && s.log[k].rid == rid
    ensures OfGiven(cfg, s.log[..c], rid, s.log[k].hint, s.log[p].account)
  {
    assert EventNamed(cfg, s.log, p);
    assert s.log[..c] == s.log[..p] + s.log[p..c];
    NamedStays(cfg, s.log[..p], s.log[p..c], rid, s.log[p].account);
    NamedMeans(cfg, s, c, k, rid, s.log[p].account);
  }

  lemma OwnerNamed(cfg: Config, s: State, c: nat, k: nat)
    requires Names(cfg, s) && c < |s.log| && s.log[c].Completed? && s.log[c].entry.account.Some?
    requires k < |s.log| && s.log[k].Authorized? && s.log[k].rid == s.log[c].rid
    ensures s.log[c].entry.email.Some?
    ensures WasGiven(s.log[..c], s.log[c].rid, s.log[k].hint, s.log[c].entry.email.value)
    ensures OfGiven(cfg, s.log[..c], s.log[c].rid, s.log[k].hint, s.log[c].entry.account.value)
  {
    assert EventNamed(cfg, s.log, c);
    GivenMeans(cfg, s, c, k, s.log[c].rid, s.log[c].entry.email.value);
  }

  /** And the address is the only one ever submitted for that request. */
  lemma OneAddress(cfg: Config, s: State, i: nat, j: nat)
    requires Reachable(cfg, s) && i < |s.log| && j < |s.log|
    requires s.log[i].EmailSubmitted? && s.log[j].EmailSubmitted? && s.log[i].rid == s.log[j].rid
    ensures i == j
  {
    ReachableInv(cfg, s);
    if j < i {
      FirstAddress(cfg, s.log, i, j);
    } else if i < j {
      FirstAddress(cfg, s.log, j, i);
    }
  }

  lemma FirstAddress(cfg: Config, log: seq<Event>, i: nat, j: nat)
    requires LogOk(cfg, log) && j < i < |log| && log[i].EmailSubmitted?
    ensures !(log[j].EmailSubmitted? && log[j].rid == log[i].rid)
  {
    assert EventOk(cfg, log, i);
    assert UnsentAt(log, j, log[i].rid);
  }

  // ----- outcomes belong to the current attempt -----

  /** An outcome is written only by an attempt no later one has replaced, of a request
      still registered; a reject or an approve rests on that action reaching that very
      attempt. */
  lemma OutcomesAreCurrent(cfg: Config, s: State, i: nat)
    requires Reachable(cfg, s) && i < |s.log| && s.log[i].Kept?
    ensures forall j | 0 <= j < i :: StillCurrent(s.log, j, s.log[i].rid, s.log[i].n)
    ensures var e := s.log[i];
            e.outcome == Approved || e.outcome == Rejected ==>
              e.tapped < i
              && s.log[e.tapped] == Tapped((if e.outcome == Approved then "approve_login_" else "reject_login_")
                                           + e.rid, e.rid, e.outcome == Approved, e.tid)
  {
    ReachableInv(cfg, s);
    assert EventOk(cfg, s.log, i);
  }

  /** The request was opened from this address. */
  predicate OpenedFrom(log: seq<Event>, rid: Id, ip: string) {
    exists j :: 0 <= j < |log| && OpenedFromAt(log, j, rid, ip)
  }

  predicate OpenedFromAt(log: seq<Event>, j: nat, rid: Id, ip: string)
    requires j < |log|
  {
    log[j].Authorized? && log[j].rid == rid && log[j].ip == ip
  }

  /** Every block write rests on a verdict of the same task, on the account it writes for: a
      tap its attempt had kept, of a request opened from that address, or a code checked
      from that address. It is a success exactly for an approval or an accepted code. What
      it does to the table is in `ProtocolBlocks`. */
  lemma BlockWritesRestOnVerdicts(cfg: Config, s: State, i: nat)
    requires Reachable(cfg, s) && i < |s.log| && s.log[i].BlockWritten?
    ensures s.log[i].why < i
    ensures var why := s.log[s.log[i].why];
            && (why.Kept? || why.CodeAccepted? || why.CodeRefused?)
            && why.tid == s.log[i].tid
            && why.account == s.log[i].pair.0
            && (why.Kept? ==> why.outcome in {Approved, Rejected} && OpenedFrom(s.log, why.rid, s.log[i].pair.1))
            && (!why.Kept? ==> s.log[i].pair.1 == why.ip)
            && (s.log[i].success <==> why.CodeAccepted? || (why.Kept? && why.outcome == Approved))
  {
    ReachableInv(cfg, s);
    ReachableTables(cfg, s);
    assert EventOk(cfg, s.log, i);
    assert FiledAt(s.log, s.logins, i);
    if s.log[s.log[i].why].Kept? {
      OpenedThere(cfg, s, s.log[s.log[i].why].rid);
    }
  }

  lemma OpenedThere(cfg: Config, s: State, rid: Id)
    requires Inv(cfg, s) && rid in s.logins
    ensures OpenedFrom(s.log, rid, s.logins[rid].ip)
  {
    assert LoginAt(cfg, s.log, s.logins, rid);
    assert OpenedFromAt(s.log, s.logins[rid].authorized, rid, s.logins[rid].ip);
  }

  /** Every audit row rests on an outcome or an accepted code of the same task, account,
      request and address; the others are refusals of a blocked address. A row says what
      an attempt without a verdict came to. What it says of one with a verdict is in
      `FilesItsVerdictExactlyWhen`. */
  lemma WritesRestOnOutcomes(cfg: Config, s: State, i: nat)
    requires Reachable(cfg, s) && i < |s.log| && s.log[i].Filed?
    ensures s.log[i].cause.Some? ==> s.log[i].cause.value < i
    ensures var row := s.log[i].row;
            match s.log[i].cause
            case None => row.kind == WasBlocked && OpenedFrom(s.log, row.rid, row.ip)
            case Some(k) =>
              var why := s.log[k];
              && (why.Kept? || why.CodeAccepted?) && why.tid == s.log[i].tid
              && why.account == row.account && why.rid == row.rid
              && (if why.CodeAccepted? then row.ip == why.ip else OpenedFrom(s.log, row.rid, row.ip))
              && (if why.CodeAccepted? then row.kind == RecoveryCodeUsed
                  else if why.outcome in {Approved, Rejected} then row.kind.Ended?
                  else row.kind == Ended(why.outcome))
  {
    ReachableInv(cfg, s);
    ReachableTables(cfg, s);
    assert EventOk(cfg, s.log, i);
    assert FiledAt(s.log, s.logins, i);
    if s.log[i].cause.None? || s.log[s.log[i].cause.value].Kept? {
      OpenedThere(cfg, s, s.log[i].row.rid);
    }
  }

  // ----- each request leaves once, each code is spent once -----

  /** Nothing leaves `_pending` twice: no request gets two redirects, or a code and an
      `access_denied`; and no code is presented twice. */
  lemma LeavesOnce(cfg: Config, s: State, i: nat, j: nat)
    requires Reachable(cfg, s) && i < |s.log| && j < |s.log| && i != j
    ensures Exits(s.log[i]) !! Exits(s.log[j]) && Spends(s.log[i]) !! Spends(s.log[j])
    ensures s.log[i].Completed? && s.log[j].Completed? ==> s.log[i].code != s.log[j].code
  {
    ReachableInv(cfg, s);
    assert EventOk(cfg, s.log, i) && EventOk(cfg, s.log, j);
    if i < j {
      assert TakesOther(s.log, j, i);
      assert s.log[j].Completed? ==> OtherCode(s.log, i, s.log[j].code);
    } else {
      assert TakesOther(s.log, i, j);
      assert s.log[i].Completed? ==> OtherCode(s.log, j, s.log[i].code);
    }
  }

  /** The positions of the events of one kind. */
  ghost function Redemptions(log: seq<Event>): set<nat> {
    set i: nat | i < |log| && log[i].Redeemed?
  }

  ghost function Completions(log: seq<Event>): set<nat> {
    set i: nat | i < |log| && log[i].Completed?
  }

  ghost function ApprovedRequests(log: seq<Event>): set<Id> {
    set i: nat | i < |log| && (log[i].Kept? || log[i].RecoveryApproved?) && ApprovalAt(log, i, log[i].rid) :: log[i].rid
  }

  lemma {:induction false} Injection<A, B>(from: set<A>, to: set<B>, f: map<A, B>)
    requires f.Keys == from && f.Values <= to
    requires forall a, b | a in from && b in from && f[a] == f[b] :: a == b
    ensures |from| <= |to|
  {
    if from != {} {
      var a :| a in from;
      var rest := f - {a};
      assert f[a] in f.Values;
      forall b | b in rest.Values
        ensures b in to - {f[a]}
      {
        var k :| k in rest && rest[k] == b;
        assert f[k] in f.Values;
      }
      Injection(from - {a}, to - {f[a]}, rest);
    }
  }

  lemma TokensAtMostCodes(cfg: Config, s: State)
    requires Reachable(cfg, s)
    ensures |Redemptions(s.log)| <= |Completions(s.log)|
  {
    ReachableInv(cfg, s);
    forall i | i in Redemptions(s.log)
      ensures s.log[i].completed in Completions(s.log) && s.log[s.log[i].completed].code == s.log[i].code
    {
      assert EventOk(cfg, s.log, i);
    }
    forall i, j | i in Redemptions(s.log) && j in Redemptions(s.log) && s.log[i].completed == s.log[j].completed
      ensures i == j
    {
      assert s.log[i].code in Spends(s.log[i]) && s.log[j].code in Spends(s.log[j]);
      if i != j {
        LeavesOnce(cfg, s, i, j);
      }
    }
    Injection(Redemptions(s.log), Completions(s.log), map i | i in Redemptions(s.log) :: s.log[i].completed);
  }

  lemma CompletedOnce(cfg: Config, s: State, i: nat, j: nat)
    requires Reachable(cfg, s) && i < |s.log| && j < |s.log| && s.log[i].Completed? && s.log[j].Completed?
    requires s.log[i].rid == s.log[j].rid
    ensures i == j
  {
    assert s.log[i].rid in Exits(s.log[i]) && s.log[j].rid in Exits(s.log[j]);
    if i != j {
      LeavesOnce(cfg, s, i, j);
    }
  }

  lemma CodesAtMostApprovals(cfg: Config, s: State)
    requires Reachable(cfg, s)
    ensures |Completions(s.log)| <= |ApprovedRequests(s.log)|
  {
    ReachableInv(cfg, s);
    forall i | i in Completions(s.log)
      ensures s.log[i].rid in ApprovedRequests(s.log)
    {
      assert EventOk(cfg, s.log, i);
      assert ApprovalAt(s.log, s.log[i].approved, s.log[i].rid);
    }
    forall i, j | i in Completions(s.log) && j in Completions(s.log) && s.log[i].rid == s.log[j].rid
      ensures i == j
    {
      CompletedOnce(cfg, s, i, j);
    }
    Injection(Completions(s.log), ApprovedRequests(s.log), map i | i in Completions(s.log) :: s.log[i].rid);
  }

  /** Tokens never outnumber codes, and codes never outnumber approved requests. */
  lemma TokensCodesApprovals(cfg: Config, s: State)
    requires Reachable(cfg, s)
    ensures |Redemptions(s.log)| <= |Completions(s.log)| <= |ApprovedRequests(s.log)|
  {
    TokensAtMostCodes(cfg, s);
    CodesAtMostApprovals(cfg, s);
  }

  // ----- redeeming does not depend on the purge -----

  /** Whether a code is good: it was issued at most a minute ago and has not been
      presented. Purges are not mentioned. */
  ghost predicate Redeemable(now: real, log: seq<Event>, k: nat, code: string) {
    CompletedAt(log, k, code) && now - log[k].at <= 60.0 && !Presented(log, code)
  }

  /** The code is good and was made for a request these parameters fit. */
  ghost predicate Fits(cfg: Config, s: State, k: nat, r: TokenRequest) {
    && Redeemable(s.now, s.log, k, r.code)
    && (r.redirectUri.Some? ==> r.redirectUri.value == s.log[k].entry.redirectUri)
    && (s.log[k].entry.challenge.Some? ==>
          r.verifier.Some? && r.verifier.value != ""
          && Base64Url.Encode(cfg.sha256(r.verifier.value)) == s.log[k].entry.challenge.value)
  }

  /** `/token` hands out tokens exactly when the client proves itself, the code is good
      in that sense, and the redirect URI and the PKCE verifier fit the request the code
      was made for. When the purge last ran makes no difference. */
  lemma PurgeUnobservableAtToken(cfg: Config, s: State, r: TokenRequest, access: string)
    requires Reachable(cfg, s) && access !in s.granted
    ensures var log' := Token(cfg, s, r, access).log;
            (|log'| > |s.log| && log'[|s.log|].Redeemed?) <==> FromClient(cfg, r) && exists k: nat :: Fits(cfg, s, k, r)
  {
    ReachableInv(cfg, s);
    forall k: nat | Fits(cfg, s, k, r)
      ensures r.code in s.issued && s.issued[r.code] == k
    {
      assert SpendsKnown(s.log, s.codes, s.issued, k);
    }
    TokenHandsOut(cfg, s, r, access);
    if r.code in s.issued {
      IssuedFits(cfg, s, r);
    }
  }

  lemma TokenHandsOut(cfg: Config, s: State, r: TokenRequest, access: string)
    requires access !in s.granted
    ensures var log' := Token(cfg, s, r, access).log;
            (|log'| > |s.log| && log'[|s.log|].Redeemed?)
            <==> ClientOk(cfg, r) && r.code in s.codes && EntryOk(cfg, s.now, s.codes[r.code], r)
  {
    if ClientOk(cfg, r) && r.code in s.codes {
      if EntryOk(cfg, s.now, s.codes[r.code], r) {
        TokenRedeems(cfg, s, r, access);
      } else {
        TokenSpends(cfg, s, r, access);
      }
    } else {
      assert Token(cfg, s, r, access) == s;
    }
  }

  lemma TokenSpends(cfg: Config, s: State, r: TokenRequest, access: string)
    requires access !in s.granted && ClientOk(cfg, r) && r.code in s.codes
    requires !EntryOk(cfg, s.now, s.codes[r.code], r)
    ensures Token(cfg, s, r, access).log == s.log + [Spent(r.code)]
  {
  }

  lemma TokenRedeems(cfg: Config, s: State, r: TokenRequest, access: string)
    requires access !in s.granted && ClientOk(cfg, r) && r.code in s.codes
    requires EntryOk(cfg, s.now, s.codes[r.code], r)
    ensures var e := s.codes[r.code];
            Token(cfg, s, r, access).log
            == s.log + [Redeemed(r.code, access, s.now, e.completed, r.verifier,
                                 Claims(e.account, e.email, e.clientId, e.nonce))]
  {
  }

  /** Of a code that was issued: it fits exactly when its entry is still there and good. */
  lemma IssuedFits(cfg: Config, s: State, r: TokenRequest)
    requires Inv(cfg, s) && r.code in s.issued
    ensures Fits(cfg, s, s.issued[r.code], r) <==> r.code in s.codes && EntryOk(cfg, s.now, s.codes[r.code], r)
  {
    var k := s.issued[r.code];
    assert IssuedAt(s.now, s.log, s.codes, s.issued, r.code);
    assert EventOk(cfg, s.log, k);
    CodesUnspent(cfg, s, r.code);
  }

  lemma CodesUnspent(cfg: Config, s: State, code: string)
    requires Inv(cfg, s)
    ensures code in s.codes ==> !Presented(s.log, code)
  {
    if code in s.codes {
      forall j | 0 <= j < |s.log|
        ensures !((s.log[j].Spent? || s.log[j].Redeemed?) && s.log[j].code == code)
      {
        assert SpendsKnown(s.log, s.codes, s.issued, j);
      }
    }
  }

  // ----- completing does depend on it -----

  /** `/idp/complete` would answer this request with this fresh code. */
  predicate Completable(s: State, rid: Id, code: string) {
    code !in s.issued && code in Complete(s, rid, code).issued
  }

  /** Of an approved request still registered: it can be completed, however old it is; and
      after a purge exactly if it is not past the login timeout. */
  lemma PurgeObservableAtComplete(cfg: Config, s: State, rid: Id, code: string)
    requires Reachable(cfg, s) && rid in s.pending && code !in s.issued
    ensures rid in s.logins
    ensures Completable(s, rid, code) <==> s.logins[rid].status == Approved
    ensures Completable(Purge(cfg, s), rid, code)
            <==> s.logins[rid].status == Approved && s.now - s.logins[rid].createdAt <= cfg.loginTimeout
  {
    ReachableInv(cfg, s);
    NotOverdueKeeps(cfg, s, s.pending);
    assert Purge(cfg, s).pending == NotOverdue(cfg, s, s.pending);
  }

  // ----- access tokens -----

  /** `/userinfo` answers for exactly the access tokens that were issued and that no purge
      more than five minutes later has dropped. Their age alone does not matter. */
  lemma StoredExactlyWhen(cfg: Config, s: State, access: string)
    requires Reachable(cfg, s)
    ensures access in s.tokens <==> exists r :: RedeemedAs(s.log, r, access) && !Dropped(s.log, r)
  {
    ReachableTables(cfg, s);
    if access in s.granted {
      assert GrantedAt(s.log, s.tokens, s.granted, access);
    }
    forall r | RedeemedAs(s.log, r, access)
      ensures access in s.granted && s.granted[access] == r
    {
      assert RedeemedKnown(s.log, s.granted, r);
    }
  }

  /** And what it answers are the claims of the one redemption that issued the token, and
      so of a whole chain. */
  lemma StoredClaims(cfg: Config, s: State, access: string) returns (r: nat)
    requires Reachable(cfg, s) && access in s.tokens
    ensures RedeemedAs(s.log, r, access) && FullChain(cfg, s, r)
    ensures s.tokens[access] == TokenEntry(s.log[r].claims.sub, s.log[r].claims.email, s.log[r].at)
    ensures forall q | RedeemedAs(s.log, q, access) :: q == r
  {
    ReachableTables(cfg, s);
    r := s.granted[access];
    assert GrantedAt(s.log, s.tokens, s.granted, access);
    TokenProvenance(cfg, s, r);
    forall q | RedeemedAs(s.log, q, access)
      ensures q == r
    {
      assert RedeemedKnown(s.log, s.granted, q);
    }
  }

  // ----- recovery attempts -----

  /** Over all logins of an account no five minutes hold more than ten submitted codes
      that were let through to a check, and no login ever has more than five. */
  lemma SubmissionsLimited(cfg: Config, s: State, account: string, rid: Id, start: real)
    requires Reachable(cfg, s)
    ensures Window.PassedIn(AttemptsOf(s.log), account, start) <= 10
    ensures Window.PassedFor(AttemptsOf(s.log), rid) <= 5
  {
    ReachableTables(cfg, s);
    Window.AtMostTenInAnyWindow(AttemptsOf(s.log), account, start);
    Window.AtMostFivePerLogin(AttemptsOf(s.log), rid);
  }

  // ----- _pending stays bounded, oldest out first -----

  /** The oldest request is the first, so making room removes exactly that one. */
  lemma EvictsFirst(cfg: Config, s: State)
    requires Inv(cfg, s)
    ensures forall id | id in s.pending :: id in s.logins
    ensures Evict(s).pending == if |s.pending| < MAX_PENDING then s.pending else s.pending[1..]
    ensures s.pending != [] ==>
              forall id | id in s.pending :: s.logins[s.pending[0]].createdAt <= s.logins[id].createdAt
  {
    if s.pending != [] {
      FirstIsOldest(s.logins, s.pending);
      assert Without(s.pending, s.pending[0]) == s.pending[1..];
    }
  }

  /** A new request takes the place of the oldest one when the table is full, and of no
      other; the table never exceeds its limit. */
  lemma AuthorizeEvictsOldest(cfg: Config, s: State, r: AuthorizeRequest, rid: Id, tid: nat)
    requires Reachable(cfg, s)
    ensures |s.pending| <= 500 && forall id | id in s.pending :: id in s.logins
    ensures forall id | id in s.pending :: s.logins[s.pending[0]].createdAt <= s.logins[id].createdAt
    ensures Acceptable(cfg, r) && rid !in s.logins && tid !in s.tasks ==>
              Authorize(cfg, s, r, rid, tid).pending
              == (if |s.pending| < 500 then s.pending else s.pending[1..]) + [rid]
  {
    ReachableInv(cfg, s);
    EvictsFirst(cfg, s);
    if Acceptable(cfg, r) && rid !in s.logins && tid !in s.tasks {
      AdmitsLast(cfg, s, r, rid, tid);
    }
  }

  lemma AdmitsLast(cfg: Config, s: State, r: AuthorizeRequest, rid: Id, tid: nat)
    requires forall id | id in s.pending :: id in s.logins
    requires Acceptable(cfg, r) && rid !in s.logins && tid !in s.tasks
    ensures Authorize(cfg, s, r, rid, tid).pending == Evict(s).pending + [rid]
  {
    assert Admitted(Evict(s), r, rid).pending == Evict(s).pending + [rid];
  }

  lemma {:induction false} FirstIsOldest(logins: map<Id, Login>, ids: seq<Id>)
    requires ids != [] && (forall id | id in ids :: id in logins) && InOrder(logins, ids)
    ensures Oldest(logins, ids) == ids[0]
  {
    if |ids| > 1 {
      var front := ids[..|ids| - 1];
      assert InOrder(logins, front);
      FirstIsOldest(logins, front);
    }
  }
}
