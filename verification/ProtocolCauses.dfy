/** What each action adds to the history, and what that does to the block table. An event
    is explained by the action that was taken: it has the parameters that came in, the
    moment they came, and nothing else. The table changes exactly with an event that says
    so. Both are shown of every step at once, since every step is a few events written on
    the end of the history (`Adds`) but for the two that write to the table. */
module ProtocolCauses {
  import opened Options
  import opened LoginProtocol
  import opened ProtocolInvariants
  import opened ProtocolSteps
  import opened ProtocolRuns
  import ActionRegistry
  import Blocks = IpBlocking
  import Recovery = RecoveryCodes

  // ----- what explains an event -----

  /** The characters a challenge may have. */
  predicate IsUrlSafe(c: char) {
    'A' <= c <= 'Z' || 'a' <= c <= 'z' || '0' <= c <= '9' || c == '-' || c == '_'
  }

  /** A request `/authorize` admits: of the one client, with at most 512 characters of
      nonce, and with a challenge only if it is one of method S256. */
  predicate Admissible(cfg: Config, r: AuthorizeRequest) {
    && r.clientId == cfg.clientId && r.redirectUri == cfg.redirectUri && r.responseType == "code"
    && (r.nonce.Some? ==> |r.nonce.value| <= 512)
    && (r.challenge.Some? ==>
          r.challengeMethod == Some("S256") && |r.challenge.value| == 43
          && forall c | c in r.challenge.value :: IsUrlSafe(c))
  }

  lemma AcceptableIsAdmissible(cfg: Config, r: AuthorizeRequest)
    ensures Acceptable(cfg, r) <==> Admissible(cfg, r)
  {
    if r.challenge.Some? {
      var s := r.challenge.value;
      assert (forall i | 0 <= i < |s| :: IsUrlSafe(s[i])) <==> forall c | c in s :: IsUrlSafe(c);
    }
  }

  /** The client has proved itself. */
  predicate FromClient(cfg: Config, r: TokenRequest) {
    && r.grantType == "authorization_code"
    && r.clientId == Some(cfg.clientId) && r.clientSecret == Some(cfg.clientSecret)
  }

  ghost predicate ExplainsHandler(cfg: Config, s: State, a: Action, e: Event) {
    match e
    case Authorized(rid, clientId, redirectUri, nonce, challenge, hint, ip, at) =>
      a.OnAuthorize? && a.rid == rid && Admissible(cfg, a.request) && at == s.now
      && clientId == a.request.clientId && redirectUri == a.request.redirectUri && nonce == a.request.nonce
      && challenge == a.request.challenge && ip == a.request.ip
      && (if hint == "" then a.request.loginHint in {None, Some("")} else a.request.loginHint == Some(hint))
    case Evicted(rid) => a.OnAuthorize? && rid in s.pending && |s.pending| >= 500
    case EmailSubmitted(rid, address) => a.OnEmail? && a.rid == rid && a.address == address
    case CodeSubmitted(rid, account, ip, code, at, passed) =>
      a.OnRecovery? && a.rid == rid && a.code == code && a.ip == ip && at == s.now
      && rid in s.logins && s.logins[rid].account == Some(account)
    case Completed(rid, code, at, _, _, _) => a == OnComplete(rid, code) && at == s.now
    case Failed(rid) =>
      a == OnFail(rid) && rid in s.logins && s.logins[rid].status in {Rejected, TimedOut, Denied, SendFailed}
    case Spent(code) => a.OnToken? && FromClient(cfg, a.tokenRequest) && a.tokenRequest.code == code
    case Redeemed(code, access, at, _, verifier, _) =>
      a.OnToken? && FromClient(cfg, a.tokenRequest) && a.tokenRequest.code == code && a.access == access
      && a.tokenRequest.verifier == verifier && at == s.now && code in s.codes
      && (a.tokenRequest.redirectUri.Some? ==> a.tokenRequest.redirectUri.value == s.codes[code].redirectUri)
    case _ => false
  }

  ghost predicate ExplainsOutside(cfg: Config, s: State, a: Action, e: Event) {
    match e
    case Tapped(text, rid, verdict, _) =>
      a == OnHaAction(text) && text == (if verdict then "approve_login_" else "reject_login_") + rid
    case Purged(requests, codes, accesses, at) =>
      a.OnPurge? && at == s.now
      && (forall id :: id in requests <==>
            id in s.pending && id in s.logins && s.now - s.logins[id].createdAt > cfg.loginTimeout)
      && (forall c :: c in codes <==> c in s.codes && s.now - s.codes[c].issuedAt > 60.0)
      && (forall t :: t in accesses <==> t in s.tokens && s.now - s.tokens[t].issuedAt > 300.0)
    case Unblocked(pair, at) => a == OnUnblock(pair) && at == s.now
    case _ => false
  }

  /** What tasks write, they write as themselves. */
  predicate ExplainsTask(s: State, a: Action, e: Event) {
    a.OnTask? &&
    match e
    case AccountResolved(rid, address) =>
      a.tid in s.tasks && s.tasks[a.tid].StartLookup? && s.tasks[a.tid].rid == rid && s.tasks[a.tid].address == address
    case BlockWritten(tid, _, _, _, at) => a.tid == tid && at == s.now
    case _ => (e.AttemptBegan? || e.Kept? || e.CodeAccepted? || e.CodeRefused? || e.RecoveryApproved? || e.Filed?)
              && a.tid == e.tid
  }

  ghost predicate Explains(cfg: Config, s: State, a: Action, e: Event) {
    ExplainsHandler(cfg, s, a, e) || ExplainsOutside(cfg, s, a, e) || ExplainsTask(s, a, e)
  }

  // ----- what an event does to the block table -----

  predicate IsBlockEvent(e: Event) {
    e.BlockWritten? || e.Unblocked?
  }

  /** What a verdict counts as: an approval or an accepted code is a success, anything else
      a failure. */
  function VerdictOp(why: Event, at: real): Blocks.Op {
    if why.CodeAccepted? || (why.Kept? && why.outcome == Approved) then Blocks.Success else Blocks.Failure(at)
  }

  function OpOf(before: seq<Event>, e: Event): Option<(Blocks.Pair, Blocks.Op)> {
    match e
    case BlockWritten(_, pair, _, why, at) =>
      if why < |before| then Some((pair, VerdictOp(before[why], at))) else None
    case Unblocked(pair, at) => Some((pair, Blocks.Unblock(at)))
    case _ => None
  }

  /** The table is touched by one event alone, and as that event says. */
  ghost predicate BlocksFollow(cfg: Config, s: State, s': State)
    requires |s.log| <= |s'.log|
  {
    || (s'.blocks == s.blocks && forall e | e in s'.log[|s.log|..] :: !IsBlockEvent(e))
    || (|s'.log| == |s.log| + 1
        && var op := OpOf(s.log, s'.log[|s.log|]);
           op.Some? && s'.blocks == Blocks.Update(s.blocks, op.value.0, op.value.1, cfg.blockThreshold))
  }

  ghost predicate Accounts(cfg: Config, s: State, a: Action, s': State) {
    s.log <= s'.log && (forall e | e in s'.log[|s.log|..] :: Explains(cfg, s, a, e)) && BlocksFollow(cfg, s, s')
  }

  ghost predicate ExplainsAll(cfg: Config, s: State, a: Action, more: seq<Event>) {
    forall e | e in more :: Explains(cfg, s, a, e) && !IsBlockEvent(e)
  }

  lemma Adds(cfg: Config, s: State, a: Action, s': State, more: seq<Event>)
    requires s'.log == s.log + more && s'.blocks == s.blocks && ExplainsAll(cfg, s, a, more)
    ensures Accounts(cfg, s, a, s')
  {
    assert s'.log[|s.log|..] == more;
  }

  lemma AddsNothing(cfg: Config, s: State, a: Action, s': State)
    requires s'.log == s.log && s'.blocks == s.blocks
    ensures Accounts(cfg, s, a, s')
  {
    assert s.log == s.log + [];
    Adds(cfg, s, a, s', []);
  }

  lemma AddsWrite(cfg: Config, s: State, a: Action, s': State, e: Event, pair: Blocks.Pair, op: Blocks.Op)
    requires s'.log == s.log + [e] && Explains(cfg, s, a, e) && OpOf(s.log, e) == Some((pair, op))
    requires s'.blocks == Blocks.Update(s.blocks, pair, op, cfg.blockThreshold)
    ensures Accounts(cfg, s, a, s')
  {
    assert s'.log[|s.log|..] == [e] && s'.log[|s.log|] == e;
  }

  // ----- handlers -----

  lemma {:induction false} EvictAdds(s: State) returns (more: seq<Event>)
    requires forall id | id in s.pending :: id in s.logins
    ensures Evict(s).log == s.log + more && Evict(s).blocks == s.blocks && Evict(s).now == s.now
    ensures forall e | e in more :: e.Evicted? && e.rid in s.pending && |s.pending| >= 500
    decreases |s.pending|
  {
    if |s.pending| < MAX_PENDING {
      more := [];
      assert s.log + [] == s.log;
    } else {
      var oldest := Oldest(s.logins, s.pending);
      WithoutShrinks(s.pending, oldest);
      var fewer := s.(pending := Without(s.pending, oldest), log := s.log + [Evicted(oldest)]);
      var rest := EvictAdds(fewer);
      more := [Evicted(oldest)] + rest;
      Regroup(s.log, [Evicted(oldest)], rest);
      assert Evict(s) == Evict(fewer);
    }
  }

  lemma Regroup(log: seq<Event>, more: seq<Event>, rest: seq<Event>)
    ensures log + more + rest == log + (more + rest)
  {
  }

  lemma AuthorizeAccounts(cfg: Config, s: State, r: AuthorizeRequest, rid: Id, tid: nat)
    ensures Accounts(cfg, s, OnAuthorize(r, rid, tid), Authorize(cfg, s, r, rid, tid))
  {
    var a, s' := OnAuthorize(r, rid, tid), Authorize(cfg, s, r, rid, tid);
    if Acceptable(cfg, r) && rid !in s.logins && tid !in s.tasks && forall id | id in s.pending :: id in s.logins {
      AcceptableIsAdmissible(cfg, r);
      var more := EvictAdds(s);
      var e := Authorized(rid, r.clientId, r.redirectUri, r.nonce, r.challenge, HintOf(r), r.ip, s.now);
      AdmittedAdds(Evict(s), r, rid);
      assert s'.log == s.log + (more + [e]) && s'.blocks == s.blocks;
      EvictionsExplained(cfg, s, a, more, e);
      Adds(cfg, s, a, s', more + [e]);
    } else {
      AddsNothing(cfg, s, a, s');
    }
  }

  lemma EvictionsExplained(cfg: Config, s: State, a: Action, more: seq<Event>, e: Event)
    requires a.OnAuthorize? && !IsBlockEvent(e) && ExplainsHandler(cfg, s, a, e)
    requires forall x | x in more :: x.Evicted? && x.rid in s.pending && |s.pending| >= 500
    ensures ExplainsAll(cfg, s, a, more + [e])
  {
    forall x | x in more + [e]
      ensures Explains(cfg, s, a, x) && !IsBlockEvent(x)
    {
      assert x in more ==> ExplainsHandler(cfg, s, a, x);
    }
  }

  lemma AdmittedAdds(s: State, r: AuthorizeRequest, rid: Id)
    ensures Admitted(s, r, rid).log
         == s.log + [Authorized(rid, r.clientId, r.redirectUri, r.nonce, r.challenge, HintOf(r), r.ip, s.now)]
    ensures Admitted(s, r, rid).blocks == s.blocks
  {
  }

  lemma EmailAccounts(cfg: Config, s: State, rid: Id, address: string, tid: nat)
    ensures Accounts(cfg, s, OnEmail(rid, address, tid), SubmitEmail(s, rid, address, tid))
  {
    var a, s' := OnEmail(rid, address, tid), SubmitEmail(s, rid, address, tid);
    if s' == s {
      AddsNothing(cfg, s, a, s');
    } else {
      assert ExplainsHandler(cfg, s, a, EmailSubmitted(rid, address));
      Adds(cfg, s, a, s', [EmailSubmitted(rid, address)]);
    }
  }

  lemma RecoveryAccounts(cfg: Config, s: State, rid: Id, code: string, ip: string, tid: nat)
    ensures Accounts(cfg, s, OnRecovery(rid, code, ip, tid), SubmitRecoveryCode(cfg, s, rid, code, ip, tid))
  {
    var a := OnRecovery(rid, code, ip, tid);
    if MayResend(cfg, s, rid) && tid !in s.tasks {
      var counted := Counted(s, rid);
      var e := CodeSubmitted(rid, Owner(s.logins[rid]), ip, code, s.now, WithinLimits(counted, rid));
      assert ExplainsHandler(cfg, s, a, e);
      NotedAccounts(cfg, s, a, counted, e, tid, CodeBlockCheck(rid, Owner(s.logins[rid]), ip, code));
    } else {
      AddsNothing(cfg, s, a, s);
    }
  }

  lemma NotedAccounts(cfg: Config, s: State, a: Action, counted: State, e: Event, tid: nat, next: Task)
    requires counted.log == s.log && counted.blocks == s.blocks && ExplainsHandler(cfg, s, a, e) && !IsBlockEvent(e)
    ensures Accounts(cfg, s, a, Logged(counted, e)) && Accounts(cfg, s, a, WithTask(Logged(counted, e), tid, next))
  {
    Adds(cfg, s, a, Logged(counted, e), [e]);
    Adds(cfg, s, a, WithTask(Logged(counted, e), tid, next), [e]);
  }

  lemma CompleteAccounts(cfg: Config, s: State, rid: Id, code: string)
    ensures Accounts(cfg, s, OnComplete(rid, code), Complete(s, rid, code))
  {
    var a, s' := OnComplete(rid, code), Complete(s, rid, code);
    if s' == s {
      AddsNothing(cfg, s, a, s');
    } else {
      var e := s'.log[|s.log|];
      assert s'.log == s.log + [e] && ExplainsHandler(cfg, s, a, e);
      Adds(cfg, s, a, s', [e]);
    }
  }

  lemma FailAccounts(cfg: Config, s: State, rid: Id)
    ensures Accounts(cfg, s, OnFail(rid), Fail(s, rid))
  {
    var a, s' := OnFail(rid), Fail(s, rid);
    if rid in s.pending && rid in s.logins && IsFailure(s.logins[rid].status) {
      assert ExplainsHandler(cfg, s, a, Failed(rid));
      Adds(cfg, s, a, s', [Failed(rid)]);
    } else {
      AddsNothing(cfg, s, a, s');
    }
  }

  lemma TokenAccounts(cfg: Config, s: State, r: TokenRequest, access: string)
    ensures Accounts(cfg, s, OnToken(r, access), Token(cfg, s, r, access))
  {
    var a := OnToken(r, access);
    if ClientOk(cfg, r) && r.code in s.codes && access !in s.granted {
      var entry, rest := s.codes[r.code], s.codes - {r.code};
      if !EntryOk(cfg, s.now, entry, r) {
        assert ExplainsHandler(cfg, s, a, Spent(r.code));
        Adds(cfg, s, a, Logged(s.(codes := rest), Spent(r.code)), [Spent(r.code)]);
      } else {
        var e := Redeemed(r.code, access, s.now, entry.completed, r.verifier,
                          Claims(entry.account, entry.email, entry.clientId, entry.nonce));
        var token := TokenEntry(entry.account, entry.email, s.now);
        assert ExplainsHandler(cfg, s, a, e);
        Adds(cfg, s, a, Logged(s.(codes := rest, granted := s.granted[access := |s.log|],
                                     tokens := s.tokens[access := token]), e), [e]);
      }
    } else {
      AddsNothing(cfg, s, a, s);
    }
  }

  // ----- events, timers, the purge, the panel -----

  lemma PurgeAccounts(cfg: Config, s: State)
    ensures Accounts(cfg, s, OnPurge, Purge(cfg, s))
  {
    var e := Purged(OverdueIds(cfg, s.now, s.logins, s.pending), StaleCodes(s.now, s.codes),
                    DeadTokens(s.now, s.tokens), s.now);
    assert ExplainsOutside(cfg, s, OnPurge, e);
    Adds(cfg, s, OnPurge, Purge(cfg, s), [e]);
  }

  lemma HaActionAccounts(cfg: Config, s: State, text: string)
    ensures Accounts(cfg, s, OnHaAction(text), HaAction(s, text))
  {
    var a, s' := OnHaAction(text), HaAction(s, text);
    if s' == s {
      AddsNothing(cfg, s, a, s');
    } else {
      var (rid, verdict) := ActionRegistry.Parse(text).value;
      ActionRegistry.ParseInvertsActionName(text, rid, verdict);
      var e := Tapped(text, rid, verdict, s.registry[rid]);
      assert ExplainsOutside(cfg, s, a, e);
      Adds(cfg, s, a, s', [e]);
    }
  }

  lemma UnblockAccounts(cfg: Config, s: State, pair: Blocks.Pair)
    ensures Accounts(cfg, s, OnUnblock(pair), Unblock(cfg, s, pair))
  {
    var e := Unblocked(pair, s.now);
    assert ExplainsOutside(cfg, s, OnUnblock(pair), e);
    AddsWrite(cfg, s, OnUnblock(pair), Unblock(cfg, s, pair), e, pair, Blocks.Unblock(s.now));
  }

  // ----- tasks -----

  lemma BeginAccounts(cfg: Config, s: State, tid: nat, rid: Id, targets: seq<string>, answer: Answer)
    ensures Accounts(cfg, s, OnTask(tid, answer), BeginAttempt(s, tid, rid, targets))
  {
    var s' := BeginAttempt(s, tid, rid, targets);
    if rid in s.pending && rid in s.logins {
      var e := AttemptBegan(rid, tid, s.logins[rid].attempt + 1);
      assert ExplainsTask(s, OnTask(tid, answer), e);
      Adds(cfg, s, OnTask(tid, answer), s', [e]);
    } else {
      AddsNothing(cfg, s, OnTask(tid, answer), s');
    }
  }

  lemma StartAccounts(cfg: Config, s: State, tid: nat, answer: Answer)
    requires tid in s.tasks && IsStart(s.tasks[tid])
    ensures Accounts(cfg, s, OnTask(tid, answer), StartStep(cfg, s, tid, s.tasks[tid], answer))
  {
    var t, a := s.tasks[tid], OnTask(tid, answer);
    if t.rid in s.logins && t.StartLookup? && answer.targets != [] {
      var l := s.logins[t.rid].(email := Some(t.address), account := Some(cfg.normalize(t.address)));
      ResolvedAccounts(cfg, s, tid, t.rid, l, answer);
    } else {
      AddsNothing(cfg, s, a, StartStep(cfg, s, tid, t, answer));
    }
  }

  lemma ResolvedAccounts(cfg: Config, s: State, tid: nat, rid: Id, l: Login, answer: Answer)
    requires tid in s.tasks && s.tasks[tid].StartLookup? && s.tasks[tid].rid == rid
    ensures var named := Logged(WithLogin(s, rid, l), AccountResolved(rid, s.tasks[tid].address));
            Accounts(cfg, s, OnTask(tid, answer), BeginAttempt(named, tid, rid, answer.targets))
  {
    var a, e := OnTask(tid, answer), AccountResolved(rid, s.tasks[tid].address);
    var named := Logged(WithLogin(s, rid, l), e);
    var s' := BeginAttempt(named, tid, rid, answer.targets);
    BeginAdds(named, tid, rid, answer.targets);
    assert ExplainsTask(s, a, e);
    if rid in s.pending {
      var began := AttemptBegan(rid, tid, named.logins[rid].attempt + 1);
      assert ExplainsTask(s, a, began);
      assert s.log + [e] + [began] == s.log + [e, began];
      Adds(cfg, s, a, s', [e, began]);
    } else {
      Adds(cfg, s, a, s', [e]);
    }
  }

  lemma BeginAdds(s: State, tid: nat, rid: Id, targets: seq<string>)
    requires rid in s.logins
    ensures BeginAttempt(s, tid, rid, targets).blocks == s.blocks
    ensures rid !in s.pending ==> BeginAttempt(s, tid, rid, targets).log == s.log
    ensures rid in s.pending ==>
              BeginAttempt(s, tid, rid, targets).log == s.log + [AttemptBegan(rid, tid, s.logins[rid].attempt + 1)]
  {
    var n := s.logins[rid].attempt + 1;
    var begun := WithTask(WithLogin(s, rid, s.logins[rid].(attempt := n)), tid,
                          AttemptBlockCheck(rid, n, Owner(s.logins[rid]), targets));
    assert begun.log == s.log && begun.blocks == s.blocks;
    if rid in s.pending {
      assert BeginAttempt(s, tid, rid, targets) == Logged(begun, AttemptBegan(rid, tid, n));
    }
  }

  lemma ConcludeAccounts(cfg: Config, s: State, left: State, tid: nat, t: Task, outcome: Status, tapped: nat,
                         answer: Answer)
    requires left == s.(registry := left.registry) && IsNumbered(t) && IsOutcome(outcome)
    ensures Accounts(cfg, s, OnTask(tid, answer), Conclude(left, tid, t.rid, t.n, t.account, outcome, tapped))
  {
    if !IsCurrent(left, t.rid, t.n) {
      AddsNothing(cfg, s, OnTask(tid, answer), WithTask(left, tid, Done));
    } else {
      var kept, l := Kept(t.rid, tid, t.n, t.account, outcome, tapped), left.logins[t.rid];
      var l' := l.(status := outcome, approved := if outcome == Approved then |left.log| else l.approved);
      WrittenAccounts(cfg, s, left, tid, t.rid, l', kept, answer);
      ConcludesSo(left, tid, t.rid, l', kept);
    }
  }

  /** The state a written outcome leads to: on to be recorded, or filed at once. */
  function WrittenSo(left: State, tid: nat, rid: Id, l: Login, kept: Event): State
    requires rid in left.logins && kept.Kept?
  {
    var written := Logged(WithLogin(left, rid, l), kept);
    if kept.outcome == Approved || kept.outcome == Rejected
    then WithTask(written, tid, AttemptRecord(rid, kept.n, kept.account, |left.log|, kept.outcome == Approved))
    else WithTask(FileOutcome(written, tid, rid, kept.account, |left.log|), tid, Done)
  }

  lemma ConcludesSo(left: State, tid: nat, rid: Id, l: Login, kept: Event)
    requires kept.Kept? && kept.rid == rid && kept.tid == tid && IsOutcome(kept.outcome) && IsCurrent(left, rid, kept.n)
    requires var was := left.logins[rid];
             l == was.(status := kept.outcome,
                       approved := if kept.outcome == Approved then |left.log| else was.approved)
    ensures Conclude(left, tid, rid, kept.n, kept.account, kept.outcome, kept.tapped)
            == WrittenSo(left, tid, rid, l, kept)
  {
  }

  lemma WrittenAccounts(cfg: Config, s: State, left: State, tid: nat, rid: Id, l: Login, kept: Event, answer: Answer)
    requires left == s.(registry := left.registry) && rid in left.logins
    requires kept.Kept? && kept.rid == rid && kept.tid == tid && IsOutcome(kept.outcome) && l.status == kept.outcome
    ensures Accounts(cfg, s, OnTask(tid, answer), WrittenSo(left, tid, rid, l, kept))
  {
    var a, written := OnTask(tid, answer), Logged(WithLogin(left, rid, l), kept);
    assert ExplainsTask(s, a, kept);
    if kept.outcome == Approved || kept.outcome == Rejected {
      var next := AttemptRecord(rid, kept.n, kept.account, |left.log|, kept.outcome == Approved);
      Adds(cfg, s, a, WithTask(written, tid, next), [kept]);
    } else {
      RowAccounts(cfg, s, written, tid, kept, AuditRow(kept.account, rid, Ended(l.status), l.ip), answer);
    }
  }

  lemma RowAccounts(cfg: Config, s: State, written: State, tid: nat, kept: Event, row: AuditRow, answer: Answer)
    requires written.log == s.log + [kept] && written.blocks == s.blocks && kept.Kept? && kept.tid == tid
    ensures Accounts(cfg, s, OnTask(tid, answer), WithTask(Filing(written, tid, row, Some(|s.log|)), tid, Done))
  {
    var a, filed := OnTask(tid, answer), Filed(tid, row, Some(|s.log|));
    assert ExplainsTask(s, a, kept) && ExplainsTask(s, a, filed);
    Regroup(s.log, [kept], [filed]);
    Adds(cfg, s, a, WithTask(Filing(written, tid, row, Some(|s.log|)), tid, Done), [kept] + [filed]);
  }

  lemma BlockCheckAccounts(cfg: Config, s: State, tid: nat, answer: Answer)
    requires tid in s.tasks && s.tasks[tid].AttemptBlockCheck?
    ensures Accounts(cfg, s, OnTask(tid, answer), BlockCheckStep(s, tid, s.tasks[tid]))
  {
    var t, a, s' := s.tasks[tid], OnTask(tid, answer), BlockCheckStep(s, tid, s.tasks[tid]);
    if t.rid in s.logins && Blocks.RowBlocks(Blocks.Get(s.blocks, (t.account, s.logins[t.rid].ip))) {
      var e := Filed(tid, AuditRow(t.account, t.rid, WasBlocked, s.logins[t.rid].ip), None);
      assert ExplainsTask(s, a, e);
      Adds(cfg, s, a, s', [e]);
    } else {
      AddsNothing(cfg, s, a, s');
    }
  }

  lemma NotifyAccounts(cfg: Config, s: State, tid: nat, answer: Answer)
    requires tid in s.tasks && s.tasks[tid].AttemptNotify?
    ensures Accounts(cfg, s, OnTask(tid, answer), NotifyStep(cfg, s, tid, s.tasks[tid], answer))
  {
    var t := s.tasks[tid];
    if answer.sends.None? || (|answer.sends.value| == |t.targets| && true !in answer.sends.value) {
      ConcludeAccounts(cfg, s, s, tid, t, SendFailed, 0, answer);
    } else {
      AddsNothing(cfg, s, OnTask(tid, answer), NotifyStep(cfg, s, tid, t, answer));
    }
  }

  lemma WaitAccounts(cfg: Config, s: State, tid: nat, answer: Answer)
    requires tid in s.tasks && s.tasks[tid].AttemptWait?
    ensures Accounts(cfg, s, OnTask(tid, answer), WaitStep(s, tid, s.tasks[tid]))
  {
    var t := s.tasks[tid];
    if t.fut.Unset? && !t.expired {
      AddsNothing(cfg, s, OnTask(tid, answer), s);
    } else {
      WaitConcludes(s, tid, t);
      ConcludeAccounts(cfg, s, s.(registry := Deregistered(s.registry, t.rid, tid)), tid, t,
                       WaitOutcome(t).0, WaitOutcome(t).1, answer);
    }
  }

  lemma WriteAccounts(cfg: Config, s: State, tid: nat, pair: Blocks.Pair, success: bool, why: nat,
                       next: Task, answer: Answer)
    requires why < |s.log| && (success <==> VerdictOp(s.log[why], s.now).Success?)
    ensures Accounts(cfg, s, OnTask(tid, answer), WithTask(BlockWrite(cfg, s, tid, pair, success, why), tid, next))
  {
    var e, op := BlockWritten(tid, pair, success, why, s.now), VerdictOp(s.log[why], s.now);
    assert ExplainsTask(s, OnTask(tid, answer), e);
    AddsWrite(cfg, s, OnTask(tid, answer), WithTask(BlockWrite(cfg, s, tid, pair, success, why), tid, next),
             e, pair, op);
  }

  lemma FileAccounts(cfg: Config, s: State, tid: nat, rid: Id, account: string, kept: nat, answer: Answer)
    requires rid in s.logins
    ensures Accounts(cfg, s, OnTask(tid, answer), WithTask(FileOutcome(s, tid, rid, account, kept), tid, Done))
  {
    var l, a := s.logins[rid], OnTask(tid, answer);
    var s' := WithTask(FileOutcome(s, tid, rid, account, kept), tid, Done);
    if IsOutcome(l.status) {
      var e := Filed(tid, AuditRow(account, rid, Ended(l.status), l.ip), Some(kept));
      assert ExplainsTask(s, a, e);
      Adds(cfg, s, a, s', [e]);
    } else {
      AddsNothing(cfg, s, a, s');
    }
  }

  lemma AttemptAccounts(cfg: Config, s: State, tid: nat, answer: Answer)
    requires Inv(cfg, s) && tid in s.tasks && (s.tasks[tid].AttemptNew? || IsNumbered(s.tasks[tid]))
    ensures Accounts(cfg, s, OnTask(tid, answer), AttemptStep(cfg, s, tid, s.tasks[tid], answer))
  {
    assert TaskAt(s.log, s.logins, s.tasks, tid);
    match s.tasks[tid]
    case AttemptNew(rid, targets) => BeginAccounts(cfg, s, tid, rid, targets, answer);
    case AttemptBlockCheck(_, _, _, _) => BlockCheckAccounts(cfg, s, tid, answer);
    case AttemptNotify(_, _, _, _) => NotifyAccounts(cfg, s, tid, answer);
    case AttemptWait(_, _, _, _, _, _) => WaitAccounts(cfg, s, tid, answer);
    case AttemptRecord(rid, n, account, kept, success) =>
      WriteAccounts(cfg, s, tid, (account, s.logins[rid].ip), success, kept,
                    AttemptFile(rid, n, account, kept), answer);
    case AttemptFile(rid, n, account, kept) => FileAccounts(cfg, s, tid, rid, account, kept, answer);
  }

  lemma FinishAccounts(cfg: Config, s: State, tid: nat, answer: Answer)
    requires tid in s.tasks && s.tasks[tid].CodeFinish? && s.tasks[tid].rid in s.logins
    ensures Accounts(cfg, s, OnTask(tid, answer), CodeStep(cfg, s, tid, s.tasks[tid]))
  {
    var t, s' := s.tasks[tid], CodeStep(cfg, s, tid, s.tasks[tid]);
    var e := RecoveryApproved(t.rid, tid, t.account, t.accepted);
    assert s'.log == s.log + [e];
    OneTaskEvent(cfg, s, s', tid, e, answer);
  }

  lemma OneTaskEvent(cfg: Config, s: State, s': State, tid: nat, e: Event, answer: Answer)
    requires s'.log == s.log + [e] && s'.blocks == s.blocks && !IsBlockEvent(e)
    requires ExplainsTask(s, OnTask(tid, answer), e)
    ensures Accounts(cfg, s, OnTask(tid, answer), s')
  {
    Adds(cfg, s, OnTask(tid, answer), s', [e]);
  }

  lemma CodeAccounts(cfg: Config, s: State, tid: nat, answer: Answer)
    requires Inv(cfg, s) && tid in s.tasks && IsCode(s.tasks[tid])
    ensures Accounts(cfg, s, OnTask(tid, answer), CodeStep(cfg, s, tid, s.tasks[tid]))
  {
    var t := s.tasks[tid];
    CodeTask(s, tid);
    match t
    case CodeWrong(rid, account, ip, refused) =>
      WriteAccounts(cfg, s, tid, (account, ip), false, refused, Done, answer);
    case CodeRight(rid, account, ip, accepted) =>
      WriteAccounts(cfg, s, tid, (account, ip), true, accepted, CodeFile(rid, account, ip, accepted), answer);
    case CodeFile(rid, account, ip, accepted) =>
      var row := AuditRow(account, rid, RecoveryCodeUsed, ip);
      OneTaskEvent(cfg, s, WithTask(Filing(s, tid, row, Some(accepted)), tid, CodeFinish(rid, account, accepted)), tid,
                   Filed(tid, row, Some(accepted)), answer);
    case CodeFinish(rid, account, accepted) => FinishAccounts(cfg, s, tid, answer);
    case _ => CheckAccounts(cfg, s, tid, answer);
  }

  lemma CheckAccounts(cfg: Config, s: State, tid: nat, answer: Answer)
    requires tid in s.tasks
    requires s.tasks[tid].CodeBlockCheck? || s.tasks[tid].CodeReadGeneration? || s.tasks[tid].CodeReadRows?
             || s.tasks[tid].CodeHash?
    requires s.tasks[tid].rid in s.logins
    ensures Accounts(cfg, s, OnTask(tid, answer), CodeStep(cfg, s, tid, s.tasks[tid]))
  {
    var t := s.tasks[tid];
    if t.CodeHash? && Recovery.Match(t.candidates, t.code).Some? {
      AcceptAccounts(cfg, s, tid, t, Recovery.Match(t.candidates, t.code).value, answer);
    } else if t.CodeHash? || (t.CodeReadGeneration? && Recovery.Current(s.recovery, t.account).None?) {
      RefuseAccounts(cfg, s, tid, t, answer);
    } else {
      AddsNothing(cfg, s, OnTask(tid, answer), CodeStep(cfg, s, tid, t));
    }
  }

  lemma AcceptAccounts(cfg: Config, s: State, tid: nat, t: Task, row: nat, answer: Answer)
    requires t.CodeHash?
    ensures Accounts(cfg, s, OnTask(tid, answer),
                     Logged(WithTask(s.(recovery := Recovery.Spend(s.recovery, row)), tid,
                                     CodeRight(t.rid, t.account, t.ip, |s.log|)),
                            CodeAccepted(t.rid, tid, t.account, t.ip, row, t.code)))
  {
    var moved := WithTask(s.(recovery := Recovery.Spend(s.recovery, row)), tid,
                          CodeRight(t.rid, t.account, t.ip, |s.log|));
    var e := CodeAccepted(t.rid, tid, t.account, t.ip, row, t.code);
    OneTaskEvent(cfg, s, Logged(moved, e), tid, e, answer);
  }

  lemma RefuseAccounts(cfg: Config, s: State, tid: nat, t: Task, answer: Answer)
    requires t.CodeHash? || t.CodeReadGeneration?
    ensures Accounts(cfg, s, OnTask(tid, answer), Refusing(s, tid, t.rid, t.account, t.ip, t.code))
  {
    OneTaskEvent(cfg, s, Refusing(s, tid, t.rid, t.account, t.ip, t.code), tid,
                 CodeRefused(t.rid, tid, t.account, t.ip, t.code), answer);
  }

  lemma TaskStepAccounts(cfg: Config, s: State, tid: nat, answer: Answer)
    requires Inv(cfg, s)
    ensures Accounts(cfg, s, OnTask(tid, answer), TaskStep(cfg, s, tid, answer))
  {
    if tid !in s.tasks || s.tasks[tid].Done? {
      AddsNothing(cfg, s, OnTask(tid, answer), s);
    } else if IsStart(s.tasks[tid]) {
      StartAccounts(cfg, s, tid, answer);
    } else if s.tasks[tid].RetryLookup? {
      AddsNothing(cfg, s, OnTask(tid, answer), TaskStep(cfg, s, tid, answer));
    } else if s.tasks[tid].AttemptNew? || IsNumbered(s.tasks[tid]) {
      AttemptAccounts(cfg, s, tid, answer);
    } else {
      CodeAccounts(cfg, s, tid, answer);
    }
  }

  // ----- every step -----

  lemma NextAccounts(cfg: Config, s: State, a: Action)
    requires Inv(cfg, s)
    ensures Accounts(cfg, s, a, Next(cfg, s, a))
  {
    match a
    case OnAuthorize(request, rid, tid) => AuthorizeAccounts(cfg, s, request, rid, tid);
    case OnEmail(rid, address, tid) => EmailAccounts(cfg, s, rid, address, tid);
    case OnRecovery(rid, code, ip, tid) => RecoveryAccounts(cfg, s, rid, code, ip, tid);
    case OnComplete(rid, code) => CompleteAccounts(cfg, s, rid, code);
    case OnFail(rid) => FailAccounts(cfg, s, rid);
    case OnToken(request, access) => TokenAccounts(cfg, s, request, access);
    case OnPurge => PurgeAccounts(cfg, s);
    case OnHaAction(text) => HaActionAccounts(cfg, s, text);
    case OnTask(tid, answer) => TaskStepAccounts(cfg, s, tid, answer);
    case OnUnblock(pair) => UnblockAccounts(cfg, s, pair);
    case _ => QuietAccounts(cfg, s, a);
  }

  lemma QuietAccounts(cfg: Config, s: State, a: Action)
    requires a.Tick? || a.OnRetry? || a.OnTimer? || a.OnBatch?
    ensures Accounts(cfg, s, a, Next(cfg, s, a))
  {
    AddsNothing(cfg, s, a, Next(cfg, s, a));
  }
}
