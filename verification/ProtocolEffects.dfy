/** Each handler's effect on the dicts, in the terms of the request that came in and of
    what was stored, and without the functions that compute it. */
module ProtocolEffects {
  import opened Options
  import opened LoginProtocol
  import opened ProtocolInvariants
  import opened ProtocolSteps
  import opened ProtocolRuns
  import opened ProtocolCauses
  import opened ProtocolTables
  import opened ProtocolTableSteps
  import opened ProtocolTheorems
  import Base64Url
  import Window = AttemptWindow

  // ----- /authorize -----

  /** The dict of a request as it came in, with nothing in any other's place. */
  predicate OpenedAs(l: Login, r: AuthorizeRequest, now: real) {
    && l.clientId == r.clientId && l.redirectUri == r.redirectUri && l.nonce == r.nonce && l.challenge == r.challenge
    && l.ip == r.ip && l.createdAt == now && l.status == AwaitingEmail && l.email == r.loginHint
    && l.account.None? && l.waitingSince.None? && l.attempt == 0 && l.recoveryAttempts == 0
  }

  /** An admissible request is stored as it came, and with a hint its login starts at once;
      any other changes nothing. */
  predicate Opens(cfg: Config, s: State, s': State, r: AuthorizeRequest, rid: Id, tid: nat) {
    if Admissible(cfg, r) then
      && rid in s'.pending && rid in s'.logins && OpenedAs(s'.logins[rid], r, s.now)
      && s'.logins == s.logins[rid := s'.logins[rid]]
      && s'.tasks == (match r.loginHint
                      case None => s.tasks
                      case Some(hint) => if hint == "" then s.tasks else s.tasks[tid := StartNew(rid, hint)])
    else s' == s
  }

  lemma {:induction false} EvictLeaves(s: State)
    requires forall id | id in s.pending :: id in s.logins
    ensures Evict(s).logins == s.logins && Evict(s).tasks == s.tasks && Evict(s).now == s.now
    decreases |s.pending|
  {
    if |s.pending| >= MAX_PENDING {
      var oldest := Oldest(s.logins, s.pending);
      WithoutShrinks(s.pending, oldest);
      EvictLeaves(Logged(s.(pending := Without(s.pending, oldest)), Evicted(oldest)));
    }
  }

  lemma AuthorizeOpens(cfg: Config, s: State, r: AuthorizeRequest, rid: Id, tid: nat)
    requires Reachable(cfg, s) && rid !in s.logins && tid !in s.tasks
    ensures Opens(cfg, s, Authorize(cfg, s, r, rid, tid), r, rid, tid)
  {
    ReachableInv(cfg, s);
    AcceptableIsAdmissible(cfg, r);
    if Acceptable(cfg, r) {
      EvictLeaves(s);
      AdmittedOpens(Evict(s), r, rid);
    }
  }

  lemma AdmittedOpens(s: State, r: AuthorizeRequest, rid: Id)
    ensures var s' := Admitted(s, r, rid);
            && rid in s'.pending && rid in s'.logins && OpenedAs(s'.logins[rid], r, s.now)
            && s'.logins == s.logins[rid := s'.logins[rid]] && s'.tasks == s.tasks
  {
    var s' := Admitted(s, r, rid);
    assert s'.pending[|s.pending|] == rid;
  }

  // ----- /idp/email -----

  predicate TakesAddress(s: State, s': State, rid: Id, address: string, tid: nat) {
    if rid in s.pending && rid in s.logins && s.logins[rid].status == AwaitingEmail then
      && s'.logins == s.logins[rid := s.logins[rid].(status := Resolving)] && s'.pending == s.pending
      && s'.tasks == s.tasks[tid := StartNew(rid, address)]
    else s' == s
  }

  lemma EmailTakesAddress(s: State, rid: Id, address: string, tid: nat)
    requires tid !in s.tasks
    ensures TakesAddress(s, SubmitEmail(s, rid, address, tid), rid, address, tid)
  {
    if rid in s.pending && rid in s.logins && s.logins[rid].status == AwaitingEmail {
      var taken := WithTask(WithLogin(s, rid, s.logins[rid].(status := Resolving)), tid, StartNew(rid, address));
      assert SubmitEmail(s, rid, address, tid) == Logged(taken, EmailSubmitted(rid, address));
    } else {
      assert SubmitEmail(s, rid, address, tid) == s;
    }
  }

  // ----- /idp/retry and /idp/recovery -----

  /** A registered request of a known account, not approved, whose sends all failed or which
      has waited at least the unlock delay. */
  predicate Resendable(cfg: Config, s: State, rid: Id) {
    && rid in s.pending && rid in s.logins
    && var l := s.logins[rid];
    && l.status != Approved && l.account.Some?
    && (l.status == SendFailed || (l.waitingSince.Some? && s.now - l.waitingSince.value >= cfg.unlockDelay))
  }

  lemma ResendableExactlyWhen(cfg: Config, s: State, rid: Id)
    ensures MayResend(cfg, s, rid) <==> Resendable(cfg, s, rid)
  {
  }

  /** A request whose sends all failed takes a resend or a code at once, and for as long as
      that is its status, however long the unlock delay is. */
  lemma FailedSendsUnlock(cfg: Config, s: State, rid: Id, later: real)
    requires Reachable(cfg, s) && rid in s.pending && rid in s.logins && s.logins[rid].status == SendFailed
    ensures Resendable(cfg, s.(now := later), rid)
  {
    ReachableInv(cfg, s);
    assert LoginAt(cfg, s.log, s.logins, rid);
  }

  /** One that has no account yet, or was never notified and its sends have not failed,
      takes neither, however long it waits. */
  lemma NeverUnlocks(cfg: Config, s: State, rid: Id, later: real)
    requires rid in s.logins
    requires s.logins[rid].account.None? || (s.logins[rid].waitingSince.None? && s.logins[rid].status != SendFailed)
    ensures !MayResend(cfg, s.(now := later), rid)
  {
  }

  predicate Resends(cfg: Config, s: State, s': State, rid: Id, tid: nat) {
    s' == if Resendable(cfg, s, rid) then s.(tasks := s.tasks[tid := RetryLookup(rid)]) else s
  }

  lemma RetryResends(cfg: Config, s: State, rid: Id, tid: nat)
    requires tid !in s.tasks
    ensures Resends(cfg, s, Retry(cfg, s, rid, tid), rid, tid)
  {
  }

  /** A resend notifies the targets found for it, whatever an earlier attempt notified, under
      the next number; if its request is gone by then it ends. */
  lemma ResendNotifiesFound(cfg: Config, s: State, tid: nat, found: Answer, answer: Answer)
    requires tid in s.tasks && s.tasks[tid].RetryLookup? && s.tasks[tid].rid in s.logins
    ensures var rid, s' := s.tasks[tid].rid, Next(cfg, Next(cfg, s, OnTask(tid, found)), OnTask(tid, answer));
            rid in s'.logins && tid in s'.tasks
            && BegunOrOver(s.logins[rid], s'.logins[rid], rid, rid in s.pending, found.targets, s'.tasks[tid])
  {
    var rid := s.tasks[tid].rid;
    var looked := WithTask(s, tid, AttemptNew(rid, found.targets));
    assert Next(cfg, s, OnTask(tid, found)) == looked;
    NextBegins(cfg, looked, tid, answer);
    BeginsOrEnds(looked, tid, rid, found.targets);
  }

  /** What becomes of the task and of the request it is to notify for. */
  predicate BegunOrOver(l: Login, l': Login, rid: Id, registered: bool, targets: seq<string>, t: Task) {
    if registered then
      && l' == l.(attempt := l.attempt + 1)
      && t.AttemptBlockCheck? && t.rid == rid && t.n == l.attempt + 1 && t.targets == targets
      && (l.account.Some? ==> t.account == l.account.value)
    else l' == l && t == Done
  }

  lemma BeginsOrEnds(s: State, tid: nat, rid: Id, targets: seq<string>)
    requires rid in s.logins
    ensures var s' := BeginAttempt(s, tid, rid, targets);
            rid in s'.logins && tid in s'.tasks
            && BegunOrOver(s.logins[rid], s'.logins[rid], rid, rid in s.pending, targets, s'.tasks[tid])
  {
    if rid in s.pending {
      BeginIs(s, tid, rid, targets);
    } else {
      assert BeginAttempt(s, tid, rid, targets) == WithTask(s, tid, Done);
    }
  }

  lemma NextBegins(cfg: Config, s: State, tid: nat, answer: Answer)
    requires tid in s.tasks && s.tasks[tid].AttemptNew? && s.tasks[tid].rid in s.logins
    ensures Next(cfg, s, OnTask(tid, answer)) == BeginAttempt(s, tid, s.tasks[tid].rid, s.tasks[tid].targets)
  {
  }

  /** The submissions of the account in the last 300 seconds, and those of the login. */
  ghost function RecentOf(log: seq<Event>, account: string, now: real): set<nat> {
    set j: nat | j < |log| && log[j].CodeSubmitted? && log[j].account == account && now - log[j].at < 300.0
  }

  ghost function SubmissionsOf(log: seq<Event>, rid: Id): set<nat> {
    set j: nat | j < |log| && log[j].CodeSubmitted? && log[j].rid == rid
  }

  lemma StampsAppend(log: seq<Event>, e: Event, account: string)
    ensures Window.StampsOf(AttemptsOf(log + [e]), account)
         == Window.StampsOf(AttemptsOf(log), account)
            + (if e.CodeSubmitted? && e.account == account then [e.at] else [])
  {
    AttemptsAppend(log, e);
    var before, stamps := AttemptsOf(log), Window.StampsOf(AttemptsOf(log), account);
    assert before + [] == before && stamps + [] == stamps;
    if e.CodeSubmitted? {
      assert (before + [Window.Attempt(e.account, e.rid, e.at, e.passed)])[..|before|] == before;
    }
  }

  lemma RecentOfAppend(log: seq<Event>, e: Event, account: string, now: real)
    ensures |RecentOf(log + [e], account, now)|
         == |RecentOf(log, account, now)|
           + (if e.CodeSubmitted? && e.account == account && now - e.at < 300.0 then 1 else 0)
  {
    if e.CodeSubmitted? && e.account == account && now - e.at < 300.0 {
      assert RecentOf(log + [e], account, now) == RecentOf(log, account, now) + {|log|};
    } else {
      assert RecentOf(log + [e], account, now) == RecentOf(log, account, now);
    }
  }

  lemma {:induction false} RecentCounted(log: seq<Event>, account: string, now: real)
    ensures |Window.Recent(Window.StampsOf(AttemptsOf(log), account), now)| == |RecentOf(log, account, now)|
  {
    if log == [] {
      assert RecentOf(log, account, now) == {};
    } else {
      var before, e := log[..|log| - 1], log[|log| - 1];
      assert log == before + [e];
      RecentCounted(before, account, now);
      StampsAppend(before, e, account);
      RecentOfAppend(before, e, account, now);
      var stamps := Window.StampsOf(AttemptsOf(before), account);
      assert stamps + [] == stamps;
      if e.CodeSubmitted? {
        Window.RecentAppend(stamps, e.at, now);
      }
    }
  }

  lemma {:induction false} SubmissionsCounted(log: seq<Event>, rid: Id)
    ensures Window.CountOf(AttemptsOf(log), rid) == |SubmissionsOf(log, rid)|
  {
    if log == [] {
      assert SubmissionsOf(log, rid) == {};
    } else {
      var before, e := log[..|log| - 1], log[|log| - 1];
      SubmissionsCounted(before, rid);
      assert log == before + [e];
      AttemptsAppend(before, e);
      if e.CodeSubmitted? {
        var all := AttemptsOf(before) + [Window.Attempt(e.account, e.rid, e.at, e.passed)];
        assert all[..|all| - 1] == AttemptsOf(before);
      } else {
        assert AttemptsOf(before) + [] == AttemptsOf(before);
      }
      if e.CodeSubmitted? && e.rid == rid {
        assert SubmissionsOf(log, rid) == SubmissionsOf(before, rid) + {|before|};
      } else {
        assert SubmissionsOf(log, rid) == SubmissionsOf(before, rid);
      }
    }
  }

  /** Nine submissions of the account in the window may precede one that is let through, and
      four of the login; refused ones count like the others. */
  ghost predicate LetThrough(s: State, rid: Id, account: string) {
    |RecentOf(s.log, account, s.now)| < 10 && |SubmissionsOf(s.log, rid)| < 5
  }

  /** An admitted submission is noted whatever becomes of it; within the limits its check
      begins, with the code and from the address it came with. */
  ghost predicate Submits(cfg: Config, s: State, s': State, rid: Id, code: string, ip: string, tid: nat) {
    if Resendable(cfg, s, rid) then
      var account := s.logins[rid].account.value;
      var through := LetThrough(s, rid, account);
      && s'.log == s.log + [CodeSubmitted(rid, account, ip, code, s.now, through)]
      && s'.tasks == (if through then s.tasks[tid := CodeBlockCheck(rid, account, ip, code)] else s.tasks)
      && s'.pending == s.pending && s'.logins.Keys == s.logins.Keys
      && s'.logins[rid].status == s.logins[rid].status
    else s' == s
  }

  lemma RecoverySubmits(cfg: Config, s: State, rid: Id, code: string, ip: string, tid: nat)
    requires Reachable(cfg, s) && tid !in s.tasks
    ensures Submits(cfg, s, SubmitRecoveryCode(cfg, s, rid, code, ip, tid), rid, code, ip, tid)
  {
    if MayResend(cfg, s, rid) {
      LimitsCount(cfg, s, rid);
      CountedLeaves(s, rid);
      var account := s.logins[rid].account.value;
      var noted := Logged(Counted(s, rid), CodeSubmitted(rid, account, ip, code, s.now, LetThrough(s, rid, account)));
      assert SubmitRecoveryCode(cfg, s, rid, code, ip, tid)
          == if LetThrough(s, rid, account) then WithTask(noted, tid, CodeBlockCheck(rid, account, ip, code))
              else noted;
    } else {
      assert SubmitRecoveryCode(cfg, s, rid, code, ip, tid) == s;
    }
  }

  lemma CountedLeaves(s: State, rid: Id)
    requires rid in s.logins
    ensures var c := Counted(s, rid);
            c.pending == s.pending && c.tasks == s.tasks && c.log == s.log && c.logins.Keys == s.logins.Keys
            && c.logins[rid].status == s.logins[rid].status
  {
  }

  lemma LimitsCount(cfg: Config, s: State, rid: Id)
    requires Reachable(cfg, s) && rid in s.logins && s.logins[rid].account.Some?
    ensures WithinLimits(Counted(s, rid), rid) <==> LetThrough(s, rid, s.logins[rid].account.value)
  {
    ReachableTables(cfg, s);
    var account, stamps := s.logins[rid].account.value, Window.Get(s.attempts, s.logins[rid].account.value);
    var all := Window.StampsOf(AttemptsOf(s.log), account);
    assert Window.AnswersFor(s.attempts, AttemptsOf(s.log), s.now, account);
    assert Window.SameAt(stamps, all, s.now);
    RecentCounted(s.log, account, s.now);
    SubmissionsCounted(s.log, rid);
    assert CountsOf(s.logins)[rid] == Window.CountOf(AttemptsOf(s.log), rid);
  }

  // ----- /idp/complete and /idp/fail -----

  /** The request leaves `_pending`, and no other does. */
  ghost predicate Leaves(s: State, s': State, rid: Id) {
    (forall id :: id in s'.pending <==> id in s.pending && id != rid) && s'.logins == s.logins && s'.tasks == s.tasks
  }

  predicate EntryFor(e: CodeEntry, l: Login, now: real) {
    && e.clientId == l.clientId && e.redirectUri == l.redirectUri && e.nonce == l.nonce && e.challenge == l.challenge
    && e.account == l.account && e.email == l.email && e.issuedAt == now
  }

  ghost predicate Completes(s: State, s': State, rid: Id, code: string) {
    if rid in s.pending && rid in s.logins && s.logins[rid].status == Approved then
      && Leaves(s, s', rid) && code in s'.codes && EntryFor(s'.codes[code], s.logins[rid], s.now)
      && s'.codes == s.codes[code := s'.codes[code]]
    else s' == s
  }

  lemma CompleteCompletes(cfg: Config, s: State, rid: Id, code: string)
    requires Reachable(cfg, s) && code !in s.issued
    ensures Completes(s, Complete(s, rid, code), rid, code)
  {
    ReachableInv(cfg, s);
    if rid in s.pending && s.logins[rid].status == Approved {
      WithoutKeeps(s.pending, rid);
      IssuedFor(s, rid, code);
    } else {
      assert Complete(s, rid, code) == s;
    }
  }

  lemma IssuedFor(s: State, rid: Id, code: string)
    requires rid in s.pending && rid in s.logins && s.logins[rid].status == Approved && code !in s.issued
    ensures var s' := Complete(s, rid, code);
            && s'.pending == Without(s.pending, rid) && s'.logins == s.logins && s'.tasks == s.tasks
            && code in s'.codes && s'.codes == s.codes[code := s'.codes[code]]
            && EntryFor(s'.codes[code], s.logins[rid], s.now)
  {
  }

  ghost predicate Fails(s: State, s': State, rid: Id) {
    if rid in s.pending && rid in s.logins && s.logins[rid].status in {Rejected, TimedOut, Denied, SendFailed}
    then Leaves(s, s', rid) && s'.codes == s.codes
    else s' == s
  }

  lemma FailFails(cfg: Config, s: State, rid: Id)
    requires Reachable(cfg, s)
    ensures Fails(s, Fail(s, rid), rid)
  {
    ReachableInv(cfg, s);
    if rid in s.pending {
      WithoutKeeps(s.pending, rid);
      var left := Logged(s.(pending := Without(s.pending, rid)), Failed(rid));
      assert Leaves(s, left, rid);
      assert Fail(s, rid) == if IsFailure(s.logins[rid].status) then left else s;
    }
  }

  // ----- /token -----

  /** In time, and for the redirect URI of its request unless none was named. */
  predicate InTime(entry: CodeEntry, now: real, r: TokenRequest) {
    now - entry.issuedAt <= 60.0 && (r.redirectUri.Some? ==> r.redirectUri.value == entry.redirectUri)
  }

  /** RFC 7636, section 4.6: the challenge is the base64url text of the verifier's digest. */
  predicate Verified(cfg: Config, challenge: Option<string>, verifier: Option<string>) {
    challenge.Some? ==>
      verifier.Some? && verifier.value != "" && challenge.value == Base64Url.Encode(cfg.sha256(verifier.value))
  }

  predicate Earns(cfg: Config, s: State, r: TokenRequest) {
    && FromClient(cfg, r) && r.code in s.codes && InTime(s.codes[r.code], s.now, r)
    && Verified(cfg, s.codes[r.code].challenge, r.verifier)
  }

  /** A code presented by the client is gone, earned or not; the token is of its entry. */
  predicate Serves(cfg: Config, s: State, s': State, r: TokenRequest, access: string) {
    if FromClient(cfg, r) && r.code in s.codes then
      var e := s.codes[r.code];
      && s'.codes == s.codes - {r.code} && s'.pending == s.pending && s'.logins == s.logins
      && s'.tokens == (if Earns(cfg, s, r) then s.tokens[access := TokenEntry(e.account, e.email, s.now)] else s.tokens)
    else s' == s
  }

  lemma TokenServes(cfg: Config, s: State, r: TokenRequest, access: string)
    requires access !in s.granted
    ensures Serves(cfg, s, Token(cfg, s, r, access), r, access)
    ensures FromClient(cfg, r) && r.code in s.codes ==>
              (EntryOk(cfg, s.now, s.codes[r.code], r) <==> Earns(cfg, s, r))
  {
    if FromClient(cfg, r) && r.code in s.codes {
      if EntryOk(cfg, s.now, s.codes[r.code], r) {
        TokenEarned(cfg, s, r, access);
      } else {
        TokenRefused(cfg, s, r, access);
      }
    }
  }

  lemma TokenEarned(cfg: Config, s: State, r: TokenRequest, access: string)
    requires access !in s.granted && ClientOk(cfg, r) && r.code in s.codes && EntryOk(cfg, s.now, s.codes[r.code], r)
    ensures var e, s' := s.codes[r.code], Token(cfg, s, r, access);
            && s'.codes == s.codes - {r.code} && s'.pending == s.pending && s'.logins == s.logins
            && s'.tokens == s.tokens[access := TokenEntry(e.account, e.email, s.now)]
  {
  }

  lemma TokenRefused(cfg: Config, s: State, r: TokenRequest, access: string)
    requires access !in s.granted && ClientOk(cfg, r) && r.code in s.codes && !EntryOk(cfg, s.now, s.codes[r.code], r)
    ensures Token(cfg, s, r, access) == Logged(s.(codes := s.codes - {r.code}), Spent(r.code))
  {
  }

  /** Of a code whose request had the digest of `secret` as its challenge, presented in time
      by the client: it earns a token exactly with a verifier of that digest. Of a request
      without a challenge it earns one with any, or none. */
  lemma EarnsExactlyWhen(cfg: Config, s: State, r: TokenRequest, secret: string)
    requires FromClient(cfg, r) && r.code in s.codes && InTime(s.codes[r.code], s.now, r)
    ensures s.codes[r.code].challenge.None? ==> Earns(cfg, s, r)
    ensures s.codes[r.code].challenge == Some(Base64Url.Encode(cfg.sha256(secret))) ==>
              (Earns(cfg, s, r)
               <==> r.verifier.Some? && r.verifier.value != "" && cfg.sha256(r.verifier.value) == cfg.sha256(secret))
  {
    if r.verifier.Some? {
      Base64Url.EncodeInjective(cfg.sha256(r.verifier.value), cfg.sha256(secret));
    }
  }

  // ----- the purge -----

  predicate InSameOrder(kept: seq<Id>, all: seq<Id>) {
    forall i, j | 0 <= i < j < |kept| :: exists k, l :: 0 <= k < l < |all| && all[k] == kept[i] && all[l] == kept[j]
  }

  lemma {:induction false} NotOverdueInOrder(cfg: Config, s: State, ids: seq<Id>)
    ensures InSameOrder(NotOverdue(cfg, s, ids), ids)
    ensures forall id | id in NotOverdue(cfg, s, ids) :: id in ids
  {
    if ids != [] {
      var rest := ids[1..];
      NotOverdueInOrder(cfg, s, rest);
      var kept, tail := NotOverdue(cfg, s, ids), NotOverdue(cfg, s, rest);
      var shift := |kept| - |tail|;
      forall i, j | 0 <= i < j < |kept|
        ensures exists k, l :: 0 <= k < l < |ids| && ids[k] == kept[i] && ids[l] == kept[j]
      {
        if shift == 1 && i == 0 {
          assert kept[j] == tail[j - 1] && tail[j - 1] in tail;
          var l :| 0 <= l < |rest| && rest[l] == kept[j];
          assert ids[0] == kept[0] && ids[l + 1] == kept[j];
        } else {
          assert kept[i] == tail[i - shift] && kept[j] == tail[j - shift];
          var k, l :| 0 <= k < l < |rest| && rest[k] == tail[i - shift] && rest[l] == tail[j - shift];
          assert ids[k + 1] == kept[i] && ids[l + 1] == kept[j];
        }
      }
    }
  }

  /** Requests past the login timeout go, the others stay in their order; codes older than a
      minute and tokens older than five go, the others stay. */
  ghost predicate Purges(cfg: Config, s: State, s': State) {
    && (forall id :: id in s'.pending <==>
          id in s.pending && id in s.logins && s.now - s.logins[id].createdAt <= cfg.loginTimeout)
    && InSameOrder(s'.pending, s.pending) && s'.logins == s.logins && s'.tasks == s.tasks
    && (forall c :: c in s'.codes <==> c in s.codes && s.now - s.codes[c].issuedAt <= 60.0)
    && (forall c | c in s'.codes :: s'.codes[c] == s.codes[c])
    && (forall t :: t in s'.tokens <==> t in s.tokens && s.now - s.tokens[t].issuedAt <= 300.0)
    && (forall t | t in s'.tokens :: s'.tokens[t] == s.tokens[t])
  }

  lemma PurgePurges(cfg: Config, s: State)
    requires Reachable(cfg, s)
    ensures Purges(cfg, s, LoginProtocol.Purge(cfg, s))
  {
    ReachableInv(cfg, s);
    NotOverdueKeeps(cfg, s, s.pending);
    NotOverdueInOrder(cfg, s, s.pending);
  }

  // ----- timers -----

  /** A timer expires exactly a wait whose deadline has come: an unset future is cancelled,
      a resolved one is left as it is. */
  lemma TimerExpiresExactlyWhen(cfg: Config, s: State, tid: nat)
    requires tid in s.tasks
    ensures var t := s.tasks[tid];
            Next(cfg, s, OnTimer(tid))
            == if t.AttemptWait? && s.now >= t.deadline
               then s.(tasks := s.tasks[tid := t.(expired := true, fut := if t.fut.Unset? then Cancelled else t.fut)])
               else s
  {
  }
}
