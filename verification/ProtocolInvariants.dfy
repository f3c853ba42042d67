/** What every reachable state of the login protocol satisfies. `Inv` has one conjunct for
    each part of the state: the history (`EventOk`), the requests (`LoginOk`), the tasks
    (`TaskOk` and, between two of them, `Apart`), the registry of futures, `_pending` and
    `_auth_codes`. Each is a quantified predicate over a named instance (`LoginAt`,
    `TaskAt`, ...), which a proof asserts where it needs that instance. `MoveKeepsInv` at
    the end is the frame that nearly every step uses. */
module ProtocolInvariants {
  import opened Options
  import opened LoginProtocol
  import ActionRegistry

  // ----- reading the history -----

  /** The requests an event takes out of `_pending`. */
  function Exits(e: Event): set<Id> {
    match e
    case Completed(rid, _, _, _, _, _) => {rid}
    case Failed(rid) => {rid}
    case Evicted(rid) => {rid}
    case Purged(requests, _, _, _) => requests
    case _ => {}
  }

  /** The authorization codes an event takes out of `_auth_codes`. */
  function Spends(e: Event): set<string> {
    match e
    case Spent(code) => {code}
    case Redeemed(code, _, _, _, _, _) => {code}
    case Purged(_, codes, _, _) => codes
    case _ => {}
  }

  predicate Began(log: seq<Event>, rid: Id, tid: nat, n: nat) {
    AttemptBegan(rid, tid, n) in log
  }

  /** Event k is the approve or reject action of this very request, resolving the future
      of task `tid`. */
  predicate TapAt(log: seq<Event>, k: nat, rid: Id, tid: nat, verdict: bool) {
    k < |log| && log[k] == Tapped(ActionRegistry.ActionName(rid, verdict), rid, verdict, tid)
  }

  predicate KeptAt(log: seq<Event>, k: nat, rid: Id, tid: nat, account: string) {
    k < |log| && log[k].Kept? && log[k].rid == rid && log[k].tid == tid && log[k].account == account
  }

  predicate CodeAcceptedAt(log: seq<Event>, k: nat, rid: Id, tid: nat, account: string) {
    k < |log| && log[k].CodeAccepted? && log[k].rid == rid && log[k].tid == tid && log[k].account == account
  }

  predicate CodeRefusedAt(log: seq<Event>, k: nat, rid: Id, tid: nat, account: string) {
    k < |log| && log[k].CodeRefused? && log[k].rid == rid && log[k].tid == tid && log[k].account == account
  }

  /** A block write rests on a verdict of the same task and account: an approval or an
      accepted code is a success, a rejection or a refused code a failure. */
  predicate WriteRests(log: seq<Event>, tid: nat, pair: (string, string), success: bool, cause: nat) {
    cause < |log| && var why := log[cause];
    && (why.Kept? || why.CodeAccepted? || why.CodeRefused?) && why.tid == tid && why.account == pair.0
    && (why.Kept? ==> why.outcome == if success then Approved else Rejected)
    && (why.CodeAccepted? ==> success) && (why.CodeRefused? ==> !success)
  }

  /** Event k approved the request: a kept tap, or a recovery code. */
  predicate ApprovalAt(log: seq<Event>, k: nat, rid: Id) {
    k < |log| && (log[k].Kept? || log[k].RecoveryApproved?) && log[k].rid == rid
    && (log[k].Kept? ==> log[k].outcome == Approved)
  }

  predicate AuthorizedAt(log: seq<Event>, k: nat, rid: Id, c: CodeEntry, hint: string) {
    k < |log| && log[k].Authorized? && log[k].rid == rid && log[k].clientId == c.clientId
    && log[k].redirectUri == c.redirectUri && log[k].nonce == c.nonce && log[k].challenge == c.challenge
    && log[k].hint == hint
  }

  /** Event j took away nothing that event i takes away. */
  ghost predicate TakesOther(log: seq<Event>, i: nat, j: nat)
    requires j < |log| && i < |log|
  {
    Exits(log[i]) !! Exits(log[j]) && Spends(log[i]) !! Spends(log[j])
  }

  /** At event j the request was still registered and no attempt after number n began. */
  ghost predicate StillCurrent(log: seq<Event>, j: nat, rid: Id, n: nat)
    requires j < |log|
  {
    rid !in Exits(log[j]) && NumberAt(log, j, rid, n)
  }

  ghost predicate NumberAt(log: seq<Event>, j: nat, rid: Id, n: nat)
    requires j < |log|
  {
    log[j].AttemptBegan? && log[j].rid == rid ==> log[j].n <= n
  }

  ghost predicate UnsentAt(log: seq<Event>, j: nat, rid: Id)
    requires j < |log|
  {
    !(log[j].EmailSubmitted? && log[j].rid == rid)
  }

  ghost predicate OtherCode(log: seq<Event>, j: nat, code: string)
    requires j < |log|
  {
    log[j].Completed? ==> log[j].code != code
  }

  /** Nothing earlier in the history took away what event i takes away, and event i
      rests on the earlier events it names. */
  ghost predicate EventOk(cfg: Config, log: seq<Event>, i: nat)
    requires i < |log|
  {
    && (forall j | 0 <= j < i :: TakesOther(log, i, j))
    && match log[i]
       case EmailSubmitted(rid, _) => forall j | 0 <= j < i :: UnsentAt(log, j, rid)
       case Kept(rid, tid, n, account, outcome, tapped) =>
         && IsOutcome(outcome) && Began(log[..i], rid, tid, n)
         && (outcome == Approved || outcome == Rejected ==> TapAt(log[..i], tapped, rid, tid, outcome == Approved))
         && (forall j | 0 <= j < i :: StillCurrent(log, j, rid, n))
       case RecoveryApproved(rid, tid, account, accepted) =>
         CodeAcceptedAt(log[..i], accepted, rid, tid, account)
       case BlockWritten(tid, pair, success, cause, _) => WriteRests(log[..i], tid, pair, success, cause)
       case Filed(tid, row, cause) => (
         match cause
         case None => row.kind == WasBlocked
         case Some(k) =>
           k < i && (log[k].Kept? || log[k].CodeAccepted?) && log[k].tid == tid && log[k].rid == row.rid
           && log[k].account == row.account
           && (if log[k].Kept? then row.kind.Ended? else row.kind == RecoveryCodeUsed))
       case Completed(rid, code, at, authorized, approved, entry) =>
         && ApprovalAt(log[..i], approved, rid)
         && entry.email.Some? && entry.account == Some(cfg.normalize(entry.email.value))
         && authorized < i && log[authorized].Authorized?
         && AuthorizedAt(log[..i], authorized, rid, entry, log[authorized].hint)
         && entry.issuedAt == at && entry.completed == i
         && (forall j | 0 <= j < i :: OtherCode(log, j, code))
       case Redeemed(code, _, at, completed, verifier, claims) =>
         && completed < i && log[completed].Completed? && log[completed].code == code
         && 0.0 <= at - log[completed].at <= AUTH_CODE_TTL
         && (var c := log[completed].entry;
             claims == Claims(c.account, c.email, c.clientId, c.nonce) && PkceOk(cfg, c.challenge, verifier))
       case _ => true
  }

  ghost predicate LogOk(cfg: Config, log: seq<Event>) {
    forall i | 0 <= i < |log| :: EventOk(cfg, log, i)
  }

  // ----- requests -----

  ghost predicate LoginOk(cfg: Config, log: seq<Event>, rid: Id, l: Login) {
    && l.authorized < |log|
    && log[l.authorized] == Authorized(rid, l.clientId, l.redirectUri, l.nonce, l.challenge, l.hint, l.ip, l.createdAt)
    && (l.account.Some? ==> l.email.Some? && l.account.value == cfg.normalize(l.email.value))
    && (l.status == AwaitingEmail ==> NotSubmitted(log, rid))
    && (l.status == Approved ==> l.account.Some? && ApprovalAt(log, l.approved, rid))
    && (l.status == SendFailed ==> l.account.Some?)
    && NumbersUpTo(log, rid, l.attempt)
  }

  ghost predicate NotSubmitted(log: seq<Event>, rid: Id) {
    forall j | 0 <= j < |log| :: UnsentAt(log, j, rid)
  }

  ghost predicate NumbersUpTo(log: seq<Event>, rid: Id, n: nat) {
    forall j | 0 <= j < |log| :: NumberAt(log, j, rid, n)
  }

  ghost predicate LoginAt(cfg: Config, log: seq<Event>, logins: map<Id, Login>, rid: Id)
    requires rid in logins
  {
    LoginOk(cfg, log, rid, logins[rid])
  }

  ghost predicate LoginsOk(cfg: Config, log: seq<Event>, logins: map<Id, Login>) {
    forall rid {:trigger LoginAt(cfg, log, logins, rid)} | rid in logins :: LoginAt(cfg, log, logins, rid)
  }

  // ----- tasks -----

  predicate IsStart(task: Task) { task.StartNew? || task.StartLookup? }

  predicate IsNumbered(task: Task) {
    task.AttemptBlockCheck? || task.AttemptNotify? || task.AttemptWait? || task.AttemptRecord? || task.AttemptFile?
  }

  predicate IsCode(task: Task) {
    task.CodeBlockCheck? || task.CodeReadGeneration? || task.CodeReadRows? || task.CodeHash?
    || task.CodeWrong? || task.CodeRight? || task.CodeFile? || task.CodeFinish?
  }

  ghost predicate TaskOk(log: seq<Event>, logins: map<Id, Login>, tid: nat, task: Task) {
    task.Done?
    || (&& task.rid in logins
        && var l := logins[task.rid];
        && (!IsStart(task) ==> l.account.Some?)
        && (IsNumbered(task) ==> 1 <= task.n <= l.attempt && Began(log, task.rid, tid, task.n))
        && match task
           case AttemptWait(rid, n, account, deadline, fut, expired) =>
             && (fut.Resolved? ==> TapAt(log, fut.tapped, rid, tid, fut.verdict))
             && (fut.Cancelled? ==> expired)
           case AttemptRecord(rid, n, account, kept, success) =>
             KeptAt(log, kept, rid, tid, account) && log[kept].outcome == (if success then Approved else Rejected)
           case AttemptFile(rid, n, account, kept) => KeptAt(log, kept, rid, tid, account)
           case CodeWrong(rid, account, ip, refused) => CodeRefusedAt(log, refused, rid, tid, account)
           case CodeRight(rid, account, ip, accepted) => CodeAcceptedAt(log, accepted, rid, tid, account)
           case CodeFile(rid, account, ip, accepted) => CodeAcceptedAt(log, accepted, rid, tid, account)
           case CodeFinish(rid, account, accepted) => CodeAcceptedAt(log, accepted, rid, tid, account)
           case _ => true)
  }

  /** Two tasks that would be the same attempt are one. */
  predicate Apart(task: Task, other: Task) {
    IsNumbered(task) && IsNumbered(other) && task.rid == other.rid ==> task.n != other.n
  }

  ghost predicate TaskAt(log: seq<Event>, logins: map<Id, Login>, tasks: map<nat, Task>, tid: nat)
    requires tid in tasks
  {
    TaskOk(log, logins, tid, tasks[tid])
  }

  predicate ApartAt(tasks: map<nat, Task>, a: nat, b: nat)
    requires a in tasks && b in tasks
  {
    Apart(tasks[a], tasks[b])
  }

  ghost predicate TasksOk(log: seq<Event>, logins: map<Id, Login>, tasks: map<nat, Task>) {
    && (forall tid {:trigger TaskAt(log, logins, tasks, tid)} | tid in tasks :: TaskAt(log, logins, tasks, tid))
    && (forall a, b {:trigger ApartAt(tasks, a, b)} | a in tasks && b in tasks && a != b ::
          ApartAt(tasks, a, b))
  }

  /** A registered future is that of a waiter of the same id that has not exited. */
  ghost predicate RegisteredAt(registry: map<Id, nat>, tasks: map<nat, Task>, rid: Id)
    requires rid in registry
  {
    registry[rid] in tasks && tasks[registry[rid]].AttemptWait? && tasks[registry[rid]].rid == rid
  }

  ghost predicate RegistryOk(registry: map<Id, nat>, tasks: map<nat, Task>) {
    forall rid {:trigger RegisteredAt(registry, tasks, rid)} | rid in registry :: RegisteredAt(registry, tasks, rid)
  }

  // ----- _pending and _auth_codes -----

  ghost predicate Distinct(ids: seq<Id>) {
    forall i, j | 0 <= i < j < |ids| :: ids[i] != ids[j]
  }

  ghost predicate PendingOk(now: real, logins: map<Id, Login>, pending: seq<Id>, log: seq<Event>) {
    && Distinct(pending) && |pending| <= MAX_PENDING
    && (forall id | id in pending :: id in logins)
    && (forall id | id in logins :: logins[id].createdAt <= now)
    && (forall i, j | 0 <= i < j < |pending| :: logins[pending[i]].createdAt <= logins[pending[j]].createdAt)
    && (forall j | 0 <= j < |log| :: Known(logins, pending, log, j))
    && (forall id {:trigger Left(log, id)} | id in logins && id !in pending :: Left(log, id))
  }

  ghost predicate Known(logins: map<Id, Login>, pending: seq<Id>, log: seq<Event>, j: nat)
    requires j < |log|
  {
    && Exits(log[j]) <= logins.Keys && (forall id | id in pending :: id !in Exits(log[j]))
    && (log[j].AttemptBegan? || log[j].EmailSubmitted? ==> log[j].rid in logins)
  }

  /** Some event took the request out of `_pending`. */
  ghost predicate Left(log: seq<Event>, id: Id) {
    exists j | 0 <= j < |log| :: id in Exits(log[j])
  }

  predicate CompletedAt(log: seq<Event>, k: nat, code: string) {
    k < |log| && log[k].Completed? && log[k].code == code
  }

  /** The code was presented at `/token`, successfully or not. */
  predicate Presented(log: seq<Event>, code: string) {
    exists j | 0 <= j < |log| :: (log[j].Spent? || log[j].Redeemed?) && log[j].code == code
  }

  ghost predicate IssuedAt(now: real, log: seq<Event>, codes: map<string, CodeEntry>, issued: map<string, nat>,
                           c: string)
    requires c in issued
  {
    && CompletedAt(log, issued[c], c) && log[issued[c]].at <= now
    && (c in codes ==> log[issued[c]].entry == codes[c])
    && (c in codes || Presented(log, c) || now - log[issued[c]].at > AUTH_CODE_TTL)
  }

  ghost predicate SpendsKnown(log: seq<Event>, codes: map<string, CodeEntry>, issued: map<string, nat>, j: nat)
    requires j < |log|
  {
    && Spends(log[j]) <= issued.Keys && Spends(log[j]) !! codes.Keys
    && (log[j].Completed? ==> log[j].code in issued && issued[log[j].code] == j)
  }

  ghost predicate CodesOk(now: real, log: seq<Event>, codes: map<string, CodeEntry>, issued: map<string, nat>) {
    && codes.Keys <= issued.Keys
    && (forall c {:trigger IssuedAt(now, log, codes, issued, c)} | c in issued :: IssuedAt(now, log, codes, issued, c))
    && (forall j | 0 <= j < |log| :: SpendsKnown(log, codes, issued, j))
  }

  ghost predicate Inv(cfg: Config, s: State) {
    && LogOk(cfg, s.log)
    && LoginsOk(cfg, s.log, s.logins)
    && TasksOk(s.log, s.logins, s.tasks)
    && RegistryOk(s.registry, s.tasks)
    && PendingOk(s.now, s.logins, s.pending, s.log)
    && CodesOk(s.now, s.log, s.codes, s.issued)
  }

  lemma InitialInv(cfg: Config, now: real)
    ensures Inv(cfg, Initial(now))
  {
  }

  // ----- the history only grows -----

  lemma EventStaysOk(cfg: Config, log: seq<Event>, more: seq<Event>, i: nat)
    requires i < |log| && EventOk(cfg, log, i)
    ensures EventOk(cfg, log + more, i)
  {
    var longer := log + more;
    assert longer[..i] == log[..i];
    forall j | 0 <= j < i
      ensures TakesOther(longer, i, j)
      ensures log[i].Kept? ==> StillCurrent(longer, j, log[i].rid, log[i].n)
      ensures log[i].EmailSubmitted? ==> UnsentAt(longer, j, log[i].rid)
      ensures log[i].Completed? ==> OtherCode(longer, j, log[i].code)
    {
      assert TakesOther(log, i, j);
      assert log[i].Kept? ==> StillCurrent(log, j, log[i].rid, log[i].n);
      assert log[i].EmailSubmitted? ==> UnsentAt(log, j, log[i].rid);
      assert log[i].Completed? ==> OtherCode(log, j, log[i].code);
    }
  }

  lemma LogExtends(cfg: Config, log: seq<Event>, more: seq<Event>)
    requires LogOk(cfg, log)
    requires forall i | |log| <= i < |log + more| :: EventOk(cfg, log + more, i)
    ensures LogOk(cfg, log + more)
  {
    forall i | 0 <= i < |log + more|
      ensures EventOk(cfg, log + more, i)
    {
      if i < |log| {
        EventStaysOk(cfg, log, more, i);
      }
    }
  }

  /** Events that touch neither `_pending` nor `_auth_codes`. */
  predicate IsHarmless(e: Event) {
    Exits(e) == {} && Spends(e) == {} && !e.Completed?
  }

  predicate Harmless(more: seq<Event>) {
    forall k | 0 <= k < |more| :: IsHarmless(more[k])
  }

  predicate BeginsOnly(more: seq<Event>, k: nat, rid: Id)
    requires k < |more|
  {
    more[k].AttemptBegan? || more[k].EmailSubmitted? ==> more[k].rid == rid
  }

  lemma PendingKept(now: real, now': real, logins: map<Id, Login>, logins': map<Id, Login>,
                    pending: seq<Id>, log: seq<Event>, more: seq<Event>, rid: Id)
    requires forall k | 0 <= k < |more| :: BeginsOnly(more, k, rid)
    requires rid in logins || forall e | e in more :: !e.AttemptBegan? && !e.EmailSubmitted?
    requires PendingOk(now, logins, pending, log) && Harmless(more) && now <= now'
    requires logins'.Keys == logins.Keys && forall id | id in logins :: logins'[id].createdAt == logins[id].createdAt
    ensures PendingOk(now', logins', pending, log + more)
  {
    var longer := log + more;
    forall j | 0 <= j < |longer|
      ensures Known(logins', pending, longer, j)
    {
      assert longer[j] == if j < |log| then log[j] else more[j - |log|];
      assert j < |log| ==> Known(logins, pending, log, j);
      assert j >= |log| ==> BeginsOnly(more, j - |log|, rid) && more[j - |log|] in more;
    }
    forall id | id in logins' && id !in pending
      ensures Left(longer, id)
    {
      assert Left(log, id);
      LeftStays(log, more, id);
    }
  }

  lemma LeftStays(log: seq<Event>, more: seq<Event>, id: Id)
    requires Left(log, id)
    ensures Left(log + more, id)
  {
    var j :| 0 <= j < |log| && id in Exits(log[j]);
    assert (log + more)[j] == log[j];
  }

  lemma CodesKept(now: real, now': real, log: seq<Event>, more: seq<Event>,
                  codes: map<string, CodeEntry>, issued: map<string, nat>)
    requires CodesOk(now, log, codes, issued) && Harmless(more) && now <= now'
    ensures CodesOk(now', log + more, codes, issued)
  {
    var longer := log + more;
    forall j | 0 <= j < |longer|
      ensures SpendsKnown(longer, codes, issued, j)
    {
      assert longer[j] == if j < |log| then log[j] else more[j - |log|];
      assert j < |log| ==> SpendsKnown(log, codes, issued, j);
    }
    forall c | c in issued
      ensures IssuedAt(now', longer, codes, issued, c)
    {
      assert IssuedAt(now, log, codes, issued, c);
      assert longer[issued[c]] == log[issued[c]];
      PresentedStays(log, more, c);
    }
  }

  lemma PresentedStays(log: seq<Event>, more: seq<Event>, code: string)
    ensures Presented(log, code) ==> Presented(log + more, code)
  {
    if Presented(log, code) {
      var j :| 0 <= j < |log| && (log[j].Spent? || log[j].Redeemed?) && log[j].code == code;
      assert (log + more)[j] == log[j];
    }
  }

  // ----- one request and one task move -----

  /** The parts of a request that never change. */
  predicate SameRequest(l: Login, l': Login) {
    && l'.clientId == l.clientId && l'.redirectUri == l.redirectUri && l'.nonce == l.nonce
    && l'.challenge == l.challenge && l'.hint == l.hint && l'.createdAt == l.createdAt
    && l'.ip == l.ip && l'.authorized == l.authorized
  }

  /** A change another task of the request cannot be surprised by. */
  predicate SoftChange(l: Login, l': Login) {
    && SameRequest(l, l') && l'.attempt >= l.attempt && (l.account.Some? ==> l'.account.Some?)
  }

  /** The history gains harmless events, each well founded, that begin no attempt of
      another request. */
  ghost predicate Extends(cfg: Config, log: seq<Event>, log': seq<Event>, rid: Id, more: seq<Event>) {
    && log' == log + more && Harmless(more)
    && (forall i | |log| <= i < |log'| :: EventOk(cfg, log', i))
    && (forall k | 0 <= k < |more| :: BeginsOnly(more, k, rid))
  }

  /** Request `rid` changes softly. */
  ghost predicate LoginMoves(cfg: Config, s: State, s': State, rid: Id, tid: nat) {
    && rid in s.logins && rid in s'.logins && s'.logins == s.logins[rid := s'.logins[rid]]
    && SoftChange(s.logins[rid], s'.logins[rid])
    && LoginOk(cfg, s'.log, rid, s'.logins[rid])
  }

  /** Task `tid` moves: it keeps its number or takes one not given out yet. */
  ghost predicate TaskMoves(s: State, s': State, rid: Id, tid: nat)
    requires rid in s.logins && rid in s'.logins
  {
    && tid in s'.tasks && s'.tasks == s.tasks[tid := s'.tasks[tid]]
    && TaskOk(s'.log, s'.logins, tid, s'.tasks[tid])
    && (IsNumbered(s'.tasks[tid]) ==>
          && s'.tasks[tid].rid == rid
          && (s'.tasks[tid].n > s.logins[rid].attempt || SameNumber(s.tasks, s'.tasks, tid)))
  }

  predicate SameNumber(tasks: map<nat, Task>, tasks': map<nat, Task>, tid: nat)
    requires tid in tasks' && IsNumbered(tasks'[tid])
  {
    tid in tasks && IsNumbered(tasks[tid]) && tasks[tid].rid == tasks'[tid].rid && tasks[tid].n == tasks'[tid].n
  }

  /** `_pending`, `_auth_codes` and the clock stay as they are. */
  predicate SameTables(s: State, s': State) {
    s'.now == s.now && s'.pending == s.pending && s'.codes == s.codes && s'.issued == s.issued
  }

  lemma StillUnsent(log: seq<Event>, more: seq<Event>, rid: Id)
    requires NotSubmitted(log, rid) && NotSubmitted(more, rid)
    ensures NotSubmitted(log + more, rid)
  {
    forall j | 0 <= j < |log + more|
      ensures UnsentAt(log + more, j, rid)
    {
      if j < |log| {
        assert UnsentAt(log, j, rid);
      } else {
        assert UnsentAt(more, j - |log|, rid);
      }
    }
  }

  lemma LoginStaysOk(cfg: Config, log: seq<Event>, more: seq<Event>, rid: Id, l: Login)
    requires LoginOk(cfg, log, rid, l)
    requires forall k | 0 <= k < |more| :: NumberAt(more, k, rid, l.attempt)
    requires l.status == AwaitingEmail ==> NotSubmitted(more, rid)
    ensures LoginOk(cfg, log + more, rid, l)
  {
    var longer := log + more;
    if l.status == AwaitingEmail {
      StillUnsent(log, more, rid);
    }
    forall j | 0 <= j < |longer|
      ensures NumberAt(longer, j, rid, l.attempt)
    {
      if j < |log| {
        assert NumberAt(log, j, rid, l.attempt);
      } else {
        assert NumberAt(more, j - |log|, rid, l.attempt);
      }
    }
  }

  lemma OtherLoginsOk(cfg: Config, s: State, s': State, rid: Id, tid: nat, more: seq<Event>)
    requires LoginsOk(cfg, s.log, s.logins)
    requires Extends(cfg, s.log, s'.log, rid, more) && LoginMoves(cfg, s, s', rid, tid)
    ensures LoginsOk(cfg, s'.log, s'.logins)
  {
    forall id | id in s'.logins
      ensures LoginAt(cfg, s'.log, s'.logins, id)
    {
      if id != rid {
        assert LoginAt(cfg, s.log, s.logins, id);
        forall k | 0 <= k < |more|
          ensures NumberAt(more, k, id, s.logins[id].attempt) && UnsentAt(more, k, id)
        {
          assert BeginsOnly(more, k, rid);
        }
        LoginStaysOk(cfg, s.log, more, id, s.logins[id]);
      }
    }
  }

  lemma TaskStaysOk(log: seq<Event>, more: seq<Event>, logins: map<Id, Login>, rid: Id, l': Login, tid: nat, task: Task)
    requires TaskOk(log, logins, tid, task) && rid in logins && SoftChange(logins[rid], l')
    ensures TaskOk(log + more, logins[rid := l'], tid, task)
  {
  }

  lemma OtherTasksOk(cfg: Config, s: State, s': State, rid: Id, tid: nat, more: seq<Event>)
    requires TasksOk(s.log, s.logins, s.tasks) && s'.log == s.log + more
    requires LoginMoves(cfg, s, s', rid, tid) && TaskMoves(s, s', rid, tid)
    ensures TasksOk(s'.log, s'.logins, s'.tasks)
  {
    forall t | t in s'.tasks
      ensures TaskAt(s'.log, s'.logins, s'.tasks, t)
    {
      if t != tid {
        assert TaskAt(s.log, s.logins, s.tasks, t);
        TaskStaysOk(s.log, more, s.logins, rid, s'.logins[rid], t, s.tasks[t]);
      }
    }
    forall a, b | a in s'.tasks && b in s'.tasks && a != b
      ensures ApartAt(s'.tasks, a, b)
    {
      if a != tid {
        assert TaskAt(s.log, s.logins, s.tasks, a);
      }
      if b != tid {
        assert TaskAt(s.log, s.logins, s.tasks, b);
      }
      if a in s.tasks && b in s.tasks {
        assert ApartAt(s.tasks, a, b);
      }
    }
  }

  /** A step that moves one request softly and one task, and writes harmless history,
      keeps the whole invariant. */
  lemma MoveKeepsInv(cfg: Config, s: State, s': State, rid: Id, tid: nat, more: seq<Event>)
    requires Inv(cfg, s) && SameTables(s, s')
    requires Extends(cfg, s.log, s'.log, rid, more)
    requires LoginMoves(cfg, s, s', rid, tid) && TaskMoves(s, s', rid, tid)
    requires RegistryOk(s'.registry, s'.tasks)
    ensures Inv(cfg, s')
  {
    LogExtends(cfg, s.log, more);
    OtherLoginsOk(cfg, s, s', rid, tid, more);
    OtherTasksOk(cfg, s, s', rid, tid, more);
    PendingKept(s.now, s.now, s.logins, s'.logins, s.pending, s.log, more, rid);
    CodesKept(s.now, s.now, s.log, more, s.codes, s.issued);
  }
}
