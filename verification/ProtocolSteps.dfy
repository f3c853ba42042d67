/** Every step of a task, and every handler that only starts one or lets a request go,
    keeps the invariant.

    Nearly all proofs have one shape. The state after the step is written out as a term
    `s'`; the request it touches is shown to move softly (`LoginMoves`), the task to move
    within its rights (`TaskMoves`), the new event, if any, to rest on earlier ones
    (`Extends`), and the registry to stay sound; then `MoveKeepsInv` does the rest. What a
    task under way knows of its request is taken from the invariant by `NumberedTask` and
    `CodeTask`.

    An attempt that comes out of its wait goes through `ConcludeKeepsInv`: discarded if a
    later attempt has begun or the request has left, else written, and then either on its
    way to the block table (`VerdictKeepsInv`) or filed at once (`NoVerdictKeepsInv`). */
module ProtocolSteps {
  import opened Options
  import opened LoginProtocol
  import opened ProtocolInvariants
  import ActionRegistry
  import Blocks = IpBlocking
  import Recovery = RecoveryCodes

  // ----- shared pieces -----

  lemma Quietly(cfg: Config, s: State, rid: Id)
    ensures Extends(cfg, s.log, s.log, rid, [])
  {
    assert s.log + [] == s.log;
  }

  /** One more harmless event that only rests on facts the invariant gives. */
  lemma OneEvent(cfg: Config, log: seq<Event>, rid: Id, e: Event)
    requires IsHarmless(e) && (e.AttemptBegan? ==> e.rid == rid)
    requires !e.Kept? && !e.EmailSubmitted? ==> EventRests(log, e)
    requires e.Kept? || e.EmailSubmitted? ==> e.rid == rid && EventOk(cfg, log + [e], |log|)
    ensures Extends(cfg, log, log + [e], rid, [e])
  {
    var longer := log + [e];
    assert longer[..|log|] == log;
    forall j | 0 <= j < |log|
      ensures TakesOther(longer, |log|, j)
    {
    }
    assert EventOk(cfg, longer, |log|);
  }

  /** What the harmless events other than an outcome rest on. */
  ghost predicate EventRests(log: seq<Event>, e: Event) {
    match e
    case RecoveryApproved(rid, tid, account, accepted) => CodeAcceptedAt(log, accepted, rid, tid, account)
    case BlockWritten(tid, pair, success, cause, _) => WriteRests(log, tid, pair, success, cause)
    case Filed(tid, row, cause) => (
      match cause
      case None => row.kind == WasBlocked
      case Some(k) =>
        k < |log| && (log[k].Kept? || log[k].CodeAccepted?) && log[k].tid == tid && log[k].rid == row.rid
        && log[k].account == row.account
        && (if log[k].Kept? then row.kind.Ended? else row.kind == RecoveryCodeUsed))
    case _ => true
  }

  /** A task that is not a waiter before the step leaves the registry sound. */
  lemma RegistryKept(s: State, s': State, tid: nat)
    requires RegistryOk(s.registry, s.tasks) && s'.registry == s.registry
    requires tid in s'.tasks && s'.tasks == s.tasks[tid := s'.tasks[tid]]
    requires tid in s.tasks && s.tasks[tid].AttemptWait? ==>
               s'.tasks[tid].AttemptWait? && s'.tasks[tid].rid == s.tasks[tid].rid
    ensures RegistryOk(s'.registry, s'.tasks)
  {
    forall rid | rid in s'.registry
      ensures RegisteredAt(s'.registry, s'.tasks, rid)
    {
      assert RegisteredAt(s.registry, s.tasks, rid);
    }
  }

  /** The request stays as it is, whatever the history gains that is not of its making. */
  lemma LoginStands(cfg: Config, s: State, s': State, rid: Id, tid: nat, more: seq<Event>)
    requires LoginsOk(cfg, s.log, s.logins) && rid in s.logins
    requires s'.logins == s.logins && s'.log == s.log + more
    requires forall k | 0 <= k < |more| :: !more[k].AttemptBegan? && !more[k].EmailSubmitted?
    ensures LoginMoves(cfg, s, s', rid, tid)
  {
    assert LoginAt(cfg, s.log, s.logins, rid);
    LoginStaysOk(cfg, s.log, more, rid, s.logins[rid]);
    assert s.logins[rid := s.logins[rid]] == s.logins;
  }

  // ----- handlers that start a task -----

  lemma SubmitEmailKeepsInv(cfg: Config, s: State, rid: Id, address: string, tid: nat)
    requires Inv(cfg, s)
    ensures Inv(cfg, SubmitEmail(s, rid, address, tid))
  {
    if rid in s.pending && rid in s.logins && s.logins[rid].status == AwaitingEmail && tid !in s.tasks {
      var l := s.logins[rid].(status := Resolving);
      var e := EmailSubmitted(rid, address);
      var s' := Logged(WithTask(WithLogin(s, rid, l), tid, StartNew(rid, address)), e);
      SubmittedLoginMoves(cfg, s, s', rid, address, tid);
      SubmittedTaskMoves(cfg, s, s', rid, address, tid);
      SubmittedEventOk(cfg, s, rid, address);
      OneEvent(cfg, s.log, rid, e);
      RegistryKept(s, s', tid);
      MoveKeepsInv(cfg, s, s', rid, tid, [e]);
    }
  }

  lemma SubmittedLoginOk(cfg: Config, log: seq<Event>, rid: Id, l: Login, address: string)
    requires LoginOk(cfg, log, rid, l) && l.status == AwaitingEmail
    ensures LoginOk(cfg, log + [EmailSubmitted(rid, address)], rid, l.(status := Resolving))
  {
    var longer := log + [EmailSubmitted(rid, address)];
    forall j | 0 <= j < |longer|
      ensures NumberAt(longer, j, rid, l.attempt)
    {
      assert j < |log| ==> NumberAt(log, j, rid, l.attempt);
    }
  }

  lemma SubmittedLoginMoves(cfg: Config, s: State, s': State, rid: Id, address: string, tid: nat)
    requires Inv(cfg, s) && rid in s.logins && s.logins[rid].status == AwaitingEmail && tid !in s.tasks
    requires s'.log == s.log + [EmailSubmitted(rid, address)]
    requires s'.logins == s.logins[rid := s.logins[rid].(status := Resolving)]
    ensures LoginMoves(cfg, s, s', rid, tid)
  {
    assert LoginAt(cfg, s.log, s.logins, rid);
    SubmittedLoginOk(cfg, s.log, rid, s.logins[rid], address);
  }

  lemma SubmittedTaskMoves(cfg: Config, s: State, s': State, rid: Id, address: string, tid: nat)
    requires Inv(cfg, s) && rid in s.logins && s.logins[rid].status == AwaitingEmail && tid !in s.tasks
    requires s'.log == s.log + [EmailSubmitted(rid, address)]
    requires s'.logins == s.logins[rid := s.logins[rid].(status := Resolving)]
    requires s'.tasks == s.tasks[tid := StartNew(rid, address)]
    ensures TaskMoves(s, s', rid, tid)
  {
    assert LoginAt(cfg, s.log, s.logins, rid);
    assert s'.log[|s.log|] == EmailSubmitted(rid, address);
  }

  lemma SubmittedEventOk(cfg: Config, s: State, rid: Id, address: string)
    requires Inv(cfg, s) && rid in s.logins && s.logins[rid].status == AwaitingEmail
    ensures EventOk(cfg, s.log + [EmailSubmitted(rid, address)], |s.log|)
  {
    var longer := s.log + [EmailSubmitted(rid, address)];
    assert LoginAt(cfg, s.log, s.logins, rid);
    assert NotSubmitted(s.log, rid);
    forall j | 0 <= j < |s.log|
      ensures UnsentAt(longer, j, rid) && TakesOther(longer, |s.log|, j)
    {
      assert UnsentAt(s.log, j, rid);
    }
  }

  lemma RetryKeepsInv(cfg: Config, s: State, rid: Id, tid: nat)
    requires Inv(cfg, s)
    ensures Inv(cfg, Retry(cfg, s, rid, tid))
  {
    var s' := Retry(cfg, s, rid, tid);
    if s' != s {
      Quietly(cfg, s, rid);
      RegistryKept(s, s', tid);
      LoginStands(cfg, s, s', rid, tid, []);
      MoveKeepsInv(cfg, s, s', rid, tid, []);
    }
  }

  /** Counting an attempt, with or without going on to check the code. */
  lemma CountedKeepsInv(cfg: Config, s: State, s': State, rid: Id, tid: nat, e: Event)
    requires Inv(cfg, s) && tid !in s.tasks && rid in s.logins && s.logins[rid].account.Some?
    requires SameTables(s, s') && e.CodeSubmitted? && s'.log == s.log + [e] && s'.registry == s.registry
    requires s'.logins == s.logins[rid := s.logins[rid].(recoveryAttempts := s.logins[rid].recoveryAttempts + 1)]
    requires tid in s'.tasks && s'.tasks == s.tasks[tid := s'.tasks[tid]]
    requires s'.tasks[tid].Done? || (s'.tasks[tid].CodeBlockCheck? && s'.tasks[tid].rid == rid
                                     && s'.tasks[tid].account == s.logins[rid].account.value)
    ensures Inv(cfg, s')
  {
    assert LoginAt(cfg, s.log, s.logins, rid);
    LoginStaysOk(cfg, s.log, [e], rid, s.logins[rid]);
    OneEvent(cfg, s.log, rid, e);
    RegistryKept(s, s', tid);
    MoveKeepsInv(cfg, s, s', rid, tid, [e]);
  }

  lemma RecoveryKeepsInv(cfg: Config, s: State, rid: Id, code: string, ip: string, tid: nat)
    requires Inv(cfg, s)
    ensures Inv(cfg, SubmitRecoveryCode(cfg, s, rid, code, ip, tid))
  {
    if MayResend(cfg, s, rid) && tid !in s.tasks {
      var counted, account := Counted(s, rid), Owner(s.logins[rid]);
      var e := CodeSubmitted(rid, account, ip, code, s.now, WithinLimits(counted, rid));
      var noted := Logged(counted, e);
      CountedKeepsInv(cfg, s, WithTask(noted, tid, CodeBlockCheck(rid, account, ip, code)), rid, tid, e);
      CountedKeepsInv(cfg, s, WithTask(noted, tid, Done), rid, tid, e);
      DoneTaskIsNothing(cfg, noted, tid);
    }
  }

  /** A finished task says nothing: the invariant does not miss it. */
  lemma DoneTaskIsNothing(cfg: Config, s: State, tid: nat)
    requires tid !in s.tasks && Inv(cfg, WithTask(s, tid, Done))
    ensures Inv(cfg, s)
  {
    var marked := WithTask(s, tid, Done);
    forall t | t in s.tasks
      ensures TaskAt(s.log, s.logins, s.tasks, t)
    {
      assert TaskAt(marked.log, marked.logins, marked.tasks, t);
    }
    forall a, b | a in s.tasks && b in s.tasks && a != b
      ensures ApartAt(s.tasks, a, b)
    {
      assert ApartAt(marked.tasks, a, b);
    }
    forall rid | rid in s.registry
      ensures RegisteredAt(s.registry, s.tasks, rid)
    {
      assert RegisteredAt(marked.registry, marked.tasks, rid);
    }
  }

  // ----- events and timers -----

  lemma HaActionKeepsInv(cfg: Config, s: State, text: string)
    requires Inv(cfg, s)
    ensures Inv(cfg, HaAction(s, text))
  {
    var s' := HaAction(s, text);
    if s' != s {
      var (rid, verdict) := ActionRegistry.Parse(text).value;
      var tid, e := s.registry[rid], Tapped(text, rid, verdict, s.registry[rid]);
      ActionRegistry.ParseInvertsActionName(text, rid, verdict);
      assert RegisteredAt(s.registry, s.tasks, rid);
      assert TaskAt(s.log, s.logins, s.tasks, tid);
      OneEvent(cfg, s.log, rid, e);
      RegistryKept(s, s', tid);
      LoginStands(cfg, s, s', rid, tid, [e]);
      MoveKeepsInv(cfg, s, s', rid, tid, [e]);
    }
  }

  lemma TimerKeepsInv(cfg: Config, s: State, tid: nat)
    requires Inv(cfg, s)
    ensures Inv(cfg, Timer(s, tid))
  {
    var s' := Timer(s, tid);
    if s' != s {
      var rid := s.tasks[tid].rid;
      assert TaskAt(s.log, s.logins, s.tasks, tid);
      Quietly(cfg, s, rid);
      RegistryKept(s, s', tid);
      LoginStands(cfg, s, s', rid, tid, []);
      MoveKeepsInv(cfg, s, s', rid, tid, []);
    }
  }

  // ----- the steps of an approval attempt -----

  /** What an attempt under way knows of its request. */
  lemma NumberedTask(s: State, tid: nat)
    requires TasksOk(s.log, s.logins, s.tasks) && tid in s.tasks && IsNumbered(s.tasks[tid])
    ensures var t := s.tasks[tid];
            t.rid in s.logins && s.logins[t.rid].account.Some?
            && 1 <= t.n <= s.logins[t.rid].attempt && Began(s.log, t.rid, tid, t.n)
  {
    assert TaskAt(s.log, s.logins, s.tasks, tid);
  }

  lemma BumpedLoginOk(cfg: Config, log: seq<Event>, rid: Id, l: Login, tid: nat)
    requires LoginOk(cfg, log, rid, l)
    ensures LoginOk(cfg, log + [AttemptBegan(rid, tid, l.attempt + 1)], rid, l.(attempt := l.attempt + 1))
  {
    var n := l.attempt + 1;
    forall j | 0 <= j < |log|
      ensures NumberAt(log, j, rid, n)
    {
      assert NumberAt(log, j, rid, l.attempt);
    }
    LoginStaysOk(cfg, log, [AttemptBegan(rid, tid, n)], rid, l.(attempt := n));
  }

  lemma BeginAttemptKeepsInv(cfg: Config, s: State, tid: nat, rid: Id, targets: seq<string>)
    requires Inv(cfg, s) && rid in s.logins && s.logins[rid].account.Some?
    requires tid in s.tasks && !s.tasks[tid].AttemptWait?
    ensures Inv(cfg, BeginAttempt(s, tid, rid, targets))
  {
    assert LoginAt(cfg, s.log, s.logins, rid);
    if rid in s.pending {
      BegunKeepsInv(cfg, s, tid, rid, targets);
    } else {
      var s' := WithTask(s, tid, Done);
      RegistryKept(s, s', tid);
      Quietly(cfg, s, rid);
      assert s.logins[rid := s.logins[rid]] == s.logins;
      MoveKeepsInv(cfg, s, s', rid, tid, []);
    }
  }

  lemma BegunKeepsInv(cfg: Config, s: State, tid: nat, rid: Id, targets: seq<string>)
    requires Inv(cfg, s) && rid in s.logins && s.logins[rid].account.Some? && rid in s.pending
    requires tid in s.tasks && !s.tasks[tid].AttemptWait?
    ensures Inv(cfg, BeginAttempt(s, tid, rid, targets))
  {
    var l := s.logins[rid];
    var n := l.attempt + 1;
    var e := AttemptBegan(rid, tid, n);
    var next := AttemptBlockCheck(rid, n, Owner(l), targets);
    var s' := Logged(WithTask(WithLogin(s, rid, l.(attempt := n)), tid, next), e);
    assert LoginAt(cfg, s.log, s.logins, rid);
    BumpedLoginOk(cfg, s.log, rid, l, tid);
    OneEvent(cfg, s.log, rid, e);
    RegistryKept(s, s', tid);
    BegunTaskMoves(s, s', tid, rid, targets);
    MoveKeepsInv(cfg, s, s', rid, tid, [e]);
  }

  lemma BegunTaskMoves(s: State, s': State, tid: nat, rid: Id, targets: seq<string>)
    requires rid in s.logins && s.logins[rid].account.Some?
    requires var l := s.logins[rid];
             s'.log == s.log + [AttemptBegan(rid, tid, l.attempt + 1)]
             && s'.logins == s.logins[rid := l.(attempt := l.attempt + 1)]
             && s'.tasks == s.tasks[tid := AttemptBlockCheck(rid, l.attempt + 1, l.account.value, targets)]
    ensures TaskMoves(s, s', rid, tid)
  {
    assert s'.log[|s.log|] == AttemptBegan(rid, tid, s.logins[rid].attempt + 1);
  }

  lemma StartRefusedKeepsInv(cfg: Config, s: State, tid: nat, answer: Answer)
    requires Inv(cfg, s) && tid in s.tasks && IsStart(s.tasks[tid])
    requires s.tasks[tid].StartNew? || answer.targets == []
    ensures Inv(cfg, StartStep(cfg, s, tid, s.tasks[tid], answer))
  {
    var rid := s.tasks[tid].rid;
    var s' := StartStep(cfg, s, tid, s.tasks[tid], answer);
    assert TaskAt(s.log, s.logins, s.tasks, tid);
    assert LoginAt(cfg, s.log, s.logins, rid);
    Quietly(cfg, s, rid);
    RegistryKept(s, s', tid);
    assert s.logins[rid := s.logins[rid]] == s.logins;
    MoveKeepsInv(cfg, s, s', rid, tid, []);
  }

  /** The account is written: from now on the request has an owner. */
  function Owned(cfg: Config, s: State, tid: nat, rid: Id, address: string): State
    requires rid in s.logins
  {
    var login := s.logins[rid].(email := Some(address), account := Some(cfg.normalize(address)));
    WithTask(Logged(WithLogin(s, rid, login), AccountResolved(rid, address)), tid, Done)
  }

  lemma OwnedKeepsInv(cfg: Config, s: State, tid: nat)
    requires Inv(cfg, s) && tid in s.tasks && s.tasks[tid].StartLookup?
    ensures s.tasks[tid].rid in s.logins && Inv(cfg, Owned(cfg, s, tid, s.tasks[tid].rid, s.tasks[tid].address))
  {
    var rid, e := s.tasks[tid].rid, AccountResolved(s.tasks[tid].rid, s.tasks[tid].address);
    assert TaskAt(s.log, s.logins, s.tasks, tid);
    assert LoginAt(cfg, s.log, s.logins, rid);
    var s' := Owned(cfg, s, tid, rid, s.tasks[tid].address);
    LoginStaysOk(cfg, s.log, [e], rid, s.logins[rid]);
    OneEvent(cfg, s.log, rid, e);
    RegistryKept(s, s', tid);
    MoveKeepsInv(cfg, s, s', rid, tid, [e]);
  }

  lemma StartKeepsInv(cfg: Config, s: State, tid: nat, answer: Answer)
    requires Inv(cfg, s) && tid in s.tasks && IsStart(s.tasks[tid])
    ensures Inv(cfg, StartStep(cfg, s, tid, s.tasks[tid], answer))
  {
    var task := s.tasks[tid];
    if task.StartNew? || answer.targets == [] {
      StartRefusedKeepsInv(cfg, s, tid, answer);
    } else {
      OwnedKeepsInv(cfg, s, tid);
      var mid := Owned(cfg, s, tid, task.rid, task.address);
      BeginAttemptKeepsInv(cfg, mid, tid, task.rid, answer.targets);
      BeginIgnoresTask(s, mid, tid, task.rid, answer.targets);
    }
  }

  lemma BeginIgnoresTask(s: State, mid: State, tid: nat, rid: Id, targets: seq<string>)
    requires rid in mid.logins && mid == WithTask(mid.(tasks := s.tasks), tid, Done)
    ensures BeginAttempt(mid, tid, rid, targets) == BeginAttempt(mid.(tasks := s.tasks), tid, rid, targets)
  {
    var begun := AttemptBlockCheck(rid, mid.logins[rid].attempt + 1, Owner(mid.logins[rid]), targets);
    assert s.tasks[tid := Done][tid := begun] == s.tasks[tid := begun];
    assert s.tasks[tid := Done][tid := Done] == s.tasks[tid := Done];
  }

  lemma RetryLookupKeepsInv(cfg: Config, s: State, tid: nat, targets: seq<string>)
    requires Inv(cfg, s) && tid in s.tasks && s.tasks[tid].RetryLookup?
    ensures Inv(cfg, WithTask(s, tid, AttemptNew(s.tasks[tid].rid, targets)))
  {
    var rid := s.tasks[tid].rid;
    var s' := WithTask(s, tid, AttemptNew(rid, targets));
    assert TaskAt(s.log, s.logins, s.tasks, tid);
    Quietly(cfg, s, rid);
    RegistryKept(s, s', tid);
    LoginStands(cfg, s, s', rid, tid, []);
    MoveKeepsInv(cfg, s, s', rid, tid, []);
  }

  lemma BlockCheckKeepsInv(cfg: Config, s: State, tid: nat)
    requires Inv(cfg, s) && tid in s.tasks && s.tasks[tid].AttemptBlockCheck?
    ensures Inv(cfg, BlockCheckStep(s, tid, s.tasks[tid]))
  {
    var task := s.tasks[tid];
    NumberedTask(s, tid);
    if Blocks.RowBlocks(Blocks.Get(s.blocks, (task.account, s.logins[task.rid].ip))) {
      BlockedKeepsInv(cfg, s, tid);
    } else {
      UnblockedKeepsInv(cfg, s, tid);
    }
  }

  lemma UnblockedKeepsInv(cfg: Config, s: State, tid: nat)
    requires Inv(cfg, s) && tid in s.tasks && s.tasks[tid].AttemptBlockCheck? && s.tasks[tid].rid in s.logins
    ensures var t := s.tasks[tid];
            var l := s.logins[t.rid].(status := Waiting, waitingSince := Some(s.now));
            Inv(cfg, WithTask(WithLogin(s, t.rid, l), tid, AttemptNotify(t.rid, t.n, t.account, t.targets)))
  {
    var t, rid := s.tasks[tid], s.tasks[tid].rid;
    var l := s.logins[rid].(status := Waiting, waitingSince := Some(s.now));
    var s' := WithTask(WithLogin(s, rid, l), tid, AttemptNotify(rid, t.n, t.account, t.targets));
    NumberedTask(s, tid);
    assert LoginAt(cfg, s.log, s.logins, rid);
    RegistryKept(s, s', tid);
    Quietly(cfg, s, rid);
    MoveKeepsInv(cfg, s, s', rid, tid, []);
  }

  lemma BlockedKeepsInv(cfg: Config, s: State, tid: nat)
    requires Inv(cfg, s) && tid in s.tasks && s.tasks[tid].AttemptBlockCheck? && s.tasks[tid].rid in s.logins
    ensures var t := s.tasks[tid];
            var l := s.logins[t.rid];
            Inv(cfg, WithTask(Filing(WithLogin(s, t.rid, l.(status := Denied)), tid,
                                     AuditRow(t.account, t.rid, WasBlocked, l.ip), None), tid, Done))
  {
    var task, rid, l := s.tasks[tid], s.tasks[tid].rid, s.logins[s.tasks[tid].rid];
    var row := AuditRow(task.account, rid, WasBlocked, l.ip);
    var s' := WithTask(Filing(WithLogin(s, rid, l.(status := Denied)), tid, row, None), tid, Done);
    assert TaskAt(s.log, s.logins, s.tasks, tid);
    assert LoginAt(cfg, s.log, s.logins, rid);
    RegistryKept(s, s', tid);
    LoginStaysOk(cfg, s.log, [Filed(tid, row, None)], rid, l);
    OneEvent(cfg, s.log, rid, Filed(tid, row, None));
    MoveKeepsInv(cfg, s, s', rid, tid, [Filed(tid, row, None)]);
  }

  /** Every registration but any of `tid` is sound: the task may leave its wait. */
  ghost predicate ClearOf(registry: map<Id, nat>, tasks: map<nat, Task>, tid: nat) {
    RegistryOk(registry, tasks) && tid !in registry.Values
  }

  lemma ClearStays(registry: map<Id, nat>, tasks: map<nat, Task>, tid: nat, task: Task)
    requires ClearOf(registry, tasks, tid)
    ensures RegistryOk(registry, tasks[tid := task])
  {
    forall rid | rid in registry
      ensures RegisteredAt(registry, tasks[tid := task], rid)
    {
      assert RegisteredAt(registry, tasks, rid);
      assert registry[rid] in registry.Values;
    }
  }

  /** A waiter that leaves takes its own registration along and no other. */
  lemma LeavingClears(s: State, tid: nat, registry: map<Id, nat>)
    requires RegistryOk(s.registry, s.tasks) && tid in s.tasks
    requires s.tasks[tid].AttemptWait? || registry == s.registry
    requires s.tasks[tid].AttemptWait? ==>
               registry == (if s.tasks[tid].rid in s.registry && s.registry[s.tasks[tid].rid] == tid
                            then s.registry - {s.tasks[tid].rid} else s.registry)
    ensures ClearOf(registry, s.tasks, tid)
  {
    forall rid | rid in registry
      ensures RegisteredAt(registry, s.tasks, rid) && registry[rid] != tid
    {
      assert RegisteredAt(s.registry, s.tasks, rid);
    }
  }

  /** A superseded or evicted attempt: its outcome is discarded. */
  lemma DiscardKeepsInv(cfg: Config, s: State, left: State, tid: nat)
    requires Inv(cfg, s) && tid in s.tasks && !s.tasks[tid].Done?
    requires left == s.(registry := left.registry) && ClearOf(left.registry, s.tasks, tid)
    ensures Inv(cfg, WithTask(left, tid, Done))
  {
    var rid := s.tasks[tid].rid;
    assert TaskAt(s.log, s.logins, s.tasks, tid);
    ClearStays(left.registry, s.tasks, tid, Done);
    Quietly(cfg, s, rid);
    LoginStands(cfg, s, WithTask(left, tid, Done), rid, tid, []);
    MoveKeepsInv(cfg, s, WithTask(left, tid, Done), rid, tid, []);
  }

  /** The request with the outcome written, and the task on its way to record it. */
  function Written(left: State, tid: nat, task: Task, outcome: Status, tapped: nat, next: Task): State
    requires IsNumbered(task) && task.rid in left.logins
  {
    var l := left.logins[task.rid];
    Logged(WithTask(WithLogin(left, task.rid,
                              l.(status := outcome,
                                 approved := if outcome == Approved then |left.log| else l.approved)),
                    tid, next),
           Kept(task.rid, tid, task.n, task.account, outcome, tapped))
  }

  /** Attempt `tid`, current and out of its wait, may write this outcome and go on so. */
  ghost predicate MayWrite(cfg: Config, s: State, left: State, tid: nat, outcome: Status, tapped: nat, next: Task) {
    && Inv(cfg, s) && tid in s.tasks && IsNumbered(s.tasks[tid]) && IsOutcome(outcome)
    && left == s.(registry := left.registry) && ClearOf(left.registry, s.tasks, tid)
    && var t := s.tasks[tid];
    && IsCurrent(s, t.rid, t.n)
    && (outcome == Approved || outcome == Rejected ==> TapAt(s.log, tapped, t.rid, tid, outcome == Approved))
    && ((next == AttemptRecord(t.rid, t.n, t.account, |s.log|, outcome == Approved)
         && (outcome == Approved || outcome == Rejected))
        || next == AttemptFile(t.rid, t.n, t.account, |s.log|))
  }

  lemma WrittenKeepsInv(cfg: Config, s: State, left: State, tid: nat, outcome: Status, tapped: nat, next: Task)
    requires MayWrite(cfg, s, left, tid, outcome, tapped, next)
    ensures Inv(cfg, Written(left, tid, s.tasks[tid], outcome, tapped, next))
  {
    var t := s.tasks[tid];
    WrittenExtends(cfg, s, left, tid, outcome, tapped, next);
    WrittenLoginMoves(cfg, s, left, tid, outcome, tapped, next);
    WrittenTaskMoves(cfg, s, left, tid, outcome, tapped, next);
    ClearStays(left.registry, s.tasks, tid, next);
    MoveKeepsInv(cfg, s, Written(left, tid, t, outcome, tapped, next), t.rid, tid,
                 [Kept(t.rid, tid, t.n, t.account, outcome, tapped)]);
  }

  lemma WrittenTaskMoves(cfg: Config, s: State, left: State, tid: nat, outcome: Status, tapped: nat, next: Task)
    requires MayWrite(cfg, s, left, tid, outcome, tapped, next)
    ensures TaskMoves(s, Written(left, tid, s.tasks[tid], outcome, tapped, next), s.tasks[tid].rid, tid)
  {
    NumberedTask(s, tid);
    var s' := Written(left, tid, s.tasks[tid], outcome, tapped, next);
    assert s'.log[|s.log|] == Kept(s.tasks[tid].rid, tid, s.tasks[tid].n, s.tasks[tid].account, outcome, tapped);
  }

  lemma WrittenLoginOk(cfg: Config, log: seq<Event>, rid: Id, l: Login, e: Event)
    requires LoginOk(cfg, log, rid, l) && l.account.Some? && e.Kept? && e.rid == rid && IsOutcome(e.outcome)
    ensures LoginOk(cfg, log + [e], rid,
                    l.(status := e.outcome, approved := if e.outcome == Approved then |log| else l.approved))
  {
    LoginStaysOk(cfg, log, [e], rid, l);
    assert (log + [e])[|log|] == e;
  }

  lemma WrittenLoginMoves(cfg: Config, s: State, left: State, tid: nat, outcome: Status, tapped: nat, next: Task)
    requires MayWrite(cfg, s, left, tid, outcome, tapped, next)
    ensures LoginMoves(cfg, s, Written(left, tid, s.tasks[tid], outcome, tapped, next), s.tasks[tid].rid, tid)
  {
    NumberedTask(s, tid);
    var t := s.tasks[tid];
    assert LoginAt(cfg, s.log, s.logins, t.rid);
    WrittenLoginOk(cfg, s.log, t.rid, s.logins[t.rid], Kept(t.rid, tid, t.n, t.account, outcome, tapped));
  }

  lemma WrittenExtends(cfg: Config, s: State, left: State, tid: nat, outcome: Status, tapped: nat, next: Task)
    requires MayWrite(cfg, s, left, tid, outcome, tapped, next)
    ensures var t := s.tasks[tid];
            Extends(cfg, s.log, Written(left, tid, t, outcome, tapped, next).log, t.rid,
                    [Kept(t.rid, tid, t.n, t.account, outcome, tapped)])
  {
    NumberedTask(s, tid);
    var t := s.tasks[tid];
    KeptExtends(cfg, s, Kept(t.rid, tid, t.n, t.account, outcome, tapped));
  }

  /** The outcome may be written, of a request still registered, by its current attempt. */
  ghost predicate MayKeep(s: State, e: Event) {
    && e.Kept? && IsOutcome(e.outcome) && IsCurrent(s, e.rid, e.n) && Began(s.log, e.rid, e.tid, e.n)
    && (e.outcome == Approved || e.outcome == Rejected ==>
          TapAt(s.log, e.tapped, e.rid, e.tid, e.outcome == Approved))
  }

  lemma KeptExtends(cfg: Config, s: State, e: Event)
    requires Inv(cfg, s) && MayKeep(s, e)
    ensures Extends(cfg, s.log, s.log + [e], e.rid, [e])
  {
    KeptEventOk(cfg, s, e);
    OneEvent(cfg, s.log, e.rid, e);
  }

  lemma KeptEventOk(cfg: Config, s: State, e: Event)
    requires Inv(cfg, s) && MayKeep(s, e)
    ensures EventOk(cfg, s.log + [e], |s.log|)
  {
    var longer := s.log + [e];
    assert longer[..|s.log|] == s.log;
    assert LoginAt(cfg, s.log, s.logins, e.rid);
    forall j | 0 <= j < |s.log|
      ensures StillCurrent(longer, j, e.rid, e.n) && TakesOther(longer, |s.log|, j)
    {
      assert NumberAt(s.log, j, e.rid, e.n);
      assert Known(s.logins, s.pending, s.log, j);
    }
  }

  /** Attempt `tid` has come to this outcome. */
  ghost predicate HasOutcome(cfg: Config, s: State, left: State, tid: nat, outcome: Status, tapped: nat) {
    && Inv(cfg, s) && tid in s.tasks && IsNumbered(s.tasks[tid]) && IsOutcome(outcome)
    && left == s.(registry := left.registry) && ClearOf(left.registry, s.tasks, tid)
    && (outcome == Approved || outcome == Rejected ==>
          TapAt(s.log, tapped, s.tasks[tid].rid, tid, outcome == Approved))
  }

  /** The outcome of an attempt, written or discarded. */
  lemma ConcludeKeepsInv(cfg: Config, s: State, left: State, tid: nat, outcome: Status, tapped: nat)
    requires HasOutcome(cfg, s, left, tid, outcome, tapped)
    ensures var t := s.tasks[tid];
            Inv(cfg, Conclude(left, tid, t.rid, t.n, t.account, outcome, tapped))
  {
    if !IsCurrent(left, s.tasks[tid].rid, s.tasks[tid].n) {
      DiscardKeepsInv(cfg, s, left, tid);
    } else if outcome == Approved || outcome == Rejected {
      VerdictKeepsInv(cfg, s, left, tid, outcome, tapped);
    } else {
      NoVerdictKeepsInv(cfg, s, left, tid, outcome, tapped);
    }
  }

  lemma VerdictKeepsInv(cfg: Config, s: State, left: State, tid: nat, outcome: Status, tapped: nat)
    requires HasOutcome(cfg, s, left, tid, outcome, tapped) && (outcome == Approved || outcome == Rejected)
    requires IsCurrent(left, s.tasks[tid].rid, s.tasks[tid].n)
    ensures var t := s.tasks[tid];
            Inv(cfg, Conclude(left, tid, t.rid, t.n, t.account, outcome, tapped))
  {
    var t := s.tasks[tid];
    var next := AttemptRecord(t.rid, t.n, t.account, |s.log|, outcome == Approved);
    assert MayWrite(cfg, s, left, tid, outcome, tapped, next);
    WrittenKeepsInv(cfg, s, left, tid, outcome, tapped, next);
    assert Conclude(left, tid, t.rid, t.n, t.account, outcome, tapped) == Written(left, tid, t, outcome, tapped, next);
  }

  /** Neither approved nor rejected: the outcome goes straight to the audit log. */
  lemma NoVerdictKeepsInv(cfg: Config, s: State, left: State, tid: nat, outcome: Status, tapped: nat)
    requires HasOutcome(cfg, s, left, tid, outcome, tapped) && outcome != Approved && outcome != Rejected
    requires IsCurrent(left, s.tasks[tid].rid, s.tasks[tid].n)
    ensures var t := s.tasks[tid];
            Inv(cfg, Conclude(left, tid, t.rid, t.n, t.account, outcome, tapped))
  {
    var t := s.tasks[tid];
    var next := AttemptFile(t.rid, t.n, t.account, |s.log|);
    assert MayWrite(cfg, s, left, tid, outcome, tapped, next);
    WrittenKeepsInv(cfg, s, left, tid, outcome, tapped, next);
    var mid := Written(left, tid, t, outcome, tapped, next);
    FileKeepsInv(cfg, mid, tid);
    FiledAtOnce(left, tid, t, outcome, tapped);
  }

  lemma FiledAtOnce(left: State, tid: nat, t: Task, outcome: Status, tapped: nat)
    requires IsNumbered(t) && outcome != Approved && outcome != Rejected && IsCurrent(left, t.rid, t.n)
    ensures var mid := Written(left, tid, t, outcome, tapped, AttemptFile(t.rid, t.n, t.account, |left.log|));
            Conclude(left, tid, t.rid, t.n, t.account, outcome, tapped)
            == WithTask(FileOutcome(mid, tid, t.rid, t.account, |left.log|), tid, Done)
  {
    var written := Logged(WithLogin(left, t.rid, left.logins[t.rid].(status := outcome)),
                          Kept(t.rid, tid, t.n, t.account, outcome, tapped));
    FilingIgnoresTask(written, tid, AttemptFile(t.rid, t.n, t.account, |left.log|), t.rid, t.account, |left.log|);
  }

  lemma FilingIgnoresTask(s: State, tid: nat, task: Task, rid: Id, account: string, kept: nat)
    requires rid in s.logins
    ensures WithTask(FileOutcome(WithTask(s, tid, task), tid, rid, account, kept), tid, Done)
            == WithTask(FileOutcome(s, tid, rid, account, kept), tid, Done)
  {
    assert s.tasks[tid := task][tid := Done] == s.tasks[tid := Done];
  }

  lemma FileKeepsInv(cfg: Config, s: State, tid: nat)
    requires Inv(cfg, s) && tid in s.tasks && s.tasks[tid].AttemptFile? && s.tasks[tid].rid in s.logins
    ensures var t := s.tasks[tid];
            Inv(cfg, WithTask(FileOutcome(s, tid, t.rid, t.account, t.kept), tid, Done))
  {
    var task, rid := s.tasks[tid], s.tasks[tid].rid;
    var s' := WithTask(FileOutcome(s, tid, rid, task.account, task.kept), tid, Done);
    assert TaskAt(s.log, s.logins, s.tasks, tid);
    RegistryKept(s, s', tid);
    if IsOutcome(s.logins[rid].status) {
      var e := Filed(tid, AuditRow(task.account, rid, Ended(s.logins[rid].status), s.logins[rid].ip), Some(task.kept));
      OneEvent(cfg, s.log, rid, e);
      LoginStands(cfg, s, s', rid, tid, [e]);
      MoveKeepsInv(cfg, s, s', rid, tid, [e]);
    } else {
      Quietly(cfg, s, rid);
      LoginStands(cfg, s, s', rid, tid, []);
      MoveKeepsInv(cfg, s, s', rid, tid, []);
    }
  }

  lemma NotifyKeepsInv(cfg: Config, s: State, tid: nat, answer: Answer)
    requires Inv(cfg, s) && tid in s.tasks && s.tasks[tid].AttemptNotify?
    ensures Inv(cfg, NotifyStep(cfg, s, tid, s.tasks[tid], answer))
  {
    var task, rid := s.tasks[tid], s.tasks[tid].rid;
    var s' := NotifyStep(cfg, s, tid, task, answer);
    assert TaskAt(s.log, s.logins, s.tasks, tid);
    LeavingClears(s, tid, s.registry);
    if answer.sends.None? || (|answer.sends.value| == |task.targets| && true !in answer.sends.value) {
      ConcludeKeepsInv(cfg, s, s, tid, SendFailed, 0);
    } else if |answer.sends.value| == |task.targets| {
      RegisterKeepsInv(cfg, s, tid);
    }
  }

  lemma RegisterKeepsInv(cfg: Config, s: State, tid: nat)
    requires Inv(cfg, s) && tid in s.tasks && s.tasks[tid].AttemptNotify?
    ensures var t := s.tasks[tid];
            Inv(cfg, WithTask(s.(registry := s.registry[t.rid := tid]), tid,
                              AttemptWait(t.rid, t.n, t.account, s.now + cfg.approvalTimeout, Unset, false)))
  {
    var task, rid := s.tasks[tid], s.tasks[tid].rid;
    var s' := WithTask(s.(registry := s.registry[rid := tid]), tid,
                       AttemptWait(rid, task.n, task.account, s.now + cfg.approvalTimeout, Unset, false));
    assert TaskAt(s.log, s.logins, s.tasks, tid);
    Quietly(cfg, s, rid);
    forall id | id in s'.registry
      ensures RegisteredAt(s'.registry, s'.tasks, id)
    {
      if id != rid {
        assert RegisteredAt(s.registry, s.tasks, id);
      }
    }
    LoginStands(cfg, s, s', rid, tid, []);
    MoveKeepsInv(cfg, s, s', rid, tid, []);
  }

  lemma WaitKeepsInv(cfg: Config, s: State, tid: nat)
    requires Inv(cfg, s) && tid in s.tasks && s.tasks[tid].AttemptWait?
    ensures Inv(cfg, WaitStep(s, tid, s.tasks[tid]))
  {
    var task, rid := s.tasks[tid], s.tasks[tid].rid;
    assert TaskAt(s.log, s.logins, s.tasks, tid);
    if !(task.fut.Unset? && !task.expired) {
      var mine := rid in s.registry && s.registry[rid] == tid;
      var left := s.(registry := if mine then s.registry - {rid} else s.registry);
      LeavingClears(s, tid, left.registry);
      if task.expired || !task.fut.Resolved? {
        ConcludeKeepsInv(cfg, s, left, tid, TimedOut, 0);
      } else {
        ConcludeKeepsInv(cfg, s, left, tid, if task.fut.verdict then Approved else Rejected, task.fut.tapped);
      }
    }
  }

  lemma RecordKeepsInv(cfg: Config, s: State, tid: nat)
    requires Inv(cfg, s) && tid in s.tasks && s.tasks[tid].AttemptRecord? && s.tasks[tid].rid in s.logins
    ensures var t := s.tasks[tid];
            Inv(cfg, WithTask(BlockWrite(cfg, s, tid, (t.account, s.logins[t.rid].ip), t.success, t.kept), tid,
                              AttemptFile(t.rid, t.n, t.account, t.kept)))
  {
    var t, rid := s.tasks[tid], s.tasks[tid].rid;
    var e := BlockWritten(tid, (t.account, s.logins[rid].ip), t.success, t.kept, s.now);
    var s' := WithTask(BlockWrite(cfg, s, tid, (t.account, s.logins[rid].ip), t.success, t.kept), tid,
                       AttemptFile(rid, t.n, t.account, t.kept));
    assert TaskAt(s.log, s.logins, s.tasks, tid);
    OneEvent(cfg, s.log, rid, e);
    RegistryKept(s, s', tid);
    LoginStands(cfg, s, s', rid, tid, [e]);
    MoveKeepsInv(cfg, s, s', rid, tid, [e]);
  }

  lemma AttemptKeepsInv(cfg: Config, s: State, tid: nat, answer: Answer)
    requires Inv(cfg, s) && tid in s.tasks && (s.tasks[tid].AttemptNew? || IsNumbered(s.tasks[tid]))
    ensures Inv(cfg, AttemptStep(cfg, s, tid, s.tasks[tid], answer))
  {
    var task := s.tasks[tid];
    assert TaskAt(s.log, s.logins, s.tasks, tid);
    match task
    case AttemptNew(rid, targets) => BeginAttemptKeepsInv(cfg, s, tid, rid, targets);
    case AttemptBlockCheck(_, _, _, _) => BlockCheckKeepsInv(cfg, s, tid);
    case AttemptNotify(_, _, _, _) => NotifyKeepsInv(cfg, s, tid, answer);
    case AttemptWait(_, _, _, _, _, _) => WaitKeepsInv(cfg, s, tid);
    case AttemptRecord(_, _, _, _, _) => RecordKeepsInv(cfg, s, tid);
    case AttemptFile(_, _, _, _) => FileKeepsInv(cfg, s, tid);
  }

  // ----- the steps of a recovery code check -----

  /** What a code check under way knows of its request. */
  lemma CodeTask(s: State, tid: nat)
    requires TasksOk(s.log, s.logins, s.tasks) && tid in s.tasks && IsCode(s.tasks[tid])
    ensures var t := s.tasks[tid];
            t.rid in s.logins && s.logins[t.rid].account.Some?
            && (t.CodeWrong? ==> CodeRefusedAt(s.log, t.refused, t.rid, tid, t.account))
            && (t.CodeRight? || t.CodeFile? || t.CodeFinish? ==>
                  CodeAcceptedAt(s.log, t.accepted, t.rid, tid, t.account))
  {
    assert TaskAt(s.log, s.logins, s.tasks, tid);
  }

  /** A step of a code check that leaves its request alone. */
  ghost predicate CodeMoves(s: State, s': State, tid: nat, more: seq<Event>) {
    && tid in s.tasks && IsCode(s.tasks[tid]) && s.tasks[tid].rid in s.logins
    && SameTables(s, s') && s'.logins == s.logins && s'.registry == s.registry && s'.log == s.log + more
    && tid in s'.tasks && s'.tasks == s.tasks[tid := s'.tasks[tid]]
    && (more == [] || (|more| == 1 && IsHarmless(more[0]) && EventRests(s.log, more[0])
                       && !more[0].AttemptBegan? && !more[0].Kept? && !more[0].EmailSubmitted?))
    && (s'.tasks[tid].Done? || (IsCode(s'.tasks[tid]) && s'.tasks[tid].rid == s.tasks[tid].rid
                                && TaskOk(s'.log, s'.logins, tid, s'.tasks[tid])))
  }

  lemma CodeMoveKeepsInv(cfg: Config, s: State, s': State, tid: nat, more: seq<Event>)
    requires Inv(cfg, s) && CodeMoves(s, s', tid, more)
    ensures Inv(cfg, s')
  {
    var rid := s.tasks[tid].rid;
    RegistryKept(s, s', tid);
    LoginStands(cfg, s, s', rid, tid, more);
    if more == [] {
      Quietly(cfg, s, rid);
      assert s'.log == s.log;
    } else {
      assert more == [more[0]];
      OneEvent(cfg, s.log, rid, more[0]);
    }
    MoveKeepsInv(cfg, s, s', rid, tid, more);
  }

  lemma CodeFinishKeepsInv(cfg: Config, s: State, tid: nat)
    requires Inv(cfg, s) && tid in s.tasks && s.tasks[tid].CodeFinish?
    ensures Inv(cfg, CodeStep(cfg, s, tid, s.tasks[tid]))
  {
    var t, rid := s.tasks[tid], s.tasks[tid].rid;
    var s' := CodeStep(cfg, s, tid, t);
    CodeTask(s, tid);
    assert LoginAt(cfg, s.log, s.logins, rid);
    var e := RecoveryApproved(rid, tid, t.account, t.accepted);
    LoginStaysOk(cfg, s.log, [e], rid, s.logins[rid]);
    OneEvent(cfg, s.log, rid, e);
    RegistryKept(s, s', tid);
    assert s'.log[|s.log|] == e;
    MoveKeepsInv(cfg, s, s', rid, tid, [e]);
  }

  lemma CodeKeepsInv(cfg: Config, s: State, tid: nat)
    requires Inv(cfg, s) && tid in s.tasks && IsCode(s.tasks[tid])
    ensures Inv(cfg, CodeStep(cfg, s, tid, s.tasks[tid]))
  {
    var t := s.tasks[tid];
    CodeTask(s, tid);
    if t.CodeFinish? {
      CodeFinishKeepsInv(cfg, s, tid);
    } else if t.CodeHash? {
      CodeHashKeepsInv(cfg, s, tid);
    } else if t.CodeWrong? || t.CodeRight? {
      CodeRecordKeepsInv(cfg, s, tid);
    } else if t.CodeFile? {
      CodeFileKeepsInv(cfg, s, tid);
    } else {
      CodeLookupKeepsInv(cfg, s, tid);
    }
  }

  lemma CodeLookupKeepsInv(cfg: Config, s: State, tid: nat)
    requires Inv(cfg, s) && tid in s.tasks
    requires s.tasks[tid].CodeBlockCheck? || s.tasks[tid].CodeReadGeneration? || s.tasks[tid].CodeReadRows?
    ensures Inv(cfg, CodeStep(cfg, s, tid, s.tasks[tid]))
  {
    CodeTask(s, tid);
    var t, s' := s.tasks[tid], CodeStep(cfg, s, tid, s.tasks[tid]);
    if t.CodeReadGeneration? && Recovery.Current(s.recovery, t.account).None? {
      RefusedKeepsInv(cfg, s, tid);
    } else {
      assert CodeMoves(s, s', tid, []);
      CodeMoveKeepsInv(cfg, s, s', tid, []);
    }
  }

  lemma CodeHashKeepsInv(cfg: Config, s: State, tid: nat)
    requires Inv(cfg, s) && tid in s.tasks && s.tasks[tid].CodeHash?
    ensures Inv(cfg, CodeStep(cfg, s, tid, s.tasks[tid]))
  {
    var t := s.tasks[tid];
    CodeTask(s, tid);
    match Recovery.Match(t.candidates, t.code)
    case None =>
      RefusedKeepsInv(cfg, s, tid);
    case Some(row) =>
      AcceptedKeepsInv(cfg, s, tid, row);
  }

  lemma RefusedKeepsInv(cfg: Config, s: State, tid: nat)
    requires Inv(cfg, s) && tid in s.tasks && (s.tasks[tid].CodeReadGeneration? || s.tasks[tid].CodeHash?)
    ensures var t := s.tasks[tid];
            Inv(cfg, Refusing(s, tid, t.rid, t.account, t.ip, t.code))
  {
    var t := s.tasks[tid];
    var e, s' := CodeRefused(t.rid, tid, t.account, t.ip, t.code), Refusing(s, tid, t.rid, t.account, t.ip, t.code);
    CodeTask(s, tid);
    assert s'.log[|s.log|] == e;
    assert CodeMoves(s, s', tid, [e]);
    CodeMoveKeepsInv(cfg, s, s', tid, [e]);
  }

  lemma AcceptedKeepsInv(cfg: Config, s: State, tid: nat, row: nat)
    requires Inv(cfg, s) && tid in s.tasks && s.tasks[tid].CodeHash?
    ensures var t := s.tasks[tid];
            Inv(cfg, Logged(WithTask(s.(recovery := Recovery.Spend(s.recovery, row)), tid,
                                     CodeRight(t.rid, t.account, t.ip, |s.log|)),
                            CodeAccepted(t.rid, tid, t.account, t.ip, row, t.code)))
  {
    var t := s.tasks[tid];
    var e := CodeAccepted(t.rid, tid, t.account, t.ip, row, t.code);
    var s' := Logged(WithTask(s.(recovery := Recovery.Spend(s.recovery, row)), tid,
                              CodeRight(t.rid, t.account, t.ip, |s.log|)), e);
    CodeTask(s, tid);
    assert s'.log[|s.log|] == e;
    assert CodeMoves(s, s', tid, [e]);
    CodeMoveKeepsInv(cfg, s, s', tid, [e]);
  }

  lemma CodeRecordKeepsInv(cfg: Config, s: State, tid: nat)
    requires Inv(cfg, s) && tid in s.tasks && (s.tasks[tid].CodeWrong? || s.tasks[tid].CodeRight?)
    ensures Inv(cfg, CodeStep(cfg, s, tid, s.tasks[tid]))
  {
    if s.tasks[tid].CodeWrong? {
      CodeWrongKeepsInv(cfg, s, tid);
    } else {
      CodeRightKeepsInv(cfg, s, tid);
    }
  }

  lemma CodeWrongKeepsInv(cfg: Config, s: State, tid: nat)
    requires Inv(cfg, s) && tid in s.tasks && s.tasks[tid].CodeWrong?
    ensures Inv(cfg, CodeStep(cfg, s, tid, s.tasks[tid]))
  {
    var t := s.tasks[tid];
    CodeTask(s, tid);
    var e := BlockWritten(tid, (t.account, t.ip), false, t.refused, s.now);
    var s' := WithTask(BlockWrite(cfg, s, tid, (t.account, t.ip), false, t.refused), tid, Done);
    assert CodeMoves(s, s', tid, [e]);
    CodeMoveKeepsInv(cfg, s, s', tid, [e]);
  }

  lemma CodeRightKeepsInv(cfg: Config, s: State, tid: nat)
    requires Inv(cfg, s) && tid in s.tasks && s.tasks[tid].CodeRight?
    ensures Inv(cfg, CodeStep(cfg, s, tid, s.tasks[tid]))
  {
    var t := s.tasks[tid];
    CodeTask(s, tid);
    var e := BlockWritten(tid, (t.account, t.ip), true, t.accepted, s.now);
    var s' := WithTask(BlockWrite(cfg, s, tid, (t.account, t.ip), true, t.accepted), tid,
                       CodeFile(t.rid, t.account, t.ip, t.accepted));
    assert CodeMoves(s, s', tid, [e]);
    CodeMoveKeepsInv(cfg, s, s', tid, [e]);
  }

  lemma CodeFileKeepsInv(cfg: Config, s: State, tid: nat)
    requires Inv(cfg, s) && tid in s.tasks && s.tasks[tid].CodeFile?
    ensures Inv(cfg, CodeStep(cfg, s, tid, s.tasks[tid]))
  {
    var t := s.tasks[tid];
    CodeTask(s, tid);
    var e := Filed(tid, AuditRow(t.account, t.rid, RecoveryCodeUsed, t.ip), Some(t.accepted));
    var s' := CodeStep(cfg, s, tid, t);
    assert CodeMoves(s, s', tid, [e]);
    CodeMoveKeepsInv(cfg, s, s', tid, [e]);
  }

  lemma TaskGrows(log: seq<Event>, log': seq<Event>, logins: map<Id, Login>, tid: nat, task: Task)
    requires TaskOk(log, logins, tid, task) && log <= log'
    ensures TaskOk(log', logins, tid, task)
  {
  }

  lemma TaskStepKeepsInv(cfg: Config, s: State, tid: nat, answer: Answer)
    requires Inv(cfg, s)
    ensures Inv(cfg, TaskStep(cfg, s, tid, answer))
  {
    if tid in s.tasks {
      var task := s.tasks[tid];
      if task.Done? {
      } else if IsStart(task) {
        StartKeepsInv(cfg, s, tid, answer);
      } else if task.RetryLookup? {
        RetryLookupKeepsInv(cfg, s, tid, answer.targets);
      } else if task.AttemptNew? || IsNumbered(task) {
        AttemptKeepsInv(cfg, s, tid, answer);
      } else {
        CodeKeepsInv(cfg, s, tid);
      }
    }
  }

  // ----- the handlers that take requests and codes in and out -----

  lemma {:induction false} WithoutKeeps(ids: seq<Id>, rid: Id)
    requires Distinct(ids)
    ensures Distinct(Without(ids, rid))
    ensures forall id :: id in Without(ids, rid) <==> id in ids && id != rid
    ensures |Without(ids, rid)| == |ids| - (if rid in ids then 1 else 0)
  {
    if ids != [] {
      assert ids == [ids[0]] + ids[1..];
      assert ids[0] !in ids[1..];
      if ids[0] != rid {
        WithoutKeeps(ids[1..], rid);
        assert ids[0] !in Without(ids[1..], rid);
      }
    }
  }

  ghost predicate InOrder(logins: map<Id, Login>, ids: seq<Id>)
    requires forall id | id in ids :: id in logins
  {
    forall i, j | 0 <= i < j < |ids| :: logins[ids[i]].createdAt <= logins[ids[j]].createdAt
  }

  lemma {:induction false} WithoutInOrder(logins: map<Id, Login>, ids: seq<Id>, rid: Id)
    requires (forall id | id in ids :: id in logins) && InOrder(logins, ids)
    ensures forall id | id in Without(ids, rid) :: id in ids
    ensures InOrder(logins, Without(ids, rid))
  {
    if ids != [] && ids[0] != rid {
      var tail := ids[1..];
      assert forall i | 0 <= i < |tail| :: tail[i] == ids[i + 1];
      WithoutInOrder(logins, tail, rid);
      forall id | id in tail
        ensures logins[ids[0]].createdAt <= logins[id].createdAt
      {
        var k :| 0 <= k < |tail| && tail[k] == id;
      }
      FirstThenInOrder(logins, ids[0], Without(tail, rid));
    }
  }

  lemma FirstThenInOrder(logins: map<Id, Login>, first: Id, rest: seq<Id>)
    requires first in logins && (forall id | id in rest :: id in logins) && InOrder(logins, rest)
    requires forall id | id in rest :: logins[first].createdAt <= logins[id].createdAt
    ensures InOrder(logins, [first] + rest)
  {
    forall i, j | 0 <= i < j < |rest| + 1
      ensures logins[([first] + rest)[i]].createdAt <= logins[([first] + rest)[j]].createdAt
    {
      assert rest[j - 1] in rest;
      if i > 0 {
        assert logins[rest[i - 1]].createdAt <= logins[rest[j - 1]].createdAt;
      }
    }
  }

  /** One request leaves `_pending`, and the event says so. */
  lemma LeavingKeepsPending(now: real, logins: map<Id, Login>, pending: seq<Id>, log: seq<Event>, rid: Id, e: Event)
    requires PendingOk(now, logins, pending, log) && rid in pending
    requires Exits(e) == {rid} && !e.AttemptBegan? && !e.EmailSubmitted?
    ensures PendingOk(now, logins, Without(pending, rid), log + [e])
  {
    WithoutKeeps(pending, rid);
    WithoutInOrder(logins, pending, rid);
    var longer := log + [e];
    forall j | 0 <= j < |longer|
      ensures Known(logins, Without(pending, rid), longer, j)
    {
      assert j < |log| ==> Known(logins, pending, log, j);
    }
    forall id | id in logins && id !in Without(pending, rid)
      ensures Left(longer, id)
    {
      if id == rid {
        assert longer[|log|] == e;
      } else {
        assert Left(log, id);
        LeftStays(log, [e], id);
      }
    }
  }

  /** Requests and tasks do not notice events that begin no attempt. */
  lemma BystandersKept(cfg: Config, s: State, e: Event)
    requires LoginsOk(cfg, s.log, s.logins) && TasksOk(s.log, s.logins, s.tasks)
    requires !e.AttemptBegan? && !e.EmailSubmitted?
    ensures LoginsOk(cfg, s.log + [e], s.logins) && TasksOk(s.log + [e], s.logins, s.tasks)
  {
    forall rid | rid in s.logins
      ensures LoginAt(cfg, s.log + [e], s.logins, rid)
    {
      assert LoginAt(cfg, s.log, s.logins, rid);
      LoginStaysOk(cfg, s.log, [e], rid, s.logins[rid]);
    }
    forall t | t in s.tasks
      ensures TaskAt(s.log + [e], s.logins, s.tasks, t)
    {
      assert TaskAt(s.log, s.logins, s.tasks, t);
      TaskGrows(s.log, s.log + [e], s.logins, t, s.tasks[t]);
    }
  }

  lemma TakesOthers(s: State, e: Event)
    requires PendingOk(s.now, s.logins, s.pending, s.log) && CodesOk(s.now, s.log, s.codes, s.issued)
    requires (forall id | id in Exits(e) :: id in s.pending) && Spends(e) <= s.codes.Keys
    ensures var longer := s.log + [e];
            forall j | 0 <= j < |s.log| :: TakesOther(longer, |s.log|, j)
  {
    var longer := s.log + [e];
    forall j | 0 <= j < |s.log|
      ensures TakesOther(longer, |s.log|, j)
    {
      assert Known(s.logins, s.pending, s.log, j);
      assert SpendsKnown(s.log, s.codes, s.issued, j);
    }
  }

  lemma FailKeepsInv(cfg: Config, s: State, rid: Id, e: Event)
    requires Inv(cfg, s) && rid in s.pending && (e == Failed(rid) || e == Evicted(rid))
    ensures Inv(cfg, Logged(s.(pending := Without(s.pending, rid)), e))
  {
    TakesOthers(s, e);
    LogExtends(cfg, s.log, [e]);
    BystandersKept(cfg, s, e);
    LeavingKeepsPending(s.now, s.logins, s.pending, s.log, rid, e);
    forall j | 0 <= j < |s.log + [e]|
      ensures SpendsKnown(s.log + [e], s.codes, s.issued, j)
    {
      assert j < |s.log| ==> SpendsKnown(s.log, s.codes, s.issued, j);
    }
    IssuedKept(s.now, s.log, e, s.codes, s.issued);
  }

  lemma IssuedKept(now: real, log: seq<Event>, e: Event, codes: map<string, CodeEntry>, issued: map<string, nat>)
    requires CodesOk(now, log, codes, issued)
    ensures forall c {:trigger IssuedAt(now, log + [e], codes, issued, c)} | c in issued ::
              IssuedAt(now, log + [e], codes, issued, c)
  {
    forall c | c in issued
      ensures IssuedAt(now, log + [e], codes, issued, c)
    {
      assert IssuedAt(now, log, codes, issued, c);
      assert (log + [e])[issued[c]] == log[issued[c]];
      PresentedStays(log, [e], c);
    }
  }

  // ----- /authorize -----

  lemma {:induction false} EvictKeepsInv(cfg: Config, s: State)
    requires Inv(cfg, s)
    ensures Inv(cfg, Evict(s)) && |Evict(s).pending| < MAX_PENDING
    ensures Evict(s).now == s.now && Evict(s).logins == s.logins && Evict(s).tasks == s.tasks
    ensures Evict(s).registry == s.registry
    decreases |s.pending|
  {
    if |s.pending| >= MAX_PENDING {
      var oldest := Oldest(s.logins, s.pending);
      WithoutShrinks(s.pending, oldest);
      FailKeepsInv(cfg, s, oldest, Evicted(oldest));
      EvictKeepsInv(cfg, Logged(s.(pending := Without(s.pending, oldest)), Evicted(oldest)));
    }
  }

  lemma AdmittedKeepsInv(cfg: Config, s: State, r: AuthorizeRequest, rid: Id)
    requires Inv(cfg, s) && rid !in s.logins && |s.pending| < MAX_PENDING
    ensures Inv(cfg, Admitted(s, r, rid))
  {
    var s' := Admitted(s, r, rid);
    var e := s'.log[|s.log|];
    assert s'.log == s.log + [e];
    TakesOthers(s, e);
    LogExtends(cfg, s.log, [e]);
    NewLoginOk(cfg, s, s', rid, e);
    NewTasksOk(s, s', rid, e);
    forall j | 0 <= j < |s'.log|
      ensures Known(s'.logins, s'.pending, s'.log, j)
      ensures SpendsKnown(s'.log, s'.codes, s'.issued, j)
    {
      assert j < |s.log| ==> Known(s.logins, s.pending, s.log, j) && SpendsKnown(s.log, s.codes, s.issued, j);
    }
    forall id | id in s'.logins && id !in s'.pending
      ensures Left(s'.log, id)
    {
      assert Left(s.log, id);
      LeftStays(s.log, [e], id);
    }
    IssuedKept(s.now, s.log, e, s.codes, s.issued);
  }

  lemma NewLoginOk(cfg: Config, s: State, s': State, rid: Id, e: Event)
    requires Inv(cfg, s) && rid !in s.logins && s'.log == s.log + [e] && e.Authorized?
    requires rid in s'.logins && s'.logins == s.logins[rid := s'.logins[rid]]
    requires var l := s'.logins[rid];
             l.authorized == |s.log|
             && e == Authorized(rid, l.clientId, l.redirectUri, l.nonce, l.challenge, l.hint, l.ip, l.createdAt)
             && l.account.None? && l.status == AwaitingEmail && l.attempt == 0
    ensures LoginsOk(cfg, s'.log, s'.logins)
  {
    forall id | id in s'.logins
      ensures LoginAt(cfg, s'.log, s'.logins, id)
    {
      if id != rid {
        assert LoginAt(cfg, s.log, s.logins, id);
        LoginStaysOk(cfg, s.log, [e], id, s.logins[id]);
      } else {
        NoAttemptYet(cfg, s, rid);
        forall j | 0 <= j < |s'.log|
          ensures NumberAt(s'.log, j, rid, 0) && UnsentAt(s'.log, j, rid)
        {
          assert j < |s.log| ==> UnbornAt(s.log, j, rid);
        }
      }
    }
  }

  predicate UnbornAt(log: seq<Event>, j: nat, rid: Id)
    requires j < |log|
  {
    !((log[j].AttemptBegan? || log[j].EmailSubmitted?) && log[j].rid == rid)
  }

  /** No attempt of a request begins, and no address is given for it, before it is made. */
  lemma NoAttemptYet(cfg: Config, s: State, rid: Id)
    requires Inv(cfg, s) && rid !in s.logins
    ensures forall j | 0 <= j < |s.log| :: UnbornAt(s.log, j, rid)
  {
    forall j | 0 <= j < |s.log|
      ensures UnbornAt(s.log, j, rid)
    {
      assert Known(s.logins, s.pending, s.log, j);
    }
  }

  lemma NewTasksOk(s: State, s': State, rid: Id, e: Event)
    requires TasksOk(s.log, s.logins, s.tasks) && rid !in s.logins && s'.log == s.log + [e]
    requires rid in s'.logins && s'.logins == s.logins[rid := s'.logins[rid]] && s'.tasks == s.tasks
    ensures TasksOk(s'.log, s'.logins, s'.tasks)
  {
    forall t | t in s'.tasks
      ensures TaskAt(s'.log, s'.logins, s'.tasks, t)
    {
      assert TaskAt(s.log, s.logins, s.tasks, t);
    }
    forall a, b | a in s'.tasks && b in s'.tasks && a != b
      ensures ApartAt(s'.tasks, a, b)
    {
      assert TaskAt(s.log, s.logins, s.tasks, a);
      assert ApartAt(s.tasks, a, b);
    }
  }
}
