/** How outcomes persist: what one step can do to a request and to a task it does not
    belong to, and from it what becomes of replaced attempts, which write no outcome once
    they are at their sends or their wait, and of approvals, which some steps take back. */
module ProtocolStability {
  import opened Options
  import opened LoginProtocol
  import opened ProtocolInvariants
  import opened ProtocolSteps
  import opened ProtocolRuns
  import Blocks = IpBlocking
  import Recovery = RecoveryCodes

  // ----- what one step can do to a request and to a task -----

  /** Requests are never forgotten, attempts never renumbered, and a request that left
      `_pending` never comes back. */
  ghost predicate Onward(s: State, s': State) {
    && (forall rid {:trigger OnwardAt(s, s', rid)} | rid in s.logins :: OnwardAt(s, s', rid))
  }

  ghost predicate OnwardAt(s: State, s': State, rid: Id)
    requires rid in s.logins
  {
    && rid in s'.logins && s'.logins[rid].attempt >= s.logins[rid].attempt
    && (rid !in s.pending ==> rid !in s'.pending)
  }

  /** The steps that take an approval back: a start refused for want of targets, a resend
      past its admission that reaches its block check, and the current attempt ending
      otherwise. */
  predicate TakesBack(s: State, a: Action, rid: Id) {
    && a.OnTask? && a.tid in s.tasks && !s.tasks[a.tid].Done? && s.tasks[a.tid].rid == rid
    && var t := s.tasks[a.tid];
       || (t.StartLookup? && a.answer.targets == [])
       || t.AttemptBlockCheck?
       || (t.AttemptNotify? && IsCurrent(s, rid, t.n)
           && (a.answer.sends.None? || (|a.answer.sends.value| == |t.targets| && true !in a.answer.sends.value)))
       || (t.AttemptWait? && IsCurrent(s, rid, t.n)
           && (t.expired || t.fut.Cancelled? || (t.fut.Resolved? && !t.fut.verdict)))
  }

  /** A task's step touches its own place and its own request, and admits or drops none. */
  ghost predicate OwnStep(s: State, s': State, rid: Id, tid: nat) {
    && s'.pending == s.pending
    && tid in s'.tasks && s'.tasks == s.tasks[tid := s'.tasks[tid]]
    && (s'.tasks[tid].Done? || s'.tasks[tid].rid == rid)
    && rid in s.logins && rid in s'.logins && s'.logins == s.logins[rid := s'.logins[rid]]
    && s'.logins[rid].attempt >= s.logins[rid].attempt
  }

  lemma BeginOwn(s: State, tid: nat, rid: Id, targets: seq<string>)
    requires rid in s.logins
    ensures OwnStep(s, BeginAttempt(s, tid, rid, targets), rid, tid)
    ensures BeginAttempt(s, tid, rid, targets).logins[rid].status == s.logins[rid].status
  {
    if rid in s.pending {
      assert BeginAttempt(s, tid, rid, targets).logins.Keys == s.logins.Keys;
    } else {
      assert s.logins[rid := s.logins[rid]] == s.logins;
    }
  }

  lemma StartOwn(cfg: Config, s: State, tid: nat, answer: Answer)
    requires tid in s.tasks && IsStart(s.tasks[tid]) && s.tasks[tid].rid in s.logins
    ensures OwnStep(s, StartStep(cfg, s, tid, s.tasks[tid], answer), s.tasks[tid].rid, tid)
    ensures var rid, s' := s.tasks[tid].rid, StartStep(cfg, s, tid, s.tasks[tid], answer);
            s'.logins[rid].status
            == if s.tasks[tid].StartLookup? && answer.targets == [] then Denied else s.logins[rid].status
  {
    var task, rid := s.tasks[tid], s.tasks[tid].rid;
    if task.StartLookup? && answer.targets != [] {
      ResolvedOwn(cfg, s, tid, rid, task.address, answer.targets);
    } else {
      assert s.logins[rid := s.logins[rid]] == s.logins;
    }
  }

  lemma ResolvedOwn(cfg: Config, s: State, tid: nat, rid: Id, address: string, targets: seq<string>)
    requires rid in s.logins
    ensures var login := s.logins[rid].(email := Some(address), account := Some(cfg.normalize(address)));
            var s' := BeginAttempt(Logged(WithLogin(s, rid, login), AccountResolved(rid, address)), tid, rid, targets);
            OwnStep(s, s', rid, tid) && s'.logins[rid].status == s.logins[rid].status
  {
    var login := s.logins[rid].(email := Some(address), account := Some(cfg.normalize(address)));
    var mid := Logged(WithLogin(s, rid, login), AccountResolved(rid, address));
    BeginOwn(mid, tid, rid, targets);
    assert mid.logins == s.logins[rid := login];
  }

  lemma ConcludeOwn(s: State, tid: nat, rid: Id, n: nat, account: string, outcome: Status, tapped: nat)
    requires rid in s.logins
    ensures OwnStep(s, Conclude(s, tid, rid, n, account, outcome, tapped), rid, tid)
    ensures Conclude(s, tid, rid, n, account, outcome, tapped).logins[rid].status
         == if IsCurrent(s, rid, n) then outcome else s.logins[rid].status
  {
    var s' := Conclude(s, tid, rid, n, account, outcome, tapped);
    if !IsCurrent(s, rid, n) {
      assert s.logins[rid := s.logins[rid]] == s.logins;
    } else if outcome == Approved || outcome == Rejected {
      assert s'.pending == s.pending && s'.logins.Keys == s.logins.Keys;
    } else {
      assert s'.pending == s.pending && s'.logins.Keys == s.logins.Keys;
    }
  }

  lemma WaitOwn(s: State, tid: nat)
    requires tid in s.tasks && s.tasks[tid].AttemptWait? && s.tasks[tid].rid in s.logins
    ensures OwnStep(s, WaitStep(s, tid, s.tasks[tid]), s.tasks[tid].rid, tid)
    ensures var t, rid := s.tasks[tid], s.tasks[tid].rid;
            WaitStep(s, tid, t).logins[rid].status
            == if (t.fut.Unset? && !t.expired) || !IsCurrent(s, rid, t.n) then s.logins[rid].status
               else if t.expired || !t.fut.Resolved? then TimedOut
               else if t.fut.verdict then Approved else Rejected
  {
    var t, rid := s.tasks[tid], s.tasks[tid].rid;
    if t.fut.Unset? && !t.expired {
      assert s.logins[rid := s.logins[rid]] == s.logins && s.tasks[tid := t] == s.tasks;
    } else {
      var mine := rid in s.registry && s.registry[rid] == tid;
      var left := s.(registry := if mine then s.registry - {rid} else s.registry);
      var outcome := if t.expired || !t.fut.Resolved? then TimedOut else if t.fut.verdict then Approved else Rejected;
      var tapped := if t.expired || !t.fut.Resolved? then 0 else t.fut.tapped;
      LeftOwn(s, left, tid, rid, t.n, t.account, outcome, tapped);
    }
  }

  /** Leaving the registry first makes no difference to that. */
  lemma LeftOwn(s: State, left: State, tid: nat, rid: Id, n: nat, account: string, outcome: Status, tapped: nat)
    requires rid in s.logins && left.pending == s.pending && left.logins == s.logins && left.tasks == s.tasks
    ensures var s' := Conclude(left, tid, rid, n, account, outcome, tapped);
            OwnStep(s, s', rid, tid)
            && s'.logins[rid].status == if IsCurrent(s, rid, n) then outcome else s.logins[rid].status
  {
    ConcludeOwn(left, tid, rid, n, account, outcome, tapped);
  }

  lemma NotifyOwn(cfg: Config, s: State, tid: nat, answer: Answer)
    requires tid in s.tasks && s.tasks[tid].AttemptNotify? && s.tasks[tid].rid in s.logins
    ensures OwnStep(s, NotifyStep(cfg, s, tid, s.tasks[tid], answer), s.tasks[tid].rid, tid)
    ensures var t, rid := s.tasks[tid], s.tasks[tid].rid;
            NotifyStep(cfg, s, tid, t, answer).logins[rid].status
            == if IsCurrent(s, rid, t.n)
                  && (answer.sends.None? || (|answer.sends.value| == |t.targets| && true !in answer.sends.value))
               then SendFailed else s.logins[rid].status
  {
    var t, rid := s.tasks[tid], s.tasks[tid].rid;
    if answer.sends.None? || (|answer.sends.value| == |t.targets| && true !in answer.sends.value) {
      ConcludeOwn(s, tid, rid, t.n, t.account, SendFailed, 0);
    } else {
      assert s.logins[rid := s.logins[rid]] == s.logins && s.tasks[tid := t] == s.tasks;
    }
  }

  lemma BlockCheckOwn(s: State, tid: nat)
    requires tid in s.tasks && s.tasks[tid].AttemptBlockCheck? && s.tasks[tid].rid in s.logins
    ensures OwnStep(s, BlockCheckStep(s, tid, s.tasks[tid]), s.tasks[tid].rid, tid)
    ensures BlockCheckStep(s, tid, s.tasks[tid]).logins[s.tasks[tid].rid].status in {Denied, Waiting}
  {
    var t, l := s.tasks[tid], s.logins[s.tasks[tid].rid];
    if Blocks.RowBlocks(Blocks.Get(s.blocks, (t.account, l.ip))) {
      assert BlockCheckStep(s, tid, t).logins == s.logins[t.rid := l.(status := Denied)];
    } else {
      assert BlockCheckStep(s, tid, t).logins == s.logins[t.rid := l.(status := Waiting, waitingSince := Some(s.now))];
    }
  }

  /** The request and its table stay, and the task is over or about to file its row. */
  predicate OnlyRecords(s: State, s': State, tid: nat, rid: Id) {
    && s'.pending == s.pending && s'.logins == s.logins
    && tid in s'.tasks && s'.tasks == s.tasks[tid := s'.tasks[tid]]
    && (s'.tasks[tid].Done? || (s'.tasks[tid].AttemptFile? && s'.tasks[tid].rid == rid))
  }

  lemma FileOnlyRecords(s: State, tid: nat, rid: Id, account: string, kept: nat)
    requires rid in s.logins
    ensures OnlyRecords(s, WithTask(FileOutcome(s, tid, rid, account, kept), tid, Done), tid, rid)
  {
    var l := s.logins[rid];
    RowOnlyRecords(s, s, tid, rid);
    RowOnlyRecords(s, Filing(s, tid, AuditRow(account, rid, Ended(l.status), l.ip), Some(kept)), tid, rid);
  }

  lemma RowOnlyRecords(s: State, filed: State, tid: nat, rid: Id)
    requires filed == s.(audit := filed.audit, log := filed.log)
    ensures OnlyRecords(s, WithTask(filed, tid, Done), tid, rid)
  {
  }

  lemma RecordOwn(cfg: Config, s: State, tid: nat, answer: Answer)
    requires tid in s.tasks && (s.tasks[tid].AttemptRecord? || s.tasks[tid].AttemptFile?)
    requires s.tasks[tid].rid in s.logins
    ensures OnlyRecords(s, AttemptStep(cfg, s, tid, s.tasks[tid], answer), tid, s.tasks[tid].rid)
    ensures OwnStep(s, AttemptStep(cfg, s, tid, s.tasks[tid], answer), s.tasks[tid].rid, tid)
  {
    var rid := s.tasks[tid].rid;
    assert s.logins[rid := s.logins[rid]] == s.logins;
    match s.tasks[tid]
    case AttemptFile(_, n, account, kept) => FileOnlyRecords(s, tid, rid, account, kept);
    case AttemptRecord(_, n, account, kept, success) =>
  }

  /** An attempt's step, and the status it leaves: unchanged unless it is the block check
      or the end of the current attempt. */
  lemma AttemptOwn(cfg: Config, s: State, tid: nat, answer: Answer)
    requires tid in s.tasks && (s.tasks[tid].AttemptNew? || IsNumbered(s.tasks[tid])) && s.tasks[tid].rid in s.logins
    ensures OwnStep(s, AttemptStep(cfg, s, tid, s.tasks[tid], answer), s.tasks[tid].rid, tid)
    ensures var rid, s' := s.tasks[tid].rid, AttemptStep(cfg, s, tid, s.tasks[tid], answer);
            s.logins[rid].status == Approved ==>
              (s'.logins[rid].status != Approved <==> TakesBack(s, OnTask(tid, answer), rid))
  {
    var rid := s.tasks[tid].rid;
    match s.tasks[tid]
    case AttemptNew(_, targets) => BeginOwn(s, tid, rid, targets);
    case AttemptBlockCheck(_, _, _, _) => BlockCheckOwn(s, tid);
    case AttemptNotify(_, _, _, _) => NotifyOwn(cfg, s, tid, answer);
    case AttemptWait(_, _, _, _, _, _) => WaitOwn(s, tid);
    case _ => RecordOwn(cfg, s, tid, answer);
  }

  /** The table lookups and writes of a code check: no request changes. */
  predicate LooksUp(s: State, s': State, tid: nat, rid: Id) {
    && s'.pending == s.pending && s'.logins == s.logins
    && tid in s'.tasks && s'.tasks == s.tasks[tid := s'.tasks[tid]]
    && (s'.tasks[tid].Done? || (IsCode(s'.tasks[tid]) && s'.tasks[tid].rid == rid))
  }

  lemma CodeLooksUp(cfg: Config, s: State, tid: nat)
    requires tid in s.tasks && IsCode(s.tasks[tid]) && s.tasks[tid].rid in s.logins && !s.tasks[tid].CodeFinish?
    ensures LooksUp(s, CodeStep(cfg, s, tid, s.tasks[tid]), tid, s.tasks[tid].rid)
  {
    var t := s.tasks[tid];
    if t.CodeHash? {
      CodeHashed(cfg, s, tid);
    } else if t.CodeWrong? || t.CodeRight? || t.CodeFile? {
      CodeWrites(cfg, s, tid);
    } else {
      CodeReads(cfg, s, tid);
    }
  }

  lemma CodeReads(cfg: Config, s: State, tid: nat)
    requires tid in s.tasks && IsCode(s.tasks[tid]) && s.tasks[tid].rid in s.logins
    requires s.tasks[tid].CodeBlockCheck? || s.tasks[tid].CodeReadGeneration? || s.tasks[tid].CodeReadRows?
    ensures LooksUp(s, CodeStep(cfg, s, tid, s.tasks[tid]), tid, s.tasks[tid].rid)
  {
    match s.tasks[tid]
    case CodeBlockCheck(rid, account, ip, code) =>
      MovesOn(s, tid, rid, if Blocks.RowBlocks(Blocks.Get(s.blocks, (account, ip))) then Done
                           else CodeReadGeneration(rid, account, ip, code));
    case CodeReadGeneration(rid, account, ip, code) =>
      if Recovery.Current(s.recovery, account).None? {
        assert LooksUp(s, Refusing(s, tid, rid, account, ip, code), tid, rid);
      } else {
        MovesOn(s, tid, rid, CodeReadRows(rid, account, ip, code, Recovery.Current(s.recovery, account).value));
      }
    case CodeReadRows(rid, account, ip, code, generation) =>
      MovesOn(s, tid, rid, CodeHash(rid, account, ip, code,
                                    Recovery.Snapshot(s.recovery.rows, account, generation)));
  }

  lemma MovesOn(s: State, tid: nat, rid: Id, next: Task)
    requires next.Done? || (IsCode(next) && next.rid == rid)
    ensures LooksUp(s, WithTask(s, tid, next), tid, rid)
  {
  }

  lemma CodeWrites(cfg: Config, s: State, tid: nat)
    requires tid in s.tasks && (s.tasks[tid].CodeWrong? || s.tasks[tid].CodeRight? || s.tasks[tid].CodeFile?)
    requires s.tasks[tid].rid in s.logins
    ensures LooksUp(s, CodeStep(cfg, s, tid, s.tasks[tid]), tid, s.tasks[tid].rid)
  {
  }

  lemma CodeHashed(cfg: Config, s: State, tid: nat)
    requires tid in s.tasks && s.tasks[tid].CodeHash? && s.tasks[tid].rid in s.logins
    ensures LooksUp(s, CodeStep(cfg, s, tid, s.tasks[tid]), tid, s.tasks[tid].rid)
  {
    var t := s.tasks[tid];
    var found := Recovery.Match(t.candidates, t.code);
    assert found.None? ==> CodeStep(cfg, s, tid, t) == Refusing(s, tid, t.rid, t.account, t.ip, t.code);
  }

  /** What a step of a code check can do to its request: approve it. */
  predicate OnlyApproves(s: State, s': State, rid: Id, tid: nat) {
    && rid in s.logins && rid in s'.logins && tid in s'.tasks
    && s'.logins[rid].attempt == s.logins[rid].attempt && (s'.tasks[tid].Done? || IsCode(s'.tasks[tid]))
    && (s'.logins[rid].status == s.logins[rid].status || s'.logins[rid].status == Approved)
  }

  lemma CodeOwn(cfg: Config, s: State, tid: nat)
    requires tid in s.tasks && IsCode(s.tasks[tid]) && s.tasks[tid].rid in s.logins
    ensures OwnStep(s, CodeStep(cfg, s, tid, s.tasks[tid]), s.tasks[tid].rid, tid)
    ensures OnlyApproves(s, CodeStep(cfg, s, tid, s.tasks[tid]), s.tasks[tid].rid, tid)
  {
    var rid := s.tasks[tid].rid;
    if !s.tasks[tid].CodeFinish? {
      CodeLooksUp(cfg, s, tid);
      assert s.logins[rid := s.logins[rid]] == s.logins;
    }
  }

  lemma TaskStepOwn(cfg: Config, s: State, tid: nat, answer: Answer)
    requires tid in s.tasks && !s.tasks[tid].Done? && s.tasks[tid].rid in s.logins
    ensures OwnStep(s, TaskStep(cfg, s, tid, answer), s.tasks[tid].rid, tid)
  {
    var t, rid := s.tasks[tid], s.tasks[tid].rid;
    if IsStart(t) {
      StartOwn(cfg, s, tid, answer);
    } else if t.RetryLookup? {
      assert s.logins[rid := s.logins[rid]] == s.logins;
    } else if t.AttemptNew? || IsNumbered(t) {
      AttemptOwn(cfg, s, tid, answer);
    } else {
      CodeOwn(cfg, s, tid);
    }
  }

  /** Which request a step of task `tid` can touch, if any. */
  lemma TaskStepFrame(cfg: Config, s: State, tid: nat, answer: Answer)
    requires Inv(cfg, s)
    ensures TaskStep(cfg, s, tid, answer) == s
            || (tid in s.tasks && !s.tasks[tid].Done?
                && OwnStep(s, TaskStep(cfg, s, tid, answer), s.tasks[tid].rid, tid))
  {
    if tid in s.tasks && !s.tasks[tid].Done? {
      assert TaskAt(s.log, s.logins, s.tasks, tid);
      TaskStepOwn(cfg, s, tid, answer);
    }
  }

  lemma AuthorizeOnward(cfg: Config, s: State, r: AuthorizeRequest, rid: Id, tid: nat)
    requires forall id | id in s.pending :: id in s.logins
    ensures var s' := Authorize(cfg, s, r, rid, tid);
            Onward(s, s') && (forall t | t in s.tasks :: t in s'.tasks && s'.tasks[t] == s.tasks[t])
            && forall id | id in s.logins :: id in s'.logins && s'.logins[id] == s.logins[id]
  {
    var s' := Authorize(cfg, s, r, rid, tid);
    EvictOnly(s);
    if Acceptable(cfg, r) && rid !in s.logins && tid !in s.tasks {
      var admitted := Admitted(Evict(s), r, rid);
      assert s'.pending == admitted.pending && s'.logins == admitted.logins;
      assert admitted.pending == Evict(s).pending + [rid];
    }
  }

  /** A handler that lets requests leave. */
  lemma LeavingOnward(s: State, s': State)
    requires s'.logins == s.logins && forall id | id in s'.pending :: id in s.pending
    ensures Onward(s, s')
  {
  }

  /** A handler or event that touches at most one request, and not its number. */
  lemma TouchingOnward(s: State, s': State, rid: Id)
    requires s'.pending == s.pending
    requires s'.logins == s.logins
             || (rid in s.logins && rid in s'.logins && s'.logins == s.logins[rid := s'.logins[rid]]
                 && s'.logins[rid].attempt == s.logins[rid].attempt)
    ensures Onward(s, s')
  {
  }

  lemma CompleteOnward(s: State, rid: Id, code: string)
    ensures Onward(s, Complete(s, rid, code)) && Complete(s, rid, code).tasks == s.tasks
  {
    WithoutShrinks(s.pending, rid);
    LeavingOnward(s, Complete(s, rid, code));
  }

  lemma FailOnward(s: State, rid: Id)
    ensures Onward(s, Fail(s, rid)) && Fail(s, rid).tasks == s.tasks
  {
    WithoutShrinks(s.pending, rid);
    LeavingOnward(s, Fail(s, rid));
  }

  lemma PurgeOnward(cfg: Config, s: State)
    requires PendingOk(s.now, s.logins, s.pending, s.log)
    ensures Onward(s, Purge(cfg, s)) && Purge(cfg, s).tasks == s.tasks
  {
    NotOverdueKeeps(cfg, s, s.pending);
    LeavingOnward(s, Purge(cfg, s));
  }

  predicate KeepsTasks(tasks: map<nat, Task>, tasks': map<nat, Task>) {
    forall t | t in tasks :: t in tasks' && tasks'[t] == tasks[t]
  }

  /** Only a request that awaits an address may change its status. */
  predicate KeepsStatus(logins: map<Id, Login>, logins': map<Id, Login>) {
    forall id | id in logins ::
      id in logins' && (logins'[id].status == logins[id].status || logins[id].status == AwaitingEmail)
  }

  ghost predicate Gentle(s: State, s': State) {
    Onward(s, s') && KeepsTasks(s.tasks, s'.tasks) && KeepsStatus(s.logins, s'.logins)
  }

  /** One request changes a little, a new task begins, the history grows. */
  lemma GentleMove(s: State, s': State, rid: Id)
    requires s'.pending == s.pending && KeepsTasks(s.tasks, s'.tasks) && rid in s.logins && rid in s'.logins
    requires s'.logins == s.logins[rid := s'.logins[rid]] && s'.logins[rid].attempt == s.logins[rid].attempt
    requires s'.logins[rid].status == s.logins[rid].status || s.logins[rid].status == AwaitingEmail
    ensures Gentle(s, s')
  {
    TouchingOnward(s, s', rid);
  }

  lemma GentleNothing(s: State)
    ensures Gentle(s, s)
  {
    TouchingOnward(s, s, "");
  }

  lemma EmailOnward(s: State, rid: Id, address: string, tid: nat)
    ensures Gentle(s, SubmitEmail(s, rid, address, tid))
  {
    if rid in s.pending && rid in s.logins && s.logins[rid].status == AwaitingEmail && tid !in s.tasks {
      var l := s.logins[rid].(status := Resolving);
      GentleMove(s, Logged(WithTask(WithLogin(s, rid, l), tid, StartNew(rid, address)), EmailSubmitted(rid, address)),
                 rid);
    } else {
      GentleNothing(s);
    }
  }

  lemma RecoveryOnward(cfg: Config, s: State, rid: Id, code: string, ip: string, tid: nat)
    ensures Gentle(s, SubmitRecoveryCode(cfg, s, rid, code, ip, tid))
  {
    if MayResend(cfg, s, rid) && tid !in s.tasks {
      var counted, account := Counted(s, rid), Owner(s.logins[rid]);
      var noted := Logged(counted, CodeSubmitted(rid, account, ip, code, s.now, WithinLimits(counted, rid)));
      GentleMove(s, noted, rid);
      GentleMove(s, WithTask(noted, tid, CodeBlockCheck(rid, account, ip, code)), rid);
    } else {
      GentleNothing(s);
    }
  }

  lemma NextOnward(cfg: Config, s: State, a: Action)
    requires Inv(cfg, s)
    ensures Onward(s, Next(cfg, s, a))
  {
    match a
    case OnAuthorize(r, rid, tid) => AuthorizeOnward(cfg, s, r, rid, tid);
    case OnEmail(rid, address, tid) => EmailOnward(s, rid, address, tid);
    case OnRecovery(rid, code, ip, tid) => RecoveryOnward(cfg, s, rid, code, ip, tid);
    case OnComplete(rid, code) => CompleteOnward(s, rid, code);
    case OnFail(rid) => FailOnward(s, rid);
    case OnPurge => PurgeOnward(cfg, s);
    case OnTask(tid, answer) => TaskStepFrame(cfg, s, tid, answer);
    case OnToken(r, access) => TokenOnward(cfg, s, r, access);
    case OnHaAction(text) => EventOnward(s, text);
    case _ => QuietOnward(cfg, s, a);
  }

  lemma QuietOnward(cfg: Config, s: State, a: Action)
    requires a.Tick? || a.OnRetry? || a.OnTimer? || a.OnBatch? || a.OnUnblock?
    ensures Onward(s, Next(cfg, s, a))
  {
    TouchingOnward(s, Next(cfg, s, a), "");
  }

  lemma TokenOnward(cfg: Config, s: State, r: TokenRequest, access: string)
    ensures Onward(s, Token(cfg, s, r, access))
  {
    TokenFrame(cfg, s, r, access);
    TouchingOnward(s, Token(cfg, s, r, access), "");
  }

  lemma TokenFrame(cfg: Config, s: State, r: TokenRequest, access: string)
    ensures SameWork(s, Token(cfg, s, r, access)) && Token(cfg, s, r, access).pending == s.pending
  {
    if ClientOk(cfg, r) && r.code in s.codes && access !in s.granted {
      var entry, rest := s.codes[r.code], s.codes - {r.code};
      if !EntryOk(cfg, s.now, entry, r) {
        assert Token(cfg, s, r, access) == Logged(s.(codes := rest), Spent(r.code));
      } else {
        var claims := Claims(entry.account, entry.email, entry.clientId, entry.nonce);
        var left := s.(codes := rest, tokens := s.tokens[access := TokenEntry(entry.account, entry.email, s.now)],
                       granted := s.granted[access := |s.log|]);
        assert Token(cfg, s, r, access)
            == Logged(left, Redeemed(r.code, access, s.now, entry.completed, r.verifier, claims));
      }
    }
  }

  lemma EventOnward(s: State, text: string)
    ensures Onward(s, HaAction(s, text))
  {
    TouchingOnward(s, HaAction(s, text), "");
  }

  lemma {:induction false} EvictOnly(s: State)
    requires forall id | id in s.pending :: id in s.logins
    ensures forall id | id in Evict(s).pending :: id in s.pending
    ensures Evict(s).logins == s.logins && Evict(s).tasks == s.tasks
    decreases |s.pending|
  {
    if |s.pending| >= MAX_PENDING {
      var oldest := Oldest(s.logins, s.pending);
      WithoutShrinks(s.pending, oldest);
      EvictOnly(Logged(s.(pending := Without(s.pending, oldest)), Evicted(oldest)));
    }
  }

  /** A task not being stepped stays where it is; a waiter may be resolved or expire. */
  predicate StaysPut(task: Task, task': Task) {
    task' == task
    || (task.AttemptWait? && task'.AttemptWait? && task'.rid == task.rid && task'.n == task.n
        && task'.account == task.account && task'.deadline == task.deadline
        && (task.fut.Resolved? ==> task'.fut == task.fut) && (task.expired ==> task'.expired))
  }

  /** The first action for a request decides its waiter's verdict: later events and
      timers leave a resolved future alone, and a task moves only by its own steps. */
  lemma OthersStayPut(cfg: Config, s: State, a: Action, tid: nat)
    requires Inv(cfg, s) && tid in s.tasks && !(a.OnTask? && a.tid == tid)
    ensures tid in Next(cfg, s, a).tasks && StaysPut(s.tasks[tid], Next(cfg, s, a).tasks[tid])
  {
    match a
    case OnAuthorize(r, rid, t) => AuthorizeOnward(cfg, s, r, rid, t);
    case OnEmail(rid, address, t) => EmailOnward(s, rid, address, t);
    case OnRecovery(rid, code, ip, t) => RecoveryOnward(cfg, s, rid, code, ip, t);
    case OnTask(t, answer) => TaskStepFrame(cfg, s, t, answer);
    case OnHaAction(text) => EventStaysPut(s, text);
    case OnTimer(t) => TimerStaysPut(s, t);
    case OnRetry(_, _) =>
    case _ => AsideFrame(cfg, s, a);
  }

  // ----- superseded attempts -----

  /** The attempt was sent or is waiting, but a later one has begun or the request has
      left `_pending`; or it is over. */
  predicate Superseded(s: State, tid: nat) {
    tid in s.tasks
    && (s.tasks[tid].Done?
        || ((s.tasks[tid].AttemptNotify? || s.tasks[tid].AttemptWait?)
            && !IsCurrent(s, s.tasks[tid].rid, s.tasks[tid].n)))
  }

  /** Its own steps touch its place and its own registration, and nothing else. */
  predicate OnlyItself(s: State, s': State) {
    s' == s.(tasks := s'.tasks, registry := s'.registry)
  }

  lemma SupersededStep(cfg: Config, s: State, tid: nat, answer: Answer)
    requires Superseded(s, tid)
    ensures OnlyItself(s, TaskStep(cfg, s, tid, answer)) && Superseded(TaskStep(cfg, s, tid, answer), tid)
  {
    if s.tasks[tid].Done? || s.tasks[tid].rid !in s.logins {
      assert TaskStep(cfg, s, tid, answer) == s;
    } else if s.tasks[tid].AttemptNotify? {
      SupersededSends(cfg, s, tid, answer);
    } else {
      SupersededWaits(s, tid);
    }
  }

  lemma SupersededSends(cfg: Config, s: State, tid: nat, answer: Answer)
    requires Superseded(s, tid) && s.tasks[tid].AttemptNotify?
    ensures var s' := NotifyStep(cfg, s, tid, s.tasks[tid], answer);
            OnlyItself(s, s') && Superseded(s', tid)
  {
    var t := s.tasks[tid];
    Discarded(s, tid, t);
    EndsSuperseded(s, tid, s.registry);
  }

  lemma SupersededWaits(s: State, tid: nat)
    requires Superseded(s, tid) && s.tasks[tid].AttemptWait?
    ensures OnlyItself(s, WaitStep(s, tid, s.tasks[tid])) && Superseded(WaitStep(s, tid, s.tasks[tid]), tid)
  {
    var t := s.tasks[tid];
    if !t.fut.Unset? || t.expired {
      var left := if t.rid in s.registry && s.registry[t.rid] == tid then s.registry - {t.rid} else s.registry;
      WaitDiscards(s, tid, t, left);
      EndsSuperseded(s, tid, left);
    } else {
      assert WaitStep(s, tid, t) == s;
    }
  }

  lemma WaitDiscards(s: State, tid: nat, t: Task, left: map<Id, nat>)
    requires t.AttemptWait? && (!t.fut.Unset? || t.expired) && !IsCurrent(s, t.rid, t.n)
    requires left == if t.rid in s.registry && s.registry[t.rid] == tid then s.registry - {t.rid} else s.registry
    ensures WaitStep(s, tid, t) == WithTask(s.(registry := left), tid, Done)
  {
    Discarded(s.(registry := left), tid, t);
  }

  lemma EndsSuperseded(s: State, tid: nat, registry: map<Id, nat>)
    requires Superseded(s, tid)
    ensures var s' := WithTask(s.(registry := registry), tid, Done);
            OnlyItself(s, s') && Superseded(s', tid)
  {
  }

  lemma Discarded(left: State, tid: nat, t: Task)
    requires IsNumbered(t) && !IsCurrent(left, t.rid, t.n)
    ensures forall outcome, tapped ::
              Conclude(left, tid, t.rid, t.n, t.account, outcome, tapped) == WithTask(left, tid, Done)
  {
  }

  lemma SupersededNext(cfg: Config, s: State, a: Action, tid: nat)
    requires Inv(cfg, s) && Superseded(s, tid)
    ensures Superseded(Next(cfg, s, a), tid)
  {
    if a.OnTask? && a.tid == tid {
      SupersededStep(cfg, s, tid, a.answer);
    } else {
      OthersStayPut(cfg, s, a, tid);
      if !s.tasks[tid].Done? {
        NextOnward(cfg, s, a);
        assert TaskAt(s.log, s.logins, s.tasks, tid);
        assert OnwardAt(s, Next(cfg, s, a), s.tasks[tid].rid);
      }
    }
  }

  lemma {:induction false} SupersededRun(cfg: Config, s: State, actions: seq<Action>, tid: nat)
    requires Inv(cfg, s) && Superseded(s, tid)
    ensures Inv(cfg, Run(cfg, s, actions)) && Superseded(Run(cfg, s, actions), tid)
  {
    RunKeepsInv(cfg, s, actions);
    if actions != [] {
      var before := actions[..|actions| - 1];
      SupersededRun(cfg, s, before, tid);
      SupersededNext(cfg, Run(cfg, s, before), actions[|actions| - 1], tid);
    }
  }

  /** Once superseded, whatever happens afterwards and however many resends overlap, no
      step of that attempt writes a status, an audit row, a block counter or anything
      else but its own place. */
  lemma SupersededWritesNothing(cfg: Config, s: State, actions: seq<Action>, i: nat, tid: nat, answer: Answer)
    requires Reachable(cfg, s) && Superseded(s, tid)
    requires i < |actions| && actions[i] == OnTask(tid, answer)
    ensures OnlyItself(Run(cfg, s, actions[..i]), Run(cfg, s, actions[..i + 1]))
  {
    ReachableInv(cfg, s);
    SupersededRun(cfg, s, actions[..i], tid);
    assert actions[..i + 1][..i] == actions[..i];
    SupersededStep(cfg, Run(cfg, s, actions[..i]), tid, answer);
  }

  // ----- approvals that last -----

  /** A task of an approved request that cannot take the approval back. */
  predicate Calm(task: Task, attempt: nat) {
    && !IsStart(task) && !task.RetryLookup? && !task.AttemptNew? && !task.AttemptBlockCheck?
    && (task.AttemptNotify? || task.AttemptWait? ==> task.n != attempt)
  }

  ghost predicate CalmAt(s: State, rid: Id, t: nat)
    requires t in s.tasks && rid in s.logins
  {
    !s.tasks[t].Done? && s.tasks[t].rid == rid ==> Calm(s.tasks[t], s.logins[rid].attempt)
  }

  /** Approved, no current attempt unfinished, and no resend between its admission and
      its wait. */
  ghost predicate Settled(s: State, rid: Id) {
    && rid in s.pending && rid in s.logins && s.logins[rid].status == Approved
    && forall t {:trigger CalmAt(s, rid, t)} | t in s.tasks :: CalmAt(s, rid, t)
  }

  /** Still approved, by the same attempt, and its task still calm. */
  ghost predicate CalmAfter(s: State, s': State, rid: Id, tid: nat) {
    && rid in s.logins && rid in s'.logins && s'.logins[rid].status == Approved
    && s'.logins[rid].attempt == s.logins[rid].attempt && tid in s'.tasks && CalmAt(s', rid, tid)
  }

  lemma CalmStep(cfg: Config, s: State, rid: Id, tid: nat, answer: Answer)
    requires Inv(cfg, s) && Settled(s, rid) && tid in s.tasks && !s.tasks[tid].Done? && s.tasks[tid].rid == rid
    ensures CalmAfter(s, TaskStep(cfg, s, tid, answer), rid, tid)
  {
    assert CalmAt(s, rid, tid);
    if s.tasks[tid].AttemptNotify? || s.tasks[tid].AttemptWait? {
      SupersededCalm(cfg, s, rid, tid, answer);
    } else if IsCode(s.tasks[tid]) {
      CodeCalm(cfg, s, rid, tid);
      TaskStepIsCode(cfg, s, tid, answer);
    } else {
      RecordCalm(cfg, s, rid, tid, answer);
    }
  }

  lemma SupersededCalm(cfg: Config, s: State, rid: Id, tid: nat, answer: Answer)
    requires Settled(s, rid) && Superseded(s, tid)
    ensures CalmAfter(s, TaskStep(cfg, s, tid, answer), rid, tid)
  {
    SupersededStep(cfg, s, tid, answer);
  }

  lemma TaskStepIsCode(cfg: Config, s: State, tid: nat, answer: Answer)
    requires tid in s.tasks && IsCode(s.tasks[tid])
    ensures TaskStep(cfg, s, tid, answer) == CodeStep(cfg, s, tid, s.tasks[tid])
  {
  }

  lemma CodeCalm(cfg: Config, s: State, rid: Id, tid: nat)
    requires Settled(s, rid) && tid in s.tasks && IsCode(s.tasks[tid]) && s.tasks[tid].rid == rid
    ensures CalmAfter(s, CodeStep(cfg, s, tid, s.tasks[tid]), rid, tid)
  {
    CodeOwn(cfg, s, tid);
  }

  lemma RecordCalm(cfg: Config, s: State, rid: Id, tid: nat, answer: Answer)
    requires Settled(s, rid) && tid in s.tasks && !s.tasks[tid].Done? && s.tasks[tid].rid == rid
    requires s.tasks[tid].AttemptRecord? || s.tasks[tid].AttemptFile?
    ensures CalmAfter(s, TaskStep(cfg, s, tid, answer), rid, tid)
  {
    RecordOwn(cfg, s, tid, answer);
  }

  lemma SettledTaskStep(cfg: Config, s: State, rid: Id, tid: nat, answer: Answer)
    requires Inv(cfg, s) && Settled(s, rid)
    ensures Settled(TaskStep(cfg, s, tid, answer), rid)
  {
    var s' := TaskStep(cfg, s, tid, answer);
    TaskStepFrame(cfg, s, tid, answer);
    if s' != s {
      if s.tasks[tid].rid == rid {
        CalmStep(cfg, s, rid, tid, answer);
      }
      forall t | t in s'.tasks
        ensures CalmAt(s', rid, t)
      {
        assert CalmAt(s, rid, t);
      }
    }
  }

  /** An action that leaves the request and its tasks as they are. */
  lemma SettledUntouched(s: State, s': State, rid: Id)
    requires Settled(s, rid) && rid in s'.logins
    requires s'.logins[rid].status == s.logins[rid].status && s'.logins[rid].attempt == s.logins[rid].attempt
    requires forall t | t in s.tasks :: t in s'.tasks && StaysPut(s.tasks[t], s'.tasks[t])
    requires forall t | t in s'.tasks && t !in s.tasks :: s'.tasks[t].Done? || s'.tasks[t].rid != rid
    ensures rid in s'.pending ==> Settled(s', rid)
  {
    forall t | t in s'.tasks
      ensures CalmAt(s', rid, t)
    {
      assert t in s.tasks ==> CalmAt(s, rid, t);
    }
  }

  lemma AuthorizeSettled(cfg: Config, s: State, r: AuthorizeRequest, rid: Id, tid: nat, id: Id)
    requires Inv(cfg, s) && Settled(s, id)
    ensures id in Authorize(cfg, s, r, rid, tid).pending ==> Settled(Authorize(cfg, s, r, rid, tid), id)
  {
    var s' := Authorize(cfg, s, r, rid, tid);
    AuthorizeOnward(cfg, s, r, rid, tid);
    EvictOnly(s);
    if Acceptable(cfg, r) && rid !in s.logins && tid !in s.tasks {
      var admitted := Admitted(Evict(s), r, rid);
      assert s'.logins == admitted.logins && admitted.logins[id] == s.logins[id];
      assert forall t | t in s'.tasks && t !in s.tasks :: s'.tasks[t].rid == rid;
      SettledUntouched(s, s', id);
    }
  }

  /** An approved request takes no email, no resend and no recovery code. */
  lemma HandlersRefuse(cfg: Config, s: State, a: Action, id: Id)
    requires Settled(s, id) && (a.OnEmail? || a.OnRetry? || a.OnRecovery?) && a.rid == id
    ensures Next(cfg, s, a) == s
  {
  }

  lemma HandlersSettled(cfg: Config, s: State, a: Action, id: Id)
    requires Inv(cfg, s) && Settled(s, id) && (a.OnEmail? || a.OnRetry? || a.OnRecovery?)
    ensures Settled(Next(cfg, s, a), id)
  {
    var s' := Next(cfg, s, a);
    if a.rid == id {
      HandlersRefuse(cfg, s, a, id);
    } else {
      HandlersTouchTheirs(cfg, s, a, id);
      SettledUntouched(s, s', id);
    }
  }

  /** A handler serving another request. */
  ghost predicate LeavesAlone(s: State, s': State, id: Id) {
    && id in s.logins && s'.pending == s.pending && id in s'.logins && s'.logins[id] == s.logins[id]
    && (forall t | t in s.tasks :: t in s'.tasks && s'.tasks[t] == s.tasks[t])
    && (forall t | t in s'.tasks && t !in s.tasks :: s'.tasks[t].Done? || s'.tasks[t].rid != id)
  }

  lemma HandlersTouchTheirs(cfg: Config, s: State, a: Action, id: Id)
    requires (a.OnEmail? || a.OnRetry? || a.OnRecovery?) && a.rid != id && id in s.logins
    ensures LeavesAlone(s, Next(cfg, s, a), id)
  {
    match a
    case OnEmail(rid, address, tid) => EmailTouchesIts(s, rid, address, tid, id);
    case OnRetry(rid, tid) => RetryTouchesIts(cfg, s, rid, tid, id);
    case OnRecovery(rid, code, ip, tid) => RecoveryTouchesIts(cfg, s, rid, code, ip, tid, id);
  }

  lemma AloneMove(s: State, s': State, rid: Id, tid: nat, id: Id)
    requires rid != id && id in s.logins && s'.pending == s.pending && rid in s'.logins && tid !in s.tasks
    requires s'.logins == s.logins[rid := s'.logins[rid]]
    requires s'.tasks == s.tasks || (tid in s'.tasks && s'.tasks == s.tasks[tid := s'.tasks[tid]]
                                     && !s'.tasks[tid].Done? && s'.tasks[tid].rid == rid)
    ensures LeavesAlone(s, s', id)
  {
  }

  lemma EmailTouchesIts(s: State, rid: Id, address: string, tid: nat, id: Id)
    requires rid != id && id in s.logins
    ensures LeavesAlone(s, SubmitEmail(s, rid, address, tid), id)
  {
    if rid in s.pending && rid in s.logins && s.logins[rid].status == AwaitingEmail && tid !in s.tasks {
      var l := s.logins[rid].(status := Resolving);
      AloneMove(s, Logged(WithTask(WithLogin(s, rid, l), tid, StartNew(rid, address)), EmailSubmitted(rid, address)),
                rid, tid, id);
    }
  }

  lemma RetryTouchesIts(cfg: Config, s: State, rid: Id, tid: nat, id: Id)
    requires rid != id && id in s.logins
    ensures LeavesAlone(s, Retry(cfg, s, rid, tid), id)
  {
    if MayResend(cfg, s, rid) && tid !in s.tasks {
      assert s.logins[rid := s.logins[rid]] == s.logins;
      AloneMove(s, WithTask(s, tid, RetryLookup(rid)), rid, tid, id);
    }
  }

  lemma RecoveryTouchesIts(cfg: Config, s: State, rid: Id, code: string, ip: string, tid: nat, id: Id)
    requires rid != id && id in s.logins
    ensures LeavesAlone(s, SubmitRecoveryCode(cfg, s, rid, code, ip, tid), id)
  {
    if MayResend(cfg, s, rid) && tid !in s.tasks {
      var counted, account := Counted(s, rid), Owner(s.logins[rid]);
      var noted := Logged(counted, CodeSubmitted(rid, account, ip, code, s.now, WithinLimits(counted, rid)));
      AloneMove(s, noted, rid, tid, id);
      AloneMove(s, WithTask(noted, tid, CodeBlockCheck(rid, account, ip, code)), rid, tid, id);
    }
  }

  /** The actions that change no request and move no task. */
  predicate IsAside(a: Action) {
    a.Tick? || a.OnComplete? || a.OnFail? || a.OnToken? || a.OnPurge? || a.OnBatch? || a.OnUnblock?
  }

  ghost predicate SameWork(s: State, s': State) {
    s'.logins == s.logins && s'.tasks == s.tasks
  }

  lemma AsideFrame(cfg: Config, s: State, a: Action)
    requires IsAside(a)
    ensures SameWork(s, Next(cfg, s, a))
  {
    match a
    case OnToken(r, access) => TokenFrame(cfg, s, r, access);
    case OnComplete(rid, code) => CompleteOnward(s, rid, code);
    case OnFail(rid) => FailOnward(s, rid);
    case OnPurge => PurgeFrame(cfg, s);
    case _ => OutsideFrame(cfg, s, a);
  }

  lemma TickIs(cfg: Config, s: State, elapsed: real)
    requires elapsed >= 0.0
    ensures Next(cfg, s, Tick(elapsed)) == s.(now := s.now + elapsed)
  {
  }

  lemma OutsideFrame(cfg: Config, s: State, a: Action)
    requires a.Tick? || a.OnBatch? || a.OnUnblock?
    ensures SameWork(s, Next(cfg, s, a))
  {
    if a.Tick? && a.elapsed >= 0.0 {
      TickIs(cfg, s, a.elapsed);
    }
  }

  lemma PurgeFrame(cfg: Config, s: State)
    ensures SameWork(s, Purge(cfg, s))
  {
  }

  lemma AsideSettled(cfg: Config, s: State, a: Action, id: Id)
    requires Settled(s, id) && IsAside(a)
    ensures id in Next(cfg, s, a).pending ==> Settled(Next(cfg, s, a), id)
  {
    AsideFrame(cfg, s, a);
    SettledUntouched(s, Next(cfg, s, a), id);
  }

  /** An event or a timer moves one waiter, within what `StaysPut` allows. */
  predicate AllStayPut(s: State, s': State) {
    && s'.logins == s.logins && s'.pending == s.pending && s'.tasks.Keys == s.tasks.Keys
    && forall t | t in s.tasks :: StaysPut(s.tasks[t], s'.tasks[t])
  }

  lemma EventStaysPut(s: State, text: string)
    ensures AllStayPut(s, HaAction(s, text))
  {
    assert HaAction(s, text).tasks.Keys == s.tasks.Keys;
  }

  lemma TimerStaysPut(s: State, tid: nat)
    ensures AllStayPut(s, Timer(s, tid))
  {
    if tid in s.tasks && s.tasks[tid].AttemptWait? && s.now >= s.tasks[tid].deadline {
      var task := s.tasks[tid];
      var task' := task.(expired := true, fut := if task.fut.Unset? then Cancelled else task.fut);
      MovedStaysPut(s.tasks, tid, task');
      assert AllStayPut(s, WithTask(s, tid, task'));
    } else {
      assert AllStayPut(s, s);
    }
  }

  lemma MovedStaysPut(tasks: map<nat, Task>, tid: nat, task': Task)
    requires tid in tasks && StaysPut(tasks[tid], task')
    ensures tasks[tid := task'].Keys == tasks.Keys
    ensures forall t | t in tasks :: StaysPut(tasks[t], tasks[tid := task'][t])
  {
  }

  lemma EventSettled(s: State, text: string, id: Id)
    requires Settled(s, id)
    ensures Settled(HaAction(s, text), id)
  {
    EventStaysPut(s, text);
    SettledUntouched(s, HaAction(s, text), id);
  }

  lemma TimerSettled(s: State, tid: nat, id: Id)
    requires Settled(s, id)
    ensures Settled(Timer(s, tid), id)
  {
    TimerStaysPut(s, tid);
    SettledUntouched(s, Timer(s, tid), id);
  }

  /** As long as the request stays in `_pending`, an approval that has settled lasts:
      whatever step comes next, of whatever task. */
  lemma SettledStays(cfg: Config, s: State, a: Action, id: Id)
    requires Inv(cfg, s) && Settled(s, id)
    ensures id in Next(cfg, s, a).pending ==> Settled(Next(cfg, s, a), id)
  {
    match a
    case OnTask(tid, answer) => SettledTaskStep(cfg, s, id, tid, answer);
    case OnAuthorize(r, rid, tid) => AuthorizeSettled(cfg, s, r, rid, tid, id);
    case OnEmail(_, _, _) => HandlersSettled(cfg, s, a, id);
    case OnRetry(_, _) => HandlersSettled(cfg, s, a, id);
    case OnRecovery(_, _, _, _) => HandlersSettled(cfg, s, a, id);
    case OnHaAction(text) => EventSettled(s, text, id);
    case OnTimer(t) => TimerSettled(s, t, id);
    case _ => AsideSettled(cfg, s, a, id);
  }

  /** Over a whole run: approved and settled until it leaves, and once it has left it
      never comes back. */
  lemma {:induction false} SettledLasts(cfg: Config, s: State, actions: seq<Action>, id: Id)
    requires Inv(cfg, s) && Settled(s, id)
    ensures var s' := Run(cfg, s, actions);
            Inv(cfg, s') && id in s'.logins && (id in s'.pending ==> Settled(s', id))
  {
    if actions != [] {
      var before, a := actions[..|actions| - 1], actions[|actions| - 1];
      SettledLasts(cfg, s, before, id);
      var mid := Run(cfg, s, before);
      NextKeepsInv(cfg, mid, a);
      NextOnward(cfg, mid, a);
      assert OnwardAt(mid, Next(cfg, mid, a), id);
      if id in mid.pending {
        SettledStays(cfg, mid, a, id);
      }
    }
  }

  /** No task of the request is resolving its account or between being admitted as a
      resend and its wait, but perhaps `tid`. */
  ghost predicate NoResendInFlight(s: State, rid: Id, tid: nat) {
    forall t {:trigger InFlight(s, rid, t)} | t in s.tasks && t != tid :: !InFlight(s, rid, t)
  }

  predicate InFlight(s: State, rid: Id, t: nat)
    requires t in s.tasks
  {
    && !s.tasks[t].Done? && s.tasks[t].rid == rid
    && (IsStart(s.tasks[t]) || s.tasks[t].RetryLookup? || s.tasks[t].AttemptNew? || s.tasks[t].AttemptBlockCheck?)
  }

  /** A tap that reached the current attempt, read with no resend in flight, settles the
      request as approved. */
  lemma TapSettles(cfg: Config, s: State, tid: nat, answer: Answer)
    requires Reachable(cfg, s) && tid in s.tasks && s.tasks[tid].AttemptWait?
    requires s.tasks[tid].fut.Resolved? && s.tasks[tid].fut.verdict && !s.tasks[tid].expired
    requires IsCurrent(s, s.tasks[tid].rid, s.tasks[tid].n) && NoResendInFlight(s, s.tasks[tid].rid, tid)
    ensures Settled(Next(cfg, s, OnTask(tid, answer)), s.tasks[tid].rid)
  {
    ReachableInv(cfg, s);
    var task, rid := s.tasks[tid], s.tasks[tid].rid;
    var s' := Next(cfg, s, OnTask(tid, answer));
    TaskStepFrame(cfg, s, tid, answer);
    assert s'.logins[rid].status == Approved && s'.logins[rid].attempt == s.logins[rid].attempt;
    forall t | t in s'.tasks
      ensures CalmAt(s', rid, t)
    {
      if t != tid {
        assert !InFlight(s, rid, t) && ApartAt(s.tasks, tid, t);
      }
    }
  }

  lemma LostByTask(cfg: Config, s: State, tid: nat, answer: Answer, rid: Id)
    requires Inv(cfg, s) && rid in s.logins && s.logins[rid].status == Approved
    ensures var s' := TaskStep(cfg, s, tid, answer);
            rid in s'.logins && (s'.logins[rid].status != Approved <==> TakesBack(s, OnTask(tid, answer), rid))
  {
    TaskStepFrame(cfg, s, tid, answer);
    if tid in s.tasks && !s.tasks[tid].Done? && s.tasks[tid].rid == rid {
      if IsStart(s.tasks[tid]) {
        StartOwn(cfg, s, tid, answer);
      } else if s.tasks[tid].AttemptNew? || IsNumbered(s.tasks[tid]) {
        AttemptOwn(cfg, s, tid, answer);
      } else if IsCode(s.tasks[tid]) {
        CodeOwn(cfg, s, tid);
      }
    }
  }

  ghost predicate IsApproved(s: State, rid: Id) {
    rid in s.logins && s.logins[rid].status == Approved
  }

  lemma OnlyTasksLose(cfg: Config, s: State, a: Action, rid: Id)
    requires Inv(cfg, s) && IsApproved(s, rid) && !a.OnTask?
    ensures IsApproved(Next(cfg, s, a), rid)
  {
    match a
    case OnAuthorize(r, id, tid) => AuthorizeOnward(cfg, s, r, id, tid);
    case OnEmail(_, _, _) => HandlersKeepApproved(cfg, s, a, rid);
    case OnRecovery(_, _, _, _) => HandlersKeepApproved(cfg, s, a, rid);
    case OnHaAction(_) => SignalsKeepApproved(cfg, s, a, rid);
    case OnTimer(_) => SignalsKeepApproved(cfg, s, a, rid);
    case OnRetry(id, tid) => assert Retry(cfg, s, id, tid).logins == s.logins;
    case _ => AsideFrame(cfg, s, a);
  }

  lemma HandlersKeepApproved(cfg: Config, s: State, a: Action, rid: Id)
    requires IsApproved(s, rid) && (a.OnEmail? || a.OnRecovery?)
    ensures IsApproved(Next(cfg, s, a), rid)
  {
    if a.OnEmail? {
      EmailOnward(s, a.rid, a.address, a.tid);
    } else {
      RecoveryOnward(cfg, s, a.rid, a.code, a.ip, a.tid);
    }
  }

  lemma SignalsKeepApproved(cfg: Config, s: State, a: Action, rid: Id)
    requires IsApproved(s, rid) && (a.OnHaAction? || a.OnTimer?)
    ensures IsApproved(Next(cfg, s, a), rid)
  {
    if a.OnHaAction? {
      EventStaysPut(s, a.text);
    } else {
      TimerStaysPut(s, a.tid);
    }
  }

  /** Exactly those steps, and no others, make an approved request anything else. */
  lemma ApprovalLostExactlyWhen(cfg: Config, s: State, a: Action, rid: Id)
    requires Reachable(cfg, s) && rid in s.logins && s.logins[rid].status == Approved
    ensures rid in Next(cfg, s, a).logins
    ensures Next(cfg, s, a).logins[rid].status != Approved <==> TakesBack(s, a, rid)
  {
    ReachableInv(cfg, s);
    if a.OnTask? {
      LostByTask(cfg, s, a.tid, a.answer, rid);
    } else {
      OnlyTasksLose(cfg, s, a, rid);
    }
  }
}
