/** What an attempt still writes once it is not the only one: after its verdict, and after
    it has been replaced. */
module ProtocolWrites {
  import opened Options
  import opened LoginProtocol
  import opened ProtocolInvariants
  import opened ProtocolSteps
  import opened ProtocolRuns
  import opened ProtocolStability
  import opened ProtocolTables
  import opened ProtocolTableSteps
  import Blocks = IpBlocking

  /** The audit row of a verdict takes the status the request has when it is filed. So the
      verdict itself is filed exactly if the status is still that verdict, and nothing at
      all is filed exactly if the status by then is none an attempt ends in. */
  lemma FilesItsVerdictExactlyWhen(cfg: Config, s: State, tid: nat, answer: Answer)
    requires Reachable(cfg, s) && tid in s.tasks && s.tasks[tid].AttemptFile?
    ensures s.tasks[tid].rid in s.logins && s.tasks[tid].kept < |s.log| && s.log[s.tasks[tid].kept].Kept?
    ensures var t, l, kept := s.tasks[tid], s.logins[s.tasks[tid].rid], s.log[s.tasks[tid].kept];
            var audit := Next(cfg, s, OnTask(tid, answer)).audit;
            && kept.outcome in {Approved, Rejected} && kept.tid == tid && kept.rid == t.rid && kept.account == t.account
            && (audit == s.audit <==> l.status !in {Approved, Rejected, TimedOut, SendFailed})
            && (audit == s.audit + [AuditRow(t.account, t.rid, Ended(kept.outcome), l.ip)]
                <==> l.status == kept.outcome)
  {
    ReachableInv(cfg, s);
    ReachableTables(cfg, s);
    assert TaskAt(s.log, s.logins, s.tasks, tid);
    assert BackedAt(s.recovery.rows, s.log, s.tasks, tid);
    var t, l := s.tasks[tid], s.logins[s.tasks[tid].rid];
    FilesStatus(cfg, s, tid, answer);
    OneRow(s.audit, AuditRow(t.account, t.rid, Ended(l.status), l.ip),
           AuditRow(t.account, t.rid, Ended(s.log[t.kept].outcome), l.ip));
  }

  lemma OneRow(audit: seq<AuditRow>, row: AuditRow, other: AuditRow)
    ensures audit + [row] != audit && (audit + [row] == audit + [other] <==> row == other)
  {
    assert |audit + [row]| == |audit| + 1;
    assert (audit + [row])[|audit|] == row && (audit + [other])[|audit|] == other;
  }

  lemma FilesStatus(cfg: Config, s: State, tid: nat, answer: Answer)
    requires tid in s.tasks && s.tasks[tid].AttemptFile? && s.tasks[tid].rid in s.logins
    ensures var t, l := s.tasks[tid], s.logins[s.tasks[tid].rid];
            Next(cfg, s, OnTask(tid, answer)).audit
            == if IsOutcome(l.status) then s.audit + [AuditRow(t.account, t.rid, Ended(l.status), l.ip)] else s.audit
  {
  }

  // ----- taps and timers -----

  /** A tap that reached the current attempt decides the request exactly if the timer has
      not fired before its waiter is resumed. */
  lemma TapCountsExactlyWhen(cfg: Config, s: State, tid: nat, answer: Answer)
    requires Reachable(cfg, s) && tid in s.tasks && s.tasks[tid].AttemptWait? && s.tasks[tid].fut.Resolved?
    requires IsCurrent(s, s.tasks[tid].rid, s.tasks[tid].n)
    ensures var t, s' := s.tasks[tid], Next(cfg, s, OnTask(tid, answer));
            && t.rid in s'.logins
            && (s'.logins[t.rid].status == (if t.fut.verdict then Approved else Rejected) <==> !t.expired)
            && (s'.logins[t.rid].status == TimedOut <==> t.expired)
  {
    WaitOwn(s, tid);
  }

  // ----- replaced attempts -----

  /** An attempt under way that a later one has replaced, or whose request has left. */
  predicate Replaced(s: State, tid: nat) {
    tid in s.tasks && IsNumbered(s.tasks[tid]) && !IsCurrent(s, s.tasks[tid].rid, s.tasks[tid].n)
  }

  /** The places from which a replaced attempt goes on to write: its block check, unless
      the request is waiting since this very moment; its verdict, to the block table; and
      the audit row after it, if the status is one the log accepts. */
  predicate StillWrites(s: State, tid: nat)
    requires tid in s.tasks && IsNumbered(s.tasks[tid]) && s.tasks[tid].rid in s.logins
  {
    var t, l := s.tasks[tid], s.logins[s.tasks[tid].rid];
    match t
    case AttemptBlockCheck(_, _, _, _) =>
      Blocks.RowBlocks(Blocks.Get(s.blocks, (t.account, l.ip))) || l.status != Waiting || l.waitingSince != Some(s.now)
    case AttemptRecord(_, _, _, _, _) => true
    case AttemptFile(_, _, _, _) => l.status in {Approved, Rejected, TimedOut, SendFailed}
    case _ => false
  }

  /** A step of a replaced attempt changes anything but its own place and registration
      exactly from those. Replacing it before its sends does not stop its block check, and
      replacing it after its verdict does not stop the verdict from being recorded. */
  lemma ReplacedWritesExactlyWhen(cfg: Config, s: State, tid: nat, answer: Answer)
    requires Reachable(cfg, s) && Replaced(s, tid)
    ensures s.tasks[tid].rid in s.logins
    ensures OnlyItself(s, TaskStep(cfg, s, tid, answer)) <==> !StillWrites(s, tid)
  {
    ReachableInv(cfg, s);
    NumberedTask(s, tid);
    match s.tasks[tid]
    case AttemptBlockCheck(_, _, _, _) => BlockCheckWrites(cfg, s, tid, answer);
    case AttemptRecord(_, _, _, _, _) => RecordWrites(cfg, s, tid, answer);
    case AttemptFile(_, _, _, _) => FileWrites(cfg, s, tid, answer);
    case _ => SupersededStep(cfg, s, tid, answer);
  }

  lemma BlockCheckWrites(cfg: Config, s: State, tid: nat, answer: Answer)
    requires tid in s.tasks && s.tasks[tid].AttemptBlockCheck? && s.tasks[tid].rid in s.logins
    ensures OnlyItself(s, TaskStep(cfg, s, tid, answer)) <==> !StillWrites(s, tid)
  {
    var t, l := s.tasks[tid], s.logins[s.tasks[tid].rid];
    assert TaskStep(cfg, s, tid, answer) == BlockCheckStep(s, tid, t);
    if Blocks.RowBlocks(Blocks.Get(s.blocks, (t.account, l.ip))) {
      assert |BlockCheckStep(s, tid, t).log| == |s.log| + 1;
    } else {
      GoesOnWrites(s, tid, t.rid, l.(status := Waiting, waitingSince := Some(s.now)),
                   AttemptNotify(t.rid, t.n, t.account, t.targets));
    }
  }

  lemma GoesOnWrites(s: State, tid: nat, rid: Id, l: Login, next: Task)
    requires rid in s.logins
    ensures OnlyItself(s, WithTask(WithLogin(s, rid, l), tid, next)) <==> l == s.logins[rid]
  {
    if l == s.logins[rid] {
      assert s.logins[rid := l] == s.logins;
    } else {
      assert s.logins[rid := l][rid] != s.logins[rid];
    }
  }

  lemma RecordWrites(cfg: Config, s: State, tid: nat, answer: Answer)
    requires tid in s.tasks && s.tasks[tid].AttemptRecord? && s.tasks[tid].rid in s.logins
    ensures !OnlyItself(s, TaskStep(cfg, s, tid, answer))
  {
    assert |TaskStep(cfg, s, tid, answer).log| == |s.log| + 1;
  }

  lemma FileWrites(cfg: Config, s: State, tid: nat, answer: Answer)
    requires tid in s.tasks && s.tasks[tid].AttemptFile? && s.tasks[tid].rid in s.logins
    ensures OnlyItself(s, TaskStep(cfg, s, tid, answer)) <==> !IsOutcome(s.logins[s.tasks[tid].rid].status)
  {
    if IsOutcome(s.logins[s.tasks[tid].rid].status) {
      assert |TaskStep(cfg, s, tid, answer).log| == |s.log| + 1;
    }
  }
}
