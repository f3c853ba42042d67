/** When an approval is final: exactly when it has settled. From any other approved
    state some continuation takes it back. */
module ProtocolLosses {
  import opened Options
  import opened LoginProtocol
  import opened ProtocolInvariants
  import opened ProtocolRuns
  import opened ProtocolStability

  /** Some continuation ends with the request still registered and no longer approved. */
  ghost predicate CanLose(cfg: Config, s: State, rid: Id) {
    exists actions: seq<Action> :: Unapproved(Run(cfg, s, actions), rid)
  }

  predicate Unapproved(s: State, rid: Id) {
    rid in s.pending && rid in s.logins && s.logins[rid].status != Approved
  }

  lemma {:induction false} RunAfter(cfg: Config, s: State, a: Action, actions: seq<Action>)
    ensures Run(cfg, s, [a] + actions) == Run(cfg, Next(cfg, s, a), actions)
  {
    var all := [a] + actions;
    if actions == [] {
      assert all[..|all| - 1] == [];
      assert Run(cfg, s, []) == s;
    } else {
      assert all[..|all| - 1] == [a] + actions[..|actions| - 1];
      RunAfter(cfg, s, a, actions[..|actions| - 1]);
    }
  }

  lemma LosesNow(cfg: Config, s: State, rid: Id)
    requires Unapproved(s, rid)
    ensures CanLose(cfg, s, rid)
  {
    assert Run(cfg, s, []) == s;
  }

  lemma LosesAfter(cfg: Config, s: State, a: Action, rid: Id)
    requires CanLose(cfg, Next(cfg, s, a), rid)
    ensures CanLose(cfg, s, rid)
  {
    var actions: seq<Action> :| Unapproved(Run(cfg, Next(cfg, s, a), actions), rid);
    RunAfter(cfg, s, a, actions);
    assert Unapproved(Run(cfg, s, [a] + actions), rid);
  }

  /** A registered request that is approved, with the invariant. */
  ghost predicate Winning(cfg: Config, s: State, rid: Id) {
    Inv(cfg, s) && rid in s.pending && rid in s.logins && s.logins[rid].status == Approved
  }

  /** One step of one of its tasks: lost at once, or still approved and registered. */
  lemma StepWins(cfg: Config, s: State, tid: nat, answer: Answer, rid: Id)
    requires Winning(cfg, s, rid) && tid in s.tasks && !s.tasks[tid].Done? && s.tasks[tid].rid == rid
    ensures var s' := Next(cfg, s, OnTask(tid, answer));
            if TakesBack(s, OnTask(tid, answer), rid) then Unapproved(s', rid) else Winning(cfg, s', rid)
  {
    LostByTask(cfg, s, tid, answer, rid);
    TaskStepFrame(cfg, s, tid, answer);
    NextKeepsInv(cfg, s, OnTask(tid, answer));
  }

  lemma LosesByStep(cfg: Config, s: State, tid: nat, answer: Answer, rid: Id)
    requires Winning(cfg, s, rid) && TakesBack(s, OnTask(tid, answer), rid)
    ensures CanLose(cfg, s, rid)
  {
    StepWins(cfg, s, tid, answer, rid);
    LosesNow(cfg, Next(cfg, s, OnTask(tid, answer)), rid);
    LosesAfter(cfg, s, OnTask(tid, answer), rid);
  }

  /** A start loses when its address turns out to have no targets. */
  lemma StartLoses(cfg: Config, s: State, tid: nat, rid: Id)
    requires Winning(cfg, s, rid) && tid in s.tasks && s.tasks[tid].StartNew? && s.tasks[tid].rid == rid
    ensures CanLose(cfg, s, rid)
  {
    var s' := Next(cfg, s, OnTask(tid, Silent));
    StepWins(cfg, s, tid, Silent, rid);
    assert s'.tasks[tid] == StartLookup(rid, s.tasks[tid].address);
    LosesByStep(cfg, s', tid, Silent, rid);
    LosesAfter(cfg, s, OnTask(tid, Silent), rid);
  }

  /** A resend loses when it comes to its block check. */
  lemma BeginLoses(cfg: Config, s: State, tid: nat, rid: Id)
    requires Winning(cfg, s, rid) && tid in s.tasks && s.tasks[tid].AttemptNew? && s.tasks[tid].rid == rid
    ensures CanLose(cfg, s, rid)
  {
    var s' := Next(cfg, s, OnTask(tid, Silent));
    StepWins(cfg, s, tid, Silent, rid);
    assert s'.tasks[tid].AttemptBlockCheck? && s'.tasks[tid].rid == rid;
    LosesByStep(cfg, s', tid, Silent, rid);
    LosesAfter(cfg, s, OnTask(tid, Silent), rid);
  }

  lemma ResendLoses(cfg: Config, s: State, tid: nat, rid: Id)
    requires Winning(cfg, s, rid) && tid in s.tasks && s.tasks[tid].RetryLookup? && s.tasks[tid].rid == rid
    ensures CanLose(cfg, s, rid)
  {
    var s' := Next(cfg, s, OnTask(tid, Silent));
    StepWins(cfg, s, tid, Silent, rid);
    assert s'.tasks[tid] == AttemptNew(rid, []);
    BeginLoses(cfg, s', tid, rid);
    LosesAfter(cfg, s, OnTask(tid, Silent), rid);
  }

  /** Past its deadline, a current wait loses when its timer fires before its waiter is
      resumed, whatever it was answered. */
  lemma TimerLoses(cfg: Config, s: State, tid: nat, rid: Id)
    requires Winning(cfg, s, rid) && tid in s.tasks && s.tasks[tid].AttemptWait? && s.tasks[tid].rid == rid
    requires IsCurrent(s, rid, s.tasks[tid].n) && s.now >= s.tasks[tid].deadline
    ensures CanLose(cfg, s, rid)
  {
    TimerFires(cfg, s, tid, rid);
    LosesByStep(cfg, Next(cfg, s, OnTimer(tid)), tid, Silent, rid);
    LosesAfter(cfg, s, OnTimer(tid), rid);
  }

  lemma TimerFires(cfg: Config, s: State, tid: nat, rid: Id)
    requires Winning(cfg, s, rid) && tid in s.tasks && s.tasks[tid].AttemptWait? && s.tasks[tid].rid == rid
    requires IsCurrent(s, rid, s.tasks[tid].n) && s.now >= s.tasks[tid].deadline
    ensures var fired := Next(cfg, s, OnTimer(tid));
            Winning(cfg, fired, rid) && TakesBack(fired, OnTask(tid, Silent), rid)
  {
    NextKeepsInv(cfg, s, OnTimer(tid));
    TimerStaysPut(s, tid);
    assert Timer(s, tid).tasks[tid].expired;
  }

  lemma TickWins(cfg: Config, s: State, elapsed: real, rid: Id)
    requires Winning(cfg, s, rid) && elapsed >= 0.0
    ensures Next(cfg, s, Tick(elapsed)) == s.(now := s.now + elapsed)
    ensures Winning(cfg, s.(now := s.now + elapsed), rid)
  {
    TickIs(cfg, s, elapsed);
    NextKeepsInv(cfg, s, Tick(elapsed));
  }

  lemma WaitLoses(cfg: Config, s: State, tid: nat, rid: Id)
    requires Winning(cfg, s, rid) && tid in s.tasks && s.tasks[tid].AttemptWait? && s.tasks[tid].rid == rid
    requires IsCurrent(s, rid, s.tasks[tid].n)
    ensures CanLose(cfg, s, rid)
  {
    var missing := if s.tasks[tid].deadline > s.now then s.tasks[tid].deadline - s.now else 0.0;
    TickWins(cfg, s, missing, rid);
    TimerLoses(cfg, s.(now := s.now + missing), tid, rid);
    LosesAfter(cfg, s, Tick(missing), rid);
  }

  lemma UncalmLoses(cfg: Config, s: State, tid: nat, rid: Id)
    requires Winning(cfg, s, rid) && tid in s.tasks && !CalmAt(s, rid, tid)
    ensures CanLose(cfg, s, rid)
  {
    match s.tasks[tid]
    case StartNew(_, _) => StartLoses(cfg, s, tid, rid);
    case RetryLookup(_) => ResendLoses(cfg, s, tid, rid);
    case AttemptNew(_, _) => BeginLoses(cfg, s, tid, rid);
    case AttemptWait(_, _, _, _, _, _) => WaitLoses(cfg, s, tid, rid);
    case _ => LosesByStep(cfg, s, tid, Silent, rid);
  }

  /** An approved request can still lose its approval exactly if it has not settled. */
  lemma FinalExactlyWhenSettled(cfg: Config, s: State, rid: Id)
    requires Reachable(cfg, s) && rid in s.pending && rid in s.logins && s.logins[rid].status == Approved
    ensures Settled(s, rid) <==> !CanLose(cfg, s, rid)
  {
    ReachableInv(cfg, s);
    if Settled(s, rid) {
      forall actions: seq<Action>
        ensures !Unapproved(Run(cfg, s, actions), rid)
      {
        SettledLasts(cfg, s, actions, rid);
      }
    } else {
      var t :| t in s.tasks && !CalmAt(s, rid, t);
      UncalmLoses(cfg, s, t, rid);
    }
  }
}
