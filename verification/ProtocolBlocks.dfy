/** The block table against the history: each pair's row is the replay of the verdicts
    counted for it, and so a login is refused exactly when they mean a block. */
module ProtocolBlocks {
  import opened Options
  import opened LoginProtocol
  import opened ProtocolInvariants
  import opened ProtocolSteps
  import opened ProtocolRuns
  import opened ProtocolCauses
  import Blocks = IpBlocking
  import Recovery = RecoveryCodes

  /** What the history says was counted for a pair: the verdicts of its attempts and codes,
      and the blocks lifted by hand. */
  function OpsOf(log: seq<Event>, pair: Blocks.Pair): seq<Blocks.Op> {
    if log == [] then []
    else
      var before, op := log[..|log| - 1], OpOf(log[..|log| - 1], log[|log| - 1]);
      OpsOf(before, pair) + (if op.Some? && op.value.0 == pair then [op.value.1] else [])
  }

  lemma OpsAppend(log: seq<Event>, e: Event, pair: Blocks.Pair)
    ensures OpsOf(log + [e], pair)
         == OpsOf(log, pair)
           + (if OpOf(log, e).Some? && OpOf(log, e).value.0 == pair then [OpOf(log, e).value.1] else [])
  {
    assert (log + [e])[..|log|] == log;
  }

  lemma {:induction false} OpsSame(log: seq<Event>, more: seq<Event>, pair: Blocks.Pair)
    requires forall e | e in more :: !IsBlockEvent(e)
    ensures OpsOf(log + more, pair) == OpsOf(log, pair)
  {
    if more == [] {
      assert log + more == log;
    } else {
      var front, e := more[..|more| - 1], more[|more| - 1];
      OpsSame(log, front, pair);
      OpsAppend(log + front, e, pair);
      assert log + more == log + front + [e] && e in more;
      assert OpsOf(log, pair) + [] == OpsOf(log, pair);
    }
  }

  // ----- the table is what the history counts -----

  ghost predicate RowIsHistory(cfg: Config, blocks: Blocks.Table, log: seq<Event>, pair: Blocks.Pair) {
    Blocks.Get(blocks, pair) == Blocks.Replay(OpsOf(log, pair), cfg.blockThreshold)
  }

  ghost predicate BlocksOk(cfg: Config, s: State) {
    forall pair :: RowIsHistory(cfg, s.blocks, s.log, pair)
  }

  lemma QuietKeepsRow(cfg: Config, s: State, s': State, pair: Blocks.Pair)
    requires s.log <= s'.log && s'.blocks == s.blocks && RowIsHistory(cfg, s.blocks, s.log, pair)
    requires forall e | e in s'.log[|s.log|..] :: !IsBlockEvent(e)
    ensures RowIsHistory(cfg, s'.blocks, s'.log, pair)
  {
    assert s'.log == s.log + s'.log[|s.log|..];
    OpsSame(s.log, s'.log[|s.log|..], pair);
  }

  lemma WriteKeepsRow(cfg: Config, blocks: Blocks.Table, log: seq<Event>, e: Event, pair: Blocks.Pair)
    requires RowIsHistory(cfg, blocks, log, pair) && OpOf(log, e).Some?
    ensures var op := OpOf(log, e).value;
            RowIsHistory(cfg, Blocks.Update(blocks, op.0, op.1, cfg.blockThreshold), log + [e], pair)
  {
    OpsAppend(log, e, pair);
    var op, ops := OpOf(log, e).value, OpsOf(log, pair);
    Blocks.UpdateGets(blocks, op.0, op.1, cfg.blockThreshold, pair);
    if pair == op.0 {
      Blocks.ReplayAppend(ops, op.1, cfg.blockThreshold);
    } else {
      assert ops + [] == ops;
    }
  }

  lemma NextKeepsBlocks(cfg: Config, s: State, a: Action)
    requires Inv(cfg, s) && BlocksOk(cfg, s)
    ensures BlocksOk(cfg, Next(cfg, s, a))
  {
    NextAccounts(cfg, s, a);
    FollowKeepsBlocks(cfg, s, Next(cfg, s, a));
  }

  lemma FollowKeepsBlocks(cfg: Config, s: State, s': State)
    requires BlocksOk(cfg, s) && s.log <= s'.log && BlocksFollow(cfg, s, s')
    ensures BlocksOk(cfg, s')
  {
    forall pair
      ensures RowIsHistory(cfg, s'.blocks, s'.log, pair)
    {
      assert RowIsHistory(cfg, s.blocks, s.log, pair);
      if s'.blocks == s.blocks && forall e | e in s'.log[|s.log|..] :: !IsBlockEvent(e) {
        QuietKeepsRow(cfg, s, s', pair);
      } else {
        assert s'.log == s.log + [s'.log[|s.log|]];
        WriteKeepsRow(cfg, s.blocks, s.log, s'.log[|s.log|], pair);
      }
    }
  }

  lemma {:induction false} RunKeepsBlocks(cfg: Config, start: real, actions: seq<Action>)
    ensures BlocksOk(cfg, Run(cfg, Initial(start), actions))
  {
    if actions != [] {
      var before := actions[..|actions| - 1];
      RunKeepsBlocks(cfg, start, before);
      ReachableInv(cfg, Run(cfg, Initial(start), before));
      NextKeepsBlocks(cfg, Run(cfg, Initial(start), before), actions[|actions| - 1]);
    }
  }

  /** In every reachable state a pair's row is what replaying the verdicts counted for it
      gives, in their order and with their times. */
  lemma BlocksAreHistory(cfg: Config, s: State, pair: Blocks.Pair)
    requires Reachable(cfg, s)
    ensures Blocks.Get(s.blocks, pair) == Blocks.Replay(OpsOf(s.log, pair), cfg.blockThreshold)
    ensures Blocks.RowBlocks(Blocks.Get(s.blocks, pair))
            <==> Blocks.MeansBlocked(OpsOf(s.log, pair), cfg.blockThreshold)
  {
    var start: real, actions: seq<Action> :| Run(cfg, Initial(start), actions) == s;
    RunKeepsBlocks(cfg, start, actions);
    assert RowIsHistory(cfg, s.blocks, s.log, pair);
    Blocks.BlockedMeaning(OpsOf(s.log, pair), cfg.blockThreshold);
  }

  // ----- what a block does -----

  /** An attempt goes on to notify unless the verdicts counted for its account at the
      request's address mean a block; then the request is denied, and no one is asked. */
  lemma AttemptDeniedExactlyWhen(cfg: Config, s: State, tid: nat, answer: Answer)
    requires Reachable(cfg, s) && tid in s.tasks && s.tasks[tid].AttemptBlockCheck?
    ensures s.tasks[tid].rid in s.logins
    ensures var t, s' := s.tasks[tid], Next(cfg, s, OnTask(tid, answer));
            var blocked := Blocks.MeansBlocked(OpsOf(s.log, (t.account, s.logins[t.rid].ip)), cfg.blockThreshold);
            && t.rid in s'.logins && tid in s'.tasks
            && s'.logins[t.rid].status == (if blocked then Denied else Waiting)
            && s'.tasks[tid] == (if blocked then Done else AttemptNotify(t.rid, t.n, t.account, t.targets))
  {
    ReachableInv(cfg, s);
    NumberedTask(s, tid);
    var t := s.tasks[tid];
    BlocksAreHistory(cfg, s, (t.account, s.logins[t.rid].ip));
    BlockCheckBranches(cfg, s, tid, answer);
  }

  lemma BlockCheckBranches(cfg: Config, s: State, tid: nat, answer: Answer)
    requires tid in s.tasks && s.tasks[tid].AttemptBlockCheck? && s.tasks[tid].rid in s.logins
    ensures var t, s' := s.tasks[tid], Next(cfg, s, OnTask(tid, answer));
            var blocked := Blocks.RowBlocks(Blocks.Get(s.blocks, (t.account, s.logins[t.rid].ip)));
            && t.rid in s'.logins && tid in s'.tasks
            && s'.logins[t.rid].status == (if blocked then Denied else Waiting)
            && s'.tasks[tid] == (if blocked then Done else AttemptNotify(t.rid, t.n, t.account, t.targets))
  {
    var t, l := s.tasks[tid], s.logins[s.tasks[tid].rid];
    NextIsAttempt(cfg, s, tid, answer);
    if Blocks.RowBlocks(Blocks.Get(s.blocks, (t.account, l.ip))) {
      var denied := WithLogin(s, t.rid, l.(status := Denied));
      assert BlockCheckStep(s, tid, t)
          == WithTask(Filing(denied, tid, AuditRow(t.account, t.rid, WasBlocked, l.ip), None), tid, Done);
    } else {
      assert BlockCheckStep(s, tid, t)
          == WithTask(WithLogin(s, t.rid, l.(status := Waiting, waitingSince := Some(s.now))), tid,
                      AttemptNotify(t.rid, t.n, t.account, t.targets));
    }
  }

  lemma NextIsAttempt(cfg: Config, s: State, tid: nat, answer: Answer)
    requires tid in s.tasks && IsNumbered(s.tasks[tid])
    ensures Next(cfg, s, OnTask(tid, answer)) == AttemptStep(cfg, s, tid, s.tasks[tid], answer)
  {
  }

  lemma NextIsCode(cfg: Config, s: State, tid: nat, answer: Answer)
    requires tid in s.tasks && IsCode(s.tasks[tid])
    ensures Next(cfg, s, OnTask(tid, answer)) == CodeStep(cfg, s, tid, s.tasks[tid])
  {
  }

  /** A submitted code is checked against the table unless the verdicts counted for the
      account at the address it was submitted from mean a block. */
  lemma CodeCheckedExactlyWhen(cfg: Config, s: State, tid: nat, answer: Answer)
    requires Reachable(cfg, s) && tid in s.tasks && s.tasks[tid].CodeBlockCheck?
    ensures var t, s' := s.tasks[tid], Next(cfg, s, OnTask(tid, answer));
            var blocked := Blocks.MeansBlocked(OpsOf(s.log, (t.account, t.ip)), cfg.blockThreshold);
            && tid in s'.tasks
            && s'.tasks[tid] == (if blocked then Done else CodeReadGeneration(t.rid, t.account, t.ip, t.code))
            && s'.logins == s.logins && s'.log == s.log
  {
    ReachableInv(cfg, s);
    CodeTask(s, tid);
    var t := s.tasks[tid];
    BlocksAreHistory(cfg, s, (t.account, t.ip));
    NextIsCode(cfg, s, tid, answer);
  }

  /** A verdict about to be recorded: on whom, from where, and whether it is a success. */
  datatype Verdict = Verdict(pair: Blocks.Pair, success: bool)

  function VerdictOf(s: State, task: Task): Option<Verdict> {
    match task
    case AttemptRecord(rid, _, account, kept, _) =>
      if rid in s.logins && kept < |s.log| && s.log[kept].Kept?
      then Some(Verdict((account, s.logins[rid].ip), s.log[kept].outcome == Approved)) else None
    case CodeRight(_, account, ip, _) => Some(Verdict((account, ip), true))
    case CodeWrong(_, account, ip, _) => Some(Verdict((account, ip), false))
    case _ => None
  }

  /** Every verdict is counted once, at the moment it is recorded: a success resets the
      pair's count, a failure adds to it, and the task goes on without it. */
  lemma VerdictIsCounted(cfg: Config, s: State, tid: nat, answer: Answer)
    requires Reachable(cfg, s) && tid in s.tasks
    requires s.tasks[tid].AttemptRecord? || s.tasks[tid].CodeRight? || s.tasks[tid].CodeWrong?
    ensures VerdictOf(s, s.tasks[tid]).Some?
    ensures var v, s' := VerdictOf(s, s.tasks[tid]).value, Next(cfg, s, OnTask(tid, answer));
            && OpsOf(s'.log, v.pair)
               == OpsOf(s.log, v.pair) + [if v.success then Blocks.Success else Blocks.Failure(s.now)]
            && (forall pair | pair != v.pair :: OpsOf(s'.log, pair) == OpsOf(s.log, pair))
            && tid in s'.tasks && VerdictOf(s', s'.tasks[tid]).None?
  {
    ReachableInv(cfg, s);
    VerdictKnown(s, tid);
    var t, v := s.tasks[tid], VerdictOf(s, s.tasks[tid]).value;
    var why := if t.AttemptRecord? then t.kept else if t.CodeRight? then t.accepted else t.refused;
    WritesVerdict(cfg, s, tid, answer, v.pair, v.success, why);
    WriteCounts(s.log, BlockWritten(tid, v.pair, v.success, why, s.now), v.pair,
                if v.success then Blocks.Success else Blocks.Failure(s.now));
  }

  lemma VerdictKnown(s: State, tid: nat)
    requires TasksOk(s.log, s.logins, s.tasks) && tid in s.tasks
    ensures TaskOk(s.log, s.logins, tid, s.tasks[tid])
    ensures s.tasks[tid].AttemptRecord? || s.tasks[tid].CodeRight? || s.tasks[tid].CodeWrong? ==>
              VerdictOf(s, s.tasks[tid]).Some?
  {
    assert TaskAt(s.log, s.logins, s.tasks, tid);
  }

  lemma WriteCounts(log: seq<Event>, e: Event, pair: Blocks.Pair, op: Blocks.Op)
    requires OpOf(log, e) == Some((pair, op))
    ensures OpsOf(log + [e], pair) == OpsOf(log, pair) + [op]
    ensures forall other | other != pair :: OpsOf(log + [e], other) == OpsOf(log, other)
  {
    OpsAppend(log, e, pair);
    forall other | other != pair
      ensures OpsOf(log + [e], other) == OpsOf(log, other)
    {
      OpsAppend(log, e, other);
    }
  }

  lemma WritesVerdict(cfg: Config, s: State, tid: nat, answer: Answer, pair: Blocks.Pair, success: bool, why: nat)
    requires tid in s.tasks && TaskOk(s.log, s.logins, tid, s.tasks[tid])
    requires VerdictOf(s, s.tasks[tid]) == Some(Verdict(pair, success))
    requires var t := s.tasks[tid];
             why == if t.AttemptRecord? then t.kept else if t.CodeRight? then t.accepted
                    else if t.CodeWrong? then t.refused else 0
    ensures var s' := Next(cfg, s, OnTask(tid, answer));
            && s'.log == s.log + [BlockWritten(tid, pair, success, why, s.now)]
            && tid in s'.tasks && !s'.tasks[tid].AttemptRecord?
            && !s'.tasks[tid].CodeRight? && !s'.tasks[tid].CodeWrong?
    ensures why < |s.log| && VerdictOp(s.log[why], s.now) == if success then Blocks.Success else Blocks.Failure(s.now)
  {
    var t := s.tasks[tid];
    match t
    case AttemptRecord(rid, n, account, kept, _) =>
      NextIsAttempt(cfg, s, tid, answer);
      WritesOne(cfg, s, tid, pair, success, why, AttemptFile(rid, n, account, kept));
    case CodeRight(rid, account, ip, accepted) =>
      NextIsCode(cfg, s, tid, answer);
      WritesOne(cfg, s, tid, pair, success, why, CodeFile(rid, account, ip, accepted));
    case CodeWrong(_, _, _, _) =>
      NextIsCode(cfg, s, tid, answer);
      WritesOne(cfg, s, tid, pair, success, why, Done);
  }

  lemma WritesOne(cfg: Config, s: State, tid: nat, pair: Blocks.Pair, success: bool, why: nat, next: Task)
    ensures var s' := WithTask(BlockWrite(cfg, s, tid, pair, success, why), tid, next);
            s'.log == s.log + [BlockWritten(tid, pair, success, why, s.now)] && tid in s'.tasks && s'.tasks[tid] == next
  {
  }

  /** A block lifted by hand is an operation of that pair at this moment, and the pair is
      blocked no more. */
  lemma UnblockLifts(cfg: Config, s: State, pair: Blocks.Pair)
    ensures var s' := Next(cfg, s, OnUnblock(pair));
            && OpsOf(s'.log, pair) == OpsOf(s.log, pair) + [Blocks.Unblock(s.now)]
            && (forall other | other != pair :: OpsOf(s'.log, other) == OpsOf(s.log, other))
            && !Blocks.MeansBlocked(OpsOf(s'.log, pair), cfg.blockThreshold)
  {
    var s' := Next(cfg, s, OnUnblock(pair));
    assert s'.log == s.log + [Unblocked(pair, s.now)];
    WriteCounts(s.log, Unblocked(pair, s.now), pair, Blocks.Unblock(s.now));
    Blocks.UnblockOpens(OpsOf(s.log, pair), s.now, cfg.blockThreshold);
  }

  // ----- what a check comes to -----

  /** The verdict of a check on the rows it has read: accepted exactly if one of them was
      made from the code. */
  lemma CheckAcceptsExactlyWhen(cfg: Config, s: State, tid: nat, answer: Answer)
    requires Reachable(cfg, s) && tid in s.tasks && s.tasks[tid].CodeHash?
    ensures var t, s' := s.tasks[tid], Next(cfg, s, OnTask(tid, answer));
            var held := exists c :: c in t.candidates && c.hash == Recovery.Argon2(t.code);
            && tid in s'.tasks
            && s'.tasks[tid] == (if held then CodeRight(t.rid, t.account, t.ip, |s.log|)
                                 else CodeWrong(t.rid, t.account, t.ip, |s.log|))
            && s'.logins == s.logins && s'.pending == s.pending
  {
    ReachableInv(cfg, s);
    CodeTask(s, tid);
    var t := s.tasks[tid];
    Recovery.MatchFinds(t.candidates, t.code);
    NextIsCode(cfg, s, tid, answer);
  }

  /** The history after three steps of one task and of no one else. */
  function LogAfter(cfg: Config, s: State, tid: nat, one: Answer, two: Answer, three: Answer): seq<Event> {
    Next(cfg, Next(cfg, Next(cfg, s, OnTask(tid, one)), OnTask(tid, two)), OnTask(tid, three)).log
  }

  /** A check no one interferes with, from its first query to its verdict, accepts exactly
      the codes of unused rows of the account's current batch. */
  lemma CheckAlone(cfg: Config, s: State, tid: nat, one: Answer, two: Answer, three: Answer)
    requires Reachable(cfg, s) && tid in s.tasks && s.tasks[tid].CodeReadGeneration?
    requires s.tasks[tid].account in s.recovery.generations
    ensures var t, log' := s.tasks[tid], LogAfter(cfg, s, tid, one, two, three);
            |log'| == |s.log| + 1
            && (log'[|s.log|].CodeAccepted? <==>
                  exists i | 0 <= i < |s.recovery.rows| ::
                    s.recovery.rows[i]
                    == Recovery.Row(t.account, Recovery.Argon2(t.code), s.recovery.generations[t.account], false))
  {
    ReachableInv(cfg, s);
    CodeTask(s, tid);
    var t := s.tasks[tid];
    GenerationRead(cfg, s, tid, one);
    Recovery.MatchMeaning(s.recovery.rows, t.account, s.recovery.generations[t.account], t.code);
    RowsChecked(cfg, Next(cfg, s, OnTask(tid, one)), tid, two, three);
  }

  /** An account that never had a batch has every code refused, and counted as wrong. */
  lemma CheckWithoutBatch(cfg: Config, s: State, tid: nat, one: Answer, two: Answer, three: Answer)
    requires Reachable(cfg, s) && tid in s.tasks && s.tasks[tid].CodeReadGeneration?
    requires s.tasks[tid].account !in s.recovery.generations
    ensures var log' := LogAfter(cfg, s, tid, one, two, three);
            |log'| == |s.log| + 2 && log'[|s.log|].CodeRefused? && log'[|s.log| + 1].BlockWritten?
  {
    ReachableInv(cfg, s);
    CodeTask(s, tid);
    var t := s.tasks[tid];
    var refusing := Refusing(s, tid, t.rid, t.account, t.ip, t.code);
    GenerationRead(cfg, s, tid, one);
    assert refusing.log == s.log + [CodeRefused(t.rid, tid, t.account, t.ip, t.code)];
    RefusalCounted(cfg, refusing, tid, two, three);
    RefusalLogged(s.log, refusing.log, LogAfter(cfg, s, tid, one, two, three));
  }

  lemma RefusalLogged(log: seq<Event>, once: seq<Event>, twice: seq<Event>)
    requires |once| == |log| + 1 && once[|log|].CodeRefused?
    requires |twice| == |once| + 1 && twice[..|once|] == once && twice[|once|].BlockWritten?
    ensures |twice| == |log| + 2 && twice[|log|].CodeRefused? && twice[|log| + 1].BlockWritten?
  {
    assert twice[|log|] == twice[..|once|][|log|];
  }

  lemma GenerationRead(cfg: Config, s: State, tid: nat, answer: Answer)
    requires tid in s.tasks && s.tasks[tid].CodeReadGeneration? && s.tasks[tid].rid in s.logins
    ensures var t := s.tasks[tid];
            Next(cfg, s, OnTask(tid, answer))
            == if t.account in s.recovery.generations
               then WithTask(s, tid, CodeReadRows(t.rid, t.account, t.ip, t.code, s.recovery.generations[t.account]))
               else Refusing(s, tid, t.rid, t.account, t.ip, t.code)
  {
    NextIsCode(cfg, s, tid, answer);
  }

  lemma RowsRead(cfg: Config, s: State, tid: nat, answer: Answer)
    requires tid in s.tasks && s.tasks[tid].CodeReadRows? && s.tasks[tid].rid in s.logins
    ensures var t := s.tasks[tid];
            Next(cfg, s, OnTask(tid, answer))
            == WithTask(s, tid, CodeHash(t.rid, t.account, t.ip, t.code,
                                         Recovery.Snapshot(s.recovery.rows, t.account, t.generation)))
  {
    NextIsCode(cfg, s, tid, answer);
  }

  lemma RowsChecked(cfg: Config, s: State, tid: nat, one: Answer, two: Answer)
    requires tid in s.tasks && s.tasks[tid].CodeReadRows? && s.tasks[tid].rid in s.logins
    ensures var t, log' := s.tasks[tid], Next(cfg, Next(cfg, s, OnTask(tid, one)), OnTask(tid, two)).log;
            |log'| == |s.log| + 1
            && (log'[|s.log|].CodeAccepted?
                <==> Recovery.Match(Recovery.Snapshot(s.recovery.rows, t.account, t.generation), t.code).Some?)
  {
    RowsRead(cfg, s, tid, one);
    HashChecked(cfg, Next(cfg, s, OnTask(tid, one)), tid, two);
  }

  lemma HashChecked(cfg: Config, s: State, tid: nat, answer: Answer)
    requires tid in s.tasks && s.tasks[tid].CodeHash? && s.tasks[tid].rid in s.logins
    ensures var t, log' := s.tasks[tid], Next(cfg, s, OnTask(tid, answer)).log;
            |log'| == |s.log| + 1
            && (log'[|s.log|].CodeAccepted? <==> Recovery.Match(t.candidates, t.code).Some?)
  {
    NextIsCode(cfg, s, tid, answer);
    var t := s.tasks[tid];
    match Recovery.Match(t.candidates, t.code)
    case None => assert CodeStep(cfg, s, tid, t) == Refusing(s, tid, t.rid, t.account, t.ip, t.code);
    case Some(row) =>
      assert CodeStep(cfg, s, tid, t).log == s.log + [CodeAccepted(t.rid, tid, t.account, t.ip, row, t.code)];
  }

  lemma RefusalCounted(cfg: Config, s: State, tid: nat, one: Answer, two: Answer)
    requires tid in s.tasks && s.tasks[tid].CodeWrong? && s.tasks[tid].rid in s.logins
    ensures var log' := Next(cfg, Next(cfg, s, OnTask(tid, one)), OnTask(tid, two)).log;
            |log'| == |s.log| + 1 && log'[..|s.log|] == s.log && log'[|s.log|].BlockWritten?
  {
    var t := s.tasks[tid];
    NextIsCode(cfg, s, tid, one);
    WritesOne(cfg, s, tid, (t.account, t.ip), false, t.refused, Done);
    var after := Next(cfg, s, OnTask(tid, one));
    assert Next(cfg, after, OnTask(tid, two)) == after;
  }
}
