/** Every step keeps what `ProtocolTables` says of the recovery rows, the access tokens and
    the counted submissions, so every reachable state has it too. Most steps are `Plain`;
    the others are a submitted code, the steps of its check, a redemption, a purge, a new
    batch and the clock.

    A submitted code extends the counted submissions and changes the stamps by what
    `AttemptWindow` proves of one more attempt, and its check starts backed by the event
    just written. The check keeps that backing through its block check and its first query;
    its second query adds the rows it read, which `Snapshot` takes from its own account;
    and its commit marks a row that `Match` took from those, so that the event it writes
    names a row of that account made from that code. A redemption adds the one token its
    event names, under a name not granted before. A purge drops the tokens whose redemption
    is more than five minutes before it, and no others, and sweeps stamps no later count
    would look at. A batch only adds rows, and the clock only makes counts smaller. */
module ProtocolTableSteps {
  import opened Options
  import opened LoginProtocol
  import opened ProtocolInvariants
  import opened ProtocolRuns
  import opened ProtocolTables
  import Recovery = RecoveryCodes
  import Window = AttemptWindow
  import Blocks = IpBlocking

  predicate SameCounters(l: Login, l': Login) {
    l'.recoveryAttempts == l.recoveryAttempts && l'.ip == l.ip
  }

  lemma NothingKeepsTables(s: State)
    ensures Plain(s, s, [])
  {
    assert s.log + [] == s.log;
  }

  // ----- handlers and events -----

  lemma SubmitEmailKeepsTables(s: State, rid: Id, address: string, tid: nat)
    requires Tables(s)
    ensures Tables(SubmitEmail(s, rid, address, tid))
  {
    if rid in s.pending && rid in s.logins && s.logins[rid].status == AwaitingEmail && tid !in s.tasks {
      TakenKeepsTables(s, rid, s.logins[rid].(status := Resolving), address, tid);
    }
  }

  lemma TakenKeepsTables(s: State, rid: Id, l: Login, address: string, tid: nat)
    requires Tables(s) && rid in s.logins && SameCounters(s.logins[rid], l)
    ensures Tables(Logged(WithTask(WithLogin(s, rid, l), tid, StartNew(rid, address)), EmailSubmitted(rid, address)))
  {
    var taken := WithTask(WithLogin(s, rid, l), tid, StartNew(rid, address));
    PlainKeepsTables(s, Logged(taken, EmailSubmitted(rid, address)), [EmailSubmitted(rid, address)]);
  }

  lemma RetryKeepsTables(cfg: Config, s: State, rid: Id, tid: nat)
    requires Tables(s)
    ensures Tables(Retry(cfg, s, rid, tid))
  {
    NothingKeepsTables(s);
    PlainKeepsTables(s, Retry(cfg, s, rid, tid), []);
  }

  lemma {:induction false} EvictKeepsTables(s: State)
    requires Tables(s) && forall id | id in s.pending :: id in s.logins
    ensures Tables(Evict(s)) && Evict(s).logins == s.logins
    decreases |s.pending|
  {
    if |s.pending| >= MAX_PENDING {
      var oldest := Oldest(s.logins, s.pending);
      WithoutShrinks(s.pending, oldest);
      var fewer := Logged(s.(pending := Without(s.pending, oldest)), Evicted(oldest));
      PlainKeepsTables(s, fewer, [Evicted(oldest)]);
      EvictKeepsTables(fewer);
    }
  }

  lemma AdmittedKeepsTables(s: State, r: AuthorizeRequest, rid: Id)
    requires Tables(s) && rid !in s.logins
    ensures Tables(Admitted(s, r, rid))
  {
    PlainKeepsTables(s, Admitted(s, r, rid),
                     [Authorized(rid, r.clientId, r.redirectUri, r.nonce, r.challenge, HintOf(r), r.ip, s.now)]);
  }

  lemma AuthorizeKeepsTables(cfg: Config, s: State, r: AuthorizeRequest, rid: Id, tid: nat)
    requires Tables(s)
    ensures Tables(Authorize(cfg, s, r, rid, tid))
  {
    if Acceptable(cfg, r) && rid !in s.logins && tid !in s.tasks && forall id | id in s.pending :: id in s.logins {
      EvictKeepsTables(s);
      AdmittedKeepsTables(Evict(s), r, rid);
      MoveKeepsTables(Admitted(Evict(s), r, rid), tid, StartNew(rid, HintOf(r)));
    }
  }

  /** A task takes a place it has the right to. */
  lemma MoveKeepsTables(s: State, tid: nat, next: Task)
    requires Tables(s) && Backed(s.recovery.rows, s.log, next)
    ensures Tables(WithTask(s, tid, next))
  {
    NothingKeepsTables(s);
    assert s.log + [] == s.log;
    PlainKeepsTables(s, WithTask(s, tid, next), []);
  }

  lemma CompleteKeepsTables(s: State, rid: Id, code: string)
    requires Tables(s)
    ensures Tables(Complete(s, rid, code))
  {
    var s' := Complete(s, rid, code);
    if s' != s {
      PlainKeepsTables(s, s', [s'.log[|s.log|]]);
    }
  }

  lemma FailKeepsTables(s: State, rid: Id)
    requires Tables(s)
    ensures Tables(Fail(s, rid))
  {
    if rid in s.pending && rid in s.logins && IsFailure(s.logins[rid].status) {
      PlainKeepsTables(s, Fail(s, rid), [Failed(rid)]);
    }
  }

  lemma HaActionKeepsTables(s: State, text: string)
    requires Tables(s)
    ensures Tables(HaAction(s, text))
  {
    var s' := HaAction(s, text);
    if s' != s {
      PlainKeepsTables(s, s', [s'.log[|s.log|]]);
    }
  }

  lemma TimerKeepsTables(s: State, tid: nat)
    requires Tables(s)
    ensures Tables(Timer(s, tid))
  {
    NothingKeepsTables(s);
    PlainKeepsTables(s, Timer(s, tid), []);
  }

  lemma UnblockKeepsTables(cfg: Config, s: State, pair: Blocks.Pair)
    requires Tables(s)
    ensures Tables(Next(cfg, s, OnUnblock(pair)))
  {
    NothingKeepsTables(s);
    PlainKeepsTables(s, Next(cfg, s, OnUnblock(pair)), [Unblocked(pair, s.now)]);
  }

  // ----- the tables' own steps -----

  lemma TickKeepsTables(s: State, elapsed: real)
    requires Tables(s) && elapsed >= 0.0
    ensures Tables(s.(now := s.now + elapsed))
  {
    assert s.log + [] == s.log;
    AttemptsStay(s, s.(now := s.now + elapsed), []);
  }

  lemma BatchKeepsTables(s: State, accountId: string, codes: seq<string>)
    requires Tables(s)
    ensures Tables(s.(recovery := Recovery.Generated(s.recovery, accountId, codes)))
  {
    var rows := Recovery.Generated(s.recovery, accountId, codes).rows;
    assert Grows(s.recovery.rows, rows);
    assert s.log + [] == s.log;
    RecoveryStays(s.recovery.rows, rows, s.log, [], s.tasks, s.tasks);
    FilesStay(s.log, [], s.logins, s.logins);
    AttemptsStay(s, s.(recovery := Recovery.Generated(s.recovery, accountId, codes)), []);
  }

  lemma SpentKeepsTables(s: State, code: string)
    requires Tables(s)
    ensures Tables(Logged(s.(codes := s.codes - {code}), Spent(code)))
  {
    PlainKeepsTables(s, Logged(s.(codes := s.codes - {code}), Spent(code)), [Spent(code)]);
  }

  lemma RedeemedKeepsTables(s: State, e: Event)
    requires Tables(s) && e.Redeemed? && e.access !in s.granted
    ensures Tables(Logged(s.(codes := s.codes - {e.code}, granted := s.granted[e.access := |s.log|],
                             tokens := s.tokens[e.access := TokenEntry(e.claims.sub, e.claims.email, e.at)]), e))
  {
    var s' := Logged(s.(codes := s.codes - {e.code}, granted := s.granted[e.access := |s.log|],
                        tokens := s.tokens[e.access := TokenEntry(e.claims.sub, e.claims.email, e.at)]), e);
    SameRowsStay(s, e, s.tasks);
    FilesStayQuiet(s.log, e, s.logins, s.logins);
    AttemptsStay(s, s', [e]);
    TokenGranted(s.log, e, s.tokens, s.granted);
  }

  lemma TokenKeepsTables(cfg: Config, s: State, r: TokenRequest, access: string)
    requires Tables(s)
    ensures Tables(Token(cfg, s, r, access))
  {
    if ClientOk(cfg, r) && r.code in s.codes && access !in s.granted {
      var entry := s.codes[r.code];
      if !EntryOk(cfg, s.now, entry, r) {
        SpentKeepsTables(s, r.code);
      } else {
        RedeemedKeepsTables(s, Redeemed(r.code, access, s.now, entry.completed, r.verifier,
                                        Claims(entry.account, entry.email, entry.clientId, entry.nonce)));
      }
    }
  }

  lemma SameRowsStay(s: State, e: Event, tasks': map<nat, Task>)
    requires RecoveryOk(s.recovery.rows, s.log, s.tasks) && !IsCodeEvent(e)
    requires forall t | t in tasks' ::
               (t in s.tasks && tasks'[t] == s.tasks[t]) || Backed(s.recovery.rows, s.log + [e], tasks'[t])
    ensures RecoveryOk(s.recovery.rows, s.log + [e], tasks')
  {
    assert Grows(s.recovery.rows, s.recovery.rows);
    RecoveryStays(s.recovery.rows, s.recovery.rows, s.log, [e], s.tasks, tasks');
  }

  lemma PurgeKeepsTables(cfg: Config, s: State)
    requires Tables(s)
    ensures Tables(Purge(cfg, s))
  {
    var s' := Purge(cfg, s);
    var e := s'.log[|s.log|];
    SameRowsStay(s, e, s.tasks);
    FilesStayQuiet(s.log, e, s.logins, s.logins);
    TokensPurged(s.log, e, s.tokens, s.granted);
    AttemptsSame(s.log, [e]);
    Window.SweptFaithful(s.attempts, AttemptsOf(s.log), s.now, s.now);
  }

  lemma RecoveryKeepsTables(cfg: Config, s: State, rid: Id, code: string, ip: string, tid: nat)
    requires Tables(s)
    ensures Tables(SubmitRecoveryCode(cfg, s, rid, code, ip, tid))
  {
    if MayResend(cfg, s, rid) && tid !in s.tasks {
      var counted, account := Counted(s, rid), Owner(s.logins[rid]);
      var e := CodeSubmitted(rid, account, ip, code, s.now, WithinLimits(counted, rid));
      NotedKeepsTables(s, rid, e);
      if e.passed {
        CheckKeepsTables(Logged(counted, e), |s.log|, tid, CodeBlockCheck(rid, account, ip, code));
      }
    }
  }

  lemma NotedKeepsTables(s: State, rid: Id, e: Event)
    requires Tables(s) && rid in s.logins && e.CodeSubmitted? && e.rid == rid && e.account == Owner(s.logins[rid])
    requires e.at == s.now && (e.passed <==> WithinLimits(Counted(s, rid), rid))
    ensures Tables(Logged(Counted(s, rid), e))
  {
    TokensStay(s.log, e, s.tokens, s.granted);
    CountedKeepsAttempts(s, Logged(Counted(s, rid), e), rid, e);
    SameRowsStay(s, e, s.tasks);
    FilesStayQuiet(s.log, e, s.logins, Counted(s, rid).logins);
  }

  /** A check begins, of a code just submitted. */
  lemma CheckKeepsTables(s: State, k: nat, tid: nat, next: Task)
    requires Tables(s) && next.CodeBlockCheck?
    requires k < |s.log| && SubmittedAt(s.log, k, next.rid, next.account, next.ip, next.code)
    ensures Tables(WithTask(s, tid, next))
  {
    assert s.log + [] == s.log;
    PlainKeepsTables(s, WithTask(s, tid, next), []);
  }

  lemma CountedKeepsAttempts(s: State, s': State, rid: Id, e: Event)
    requires AttemptsOk(s) && rid in s.logins && s'.log == s.log + [e] && s'.now == s.now
    requires var c := Counted(s, rid);
             s'.logins == c.logins && s'.attempts == c.attempts
             && e.CodeSubmitted? && e.rid == rid && e.account == Owner(s.logins[rid]) && e.at == s.now
             && (e.passed <==> WithinLimits(c, rid))
    ensures AttemptsOk(s')
  {
    var entry := Window.Attempt(e.account, rid, e.at, e.passed);
    AttemptsAppend(s.log, e);
    Window.AttemptKeepsSound(s.attempts, CountsOf(s.logins), AttemptsOf(s.log), s.now,
                             entry, s'.attempts, CountsOf(s'.logins), AttemptsOf(s'.log));
  }

  // ----- the steps of a task -----

  lemma ResolvedKeepsTables(s: State, rid: Id, login: Login, address: string)
    requires Tables(s) && rid in s.logins && SameCounters(s.logins[rid], login)
    ensures Tables(Logged(WithLogin(s, rid, login), AccountResolved(rid, address)))
  {
    var e := AccountResolved(rid, address);
    PlainKeepsTables(s, Logged(WithLogin(s, rid, login), e), [e]);
  }

  /** A request's status changes, and a task moves on without checking anything. */
  lemma StatusKeepsTables(s: State, rid: Id, login: Login, tid: nat, next: Task)
    requires Tables(s) && rid in s.logins && SameCounters(s.logins[rid], login)
    requires next.Done? || next.AttemptNotify?
    ensures Tables(WithTask(WithLogin(s, rid, login), tid, next))
  {
    NothingKeepsTables(s);
    PlainKeepsTables(s, WithTask(WithLogin(s, rid, login), tid, next), []);
  }

  lemma StartKeepsTables(cfg: Config, s: State, tid: nat, answer: Answer)
    requires Tables(s) && tid in s.tasks && IsStart(s.tasks[tid])
    ensures Tables(StartStep(cfg, s, tid, s.tasks[tid], answer))
  {
    var t := s.tasks[tid];
    if t.rid in s.logins {
      if t.StartNew? {
        MoveKeepsTables(s, tid, if t.rid in s.pending then StartLookup(t.rid, t.address) else Done);
      } else if answer.targets == [] {
        StatusKeepsTables(s, t.rid, s.logins[t.rid].(status := Denied), tid, Done);
      } else {
        var login := s.logins[t.rid].(email := Some(t.address), account := Some(cfg.normalize(t.address)));
        ResolvedKeepsTables(s, t.rid, login, t.address);
        BeginKeepsTables(Logged(WithLogin(s, t.rid, login), AccountResolved(t.rid, t.address)), tid, t.rid,
                         answer.targets);
      }
    }
  }

  lemma BeginKeepsTables(s: State, tid: nat, rid: Id, targets: seq<string>)
    requires Tables(s)
    ensures Tables(BeginAttempt(s, tid, rid, targets))
  {
    if rid !in s.pending || rid !in s.logins {
      MoveKeepsTables(s, tid, Done);
    } else {
      var l, n := s.logins[rid], s.logins[rid].attempt + 1;
      var next := AttemptBlockCheck(rid, n, Owner(l), targets);
      BegunKeepsTables(s, rid, l.(attempt := n), tid, next);
      BeginIs(s, tid, rid, targets);
    }
  }

  lemma BeginIs(s: State, tid: nat, rid: Id, targets: seq<string>)
    requires rid in s.pending && rid in s.logins
    ensures var l, n := s.logins[rid], s.logins[rid].attempt + 1;
            BeginAttempt(s, tid, rid, targets)
            == Logged(WithTask(WithLogin(s, rid, l.(attempt := n)), tid, AttemptBlockCheck(rid, n, Owner(l), targets)),
                      AttemptBegan(rid, tid, n))
  {
  }

  lemma BegunKeepsTables(s: State, rid: Id, l: Login, tid: nat, task: Task)
    requires Tables(s) && rid in s.logins && SameCounters(s.logins[rid], l)
    requires task.AttemptBlockCheck?
    ensures Tables(Logged(WithTask(WithLogin(s, rid, l), tid, task), AttemptBegan(rid, tid, task.n)))
  {
    PlainKeepsTables(s, Logged(WithTask(WithLogin(s, rid, l), tid, task), AttemptBegan(rid, tid, task.n)),
                     [AttemptBegan(rid, tid, task.n)]);
  }

  lemma KeptKeepsTables(s: State, rid: Id, login: Login, e: Event)
    requires Tables(s) && rid in s.logins && SameCounters(s.logins[rid], login) && e.Kept?
    ensures Tables(Logged(WithLogin(s, rid, login), e))
  {
    PlainKeepsTables(s, Logged(WithLogin(s, rid, login), e), [e]);
  }

  lemma ConcludeKeepsTables(s: State, tid: nat, rid: Id, n: nat, account: string, outcome: Status, tapped: nat)
    requires Tables(s)
    ensures Tables(Conclude(s, tid, rid, n, account, outcome, tapped))
  {
    if !IsCurrent(s, rid, n) {
      MoveKeepsTables(s, tid, Done);
    } else {
      var kept, l := |s.log|, s.logins[rid];
      var e := Kept(rid, tid, n, account, outcome, tapped);
      var login := l.(status := outcome, approved := if outcome == Approved then kept else l.approved);
      KeptKeepsTables(s, rid, login, e);
      if outcome == Approved || outcome == Rejected {
        MoveKeepsTables(Logged(WithLogin(s, rid, login), e), tid,
                        AttemptRecord(rid, n, account, kept, outcome == Approved));
      } else {
        FilingKeepsTables(Logged(WithLogin(s, rid, login), e), tid, rid, account, kept);
      }
    }
  }

  lemma FilingKeepsTables(s: State, tid: nat, rid: Id, account: string, kept: nat)
    requires Tables(s) && rid in s.logins && kept < |s.log| && s.log[kept].Kept? && s.log[kept].rid == rid
    requires IsVerdict(s.log[kept].outcome) || s.logins[rid].status == s.log[kept].outcome
    ensures Tables(WithTask(FileOutcome(s, tid, rid, account, kept), tid, Done))
  {
    var l := s.logins[rid];
    if IsOutcome(l.status) {
      RowKeepsTables(s, tid, AuditRow(account, rid, Ended(l.status), l.ip), kept);
    } else {
      MoveKeepsTables(s, tid, Done);
    }
  }

  lemma RowKeepsTables(s: State, tid: nat, row: AuditRow, kept: nat)
    requires Tables(s) && kept < |s.log| && s.log[kept].Kept?
    requires AddressOf(s.log, s.logins, kept, row.ip)
    requires IsVerdict(s.log[kept].outcome) || row.kind == Ended(s.log[kept].outcome)
    ensures Tables(WithTask(Filing(s, tid, row, Some(kept)), tid, Done))
  {
    PlainKeepsTables(s, WithTask(Filing(s, tid, row, Some(kept)), tid, Done), [Filed(tid, row, Some(kept))]);
  }

  lemma BlockCheckKeepsTables(s: State, tid: nat)
    requires Tables(s) && tid in s.tasks && s.tasks[tid].AttemptBlockCheck? && s.tasks[tid].rid in s.logins
    ensures Tables(BlockCheckStep(s, tid, s.tasks[tid]))
  {
    var t, l := s.tasks[tid], s.logins[s.tasks[tid].rid];
    if Blocks.RowBlocks(Blocks.Get(s.blocks, (t.account, l.ip))) {
      PlainKeepsTables(s, BlockCheckStep(s, tid, t), [Filed(tid, AuditRow(t.account, t.rid, WasBlocked, l.ip), None)]);
    } else {
      StatusKeepsTables(s, t.rid, l.(status := Waiting, waitingSince := Some(s.now)), tid,
                        AttemptNotify(t.rid, t.n, t.account, t.targets));
    }
  }

  lemma NotifyKeepsTables(cfg: Config, s: State, tid: nat, answer: Answer)
    requires Tables(s) && tid in s.tasks && s.tasks[tid].AttemptNotify?
    ensures Tables(NotifyStep(cfg, s, tid, s.tasks[tid], answer))
  {
    var t := s.tasks[tid];
    if answer.sends.None? || (|answer.sends.value| == |t.targets| && true !in answer.sends.value) {
      ConcludeKeepsTables(s, tid, t.rid, t.n, t.account, SendFailed, 0);
    } else {
      NothingKeepsTables(s);
      PlainKeepsTables(s, NotifyStep(cfg, s, tid, t, answer), []);
    }
  }

  lemma LeavingKeepsTables(s: State, registry: map<Id, nat>)
    requires Tables(s)
    ensures Tables(s.(registry := registry))
  {
    NothingKeepsTables(s);
    PlainKeepsTables(s, s.(registry := registry), []);
  }

  lemma WaitKeepsTables(s: State, tid: nat)
    requires Tables(s) && tid in s.tasks && s.tasks[tid].AttemptWait?
    ensures Tables(WaitStep(s, tid, s.tasks[tid]))
  {
    var t := s.tasks[tid];
    var registry := if t.rid in s.registry && s.registry[t.rid] == tid then s.registry - {t.rid} else s.registry;
    LeavingKeepsTables(s, registry);
    if t.expired || !t.fut.Resolved? {
      ConcludeKeepsTables(s.(registry := registry), tid, t.rid, t.n, t.account, TimedOut, 0);
    } else {
      ConcludeKeepsTables(s.(registry := registry), tid, t.rid, t.n, t.account,
                          if t.fut.verdict then Approved else Rejected, t.fut.tapped);
    }
  }

  lemma BlockWriteKeepsTables(cfg: Config, s: State, tid: nat, pair: Blocks.Pair, success: bool, cause: nat,
                              next: Task)
    requires Tables(s) && Backed(s.recovery.rows, s.log, next)
    requires cause < |s.log| && AddressOf(s.log, s.logins, cause, pair.1)
    ensures Tables(WithTask(BlockWrite(cfg, s, tid, pair, success, cause), tid, next))
  {
    var e := BlockWritten(tid, pair, success, cause, s.now);
    BackedStays(s.recovery.rows, s.recovery.rows, s.log, [e], next);
    PlainKeepsTables(s, WithTask(BlockWrite(cfg, s, tid, pair, success, cause), tid, next), [e]);
  }

  lemma AttemptKeepsTables(cfg: Config, s: State, tid: nat, answer: Answer)
    requires Tables(s) && tid in s.tasks && (s.tasks[tid].AttemptNew? || IsNumbered(s.tasks[tid]))
    ensures Tables(AttemptStep(cfg, s, tid, s.tasks[tid], answer))
  {
    assert BackedAt(s.recovery.rows, s.log, s.tasks, tid);
    if s.tasks[tid].rid in s.logins {
      match s.tasks[tid]
      case AttemptNew(rid, targets) => BeginKeepsTables(s, tid, rid, targets);
      case AttemptBlockCheck(_, _, _, _) => BlockCheckKeepsTables(s, tid);
      case AttemptNotify(_, _, _, _) => NotifyKeepsTables(cfg, s, tid, answer);
      case AttemptWait(_, _, _, _, _, _) => WaitKeepsTables(s, tid);
      case AttemptRecord(rid, n, account, kept, success) =>
        BlockWriteKeepsTables(cfg, s, tid, (account, s.logins[rid].ip), success, kept,
                              AttemptFile(rid, n, account, kept));
      case AttemptFile(rid, n, account, kept) => FilingKeepsTables(s, tid, rid, account, kept);
    }
  }

  // ----- a check, from its first query to its commit -----

  lemma LookupKeepsTables(cfg: Config, s: State, tid: nat)
    requires Tables(s) && tid in s.tasks
    requires s.tasks[tid].CodeBlockCheck? || s.tasks[tid].CodeReadGeneration? || s.tasks[tid].CodeReadRows?
    requires s.tasks[tid].rid in s.logins
    ensures Tables(CodeStep(cfg, s, tid, s.tasks[tid]))
  {
    var t := s.tasks[tid];
    assert BackedAt(s.recovery.rows, s.log, s.tasks, tid);
    if t.CodeReadRows? {
      SnapshotHeld(s.recovery.rows, t.account, t.generation);
    }
    if t.CodeReadGeneration? && Recovery.Current(s.recovery, t.account).None? {
      RefuseKeepsTables(s, tid);
    } else {
      assert s.log + [] == s.log;
      PlainKeepsTables(s, CodeStep(cfg, s, tid, t), []);
    }
  }

  lemma SnapshotHeld(rows: seq<Recovery.Row>, account: string, generation: int)
    ensures Held(rows, account, Recovery.Snapshot(rows, account, generation))
  {
    Recovery.SnapshotHolds(rows, account, generation);
    var candidates := Recovery.Snapshot(rows, account, generation);
    forall i | 0 <= i < |candidates|
      ensures RowOf(rows, account, candidates[i])
    {
      assert candidates[i] in candidates;
    }
  }

  lemma HashKeepsTables(cfg: Config, s: State, tid: nat)
    requires Tables(s) && tid in s.tasks && s.tasks[tid].CodeHash? && s.tasks[tid].rid in s.logins
    ensures Tables(CodeStep(cfg, s, tid, s.tasks[tid]))
  {
    var t := s.tasks[tid];
    match Recovery.Match(t.candidates, t.code)
    case None => RefuseKeepsTables(s, tid);
    case Some(row) =>
      AcceptKeepsTables(s, tid, row);
  }

  lemma RefuseKeepsTables(s: State, tid: nat)
    requires Tables(s) && tid in s.tasks && (s.tasks[tid].CodeReadGeneration? || s.tasks[tid].CodeHash?)
    ensures var t := s.tasks[tid];
            Tables(Refusing(s, tid, t.rid, t.account, t.ip, t.code))
  {
    var t, rows := s.tasks[tid], s.recovery.rows;
    var e := CodeRefused(t.rid, tid, t.account, t.ip, t.code);
    assert BackedAt(rows, s.log, s.tasks, tid);
    assert (s.log + [e])[..|s.log|] == s.log;
    assert Grows(rows, rows);
    RecoveryStays(rows, rows, s.log, [e], s.tasks, s.tasks[tid := CodeWrong(t.rid, t.account, t.ip, |s.log|)]);
    FilesStayQuiet(s.log, e, s.logins, s.logins);
    TokensStay(s.log, e, s.tokens, s.granted);
    AttemptsStay(s, Refusing(s, tid, t.rid, t.account, t.ip, t.code), [e]);
  }

  lemma AcceptKeepsTables(s: State, tid: nat, row: nat)
    requires Tables(s) && tid in s.tasks && s.tasks[tid].CodeHash? && s.tasks[tid].rid in s.logins
    requires Recovery.Match(s.tasks[tid].candidates, s.tasks[tid].code) == Some(row)
    ensures var t := s.tasks[tid];
            Tables(Logged(WithTask(s.(recovery := Recovery.Spend(s.recovery, row)), tid,
                                   CodeRight(t.rid, t.account, t.ip, |s.log|)),
                          CodeAccepted(t.rid, tid, t.account, t.ip, row, t.code)))
  {
    var t, rows := s.tasks[tid], s.recovery.rows;
    var e, rows' := CodeAccepted(t.rid, tid, t.account, t.ip, row, t.code), Recovery.Spend(s.recovery, row).rows;
    var tasks' := s.tasks[tid := CodeRight(t.rid, t.account, t.ip, |s.log|)];
    assert BackedAt(rows, s.log, s.tasks, tid);
    MatchedRow(rows, t.account, t.candidates, t.code);
    assert Grows(rows, rows');
    assert (s.log + [e])[..|s.log|] == s.log;
    assert AcceptedAt(rows', s.log + [e], |s.log|);
    RecoveryStays(rows, rows', s.log, [e], s.tasks, tasks');
    FilesStayQuiet(s.log, e, s.logins, s.logins);
    TokensStay(s.log, e, s.tokens, s.granted);
    AttemptsStay(s, Logged(WithTask(s.(recovery := Recovery.Spend(s.recovery, row)), tid,
                                    CodeRight(t.rid, t.account, t.ip, |s.log|)), e), [e]);
  }

  lemma MatchedRow(rows: seq<Recovery.Row>, account: string, candidates: seq<Recovery.Candidate>, code: string)
    requires Held(rows, account, candidates) && Recovery.Match(candidates, code).Some?
    ensures RowOf(rows, account, Recovery.Candidate(Recovery.Match(candidates, code).value, Recovery.Argon2(code)))
  {
    Recovery.MatchFinds(candidates, code);
    var c := Recovery.Candidate(Recovery.Match(candidates, code).value, Recovery.Argon2(code));
    var i :| 0 <= i < |candidates| && candidates[i] == c;
    assert RowOf(rows, account, candidates[i]);
  }

  lemma CodeKeepsTables(cfg: Config, s: State, tid: nat)
    requires Tables(s) && tid in s.tasks && IsCode(s.tasks[tid])
    ensures Tables(CodeStep(cfg, s, tid, s.tasks[tid]))
  {
    var t := s.tasks[tid];
    assert BackedAt(s.recovery.rows, s.log, s.tasks, tid);
    if t.rid in s.logins {
      if t.CodeBlockCheck? || t.CodeReadGeneration? || t.CodeReadRows? {
        LookupKeepsTables(cfg, s, tid);
      } else if t.CodeHash? {
        HashKeepsTables(cfg, s, tid);
      } else if t.CodeWrong? {
        BlockWriteKeepsTables(cfg, s, tid, (t.account, t.ip), false, t.refused, Done);
      } else if t.CodeRight? {
        BlockWriteKeepsTables(cfg, s, tid, (t.account, t.ip), true, t.accepted,
                              CodeFile(t.rid, t.account, t.ip, t.accepted));
      } else {
        CodeEndKeepsTables(cfg, s, tid);
      }
    }
  }

  lemma CodeEndKeepsTables(cfg: Config, s: State, tid: nat)
    requires Tables(s) && tid in s.tasks && (s.tasks[tid].CodeFile? || s.tasks[tid].CodeFinish?)
    requires s.tasks[tid].rid in s.logins
    ensures Tables(CodeStep(cfg, s, tid, s.tasks[tid]))
  {
    assert BackedAt(s.recovery.rows, s.log, s.tasks, tid);
    match s.tasks[tid]
    case CodeFile(rid, account, ip, accepted) =>
      UsedKeepsTables(s, tid, AuditRow(account, rid, RecoveryCodeUsed, ip), accepted,
                      CodeFinish(rid, account, accepted));
    case CodeFinish(rid, account, accepted) =>
      var l := s.logins[rid].(status := Approved, approved := |s.log|);
      FinishKeepsTables(s, tid, rid, l, RecoveryApproved(rid, tid, account, accepted));
  }

  lemma UsedKeepsTables(s: State, tid: nat, row: AuditRow, accepted: nat, next: Task)
    requires Tables(s) && accepted < |s.log| && s.log[accepted].CodeAccepted? && row.ip == s.log[accepted].ip
    requires next.CodeFinish?
    ensures Tables(WithTask(Filing(s, tid, row, Some(accepted)), tid, next))
  {
    PlainKeepsTables(s, WithTask(Filing(s, tid, row, Some(accepted)), tid, next), [Filed(tid, row, Some(accepted))]);
  }

  lemma FinishKeepsTables(s: State, tid: nat, rid: Id, l: Login, e: Event)
    requires Tables(s) && rid in s.logins && SameCounters(s.logins[rid], l) && e.RecoveryApproved?
    ensures Tables(Logged(WithTask(WithLogin(s, rid, l), tid, Done), e))
  {
    PlainKeepsTables(s, Logged(WithTask(WithLogin(s, rid, l), tid, Done), e), [e]);
  }

  // ----- every step, every run -----

  lemma TaskStepKeepsTables(cfg: Config, s: State, tid: nat, answer: Answer)
    requires Tables(s)
    ensures Tables(TaskStep(cfg, s, tid, answer))
  {
    if tid in s.tasks && !s.tasks[tid].Done? {
      if IsStart(s.tasks[tid]) {
        StartKeepsTables(cfg, s, tid, answer);
      } else if s.tasks[tid].RetryLookup? {
        NothingKeepsTables(s);
        PlainKeepsTables(s, WithTask(s, tid, AttemptNew(s.tasks[tid].rid, answer.targets)), []);
      } else if s.tasks[tid].AttemptNew? || IsNumbered(s.tasks[tid]) {
        AttemptKeepsTables(cfg, s, tid, answer);
      } else {
        CodeKeepsTables(cfg, s, tid);
      }
    }
  }

  lemma NextKeepsTables(cfg: Config, s: State, a: Action)
    requires Tables(s)
    ensures Tables(Next(cfg, s, a))
  {
    match a
    case Tick(elapsed) =>
      if elapsed >= 0.0 {
        TickKeepsTables(s, elapsed);
      }
    case OnAuthorize(request, rid, tid) => AuthorizeKeepsTables(cfg, s, request, rid, tid);
    case OnEmail(rid, address, tid) => SubmitEmailKeepsTables(s, rid, address, tid);
    case OnRetry(rid, tid) => RetryKeepsTables(cfg, s, rid, tid);
    case OnRecovery(rid, code, ip, tid) => RecoveryKeepsTables(cfg, s, rid, code, ip, tid);
    case OnComplete(rid, code) => CompleteKeepsTables(s, rid, code);
    case OnFail(rid) => FailKeepsTables(s, rid);
    case OnToken(request, access) => TokenKeepsTables(cfg, s, request, access);
    case OnPurge => PurgeKeepsTables(cfg, s);
    case OnHaAction(text) => HaActionKeepsTables(s, text);
    case OnTimer(tid) => TimerKeepsTables(s, tid);
    case OnTask(tid, answer) => TaskStepKeepsTables(cfg, s, tid, answer);
    case OnBatch(accountId, codes) => BatchKeepsTables(s, accountId, codes);
    case OnUnblock(pair) => UnblockKeepsTables(cfg, s, pair);
  }

  lemma {:induction false} RunKeepsTables(cfg: Config, s: State, actions: seq<Action>)
    requires Tables(s)
    ensures Tables(Run(cfg, s, actions))
  {
    if actions != [] {
      RunKeepsTables(cfg, s, actions[..|actions| - 1]);
      NextKeepsTables(cfg, Run(cfg, s, actions[..|actions| - 1]), actions[|actions| - 1]);
    }
  }

  lemma InitialTables(now: real)
    ensures Tables(Initial(now))
  {
    assert AttemptsOf([]) == [];
  }

  lemma ReachableTables(cfg: Config, s: State)
    requires Reachable(cfg, s)
    ensures Tables(s)
  {
    var start: real, actions: seq<Action> :| Run(cfg, Initial(start), actions) == s;
    InitialTables(start);
    RunKeepsTables(cfg, Initial(start), actions);
  }
}
