/** Steps for building runs by hand: each lemma takes a reachable state in which a step is
    possible and gives the reachable state after it, written out. The runs themselves are
    in `ProtocolWitnesses`.

    A run is for every configuration, so what depends on one is asked of the state a lemma
    starts from: that the block table is empty, so that a block check lets pass; that the
    unlock delay is over, so that a resend or a code is admitted; that a submission is
    within the limits; that no authorization code or access token has the name yet. The
    directory always answers with one phone (`ToPhone`), and its one send gets through
    (`Reached`) or does not (`Unreached`). Where several awaits follow one another with
    nothing else happening, as from the notification to the wait, from a tap to the kept
    outcome, or from a submitted code to its snapshot, one lemma takes them together. */
module ProtocolScenes {
  import opened Options
  import opened LoginProtocol
  import opened ProtocolInvariants
  import opened ProtocolRuns
  import ActionRegistry
  import Blocks = IpBlocking
  import Recovery = RecoveryCodes

  const ToPhone := Answer(["phone"], None)
  const Reached := Answer([], Some([true]))
  const Unreached := Answer([], Some([false]))

  /** One request and one task changed, and the history gained `more`. */
  predicate Moved(s: State, s': State, rid: Id, login: Login, tid: nat, task: Task, more: seq<Event>) {
    s' == s.(logins := s.logins[rid := login], tasks := s.tasks[tid := task], log := s.log + more)
  }

  // ----- opening a login -----

  function NewLogin(cfg: Config, hint: string): Login {
    Login(cfg.clientId, cfg.redirectUri, None, None, hint, 0.0, "", 0,
          AwaitingEmail, if hint == "" then None else Some(hint), None, 0, None, 0, 0)
  }

  /** The service starts and a first request comes, with a hint or without. */
  lemma Opened(cfg: Config, rid: Id, hint: string, tid: nat) returns (s: State)
    ensures Reachable(cfg, s)
    ensures s == Initial(0.0).(pending := [rid], logins := map[rid := NewLogin(cfg, hint)],
                               tasks := if hint == "" then map[] else map[tid := StartNew(rid, hint)],
                               log := [Authorized(rid, cfg.clientId, cfg.redirectUri, None, None, hint, "", 0.0)])
  {
    ReachableStart(cfg, 0.0);
    var r := AuthorizeRequest(cfg.clientId, cfg.redirectUri, "code", if hint == "" then None else Some(hint),
                              None, None, None, "");
    ReachableNext(cfg, Initial(0.0), OnAuthorize(r, rid, tid));
    s := Next(cfg, Initial(0.0), OnAuthorize(r, rid, tid));
    assert Evict(Initial(0.0)) == Initial(0.0);
  }

  lemma Emailed(cfg: Config, s: State, rid: Id, address: string, tid: nat) returns (s': State)
    requires Reachable(cfg, s) && rid in s.pending && rid in s.logins
    requires s.logins[rid].status == AwaitingEmail && tid !in s.tasks
    ensures Reachable(cfg, s')
    ensures Moved(s, s', rid, s.logins[rid].(status := Resolving), tid, StartNew(rid, address),
                  [EmailSubmitted(rid, address)])
  {
    ReachableNext(cfg, s, OnEmail(rid, address, tid));
    s' := Next(cfg, s, OnEmail(rid, address, tid));
  }

  lemma LooksUp(cfg: Config, s: State, tid: nat) returns (s': State)
    requires Reachable(cfg, s) && tid in s.tasks && s.tasks[tid].StartNew?
    requires s.tasks[tid].rid in s.logins && s.tasks[tid].rid in s.pending
    ensures Reachable(cfg, s')
    ensures s' == s.(tasks := s.tasks[tid := StartLookup(s.tasks[tid].rid, s.tasks[tid].address)])
  {
    ReachableNext(cfg, s, OnTask(tid, Silent));
    s' := Next(cfg, s, OnTask(tid, Silent));
  }

  lemma Resolves(cfg: Config, s: State, tid: nat) returns (s': State)
    requires Reachable(cfg, s) && tid in s.tasks && s.tasks[tid].StartLookup?
    requires s.tasks[tid].rid in s.logins && s.tasks[tid].rid in s.pending
    ensures Reachable(cfg, s')
    ensures var rid, address := s.tasks[tid].rid, s.tasks[tid].address;
            var l, account := s.logins[rid], cfg.normalize(address);
            Moved(s, s', rid, l.(email := Some(address), account := Some(account), attempt := l.attempt + 1),
                  tid, AttemptBlockCheck(rid, l.attempt + 1, account, ["phone"]),
                  [AccountResolved(rid, address), AttemptBegan(rid, tid, l.attempt + 1)])
  {
    ReachableNext(cfg, s, OnTask(tid, ToPhone));
    s' := Next(cfg, s, OnTask(tid, ToPhone));
    var rid, address := s.tasks[tid].rid, s.tasks[tid].address;
    ResolvedThenBegun(s, tid, rid, s.logins[rid].(email := Some(address), account := Some(cfg.normalize(address))),
                      address);
  }

  lemma ResolvedThenBegun(s: State, tid: nat, rid: Id, l: Login, address: string)
    requires rid in s.pending && rid in s.logins && l.account.Some?
    ensures var s' := BeginAttempt(Logged(WithLogin(s, rid, l), AccountResolved(rid, address)), tid, rid, ["phone"]);
            Moved(s, s', rid, l.(attempt := l.attempt + 1), tid,
                  AttemptBlockCheck(rid, l.attempt + 1, l.account.value, ["phone"]),
                  [AccountResolved(rid, address), AttemptBegan(rid, tid, l.attempt + 1)])
  {
    assert s.logins[rid := l][rid := l.(attempt := l.attempt + 1)] == s.logins[rid := l.(attempt := l.attempt + 1)];
    assert s.log + [AccountResolved(rid, address)] + [AttemptBegan(rid, tid, l.attempt + 1)]
        == s.log + [AccountResolved(rid, address), AttemptBegan(rid, tid, l.attempt + 1)];
  }

  // ----- an attempt -----

  lemma Allowed(cfg: Config, s: State, tid: nat) returns (s': State)
    requires Reachable(cfg, s) && tid in s.tasks && s.tasks[tid].AttemptBlockCheck? && s.tasks[tid].rid in s.logins
    requires s.blocks == map[]
    ensures Reachable(cfg, s')
    ensures var t := s.tasks[tid];
            Moved(s, s', t.rid, s.logins[t.rid].(status := Waiting, waitingSince := Some(s.now)),
                  tid, AttemptNotify(t.rid, t.n, t.account, t.targets), [])
  {
    ReachableNext(cfg, s, OnTask(tid, Silent));
    s' := Next(cfg, s, OnTask(tid, Silent));
    assert s.log + [] == s.log;
  }

  /** Whatever the request's status was. */
  lemma BlockCheckOverwrites(cfg: Config, s: State, tid: nat)
    requires tid in s.tasks && s.tasks[tid].AttemptBlockCheck? && s.tasks[tid].rid in s.logins && s.blocks == map[]
    ensures var s' := Next(cfg, s, OnTask(tid, Silent));
            s.tasks[tid].rid in s'.logins && s'.logins[s.tasks[tid].rid].status == Waiting
  {
  }

  lemma Sent(cfg: Config, s: State, tid: nat) returns (s': State)
    requires Reachable(cfg, s) && tid in s.tasks && s.tasks[tid].AttemptNotify? && s.tasks[tid].rid in s.logins
    requires s.tasks[tid].targets == ["phone"]
    ensures Reachable(cfg, s')
    ensures var t := s.tasks[tid];
            s' == s.(registry := s.registry[t.rid := tid],
                     tasks := s.tasks[tid := AttemptWait(t.rid, t.n, t.account, s.now + cfg.approvalTimeout,
                                                         Unset, false)])
  {
    ReachableNext(cfg, s, OnTask(tid, Reached));
    s' := Next(cfg, s, OnTask(tid, Reached));
  }

  lemma Pressed(cfg: Config, s: State, tid: nat, verdict: bool) returns (s': State)
    requires Reachable(cfg, s) && tid in s.tasks && s.tasks[tid].AttemptWait? && s.tasks[tid].fut.Unset?
    requires s.tasks[tid].rid in s.registry && s.registry[s.tasks[tid].rid] == tid
    ensures Reachable(cfg, s')
    ensures var rid, name := s.tasks[tid].rid, ActionRegistry.ActionName(s.tasks[tid].rid, verdict);
            s' == s.(tasks := s.tasks[tid := s.tasks[tid].(fut := Resolved(verdict, |s.log|))],
                     log := s.log + [Tapped(name, rid, verdict, tid)])
  {
    var rid, name := s.tasks[tid].rid, ActionRegistry.ActionName(s.tasks[tid].rid, verdict);
    ActionRegistry.ParseInvertsActionName(name, rid, verdict);
    ReachableNext(cfg, s, OnHaAction(name));
    s' := Next(cfg, s, OnHaAction(name));
  }

  /** The waiter reads the verdict while its attempt is current. */
  lemma Reads(cfg: Config, s: State, tid: nat) returns (s': State)
    requires Reachable(cfg, s) && tid in s.tasks && s.tasks[tid].AttemptWait?
    requires s.tasks[tid].fut.Resolved? && !s.tasks[tid].expired
    requires s.tasks[tid].rid in s.registry && s.registry[s.tasks[tid].rid] == tid
    requires IsCurrent(s, s.tasks[tid].rid, s.tasks[tid].n)
    ensures Reachable(cfg, s')
    ensures var t, l := s.tasks[tid], s.logins[s.tasks[tid].rid];
            var outcome := if t.fut.verdict then Approved else Rejected;
            Moved(s.(registry := s.registry - {t.rid}), s', t.rid,
                  l.(status := outcome, approved := if t.fut.verdict then |s.log| else l.approved),
                  tid, AttemptRecord(t.rid, t.n, t.account, |s.log|, t.fut.verdict),
                  [Kept(t.rid, tid, t.n, t.account, outcome, t.fut.tapped)])
  {
    ReachableNext(cfg, s, OnTask(tid, Silent));
    s' := Next(cfg, s, OnTask(tid, Silent));
    NextIsWait(cfg, s, tid);
    WaitConcludes(s, tid, s.tasks[tid]);
  }

  /** Past the block check, the notification sent. */
  lemma Notified(cfg: Config, s: State, tid: nat) returns (s': State)
    requires Reachable(cfg, s) && tid in s.tasks && s.tasks[tid].AttemptBlockCheck? && s.tasks[tid].rid in s.logins
    requires s.blocks == map[] && s.tasks[tid].targets == ["phone"]
    ensures Reachable(cfg, s')
    ensures var t := s.tasks[tid];
            Moved(s.(registry := s.registry[t.rid := tid]), s', t.rid,
                  s.logins[t.rid].(status := Waiting, waitingSince := Some(s.now)), tid,
                  AttemptWait(t.rid, t.n, t.account, s.now + cfg.approvalTimeout, Unset, false), [])
  {
    var t := s.tasks[tid];
    var allowed := Allowed(cfg, s, tid);
    s' := Sent(cfg, allowed, tid);
    assert s'.tasks == s.tasks[tid := s'.tasks[tid]];
  }

  /** The button is pressed, and the waiter reads the verdict at once. */
  lemma Answered(cfg: Config, s: State, tid: nat, verdict: bool) returns (s': State)
    requires Reachable(cfg, s) && tid in s.tasks && s.tasks[tid].AttemptWait?
    requires s.tasks[tid].fut.Unset? && !s.tasks[tid].expired
    requires s.tasks[tid].rid in s.registry && s.registry[s.tasks[tid].rid] == tid
    requires IsCurrent(s, s.tasks[tid].rid, s.tasks[tid].n)
    ensures Reachable(cfg, s')
    ensures var t, l := s.tasks[tid], s.logins[s.tasks[tid].rid];
            var outcome := if verdict then Approved else Rejected;
            Moved(s.(registry := s.registry - {t.rid}), s', t.rid,
                  l.(status := outcome, approved := if verdict then |s.log| + 1 else l.approved),
                  tid, AttemptRecord(t.rid, t.n, t.account, |s.log| + 1, verdict),
                  [Tapped(ActionRegistry.ActionName(t.rid, verdict), t.rid, verdict, tid),
                   Kept(t.rid, tid, t.n, t.account, outcome, |s.log|)])
  {
    var pressed := Pressed(cfg, s, tid, verdict);
    s' := Reads(cfg, pressed, tid);
    assert s'.tasks == s.tasks[tid := s'.tasks[tid]];
    assert s'.log == s.log + [pressed.log[|s.log|], s'.log[|s.log| + 1]];
  }

  // ----- resends -----

  lemma Asked(cfg: Config, s: State, rid: Id, tid: nat) returns (s': State)
    requires Reachable(cfg, s) && MayResend(cfg, s, rid) && tid !in s.tasks
    ensures Reachable(cfg, s') && s' == WithTask(s, tid, RetryLookup(rid))
  {
    ReachableNext(cfg, s, OnRetry(rid, tid));
    s' := Next(cfg, s, OnRetry(rid, tid));
  }

  /** A resend is admitted and looks up its targets. */
  lemma Resent(cfg: Config, s: State, rid: Id, tid: nat) returns (s': State)
    requires Reachable(cfg, s) && MayResend(cfg, s, rid) && tid !in s.tasks
    ensures Reachable(cfg, s')
    ensures s' == s.(tasks := s.tasks[tid := AttemptNew(rid, ["phone"])])
  {
    var asked := Asked(cfg, s, rid, tid);
    s' := LooksUpAgain(cfg, asked, tid);
    var next := AttemptNew(rid, ["phone"]);
    assert s.tasks[tid := RetryLookup(rid)][tid := next] == s.tasks[tid := next];
  }

  lemma LooksUpAgain(cfg: Config, s: State, tid: nat) returns (s': State)
    requires Reachable(cfg, s) && tid in s.tasks && s.tasks[tid].RetryLookup?
    ensures Reachable(cfg, s') && s' == WithTask(s, tid, AttemptNew(s.tasks[tid].rid, ["phone"]))
  {
    ReachableNext(cfg, s, OnTask(tid, ToPhone));
    s' := Next(cfg, s, OnTask(tid, ToPhone));
  }

  lemma Begins(cfg: Config, s: State, tid: nat) returns (s': State)
    requires Reachable(cfg, s) && tid in s.tasks && s.tasks[tid].AttemptNew?
    requires s.tasks[tid].rid in s.pending && s.tasks[tid].rid in s.logins
    ensures Reachable(cfg, s')
    ensures var rid, l := s.tasks[tid].rid, s.logins[s.tasks[tid].rid];
            Moved(s, s', rid, l.(attempt := l.attempt + 1), tid,
                  AttemptBlockCheck(rid, l.attempt + 1, Owner(l), s.tasks[tid].targets),
                  [AttemptBegan(rid, tid, l.attempt + 1)])
  {
    ReachableNext(cfg, s, OnTask(tid, Silent));
    s' := Next(cfg, s, OnTask(tid, Silent));
  }

  // ----- the clock -----

  lemma Passes(cfg: Config, s: State, elapsed: real) returns (s': State)
    requires Reachable(cfg, s) && elapsed >= 0.0
    ensures Reachable(cfg, s') && s' == s.(now := s.now + elapsed)
  {
    ReachableNext(cfg, s, Tick(elapsed));
    s' := Next(cfg, s, Tick(elapsed));
  }

  // ----- what follows an outcome -----

  /** Every send of a current attempt fails: the outcome is kept and filed at once. */
  lemma FailsToSend(cfg: Config, s: State, tid: nat) returns (s': State)
    requires Reachable(cfg, s) && tid in s.tasks && s.tasks[tid].AttemptNotify? && s.tasks[tid].targets == ["phone"]
    requires IsCurrent(s, s.tasks[tid].rid, s.tasks[tid].n)
    ensures Reachable(cfg, s')
    ensures var t, l := s.tasks[tid], s.logins[s.tasks[tid].rid];
            var row := AuditRow(t.account, t.rid, Ended(SendFailed), l.ip);
            Moved(s.(audit := s.audit + [row]), s', t.rid, l.(status := SendFailed), tid, Done,
                  [Kept(t.rid, tid, t.n, t.account, SendFailed, 0), Filed(tid, row, Some(|s.log|))])
  {
    ReachableNext(cfg, s, OnTask(tid, Unreached));
    s' := Next(cfg, s, OnTask(tid, Unreached));
    var t := s.tasks[tid];
    assert s' == Conclude(s, tid, t.rid, t.n, t.account, SendFailed, 0);
    EndsUnanswered(s, tid, t.rid, t.n, t.account, SendFailed);
  }

  /** An outcome without a verdict is written and filed at once. */
  lemma EndsUnanswered(s: State, tid: nat, rid: Id, n: nat, account: string, outcome: Status)
    requires IsCurrent(s, rid, n) && (outcome == SendFailed || outcome == TimedOut)
    ensures var l := s.logins[rid];
            var row := AuditRow(account, rid, Ended(outcome), l.ip);
            Moved(s.(audit := s.audit + [row]), Conclude(s, tid, rid, n, account, outcome, 0), rid,
                  l.(status := outcome), tid, Done,
                  [Kept(rid, tid, n, account, outcome, 0), Filed(tid, row, Some(|s.log|))])
  {
    var l, kept := s.logins[rid].(status := outcome), Kept(rid, tid, n, account, outcome, 0);
    var row := AuditRow(account, rid, Ended(outcome), l.ip);
    var written := Logged(WithLogin(s, rid, l), kept);
    var filed := Filing(written, tid, row, Some(|s.log|));
    assert FileOutcome(written, tid, rid, account, |s.log|) == filed;
    assert Conclude(s, tid, rid, n, account, outcome, 0) == WithTask(filed, tid, Done);
    assert s.log + [kept] + [Filed(tid, row, Some(|s.log|))] == s.log + [kept, Filed(tid, row, Some(|s.log|))];
  }

  lemma Records(cfg: Config, s: State, tid: nat) returns (s': State)
    requires Reachable(cfg, s) && tid in s.tasks && s.tasks[tid].AttemptRecord? && s.tasks[tid].rid in s.logins
    ensures Reachable(cfg, s')
    ensures var t, pair := s.tasks[tid], (s.tasks[tid].account, s.logins[s.tasks[tid].rid].ip);
            s' == s.(blocks := s'.blocks, tasks := s.tasks[tid := AttemptFile(t.rid, t.n, t.account, t.kept)],
                     log := s.log + [BlockWritten(tid, pair, t.success, t.kept, s.now)])
  {
    ReachableNext(cfg, s, OnTask(tid, Silent));
    s' := Next(cfg, s, OnTask(tid, Silent));
  }

  /** The row is filed with the status of this moment, if that is one the log accepts. */
  lemma Files(cfg: Config, s: State, tid: nat) returns (s': State)
    requires Reachable(cfg, s) && tid in s.tasks && s.tasks[tid].AttemptFile? && s.tasks[tid].rid in s.logins
    requires IsOutcome(s.logins[s.tasks[tid].rid].status)
    ensures Reachable(cfg, s')
    ensures var t, l := s.tasks[tid], s.logins[s.tasks[tid].rid];
            s'.log == s.log + [Filed(tid, AuditRow(t.account, t.rid, Ended(l.status), l.ip), Some(t.kept))]
  {
    ReachableNext(cfg, s, OnTask(tid, Silent));
    s' := Next(cfg, s, OnTask(tid, Silent));
  }

  lemma FilesNothing(cfg: Config, s: State, tid: nat)
    requires tid in s.tasks && s.tasks[tid].AttemptFile? && s.tasks[tid].rid in s.logins
    requires !IsOutcome(s.logins[s.tasks[tid].rid].status)
    ensures Next(cfg, s, OnTask(tid, Silent)) == WithTask(s, tid, Done)
  {
  }

  // ----- recovery codes -----

  lemma Batched(cfg: Config, s: State, account: string, code: string) returns (s': State)
    requires Reachable(cfg, s) && s.recovery == Recovery.EMPTY
    ensures Reachable(cfg, s')
    ensures var row := Recovery.Row(account, Recovery.Argon2(code), 1, false);
            s' == s.(recovery := Recovery.Db(map[account := 1], [row]))
  {
    ReachableNext(cfg, s, OnBatch(account, [code]));
    s' := Next(cfg, s, OnBatch(account, [code]));
    assert Recovery.Inserted(account, 1, [code]) == [Recovery.Row(account, Recovery.Argon2(code), 1, false)];
  }

  lemma Submits(cfg: Config, s: State, rid: Id, code: string, tid: nat) returns (s': State)
    requires Reachable(cfg, s) && MayResend(cfg, s, rid) && tid !in s.tasks
    requires WithinLimits(Counted(s, rid), rid)
    ensures Reachable(cfg, s')
    ensures var l, counted := s.logins[rid], Counted(s, rid);
            s' == s.(attempts := counted.attempts, logins := counted.logins,
                     tasks := s.tasks[tid := CodeBlockCheck(rid, Owner(l), "", code)],
                     log := s.log + [CodeSubmitted(rid, Owner(l), "", code, s.now, true)])
  {
    ReachableNext(cfg, s, OnRecovery(rid, code, "", tid));
    s' := Next(cfg, s, OnRecovery(rid, code, "", tid));
  }

  /** A check takes its snapshot of a table that holds one unused row. */
  lemma Snapshots(cfg: Config, s: State, tid: nat, row: Recovery.Row) returns (s': State)
    requires Reachable(cfg, s) && tid in s.tasks && s.tasks[tid].CodeBlockCheck? && s.tasks[tid].rid in s.logins
    requires s.blocks == map[] && row.accountId == s.tasks[tid].account && row.generation == 1 && !row.used
    requires s.recovery == Recovery.Db(map[row.accountId := 1], [row])
    ensures Reachable(cfg, s')
    ensures var t := s.tasks[tid];
            var candidates := [Recovery.Candidate(0, row.hash)];
            s' == s.(tasks := s.tasks[tid := CodeHash(t.rid, t.account, t.ip, t.code, candidates)])
  {
    s' := PassesBlockCheck(cfg, s, tid);
    s' := ReadsGeneration(cfg, s', tid);
    s' := ReadsRows(cfg, s', tid, row);
    assert s'.tasks == s.tasks[tid := s'.tasks[tid]];
  }

  lemma PassesBlockCheck(cfg: Config, s: State, tid: nat) returns (s': State)
    requires Reachable(cfg, s) && tid in s.tasks && s.tasks[tid].CodeBlockCheck? && s.tasks[tid].rid in s.logins
    requires s.blocks == map[]
    ensures Reachable(cfg, s')
    ensures var t := s.tasks[tid];
            s' == WithTask(s, tid, CodeReadGeneration(t.rid, t.account, t.ip, t.code))
  {
    ReachableNext(cfg, s, OnTask(tid, Silent));
    s' := Next(cfg, s, OnTask(tid, Silent));
  }

  lemma ReadsGeneration(cfg: Config, s: State, tid: nat) returns (s': State)
    requires Reachable(cfg, s) && tid in s.tasks && s.tasks[tid].CodeReadGeneration? && s.tasks[tid].rid in s.logins
    requires s.recovery.generations == map[s.tasks[tid].account := 1]
    ensures Reachable(cfg, s')
    ensures var t := s.tasks[tid];
            s' == WithTask(s, tid, CodeReadRows(t.rid, t.account, t.ip, t.code, 1))
  {
    ReachableNext(cfg, s, OnTask(tid, Silent));
    s' := Next(cfg, s, OnTask(tid, Silent));
  }

  lemma ReadsRows(cfg: Config, s: State, tid: nat, row: Recovery.Row) returns (s': State)
    requires Reachable(cfg, s) && tid in s.tasks && s.tasks[tid].CodeReadRows? && s.tasks[tid].rid in s.logins
    requires s.recovery.rows == [row] && Recovery.Usable(row, s.tasks[tid].account, s.tasks[tid].generation)
    ensures Reachable(cfg, s')
    ensures var t := s.tasks[tid];
            s' == WithTask(s, tid, CodeHash(t.rid, t.account, t.ip, t.code, [Recovery.Candidate(0, row.hash)]))
  {
    assert Recovery.Snapshot([row], s.tasks[tid].account, s.tasks[tid].generation) == [Recovery.Candidate(0, row.hash)];
    ReachableNext(cfg, s, OnTask(tid, Silent));
    s' := Next(cfg, s, OnTask(tid, Silent));
  }

  /** The commit of a check whose snapshot holds the code. */
  lemma Accepts(cfg: Config, s: State, tid: nat) returns (s': State)
    requires Reachable(cfg, s) && tid in s.tasks && s.tasks[tid].CodeHash? && s.tasks[tid].rid in s.logins
    requires s.tasks[tid].candidates == [Recovery.Candidate(0, Recovery.Argon2(s.tasks[tid].code))]
    ensures Reachable(cfg, s')
    ensures var t := s.tasks[tid];
            s' == s.(recovery := Recovery.Spend(s.recovery, 0),
                     tasks := s.tasks[tid := CodeRight(t.rid, t.account, t.ip, |s.log|)],
                     log := s.log + [CodeAccepted(t.rid, tid, t.account, t.ip, 0, t.code)])
  {
    ReachableNext(cfg, s, OnTask(tid, Silent));
    s' := Next(cfg, s, OnTask(tid, Silent));
  }

  // ----- codes and tokens -----

  function EntryOf(s: State, l: Login): CodeEntry {
    CodeEntry(l.clientId, l.redirectUri, l.nonce, l.challenge, l.account, l.email, s.now, |s.log|)
  }

  lemma Completes(cfg: Config, s: State, rid: Id, code: string) returns (s': State)
    requires Reachable(cfg, s) && s.pending == [rid] && rid in s.logins && s.logins[rid].status == Approved
    requires code !in s.issued
    ensures Reachable(cfg, s')
    ensures var l := s.logins[rid];
            s' == s.(codes := s.codes[code := EntryOf(s, l)], issued := s.issued[code := |s.log|], pending := [],
                     log := s.log + [Completed(rid, code, s.now, l.authorized, l.approved, EntryOf(s, l))])
  {
    ReachableNext(cfg, s, OnComplete(rid, code));
    s' := Next(cfg, s, OnComplete(rid, code));
  }

  /** A code made this very moment is exchanged. */
  lemma Redeems(cfg: Config, s: State, code: string, access: string) returns (s': State)
    requires Reachable(cfg, s) && code in s.codes && access !in s.granted
    requires s.codes[code].issuedAt == s.now && s.codes[code].challenge.None?
    ensures Reachable(cfg, s')
    ensures var c := s.codes[code];
            s' == s.(codes := s.codes - {code}, tokens := s.tokens[access := TokenEntry(c.account, c.email, s.now)],
                     granted := s.granted[access := |s.log|],
                     log := s.log + [Redeemed(code, access, s.now, c.completed, None,
                                              Claims(c.account, c.email, c.clientId, c.nonce))])
  {
    var r := TokenRequest("authorization_code", code, Some(cfg.clientId), Some(cfg.clientSecret), None, None);
    ReachableNext(cfg, s, OnToken(r, access));
    s' := Next(cfg, s, OnToken(r, access));
  }

  /** The timer of a wait fires although its future is already resolved. */
  lemma Fires(cfg: Config, s: State, tid: nat) returns (s': State)
    requires Reachable(cfg, s) && tid in s.tasks && s.tasks[tid].AttemptWait? && s.tasks[tid].fut.Resolved?
    requires s.now >= s.tasks[tid].deadline
    ensures Reachable(cfg, s') && s' == WithTask(s, tid, s.tasks[tid].(expired := true))
  {
    ReachableNext(cfg, s, OnTimer(tid));
    s' := Next(cfg, s, OnTimer(tid));
  }

  /** A current wait ends with its timer. */
  lemma Expires(cfg: Config, s: State, tid: nat) returns (s': State)
    requires Reachable(cfg, s) && tid in s.tasks && s.tasks[tid].AttemptWait? && s.tasks[tid].expired
    requires s.tasks[tid].rid in s.registry && s.registry[s.tasks[tid].rid] == tid
    requires IsCurrent(s, s.tasks[tid].rid, s.tasks[tid].n)
    ensures Reachable(cfg, s')
    ensures var t, l := s.tasks[tid], s.logins[s.tasks[tid].rid];
            var row := AuditRow(t.account, t.rid, Ended(TimedOut), l.ip);
            Moved(s.(registry := s.registry - {t.rid}, audit := s.audit + [row]), s', t.rid,
                  l.(status := TimedOut), tid, Done,
                  [Kept(t.rid, tid, t.n, t.account, TimedOut, 0), Filed(tid, row, Some(|s.log|))])
  {
    ReachableNext(cfg, s, OnTask(tid, Silent));
    s' := Next(cfg, s, OnTask(tid, Silent));
    var t := s.tasks[tid];
    var left := s.(registry := s.registry - {t.rid});
    NextIsWait(cfg, s, tid);
    WaitConcludes(s, tid, t);
    EndsUnanswered(left, tid, t.rid, t.n, t.account, TimedOut);
  }
}
