/** The invariant over whole runs: the steps that take something out of `_pending` or
    `_auth_codes`, then `/authorize`, and at the end every action and every run. */
module ProtocolRuns {
  import opened Options
  import opened LoginProtocol
  import opened ProtocolInvariants
  import opened ProtocolSteps
  import Blocks = IpBlocking
  import Recovery = RecoveryCodes

  // ----- /idp/complete -----

  lemma CompletedEventOk(cfg: Config, s: State, rid: Id, code: string)
    requires Inv(cfg, s) && rid in s.pending && rid in s.logins && s.logins[rid].status == Approved && code !in s.issued
    ensures Complete(s, rid, code).log == s.log + [Complete(s, rid, code).log[|s.log|]]
    ensures EventOk(cfg, Complete(s, rid, code).log, |s.log|)
  {
    var s' := Complete(s, rid, code);
    var l, e := s.logins[rid], s'.log[|s.log|];
    assert LoginAt(cfg, s.log, s.logins, rid);
    assert s'.log[..|s.log|] == s.log;
    TakesOthers(s, e);
    forall j | 0 <= j < |s.log|
      ensures OtherCode(s'.log, j, code)
    {
      assert SpendsKnown(s.log, s.codes, s.issued, j);
    }
  }

  lemma CompleteKeepsCodes(cfg: Config, s: State, rid: Id, code: string)
    requires Inv(cfg, s) && rid in s.pending && rid in s.logins && s.logins[rid].status == Approved && code !in s.issued
    ensures var s' := Complete(s, rid, code);
            CodesOk(s'.now, s'.log, s'.codes, s'.issued)
  {
    var s' := Complete(s, rid, code);
    var e := s'.log[|s.log|];
    forall j | 0 <= j < |s'.log|
      ensures SpendsKnown(s'.log, s'.codes, s'.issued, j)
    {
      assert j < |s.log| ==> SpendsKnown(s.log, s.codes, s.issued, j);
    }
    forall c | c in s'.issued
      ensures IssuedAt(s'.now, s'.log, s'.codes, s'.issued, c)
    {
      if c != code {
        assert IssuedAt(s.now, s.log, s.codes, s.issued, c);
        PresentedStays(s.log, [e], c);
      }
    }
  }

  lemma CompleteKeepsInv(cfg: Config, s: State, rid: Id, code: string)
    requires Inv(cfg, s)
    ensures Inv(cfg, Complete(s, rid, code))
  {
    var s' := Complete(s, rid, code);
    if s' != s {
      var e := s'.log[|s.log|];
      CompletedEventOk(cfg, s, rid, code);
      LogExtends(cfg, s.log, [e]);
      BystandersKept(cfg, s, e);
      LeavingKeepsPending(s.now, s.logins, s.pending, s.log, rid, e);
      CompleteKeepsCodes(cfg, s, rid, code);
    }
  }

  // ----- /token -----

  lemma SpendingKeepsCodes(s: State, code: string, e: Event)
    requires CodesOk(s.now, s.log, s.codes, s.issued) && code in s.codes
    requires (e.Spent? || e.Redeemed?) && e.code == code
    ensures CodesOk(s.now, s.log + [e], s.codes - {code}, s.issued)
  {
    var longer, codes := s.log + [e], s.codes - {code};
    forall j | 0 <= j < |longer|
      ensures SpendsKnown(longer, codes, s.issued, j)
    {
      assert j < |s.log| ==> SpendsKnown(s.log, s.codes, s.issued, j);
    }
    forall c | c in s.issued
      ensures IssuedAt(s.now, longer, codes, s.issued, c)
    {
      assert IssuedAt(s.now, s.log, s.codes, s.issued, c);
      assert longer[s.issued[c]] == s.log[s.issued[c]];
      PresentedStays(s.log, [e], c);
      assert longer[|s.log|] == e;
    }
  }

  lemma StillPending(s: State, e: Event)
    requires PendingOk(s.now, s.logins, s.pending, s.log) && Exits(e) == {} && !e.AttemptBegan? && !e.EmailSubmitted?
    ensures PendingOk(s.now, s.logins, s.pending, s.log + [e])
  {
    var longer := s.log + [e];
    forall j | 0 <= j < |longer|
      ensures Known(s.logins, s.pending, longer, j)
    {
      assert j < |s.log| ==> Known(s.logins, s.pending, s.log, j);
    }
    forall id | id in s.logins && id !in s.pending
      ensures Left(longer, id)
    {
      assert Left(s.log, id);
      LeftStays(s.log, [e], id);
    }
  }

  lemma RedeemedEventOk(cfg: Config, s: State, r: TokenRequest, access: string)
    requires Inv(cfg, s) && r.code in s.codes && EntryOk(cfg, s.now, s.codes[r.code], r)
    ensures var entry := s.codes[r.code];
            EventOk(cfg, s.log + [Redeemed(r.code, access, s.now, entry.completed, r.verifier,
                                           Claims(entry.account, entry.email, entry.clientId, entry.nonce))], |s.log|)
  {
    var entry := s.codes[r.code];
    var e := Redeemed(r.code, access, s.now, entry.completed, r.verifier,
                      Claims(entry.account, entry.email, entry.clientId, entry.nonce));
    assert IssuedAt(s.now, s.log, s.codes, s.issued, r.code);
    assert EventOk(cfg, s.log, s.issued[r.code]);
    TakesOthers(s, e);
  }

  /** A code leaves the table with the event that says so. */
  lemma SpendingKeepsInv(cfg: Config, s: State, code: string, e: Event, tokens: map<string, TokenEntry>,
                         granted: map<string, nat>)
    requires Inv(cfg, s) && code in s.codes && (e.Spent? || e.Redeemed?) && e.code == code
    requires e.Redeemed? ==> EventOk(cfg, s.log + [e], |s.log|)
    ensures Inv(cfg, Logged(s.(codes := s.codes - {code}, tokens := tokens, granted := granted), e))
  {
    TakesOthers(s, e);
    assert EventOk(cfg, s.log + [e], |s.log|);
    LogExtends(cfg, s.log, [e]);
    BystandersKept(cfg, s, e);
    StillPending(s, e);
    SpendingKeepsCodes(s, code, e);
  }

  lemma TokenKeepsInv(cfg: Config, s: State, r: TokenRequest, access: string)
    requires Inv(cfg, s)
    ensures Inv(cfg, Token(cfg, s, r, access))
  {
    if ClientOk(cfg, r) && r.code in s.codes && access !in s.granted {
      var entry := s.codes[r.code];
      if !EntryOk(cfg, s.now, entry, r) {
        SpendingKeepsInv(cfg, s, r.code, Spent(r.code), s.tokens, s.granted);
      } else {
        RedeemedEventOk(cfg, s, r, access);
        SpendingKeepsInv(cfg, s, r.code, Redeemed(r.code, access, s.now, entry.completed, r.verifier,
                                                  Claims(entry.account, entry.email, entry.clientId, entry.nonce)),
                         s.tokens[access := TokenEntry(entry.account, entry.email, s.now)],
                         s.granted[access := |s.log|]);
      }
    }
  }

  // ----- the periodic purge -----

  lemma {:induction false} NotOverdueKeeps(cfg: Config, s: State, ids: seq<Id>)
    requires Distinct(ids) && (forall id | id in ids :: id in s.logins) && InOrder(s.logins, ids)
    ensures var kept := NotOverdue(cfg, s, ids);
            && Distinct(kept) && |kept| <= |ids|
            && (forall id :: id in kept <==> id in ids && !Overdue(cfg, s.now, s.logins[id]))
            && InOrder(s.logins, kept)
  {
    if ids != [] {
      var rest := ids[1..];
      assert ids == [ids[0]] + rest;
      assert forall i | 0 <= i < |rest| :: rest[i] == ids[i + 1];
      NotOverdueKeeps(cfg, s, rest);
      var kept, tail := NotOverdue(cfg, s, ids), NotOverdue(cfg, s, rest);
      if !Overdue(cfg, s.now, s.logins[ids[0]]) {
        assert kept == [ids[0]] + tail;
        HeadFirst(s.logins, ids, tail);
      } else {
        assert kept == tail;
      }
    }
  }

  lemma HeadFirst(logins: map<Id, Login>, ids: seq<Id>, tail: seq<Id>)
    requires ids != [] && Distinct(ids) && (forall id | id in ids :: id in logins) && InOrder(logins, ids)
    requires (forall id | id in tail :: id in ids[1..]) && Distinct(tail) && InOrder(logins, tail)
    ensures (forall id | id in [ids[0]] + tail :: id in logins)
    ensures Distinct([ids[0]] + tail) && InOrder(logins, [ids[0]] + tail)
  {
    var r := [ids[0]] + tail;
    assert ids == [ids[0]] + ids[1..];
    assert forall id | id in r :: id in ids;
    forall i, j | 0 <= i < j < |r|
      ensures r[i] != r[j] && logins[r[i]].createdAt <= logins[r[j]].createdAt
    {
      if i == 0 {
        assert tail[j - 1] in ids[1..];
        var k :| 0 <= k < |ids[1..]| && ids[1..][k] == tail[j - 1];
        assert ids[k + 1] == r[j];
      } else {
        assert r[i] == tail[i - 1] && r[j] == tail[j - 1];
      }
    }
  }

  lemma PurgeKeepsPending(cfg: Config, s: State, e: Event)
    requires PendingOk(s.now, s.logins, s.pending, s.log) && !e.AttemptBegan? && !e.EmailSubmitted?
    requires Exits(e) == set id | id in s.pending && id in s.logins && Overdue(cfg, s.now, s.logins[id])
    ensures PendingOk(s.now, s.logins, NotOverdue(cfg, s, s.pending), s.log + [e])
  {
    NotOverdueKeeps(cfg, s, s.pending);
    var longer, kept := s.log + [e], NotOverdue(cfg, s, s.pending);
    forall j | 0 <= j < |longer|
      ensures Known(s.logins, kept, longer, j)
    {
      assert j < |s.log| ==> Known(s.logins, s.pending, s.log, j);
    }
    forall id | id in s.logins && id !in kept
      ensures Left(longer, id)
    {
      if id in s.pending {
        assert longer[|s.log|] == e && id in Exits(e);
      } else {
        assert Left(s.log, id);
        LeftStays(s.log, [e], id);
      }
    }
  }

  lemma PurgeKeepsCodes(cfg: Config, s: State, e: Event)
    requires CodesOk(s.now, s.log, s.codes, s.issued) && LogOk(cfg, s.log) && !e.Completed?
    requires Spends(e) == set c | c in s.codes && s.now - s.codes[c].issuedAt > AUTH_CODE_TTL
    ensures CodesOk(s.now, s.log + [e], s.codes - Spends(e), s.issued)
  {
    var longer, codes := s.log + [e], s.codes - Spends(e);
    forall j | 0 <= j < |longer|
      ensures SpendsKnown(longer, codes, s.issued, j)
    {
      assert j < |s.log| ==> SpendsKnown(s.log, s.codes, s.issued, j);
    }
    forall c | c in s.issued
      ensures IssuedAt(s.now, longer, codes, s.issued, c)
    {
      assert IssuedAt(s.now, s.log, s.codes, s.issued, c);
      assert EventOk(cfg, s.log, s.issued[c]);
      assert longer[s.issued[c]] == s.log[s.issued[c]];
      PresentedStays(s.log, [e], c);
    }
  }

  lemma PurgeKeepsInv(cfg: Config, s: State)
    requires Inv(cfg, s)
    ensures Inv(cfg, Purge(cfg, s))
  {
    var e := Purge(cfg, s).log[|s.log|];
    TakesOthers(s, e);
    assert EventOk(cfg, s.log + [e], |s.log|);
    LogExtends(cfg, s.log, [e]);
    BystandersKept(cfg, s, e);
    PurgeKeepsPending(cfg, s, e);
    PurgeKeepsCodes(cfg, s, e);
  }

  // ----- every step, every run -----

  lemma TickKeepsInv(cfg: Config, s: State, elapsed: real)
    requires Inv(cfg, s) && elapsed >= 0.0
    ensures Inv(cfg, s.(now := s.now + elapsed))
  {
    var now' := s.now + elapsed;
    forall c | c in s.issued
      ensures IssuedAt(now', s.log, s.codes, s.issued, c)
    {
      assert IssuedAt(s.now, s.log, s.codes, s.issued, c);
    }
  }

  lemma AuthorizeKeepsInv(cfg: Config, s: State, r: AuthorizeRequest, rid: Id, tid: nat)
    requires Inv(cfg, s)
    ensures Inv(cfg, Authorize(cfg, s, r, rid, tid))
  {
    var s' := Authorize(cfg, s, r, rid, tid);
    if Acceptable(cfg, r) && rid !in s.logins && tid !in s.tasks {
      EvictKeepsInv(cfg, s);
      var admitted := Admitted(Evict(s), r, rid);
      AdmittedKeepsInv(cfg, Evict(s), r, rid);
      if HintOf(r) != "" {
        StartedKeepsInv(cfg, admitted, rid, tid);
      }
    }
  }

  /** A hinted request starts resolving its address at once. */
  lemma StartedKeepsInv(cfg: Config, s: State, rid: Id, tid: nat)
    requires Inv(cfg, s) && rid in s.logins && tid !in s.tasks
    ensures Inv(cfg, WithTask(s, tid, StartNew(rid, s.logins[rid].hint)))
  {
    var s' := WithTask(s, tid, StartNew(rid, s.logins[rid].hint));
    Quietly(cfg, s, rid);
    RegistryKept(s, s', tid);
    LoginStands(cfg, s, s', rid, tid, []);
    MoveKeepsInv(cfg, s, s', rid, tid, []);
  }

  lemma FailedKeepsInv(cfg: Config, s: State, rid: Id)
    requires Inv(cfg, s)
    ensures Inv(cfg, Fail(s, rid))
  {
    if rid in s.pending {
      FailKeepsInv(cfg, s, rid, Failed(rid));
    }
  }

  /** Steps outside the login tables: the clock, a batch of codes, an unblock. */
  lemma AsideKeepsInv(cfg: Config, s: State, a: Action)
    requires Inv(cfg, s) && (a.Tick? || a.OnBatch? || a.OnUnblock?)
    ensures Inv(cfg, Next(cfg, s, a))
  {
    match a
    case Tick(elapsed) =>
      assert Next(cfg, s, a) == if elapsed >= 0.0 then s.(now := s.now + elapsed) else s;
      if elapsed >= 0.0 {
        TickKeepsInv(cfg, s, elapsed);
      }
    case OnBatch(accountId, codes) =>
      ElsewhereKeepsInv(cfg, s, s.(recovery := Recovery.Generated(s.recovery, accountId, codes)));
    case OnUnblock(pair) => UnblockKeepsInv(cfg, s, pair);
  }

  lemma UnblockKeepsInv(cfg: Config, s: State, pair: Blocks.Pair)
    requires Inv(cfg, s)
    ensures Inv(cfg, Unblock(cfg, s, pair))
  {
    var blocks := Blocks.Update(s.blocks, pair, Blocks.Unblock(s.now), cfg.blockThreshold);
    NotedKeepsInv(cfg, s, s.(blocks := blocks, log := s.log + [Unblocked(pair, s.now)]), Unblocked(pair, s.now));
  }

  lemma NotedKeepsInv(cfg: Config, s: State, s': State, e: Event)
    requires Inv(cfg, s) && e.Unblocked? && s' == s.(blocks := s'.blocks, log := s.log + [e])
    ensures Inv(cfg, s')
  {
    OneEvent(cfg, s.log, "", e);
    LogExtends(cfg, s.log, [e]);
    BystandersKept(cfg, s, e);
    PendingKept(s.now, s.now, s.logins, s.logins, s.pending, s.log, [e], "");
    CodesKept(s.now, s.now, s.log, [e], s.codes, s.issued);
  }

  lemma ElsewhereKeepsInv(cfg: Config, s: State, s': State)
    requires Inv(cfg, s) && s' == s.(recovery := s'.recovery, blocks := s'.blocks)
    ensures Inv(cfg, s')
  {
  }

  /** Every atomic step, whoever takes it, keeps the invariant. */
  lemma NextKeepsInv(cfg: Config, s: State, a: Action)
    requires Inv(cfg, s)
    ensures Inv(cfg, Next(cfg, s, a))
  {
    match a
    case Tick(_) => AsideKeepsInv(cfg, s, a);
    case OnAuthorize(request, rid, tid) => AuthorizeKeepsInv(cfg, s, request, rid, tid);
    case OnEmail(rid, address, tid) => SubmitEmailKeepsInv(cfg, s, rid, address, tid);
    case OnRetry(rid, tid) => RetryKeepsInv(cfg, s, rid, tid);
    case OnRecovery(rid, code, ip, tid) => RecoveryKeepsInv(cfg, s, rid, code, ip, tid);
    case OnComplete(rid, code) => CompleteKeepsInv(cfg, s, rid, code);
    case OnFail(rid) => FailedKeepsInv(cfg, s, rid);
    case OnToken(request, access) => TokenKeepsInv(cfg, s, request, access);
    case OnPurge => PurgeKeepsInv(cfg, s);
    case OnHaAction(text) => HaActionKeepsInv(cfg, s, text);
    case OnTimer(tid) => TimerKeepsInv(cfg, s, tid);
    case OnTask(tid, answer) => TaskStepKeepsInv(cfg, s, tid, answer);
    case OnBatch(_, _) => AsideKeepsInv(cfg, s, a);
    case OnUnblock(_) => AsideKeepsInv(cfg, s, a);
  }

  lemma {:induction false} RunKeepsInv(cfg: Config, s: State, actions: seq<Action>)
    requires Inv(cfg, s)
    ensures Inv(cfg, Run(cfg, s, actions))
  {
    if actions != [] {
      RunKeepsInv(cfg, s, actions[..|actions| - 1]);
      NextKeepsInv(cfg, Run(cfg, s, actions[..|actions| - 1]), actions[|actions| - 1]);
    }
  }

  /** Some interleaving reaches this state from an empty start. */
  ghost predicate Reachable(cfg: Config, s: State) {
    exists start: real, actions: seq<Action> :: Run(cfg, Initial(start), actions) == s
  }

  lemma ReachableInv(cfg: Config, s: State)
    requires Reachable(cfg, s)
    ensures Inv(cfg, s)
  {
    var start: real, actions: seq<Action> :| Run(cfg, Initial(start), actions) == s;
    InitialInv(cfg, start);
    RunKeepsInv(cfg, Initial(start), actions);
  }

  lemma ReachableNext(cfg: Config, s: State, a: Action)
    requires Reachable(cfg, s)
    ensures Reachable(cfg, Next(cfg, s, a))
  {
    var start: real, actions: seq<Action> :| Run(cfg, Initial(start), actions) == s;
    var longer := actions + [a];
    assert longer[..|longer| - 1] == actions;
    assert Run(cfg, Initial(start), longer) == Next(cfg, s, a);
  }

  lemma NextIsWait(cfg: Config, s: State, tid: nat)
    requires tid in s.tasks && s.tasks[tid].AttemptWait? && s.tasks[tid].rid in s.logins
    ensures Next(cfg, s, OnTask(tid, Silent)) == WaitStep(s, tid, s.tasks[tid])
  {
  }

  function Deregistered(registry: map<Id, nat>, rid: Id, tid: nat): (left: map<Id, nat>)
    ensures forall other | other in registry && registry[other] != tid ::
              other in left && left[other] == registry[other]
    ensures rid in left ==> left[rid] != tid
  {
    if rid in registry && registry[rid] == tid then registry - {rid} else registry
  }

  /** The outcome a wait ends with, and the tap behind it. */
  function WaitOutcome(t: Task): (Status, nat)
    requires t.AttemptWait?
  {
    if t.expired || !t.fut.Resolved? then (TimedOut, 0)
    else (if t.fut.verdict then Approved else Rejected, t.fut.tapped)
  }

  lemma WaitConcludes(s: State, tid: nat, t: Task)
    requires t.AttemptWait? && (t.expired || !t.fut.Unset?)
    ensures WaitStep(s, tid, t)
         == Conclude(s.(registry := Deregistered(s.registry, t.rid, tid)), tid, t.rid, t.n, t.account,
                     WaitOutcome(t).0, WaitOutcome(t).1)
  {
  }

  lemma ReachableStart(cfg: Config, now: real)
    ensures Reachable(cfg, Initial(now))
  {
    assert Run(cfg, Initial(now), []) == Initial(now);
  }
}
