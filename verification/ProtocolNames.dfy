/** Whose login it is. A request can be given two addresses, its hint and one that is
    submitted, and both are then resolved side by side; but in every run the accounts of
    its attempts, codes and token are all of the addresses it was given. */
module ProtocolNames {
  import opened Options
  import opened LoginProtocol
  import opened ProtocolInvariants
  import opened ProtocolSteps
  import opened ProtocolRuns
  import Blocks = IpBlocking
  import Recovery = RecoveryCodes

  // ----- the addresses of a request -----

  predicate GivenAt(log: seq<Event>, j: nat, rid: Id, address: string)
    requires j < |log|
  {
    || (log[j].Authorized? && log[j].rid == rid && log[j].hint == address && address != "")
    || (log[j].EmailSubmitted? && log[j].rid == rid && log[j].address == address)
  }

  /** The request came with this address as its hint, or it was submitted for it. */
  predicate Given(log: seq<Event>, rid: Id, address: string) {
    exists j :: 0 <= j < |log| && GivenAt(log, j, rid, address)
  }

  /** The account is that of an address the request was given. */
  ghost predicate Named(cfg: Config, log: seq<Event>, rid: Id, account: string) {
    exists address :: Given(log, rid, address) && cfg.normalize(address) == account
  }

  lemma GivenStays(log: seq<Event>, more: seq<Event>, rid: Id, address: string)
    requires Given(log, rid, address)
    ensures Given(log + more, rid, address)
  {
    var j :| 0 <= j < |log| && GivenAt(log, j, rid, address);
    assert GivenAt(log + more, j, rid, address);
  }

  lemma NamedStays(cfg: Config, log: seq<Event>, more: seq<Event>, rid: Id, account: string)
    requires Named(cfg, log, rid, account)
    ensures Named(cfg, log + more, rid, account)
  {
    var address :| Given(log, rid, address) && cfg.normalize(address) == account;
    GivenStays(log, more, rid, address);
  }

  // ----- the invariant -----

  ghost predicate OwnAddress(cfg: Config, log: seq<Event>, rid: Id, account: Option<string>, email: Option<string>) {
    account.Some? ==> email.Some? && account.value == cfg.normalize(email.value) && Given(log, rid, email.value)
  }

  /** What a task carries of a request: an address to resolve, or an account. */
  datatype Name = OfAddress(rid: Id, address: string) | OfAccount(rid: Id, account: string) | Nameless

  function NameOf(task: Task): Name {
    if IsStart(task) then OfAddress(task.rid, task.address)
    else if IsNumbered(task) || IsCode(task) then OfAccount(task.rid, task.account)
    else Nameless
  }

  ghost predicate IsNamed(cfg: Config, log: seq<Event>, name: Name) {
    match name
    case OfAddress(rid, address) => Given(log, rid, address)
    case OfAccount(rid, account) => Named(cfg, log, rid, account)
    case Nameless => true
  }

  ghost predicate EventNamed(cfg: Config, log: seq<Event>, j: nat)
    requires j < |log|
  {
    && (log[j].Kept? || log[j].RecoveryApproved? ==> Named(cfg, log[..j], log[j].rid, log[j].account))
    && (log[j].Completed? ==> OwnAddress(cfg, log[..j], log[j].rid, log[j].entry.account, log[j].entry.email))
  }

  ghost predicate LoginNamedAt(cfg: Config, log: seq<Event>, logins: map<Id, Login>, rid: Id)
    requires rid in logins
  {
    OwnAddress(cfg, log, rid, logins[rid].account, logins[rid].email)
  }

  ghost predicate TaskNamedAt(cfg: Config, log: seq<Event>, tasks: map<nat, Task>, tid: nat)
    requires tid in tasks
  {
    IsNamed(cfg, log, NameOf(tasks[tid]))
  }

  /** A request is admitted once, with the hint it has. */
  ghost predicate AdmissionKnown(log: seq<Event>, logins: map<Id, Login>, j: nat)
    requires j < |log|
  {
    log[j].Authorized? ==>
      log[j].rid in logins && logins[log[j].rid].hint == log[j].hint && logins[log[j].rid].authorized == j
  }

  ghost predicate Names(cfg: Config, s: State) {
    && (forall rid {:trigger LoginNamedAt(cfg, s.log, s.logins, rid)} | rid in s.logins ::
          LoginNamedAt(cfg, s.log, s.logins, rid))
    && (forall tid {:trigger TaskNamedAt(cfg, s.log, s.tasks, tid)} | tid in s.tasks ::
          TaskNamedAt(cfg, s.log, s.tasks, tid))
    && (forall j {:trigger EventNamed(cfg, s.log, j)} | 0 <= j < |s.log| :: EventNamed(cfg, s.log, j))
    && (forall j {:trigger AdmissionKnown(s.log, s.logins, j)} | 0 <= j < |s.log| :: AdmissionKnown(s.log, s.logins, j))
  }

  predicate SameAdmissions(logins: map<Id, Login>, logins': map<Id, Login>) {
    forall rid | rid in logins ::
      rid in logins' && logins'[rid].hint == logins[rid].hint && logins'[rid].authorized == logins[rid].authorized
  }

  /** A request that keeps its account and address, or takes one it was given. */
  ghost predicate SameOwner(cfg: Config, s: State, s': State, rid: Id)
    requires rid in s'.logins
  {
    var l' := s'.logins[rid];
    || (rid in s.logins && l'.account == s.logins[rid].account && l'.email == s.logins[rid].email)
    || OwnAddress(cfg, s'.log, rid, l'.account, l'.email)
  }

  /** A task that works for the account it worked for, or for one of the request's own. */
  ghost predicate SameName(cfg: Config, s: State, s': State, tid: nat)
    requires tid in s'.tasks
  {
    || (tid in s.tasks && NameOf(s'.tasks[tid]) == NameOf(s.tasks[tid]))
    || IsNamed(cfg, s'.log, NameOf(s'.tasks[tid]))
  }

  ghost predicate Faithful(cfg: Config, s: State, s': State, more: seq<Event>) {
    && s'.log == s.log + more && SameAdmissions(s.logins, s'.logins)
    && (forall rid {:trigger SameOwner(cfg, s, s', rid)} | rid in s'.logins :: SameOwner(cfg, s, s', rid))
    && (forall tid {:trigger SameName(cfg, s, s', tid)} | tid in s'.tasks :: SameName(cfg, s, s', tid))
    && (forall j {:trigger EventNamed(cfg, s'.log, j)} | |s.log| <= j < |s'.log| ::
          EventNamed(cfg, s'.log, j) && AdmissionKnown(s'.log, s'.logins, j))
  }

  lemma OwnAddressStays(cfg: Config, log: seq<Event>, more: seq<Event>, rid: Id, account: Option<string>,
                        email: Option<string>)
    requires OwnAddress(cfg, log, rid, account, email)
    ensures OwnAddress(cfg, log + more, rid, account, email)
  {
    if account.Some? {
      GivenStays(log, more, rid, email.value);
    }
  }

  lemma IsNamedStays(cfg: Config, log: seq<Event>, more: seq<Event>, name: Name)
    requires IsNamed(cfg, log, name)
    ensures IsNamed(cfg, log + more, name)
  {
    match name
    case OfAddress(rid, address) => GivenStays(log, more, rid, address);
    case OfAccount(rid, account) => NamedStays(cfg, log, more, rid, account);
    case Nameless =>
  }

  lemma FaithfulKeepsNames(cfg: Config, s: State, s': State, more: seq<Event>)
    requires Names(cfg, s) && Faithful(cfg, s, s', more)
    ensures Names(cfg, s')
  {
    forall rid | rid in s'.logins
      ensures LoginNamedAt(cfg, s'.log, s'.logins, rid)
    {
      assert SameOwner(cfg, s, s', rid);
      if rid in s.logins {
        assert LoginNamedAt(cfg, s.log, s.logins, rid);
        OwnAddressStays(cfg, s.log, more, rid, s.logins[rid].account, s.logins[rid].email);
      }
    }
    forall tid | tid in s'.tasks
      ensures TaskNamedAt(cfg, s'.log, s'.tasks, tid)
    {
      assert SameName(cfg, s, s', tid);
      if tid in s.tasks {
        assert TaskNamedAt(cfg, s.log, s.tasks, tid);
        IsNamedStays(cfg, s.log, more, NameOf(s.tasks[tid]));
      }
    }
    forall j | 0 <= j < |s'.log|
      ensures EventNamed(cfg, s'.log, j)
    {
      if j < |s.log| {
        assert EventNamed(cfg, s.log, j) && s'.log[..j] == s.log[..j];
      }
    }
    forall j | 0 <= j < |s'.log|
      ensures AdmissionKnown(s'.log, s'.logins, j)
    {
      if j < |s.log| {
        assert AdmissionKnown(s.log, s.logins, j);
      } else {
        assert EventNamed(cfg, s'.log, j);
      }
    }
  }

  // ----- the common shapes of a step -----

  predicate IsQuiet(e: Event) {
    !e.Authorized? && !e.Kept? && !e.RecoveryApproved? && !e.Completed?
  }

  predicate SameParty(l: Login, l': Login) {
    l'.account == l.account && l'.email == l.email && l'.hint == l.hint && l'.authorized == l.authorized
  }

  predicate SameOwners(logins: map<Id, Login>, logins': map<Id, Login>) {
    forall rid | rid in logins' ::
      rid in logins && logins'[rid].account == logins[rid].account && logins'[rid].email == logins[rid].email
  }

  /** Handlers and events that give no request an account and no task a name. */
  ghost predicate Quiet(cfg: Config, s: State, s': State, more: seq<Event>) {
    && s'.log == s.log + more && (forall e | e in more :: IsQuiet(e))
    && SameOwners(s.logins, s'.logins) && SameAdmissions(s.logins, s'.logins)
    && forall tid | tid in s'.tasks ::
         NameOf(s'.tasks[tid]).Nameless? || (tid in s.tasks && NameOf(s'.tasks[tid]) == NameOf(s.tasks[tid]))
  }

  lemma QuietKeepsNames(cfg: Config, s: State, s': State, more: seq<Event>)
    requires Names(cfg, s) && Quiet(cfg, s, s', more)
    ensures Names(cfg, s')
  {
    forall j | |s.log| <= j < |s'.log|
      ensures EventNamed(cfg, s'.log, j) && AdmissionKnown(s'.log, s'.logins, j)
    {
      assert s'.log[j] == more[j - |s.log|] && more[j - |s.log|] in more;
    }
    FaithfulKeepsNames(cfg, s, s', more);
  }

  /** A task takes a place of its own name, or of no name. */
  lemma PlaceKeepsNames(cfg: Config, s: State, tid: nat, next: Task)
    requires Names(cfg, s) && IsNamed(cfg, s.log, NameOf(next))
    ensures Names(cfg, WithTask(s, tid, next))
  {
    var s' := WithTask(s, tid, next);
    assert s'.log == s.log + [];
    FaithfulKeepsNames(cfg, s, s', []);
  }

  /** An event without a name of its own is noted, and nothing else. */
  lemma NotedKeepsNames(cfg: Config, s: State, e: Event)
    requires Names(cfg, s) && IsQuiet(e)
    ensures Names(cfg, Logged(s, e))
  {
    QuietKeepsNames(cfg, s, Logged(s, e), [e]);
  }

  /** One request changes, but not its account or address. */
  lemma StatusKeepsNames(cfg: Config, s: State, rid: Id, l: Login)
    requires Names(cfg, s) && rid in s.logins && SameParty(s.logins[rid], l)
    ensures Names(cfg, WithLogin(s, rid, l))
  {
    assert s.log == s.log + [];
    QuietKeepsNames(cfg, s, WithLogin(s, rid, l), []);
  }

  lemma TaskName(cfg: Config, s: State, tid: nat)
    requires Names(cfg, s) && tid in s.tasks
    ensures IsNamed(cfg, s.log, NameOf(s.tasks[tid]))
  {
    assert TaskNamedAt(cfg, s.log, s.tasks, tid);
  }

  // ----- handlers -----

  lemma {:induction false} EvictKeepsNames(cfg: Config, s: State)
    requires Names(cfg, s) && forall id | id in s.pending :: id in s.logins
    ensures Names(cfg, Evict(s)) && Evict(s).logins == s.logins && Evict(s).tasks == s.tasks
    decreases |s.pending|
  {
    if |s.pending| >= MAX_PENDING {
      var oldest := Oldest(s.logins, s.pending);
      WithoutShrinks(s.pending, oldest);
      var fewer := Logged(s.(pending := Without(s.pending, oldest)), Evicted(oldest));
      QuietKeepsNames(cfg, s, fewer, [Evicted(oldest)]);
      EvictKeepsNames(cfg, fewer);
    }
  }

  lemma AdmittedKeepsNames(cfg: Config, s: State, r: AuthorizeRequest, rid: Id)
    requires Names(cfg, s) && rid !in s.logins
    ensures Names(cfg, Admitted(s, r, rid))
    ensures HintOf(r) != "" ==> Given(Admitted(s, r, rid).log, rid, HintOf(r))
  {
    var s' := Admitted(s, r, rid);
    var e := Authorized(rid, r.clientId, r.redirectUri, r.nonce, r.challenge, HintOf(r), r.ip, s.now);
    assert s'.log == s.log + [e] && s'.logins[rid].account.None?;
    if HintOf(r) != "" {
      assert GivenAt(s'.log, |s.log|, rid, HintOf(r));
    }
    assert EventNamed(cfg, s'.log, |s.log|) && AdmissionKnown(s'.log, s'.logins, |s.log|);
    FaithfulKeepsNames(cfg, s, s', [e]);
  }

  lemma AuthorizeKeepsNames(cfg: Config, s: State, r: AuthorizeRequest, rid: Id, tid: nat)
    requires Names(cfg, s)
    ensures Names(cfg, Authorize(cfg, s, r, rid, tid))
  {
    if Acceptable(cfg, r) && rid !in s.logins && tid !in s.tasks && forall id | id in s.pending :: id in s.logins {
      EvictKeepsNames(cfg, s);
      AdmittedKeepsNames(cfg, Evict(s), r, rid);
      if HintOf(r) != "" {
        PlaceKeepsNames(cfg, Admitted(Evict(s), r, rid), tid, StartNew(rid, HintOf(r)));
      }
    }
  }

  lemma SubmitEmailKeepsNames(cfg: Config, s: State, rid: Id, address: string, tid: nat)
    requires Names(cfg, s)
    ensures Names(cfg, SubmitEmail(s, rid, address, tid))
  {
    if rid in s.pending && rid in s.logins && s.logins[rid].status == AwaitingEmail && tid !in s.tasks {
      var e, l := EmailSubmitted(rid, address), s.logins[rid].(status := Resolving);
      StatusKeepsNames(cfg, s, rid, l);
      NotedKeepsNames(cfg, WithLogin(s, rid, l), e);
      assert GivenAt(s.log + [e], |s.log|, rid, address);
      PlaceKeepsNames(cfg, Logged(WithLogin(s, rid, l), e), tid, StartNew(rid, address));
    }
  }

  lemma RetryKeepsNames(cfg: Config, s: State, rid: Id, tid: nat)
    requires Names(cfg, s)
    ensures Names(cfg, Retry(cfg, s, rid, tid))
  {
    if MayResend(cfg, s, rid) && tid !in s.tasks {
      PlaceKeepsNames(cfg, s, tid, RetryLookup(rid));
    }
  }

  lemma RecoveryKeepsNames(cfg: Config, s: State, rid: Id, code: string, ip: string, tid: nat)
    requires Names(cfg, s)
    ensures Names(cfg, SubmitRecoveryCode(cfg, s, rid, code, ip, tid))
  {
    if MayResend(cfg, s, rid) && tid !in s.tasks {
      var counted, account := Counted(s, rid), Owner(s.logins[rid]);
      var e := CodeSubmitted(rid, account, ip, code, s.now, WithinLimits(counted, rid));
      QuietKeepsNames(cfg, s, Logged(counted, e), [e]);
      assert LoginNamedAt(cfg, s.log, s.logins, rid);
      GivenStays(s.log, [e], rid, s.logins[rid].email.value);
      if e.passed {
        PlaceKeepsNames(cfg, Logged(counted, e), tid, CodeBlockCheck(rid, account, ip, code));
      }
    }
  }

  lemma CompleteKeepsNames(cfg: Config, s: State, rid: Id, code: string)
    requires Names(cfg, s)
    ensures Names(cfg, Complete(s, rid, code))
  {
    var s' := Complete(s, rid, code);
    if s' != s {
      var e := s'.log[|s.log|];
      assert LoginNamedAt(cfg, s.log, s.logins, rid);
      assert s'.log == s.log + [e] && s'.log[..|s.log|] == s.log;
      assert EventNamed(cfg, s'.log, |s.log|);
        assert AdmissionKnown(s'.log, s'.logins, |s.log|);
      FaithfulKeepsNames(cfg, s, s', [e]);
    }
  }

  lemma OneEvent(cfg: Config, s: State, s': State, more: seq<Event>)
    requires Names(cfg, s) && s'.logins == s.logins && s'.tasks == s.tasks && s'.log == s.log + more
    requires forall e | e in more :: IsQuiet(e)
    ensures Names(cfg, s')
  {
    QuietKeepsNames(cfg, s, s', more);
  }

  lemma TokenKeepsNames(cfg: Config, s: State, r: TokenRequest, access: string)
    requires Names(cfg, s)
    ensures Names(cfg, Token(cfg, s, r, access))
  {
    if ClientOk(cfg, r) && r.code in s.codes && access !in s.granted {
      var entry, rest := s.codes[r.code], s.codes - {r.code};
      if !EntryOk(cfg, s.now, entry, r) {
        OneEvent(cfg, s, Logged(s.(codes := rest), Spent(r.code)), [Spent(r.code)]);
      } else {
        var e := Redeemed(r.code, access, s.now, entry.completed, r.verifier,
                          Claims(entry.account, entry.email, entry.clientId, entry.nonce));
        var token := TokenEntry(entry.account, entry.email, s.now);
        OneEvent(cfg, s, Logged(s.(codes := rest, granted := s.granted[access := |s.log|],
                                   tokens := s.tokens[access := token]), e), [e]);
      }
    }
  }

  /** Nothing of this is looked at but requests, tasks and history. */
  lemma ElsewhereKeepsNames(cfg: Config, s: State, s': State)
    requires Names(cfg, s) && s'.log == s.log && s'.logins == s.logins && s'.tasks == s.tasks
    ensures Names(cfg, s')
  {
    assert s.log == s.log + [];
    OneEvent(cfg, s, s', []);
  }

  lemma TickKeepsNames(cfg: Config, s: State, elapsed: real)
    requires Names(cfg, s) && elapsed >= 0.0
    ensures Names(cfg, s.(now := s.now + elapsed))
  {
    ElsewhereKeepsNames(cfg, s, s.(now := s.now + elapsed));
  }

  lemma BatchKeepsNames(cfg: Config, s: State, accountId: string, codes: seq<string>)
    requires Names(cfg, s)
    ensures Names(cfg, Next(cfg, s, OnBatch(accountId, codes)))
  {
    ElsewhereKeepsNames(cfg, s, s.(recovery := Recovery.Generated(s.recovery, accountId, codes)));
  }

  lemma UnblockKeepsNames(cfg: Config, s: State, pair: Blocks.Pair)
    requires Names(cfg, s)
    ensures Names(cfg, Next(cfg, s, OnUnblock(pair)))
  {
    var blocks := Blocks.Update(s.blocks, pair, Blocks.Unblock(s.now), cfg.blockThreshold);
    OneEvent(cfg, s, s.(blocks := blocks, log := s.log + [Unblocked(pair, s.now)]), [Unblocked(pair, s.now)]);
  }

  lemma LeavingKeepsNames(cfg: Config, s: State, a: Action)
    requires Names(cfg, s) && (a.OnFail? || a.OnPurge?)
    ensures Names(cfg, Next(cfg, s, a))
  {
    var s' := Next(cfg, s, a);
    if s' != s {
      OneEvent(cfg, s, s', [s'.log[|s.log|]]);
    }
  }

  lemma HaActionKeepsNames(cfg: Config, s: State, text: string)
    requires Names(cfg, s)
    ensures Names(cfg, HaAction(s, text))
  {
    var s' := HaAction(s, text);
    if s' != s {
      assert s'.log == s.log + [s'.log[|s.log|]];
      QuietKeepsNames(cfg, s, s', [s'.log[|s.log|]]);
    }
  }

  lemma TimerKeepsNames(cfg: Config, s: State, tid: nat)
    requires Names(cfg, s)
    ensures Names(cfg, Timer(s, tid))
  {
    if tid in s.tasks && s.tasks[tid].AttemptWait? && s.now >= s.tasks[tid].deadline {
      var t := s.tasks[tid];
      TaskName(cfg, s, tid);
      PlaceKeepsNames(cfg, s, tid, t.(expired := true, fut := if t.fut.Unset? then Cancelled else t.fut));
    }
  }

  // ----- the steps of a task -----

  lemma BeginKeepsNames(cfg: Config, s: State, tid: nat, rid: Id, targets: seq<string>)
    requires Names(cfg, s) && rid in s.logins && s.logins[rid].account.Some?
    ensures Names(cfg, BeginAttempt(s, tid, rid, targets))
  {
    if rid in s.pending {
      var n, l := s.logins[rid].attempt + 1, s.logins[rid];
      var e := AttemptBegan(rid, tid, n);
      assert LoginNamedAt(cfg, s.log, s.logins, rid);
      StatusKeepsNames(cfg, s, rid, l.(attempt := n));
      PlaceKeepsNames(cfg, WithLogin(s, rid, l.(attempt := n)), tid, AttemptBlockCheck(rid, n, Owner(l), targets));
      NotedKeepsNames(cfg, WithTask(WithLogin(s, rid, l.(attempt := n)), tid,
                                    AttemptBlockCheck(rid, n, Owner(l), targets)), e);
    } else {
      PlaceKeepsNames(cfg, s, tid, Done);
    }
  }

  /** The account is written, and it is that of the address the task was started with. */
  lemma ResolvedKeepsNames(cfg: Config, s: State, rid: Id, address: string)
    requires Names(cfg, s) && rid in s.logins && Given(s.log, rid, address)
    ensures var l := s.logins[rid].(email := Some(address), account := Some(cfg.normalize(address)));
            Names(cfg, Logged(WithLogin(s, rid, l), AccountResolved(rid, address)))
  {
    var l := s.logins[rid].(email := Some(address), account := Some(cfg.normalize(address)));
    var s', e := Logged(WithLogin(s, rid, l), AccountResolved(rid, address)), AccountResolved(rid, address);
    GivenStays(s.log, [e], rid, address);
    assert EventNamed(cfg, s'.log, |s.log|) && AdmissionKnown(s'.log, s'.logins, |s.log|);
    FaithfulKeepsNames(cfg, s, s', [e]);
  }

  lemma StartKeepsNames(cfg: Config, s: State, tid: nat, answer: Answer)
    requires Names(cfg, s) && tid in s.tasks && IsStart(s.tasks[tid])
    ensures Names(cfg, StartStep(cfg, s, tid, s.tasks[tid], answer))
  {
    var t := s.tasks[tid];
    TaskName(cfg, s, tid);
    if t.rid in s.logins {
      if t.StartNew? {
        PlaceKeepsNames(cfg, s, tid, if t.rid in s.pending then StartLookup(t.rid, t.address) else Done);
      } else if answer.targets == [] {
        StatusKeepsNames(cfg, s, t.rid, s.logins[t.rid].(status := Denied));
        PlaceKeepsNames(cfg, WithLogin(s, t.rid, s.logins[t.rid].(status := Denied)), tid, Done);
      } else {
        var l := s.logins[t.rid].(email := Some(t.address), account := Some(cfg.normalize(t.address)));
        ResolvedKeepsNames(cfg, s, t.rid, t.address);
        BeginKeepsNames(cfg, Logged(WithLogin(s, t.rid, l), AccountResolved(t.rid, t.address)), tid, t.rid,
                        answer.targets);
      }
    }
  }

  lemma KeptKeepsNames(cfg: Config, s: State, rid: Id, l: Login, e: Event)
    requires Names(cfg, s) && rid in s.logins && SameParty(s.logins[rid], l)
    requires (e.Kept? || e.RecoveryApproved?) && Named(cfg, s.log, e.rid, e.account)
    ensures Names(cfg, Logged(WithLogin(s, rid, l), e))
  {
    var s' := Logged(WithLogin(s, rid, l), e);
    assert s'.log == s.log + [e] && s'.log[..|s.log|] == s.log;
    assert EventNamed(cfg, s'.log, |s.log|) && AdmissionKnown(s'.log, s'.logins, |s.log|);
    FaithfulKeepsNames(cfg, s, s', [e]);
  }

  lemma ConcludeKeepsNames(cfg: Config, s: State, tid: nat, rid: Id, n: nat, account: string, outcome: Status,
                           tapped: nat)
    requires Names(cfg, s) && Named(cfg, s.log, rid, account)
    ensures Names(cfg, Conclude(s, tid, rid, n, account, outcome, tapped))
  {
    if !IsCurrent(s, rid, n) {
      PlaceKeepsNames(cfg, s, tid, Done);
    } else {
      var kept, l := |s.log|, s.logins[rid];
      var e := Kept(rid, tid, n, account, outcome, tapped);
      var login := l.(status := outcome, approved := if outcome == Approved then kept else l.approved);
      KeptKeepsNames(cfg, s, rid, login, e);
      if outcome == Approved || outcome == Rejected {
        NamedStays(cfg, s.log, [e], rid, account);
        PlaceKeepsNames(cfg, Logged(WithLogin(s, rid, login), e), tid,
                        AttemptRecord(rid, n, account, kept, outcome == Approved));
      } else {
        FilingKeepsNames(cfg, Logged(WithLogin(s, rid, login), e), tid, rid, account, kept);
      }
    }
  }

  lemma FilingKeepsNames(cfg: Config, s: State, tid: nat, rid: Id, account: string, kept: nat)
    requires Names(cfg, s) && rid in s.logins
    ensures Names(cfg, WithTask(FileOutcome(s, tid, rid, account, kept), tid, Done))
  {
    var l := s.logins[rid];
    if IsOutcome(l.status) {
      RowKeepsNames(cfg, s, tid, AuditRow(account, rid, Ended(l.status), l.ip), Some(kept), Done);
    } else {
      PlaceKeepsNames(cfg, s, tid, Done);
    }
  }

  /** A row is filed, and the task goes on under its name. */
  lemma RowKeepsNames(cfg: Config, s: State, tid: nat, row: AuditRow, cause: Option<nat>, next: Task)
    requires Names(cfg, s) && IsNamed(cfg, s.log, NameOf(next))
    ensures Names(cfg, WithTask(Filing(s, tid, row, cause), tid, next))
  {
    var e := Filed(tid, row, cause);
    QuietKeepsNames(cfg, s, Filing(s, tid, row, cause), [e]);
    IsNamedStays(cfg, s.log, [e], NameOf(next));
    PlaceKeepsNames(cfg, Filing(s, tid, row, cause), tid, next);
  }

  lemma BlockWriteKeepsNames(cfg: Config, s: State, tid: nat, pair: Blocks.Pair, success: bool, cause: nat,
                             next: Task)
    requires Names(cfg, s) && IsNamed(cfg, s.log, NameOf(next))
    ensures Names(cfg, WithTask(BlockWrite(cfg, s, tid, pair, success, cause), tid, next))
  {
    var e := BlockWritten(tid, pair, success, cause, s.now);
    QuietKeepsNames(cfg, s, BlockWrite(cfg, s, tid, pair, success, cause), [e]);
    IsNamedStays(cfg, s.log, [e], NameOf(next));
    PlaceKeepsNames(cfg, BlockWrite(cfg, s, tid, pair, success, cause), tid, next);
  }

  lemma BlockCheckKeepsNames(cfg: Config, s: State, tid: nat)
    requires Names(cfg, s) && tid in s.tasks && s.tasks[tid].AttemptBlockCheck? && s.tasks[tid].rid in s.logins
    ensures Names(cfg, BlockCheckStep(s, tid, s.tasks[tid]))
  {
    var t, l := s.tasks[tid], s.logins[s.tasks[tid].rid];
    TaskName(cfg, s, tid);
    if Blocks.RowBlocks(Blocks.Get(s.blocks, (t.account, l.ip))) {
      StatusKeepsNames(cfg, s, t.rid, l.(status := Denied));
      RowKeepsNames(cfg, WithLogin(s, t.rid, l.(status := Denied)), tid, AuditRow(t.account, t.rid, WasBlocked, l.ip),
                    None, Done);
    } else {
      var waiting := l.(status := Waiting, waitingSince := Some(s.now));
      StatusKeepsNames(cfg, s, t.rid, waiting);
      PlaceKeepsNames(cfg, WithLogin(s, t.rid, waiting), tid, AttemptNotify(t.rid, t.n, t.account, t.targets));
    }
  }

  lemma RegistryKeepsNames(cfg: Config, s: State, registry: map<Id, nat>)
    requires Names(cfg, s)
    ensures Names(cfg, s.(registry := registry))
  {
    assert s.log == s.log + [];
    OneEvent(cfg, s, s.(registry := registry), []);
  }

  lemma NotifyKeepsNames(cfg: Config, s: State, tid: nat, answer: Answer)
    requires Names(cfg, s) && tid in s.tasks && s.tasks[tid].AttemptNotify?
    ensures Names(cfg, NotifyStep(cfg, s, tid, s.tasks[tid], answer))
  {
    var t := s.tasks[tid];
    TaskName(cfg, s, tid);
    if answer.sends.None? || (|answer.sends.value| == |t.targets| && true !in answer.sends.value) {
      ConcludeKeepsNames(cfg, s, tid, t.rid, t.n, t.account, SendFailed, 0);
    } else if |answer.sends.value| == |t.targets| {
      RegistryKeepsNames(cfg, s, s.registry[t.rid := tid]);
      PlaceKeepsNames(cfg, s.(registry := s.registry[t.rid := tid]), tid,
                      AttemptWait(t.rid, t.n, t.account, s.now + cfg.approvalTimeout, Unset, false));
    }
  }

  lemma WaitKeepsNames(cfg: Config, s: State, tid: nat)
    requires Names(cfg, s) && tid in s.tasks && s.tasks[tid].AttemptWait?
    ensures Names(cfg, WaitStep(s, tid, s.tasks[tid]))
  {
    var t := s.tasks[tid];
    TaskName(cfg, s, tid);
    var registry := if t.rid in s.registry && s.registry[t.rid] == tid then s.registry - {t.rid} else s.registry;
    RegistryKeepsNames(cfg, s, registry);
    if t.expired || !t.fut.Resolved? {
      ConcludeKeepsNames(cfg, s.(registry := registry), tid, t.rid, t.n, t.account, TimedOut, 0);
    } else {
      ConcludeKeepsNames(cfg, s.(registry := registry), tid, t.rid, t.n, t.account,
                         if t.fut.verdict then Approved else Rejected, t.fut.tapped);
    }
  }

  lemma AttemptKeepsNames(cfg: Config, s: State, tid: nat, answer: Answer)
    requires Names(cfg, s) && tid in s.tasks && IsNumbered(s.tasks[tid])
    ensures Names(cfg, AttemptStep(cfg, s, tid, s.tasks[tid], answer))
  {
    TaskName(cfg, s, tid);
    if s.tasks[tid].rid in s.logins {
      match s.tasks[tid]
      case AttemptBlockCheck(_, _, _, _) => BlockCheckKeepsNames(cfg, s, tid);
      case AttemptNotify(_, _, _, _) => NotifyKeepsNames(cfg, s, tid, answer);
      case AttemptWait(_, _, _, _, _, _) => WaitKeepsNames(cfg, s, tid);
      case AttemptRecord(rid, n, account, kept, success) =>
        BlockWriteKeepsNames(cfg, s, tid, (account, s.logins[rid].ip), success, kept,
                             AttemptFile(rid, n, account, kept));
      case AttemptFile(rid, n, account, kept) => FilingKeepsNames(cfg, s, tid, rid, account, kept);
    }
  }

  lemma CodeKeepsNames(cfg: Config, s: State, tid: nat)
    requires Names(cfg, s) && tid in s.tasks && IsCode(s.tasks[tid]) && s.tasks[tid].rid in s.logins
    ensures Names(cfg, CodeStep(cfg, s, tid, s.tasks[tid]))
  {
    var t := s.tasks[tid];
    TaskName(cfg, s, tid);
    match t
    case CodeWrong(rid, account, ip, refused) => BlockWriteKeepsNames(cfg, s, tid, (account, ip), false, refused, Done);
    case CodeRight(rid, account, ip, accepted) =>
      BlockWriteKeepsNames(cfg, s, tid, (account, ip), true, accepted, CodeFile(rid, account, ip, accepted));
    case CodeFile(rid, account, ip, accepted) =>
      RowKeepsNames(cfg, s, tid, AuditRow(account, rid, RecoveryCodeUsed, ip), Some(accepted),
                    CodeFinish(rid, account, accepted));
    case CodeFinish(rid, account, accepted) => FinishKeepsNames(cfg, s, tid);
    case _ => CheckKeepsNames(cfg, s, tid);
  }

  lemma FinishKeepsNames(cfg: Config, s: State, tid: nat)
    requires Names(cfg, s) && tid in s.tasks && s.tasks[tid].CodeFinish? && s.tasks[tid].rid in s.logins
    ensures Names(cfg, CodeStep(cfg, s, tid, s.tasks[tid]))
  {
    var t := s.tasks[tid];
    TaskName(cfg, s, tid);
    var l := s.logins[t.rid].(status := Approved, approved := |s.log|);
    var e := RecoveryApproved(t.rid, tid, t.account, t.accepted);
    KeptKeepsNames(cfg, s, t.rid, l, e);
    PlaceKeepsNames(cfg, Logged(WithLogin(s, t.rid, l), e), tid, Done);
  }

  lemma CheckKeepsNames(cfg: Config, s: State, tid: nat)
    requires Names(cfg, s) && tid in s.tasks
    requires s.tasks[tid].CodeBlockCheck? || s.tasks[tid].CodeReadGeneration? || s.tasks[tid].CodeReadRows?
             || s.tasks[tid].CodeHash?
    requires s.tasks[tid].rid in s.logins
    ensures Names(cfg, CodeStep(cfg, s, tid, s.tasks[tid]))
  {
    var t := s.tasks[tid];
    TaskName(cfg, s, tid);
    if t.CodeHash? && Recovery.Match(t.candidates, t.code).Some? {
      AcceptKeepsNames(cfg, s, tid, t, Recovery.Match(t.candidates, t.code).value);
    } else if t.CodeHash? || (t.CodeReadGeneration? && Recovery.Current(s.recovery, t.account).None?) {
      RefuseKeepsNames(cfg, s, tid, t);
    } else {
      var next := if t.CodeBlockCheck? then
                    if Blocks.RowBlocks(Blocks.Get(s.blocks, (t.account, t.ip))) then Done
                    else CodeReadGeneration(t.rid, t.account, t.ip, t.code)
                  else if t.CodeReadGeneration? then
                    CodeReadRows(t.rid, t.account, t.ip, t.code, Recovery.Current(s.recovery, t.account).value)
                  else
                    CodeHash(t.rid, t.account, t.ip, t.code,
                             Recovery.Snapshot(s.recovery.rows, t.account, t.generation));
      PlaceKeepsNames(cfg, s, tid, next);
    }
  }

  lemma RefuseKeepsNames(cfg: Config, s: State, tid: nat, t: Task)
    requires Names(cfg, s) && (t.CodeHash? || t.CodeReadGeneration?) && Named(cfg, s.log, t.rid, t.account)
    ensures Names(cfg, Refusing(s, tid, t.rid, t.account, t.ip, t.code))
  {
    var next, e := CodeWrong(t.rid, t.account, t.ip, |s.log|), CodeRefused(t.rid, tid, t.account, t.ip, t.code);
    PlaceKeepsNames(cfg, s, tid, next);
    QuietKeepsNames(cfg, WithTask(s, tid, next), Refusing(s, tid, t.rid, t.account, t.ip, t.code), [e]);
  }

  lemma AcceptKeepsNames(cfg: Config, s: State, tid: nat, t: Task, row: nat)
    requires Names(cfg, s) && t.CodeHash? && Named(cfg, s.log, t.rid, t.account)
    ensures Names(cfg, Logged(WithTask(s.(recovery := Recovery.Spend(s.recovery, row)), tid,
                                       CodeRight(t.rid, t.account, t.ip, |s.log|)),
                              CodeAccepted(t.rid, tid, t.account, t.ip, row, t.code)))
  {
    var next, e := CodeRight(t.rid, t.account, t.ip, |s.log|), CodeAccepted(t.rid, tid, t.account, t.ip, row, t.code);
    PlaceKeepsNames(cfg, s, tid, next);
    var spent := WithTask(s.(recovery := Recovery.Spend(s.recovery, row)), tid, next);
    QuietKeepsNames(cfg, WithTask(s, tid, next), Logged(spent, e), [e]);
  }

  lemma TaskStepKeepsNames(cfg: Config, s: State, tid: nat, answer: Answer)
    requires Inv(cfg, s) && Names(cfg, s)
    ensures Names(cfg, TaskStep(cfg, s, tid, answer))
  {
    if tid in s.tasks && !s.tasks[tid].Done? {
      var t := s.tasks[tid];
      assert TaskAt(s.log, s.logins, s.tasks, tid);
      if IsStart(t) {
        StartKeepsNames(cfg, s, tid, answer);
      } else if t.RetryLookup? {
        PlaceKeepsNames(cfg, s, tid, AttemptNew(t.rid, answer.targets));
      } else if t.AttemptNew? {
        BeginKeepsNames(cfg, s, tid, t.rid, t.targets);
      } else if IsNumbered(t) {
        AttemptKeepsNames(cfg, s, tid, answer);
      } else {
        CodeKeepsNames(cfg, s, tid);
      }
    }
  }

  // ----- every step, every run -----

  lemma HandlerKeepsNames(cfg: Config, s: State, a: Action)
    requires Names(cfg, s)
    requires a.OnAuthorize? || a.OnEmail? || a.OnRetry? || a.OnRecovery? || a.OnComplete? || a.OnToken?
    ensures Names(cfg, Next(cfg, s, a))
  {
    match a
    case OnAuthorize(request, rid, tid) => AuthorizeKeepsNames(cfg, s, request, rid, tid);
    case OnEmail(rid, address, tid) => SubmitEmailKeepsNames(cfg, s, rid, address, tid);
    case OnRetry(rid, tid) => RetryKeepsNames(cfg, s, rid, tid);
    case OnRecovery(rid, code, ip, tid) => RecoveryKeepsNames(cfg, s, rid, code, ip, tid);
    case OnComplete(rid, code) => CompleteKeepsNames(cfg, s, rid, code);
    case OnToken(request, access) => TokenKeepsNames(cfg, s, request, access);
  }

  lemma OutsideKeepsNames(cfg: Config, s: State, a: Action)
    requires Names(cfg, s) && (a.Tick? || a.OnBatch? || a.OnUnblock?)
    ensures Names(cfg, Next(cfg, s, a))
  {
    match a
    case Tick(elapsed) =>
      assert Next(cfg, s, a) == if elapsed >= 0.0 then s.(now := s.now + elapsed) else s;
      if elapsed >= 0.0 {
        TickKeepsNames(cfg, s, elapsed);
      }
    case OnBatch(accountId, codes) => BatchKeepsNames(cfg, s, accountId, codes);
    case OnUnblock(pair) => UnblockKeepsNames(cfg, s, pair);
  }

  lemma NextKeepsNames(cfg: Config, s: State, a: Action)
    requires Inv(cfg, s) && Names(cfg, s)
    ensures Names(cfg, Next(cfg, s, a))
  {
    match a
    case OnHaAction(text) => HaActionKeepsNames(cfg, s, text);
    case OnTimer(tid) => TimerKeepsNames(cfg, s, tid);
    case OnTask(tid, answer) => TaskStepKeepsNames(cfg, s, tid, answer);
    case OnFail(_) => LeavingKeepsNames(cfg, s, a);
    case OnPurge => LeavingKeepsNames(cfg, s, a);
    case Tick(_) => OutsideKeepsNames(cfg, s, a);
    case OnBatch(_, _) => OutsideKeepsNames(cfg, s, a);
    case OnUnblock(_) => OutsideKeepsNames(cfg, s, a);
    case _ => HandlerKeepsNames(cfg, s, a);
  }

  lemma {:induction false} RunKeepsNames(cfg: Config, start: real, actions: seq<Action>)
    ensures Names(cfg, Run(cfg, Initial(start), actions))
  {
    if actions != [] {
      var before := actions[..|actions| - 1];
      RunKeepsNames(cfg, start, before);
      ReachableInv(cfg, Run(cfg, Initial(start), before));
      NextKeepsNames(cfg, Run(cfg, Initial(start), before), actions[|actions| - 1]);
    }
  }

  lemma ReachableNames(cfg: Config, s: State)
    requires Reachable(cfg, s)
    ensures Names(cfg, s)
  {
    var start: real, actions: seq<Action> :| Run(cfg, Initial(start), actions) == s;
    RunKeepsNames(cfg, start, actions);
  }

  // ----- whose login it was -----

  /** The addresses a request was given: its hint, unless that is empty, and the one
      submitted for it. */
  predicate WasGiven(log: seq<Event>, rid: Id, hint: string, address: string) {
    (hint != "" && address == hint) || EmailSubmitted(rid, address) in log
  }

  ghost predicate OfGiven(cfg: Config, log: seq<Event>, rid: Id, hint: string, account: string) {
    exists address :: WasGiven(log, rid, hint, address) && cfg.normalize(address) == account
  }

  /** The request came without a hint, or no address of another account was submitted for
      it besides. */
  ghost predicate OneAccount(cfg: Config, log: seq<Event>, rid: Id, hint: string) {
    hint == "" || forall address | EmailSubmitted(rid, address) in log :: cfg.normalize(address) == cfg.normalize(hint)
  }

  /** A request is opened by one admission. */
  lemma OneAdmission(cfg: Config, s: State, i: nat, j: nat)
    requires Reachable(cfg, s) && i < |s.log| && j < |s.log|
    requires s.log[i].Authorized? && s.log[j].Authorized? && s.log[i].rid == s.log[j].rid
    ensures i == j
  {
    ReachableNames(cfg, s);
    assert AdmissionKnown(s.log, s.logins, i) && AdmissionKnown(s.log, s.logins, j);
  }

  lemma GivenMeans(cfg: Config, s: State, c: nat, k: nat, rid: Id, address: string)
    requires Names(cfg, s) && c <= |s.log| && Given(s.log[..c], rid, address)
    requires k < |s.log| && s.log[k].Authorized? && s.log[k].rid == rid
    ensures WasGiven(s.log[..c], rid, s.log[k].hint, address)
  {
    var j :| 0 <= j < |s.log[..c]| && GivenAt(s.log[..c], j, rid, address);
    assert AdmissionKnown(s.log, s.logins, j) && AdmissionKnown(s.log, s.logins, k);
    assert s.log[..c][j] in s.log[..c];
  }

  lemma NamedMeans(cfg: Config, s: State, c: nat, k: nat, rid: Id, account: string)
    requires Names(cfg, s) && c <= |s.log| && Named(cfg, s.log[..c], rid, account)
    requires k < |s.log| && s.log[k].Authorized? && s.log[k].rid == rid
    ensures OfGiven(cfg, s.log[..c], rid, s.log[k].hint, account)
  {
    var address :| Given(s.log[..c], rid, address) && cfg.normalize(address) == account;
    GivenMeans(cfg, s, c, k, rid, address);
  }

  lemma SubmittedOnce(cfg: Config, log: seq<Event>, c: nat, rid: Id, a: string, b: string)
    requires LogOk(cfg, log) && c <= |log| && EmailSubmitted(rid, a) in log[..c] && EmailSubmitted(rid, b) in log[..c]
    ensures a == b
  {
    var i :| 0 <= i < c && log[i] == EmailSubmitted(rid, a);
    var j :| 0 <= j < c && log[j] == EmailSubmitted(rid, b);
    assert EventOk(cfg, log, i) && EventOk(cfg, log, j);
    assert j < i ==> UnsentAt(log, j, rid);
    assert i < j ==> UnsentAt(log, i, rid);
  }

  lemma AccountsAgree(cfg: Config, log: seq<Event>, c: nat, rid: Id, hint: string, a: string, b: string)
    requires LogOk(cfg, log) && c <= |log| && OneAccount(cfg, log[..c], rid, hint)
    requires OfGiven(cfg, log[..c], rid, hint, a) && OfGiven(cfg, log[..c], rid, hint, b)
    ensures a == b
  {
    var x :| WasGiven(log[..c], rid, hint, x) && cfg.normalize(x) == a;
    var y :| WasGiven(log[..c], rid, hint, y) && cfg.normalize(y) == b;
    if hint == "" {
      SubmittedOnce(cfg, log, c, rid, x, y);
    }
  }
}
