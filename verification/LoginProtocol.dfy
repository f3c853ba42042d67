/** The login protocol of `app/routers/idp.py` with `app/approval_flow.py` and the waits
    of `app/ha_client.py`, as a transition system: every stretch of code between two
    awaits is one atomic step, and any task may take the next one.

    A request dict is named by its request id. Ids are fresh, so `_pending.get(id) is
    pending` is the same as `id` still being in `pending`, and a task that holds on to
    an evicted dict goes on writing to `logins[id]`.

    `log` is the history of what happened. Indices into it, kept in the fields called
    `authorized`, `approved`, `completed`, `tapped`, `kept` and `accepted`, say which
    earlier event something rests on. `hint` is the one a request came with; `issued` and
    `granted` are the names used up. No decision reads any of these but to refuse a name
    that is not fresh. */
module LoginProtocol {
  import opened Options
  import ActionRegistry
  import Base64Url
  import Blocks = IpBlocking
  import Window = AttemptWindow
  import Recovery = RecoveryCodes

  type Id = string

  datatype Config = Config(
    clientId: string, redirectUri: string, clientSecret: string,
    loginTimeout: real, unlockDelay: real, approvalTimeout: real, blockThreshold: int,
    normalize: string -> string, sha256: string -> seq<Base64Url.Byte>)

  const AUTH_CODE_TTL := 60.0
  const ACCESS_TOKEN_TTL := 300.0
  const MAX_PENDING := 500
  const MAX_NONCE := 512

  datatype Status =
    | AwaitingEmail | Resolving | Waiting | Denied
    | Approved | Rejected | TimedOut | SendFailed

  /** What an approval attempt can end in; also the statuses the audit log accepts. */
  predicate IsOutcome(status: Status) {
    status in {Approved, Rejected, TimedOut, SendFailed}
  }

  /** `_FAILURE_STATUSES`. */
  predicate IsFailure(status: Status) {
    status in {Rejected, TimedOut, Denied, SendFailed}
  }

  datatype Login = Login(
    clientId: string, redirectUri: string, nonce: Option<string>, challenge: Option<string>,
    hint: string, createdAt: real, ip: string, authorized: nat,
    status: Status, email: Option<string>, account: Option<string>,
    attempt: nat, waitingSince: Option<real>, recoveryAttempts: nat, approved: nat)

  /** The account a task works for; a task never gets this far without one. */
  function Owner(login: Login): string {
    if login.account.Some? then login.account.value else ""
  }

  datatype Fut = Unset | Resolved(verdict: bool, tapped: nat) | Cancelled

  /** A task and where it stopped: the await it is at, and what it carries over it. */
  datatype Task =
    | StartNew(rid: Id, address: string)
    | StartLookup(rid: Id, address: string)
    | RetryLookup(rid: Id)
    | AttemptNew(rid: Id, targets: seq<string>)
    | AttemptBlockCheck(rid: Id, n: nat, account: string, targets: seq<string>)
    | AttemptNotify(rid: Id, n: nat, account: string, targets: seq<string>)
    | AttemptWait(rid: Id, n: nat, account: string, deadline: real, fut: Fut, expired: bool)
    | AttemptRecord(rid: Id, n: nat, account: string, kept: nat, success: bool)
    | AttemptFile(rid: Id, n: nat, account: string, kept: nat)
    | CodeBlockCheck(rid: Id, account: string, ip: string, code: string)
    | CodeReadGeneration(rid: Id, account: string, ip: string, code: string)
    | CodeReadRows(rid: Id, account: string, ip: string, code: string, generation: int)
    | CodeHash(rid: Id, account: string, ip: string, code: string, candidates: seq<Recovery.Candidate>)
    | CodeWrong(rid: Id, account: string, ip: string, refused: nat)
    | CodeRight(rid: Id, account: string, ip: string, accepted: nat)
    | CodeFile(rid: Id, account: string, ip: string, accepted: nat)
    | CodeFinish(rid: Id, account: string, accepted: nat)
    | Done

  datatype CodeEntry = CodeEntry(
    clientId: string, redirectUri: string, nonce: Option<string>, challenge: Option<string>,
    account: Option<string>, email: Option<string>, issuedAt: real, completed: nat)
  datatype TokenEntry = TokenEntry(sub: Option<string>, email: Option<string>, issuedAt: real)
  datatype Claims = Claims(sub: Option<string>, email: Option<string>, aud: string, nonce: Option<string>)

  datatype AuditKind = Ended(status: Status) | RecoveryCodeUsed | WasBlocked
  datatype AuditRow = AuditRow(account: string, rid: Id, kind: AuditKind, ip: string)

  datatype Event =
    | Authorized(rid: Id, clientId: string, redirectUri: string, nonce: Option<string>, challenge: Option<string>,
                 hint: string, ip: string, at: real)
    | EmailSubmitted(rid: Id, address: string)
    | AccountResolved(rid: Id, address: string)
    | AttemptBegan(rid: Id, tid: nat, n: nat)
    | Tapped(text: string, rid: Id, verdict: bool, tid: nat)
    | Kept(rid: Id, tid: nat, n: nat, account: string, outcome: Status, tapped: nat)
    | CodeSubmitted(rid: Id, account: string, ip: string, code: string, at: real, passed: bool)
    | CodeAccepted(rid: Id, tid: nat, account: string, ip: string, id: nat, code: string)
    | CodeRefused(rid: Id, tid: nat, account: string, ip: string, code: string)
    | RecoveryApproved(rid: Id, tid: nat, account: string, accepted: nat)
    | BlockWritten(tid: nat, pair: Blocks.Pair, success: bool, why: nat, at: real)
    | Unblocked(pair: Blocks.Pair, at: real)
    | Filed(tid: nat, row: AuditRow, cause: Option<nat>)
    | Completed(rid: Id, code: string, at: real, authorized: nat, approved: nat, entry: CodeEntry)
    | Failed(rid: Id)
    | Evicted(rid: Id)
    | Spent(code: string)
    | Redeemed(code: string, access: string, at: real, completed: nat, verifier: Option<string>, claims: Claims)
    | Purged(requests: set<Id>, codes: set<string>, accesses: set<string>, at: real)

  datatype State = State(
    now: real,
    logins: map<Id, Login>, pending: seq<Id>,
    tasks: map<nat, Task>, registry: map<Id, nat>,
    codes: map<string, CodeEntry>, issued: map<string, nat>,
    tokens: map<string, TokenEntry>, granted: map<string, nat>,
    attempts: Window.Stamps, blocks: Blocks.Table, recovery: Recovery.Db,
    audit: seq<AuditRow>, log: seq<Event>)

  function Initial(now: real): State {
    State(now, map[], [], map[], map[], map[], map[], map[], map[], map[], map[], Recovery.EMPTY, [], [])
  }

  // ----- small updates -----

  function WithTask(s: State, tid: nat, task: Task): State {
    s.(tasks := s.tasks[tid := task])
  }

  function WithLogin(s: State, rid: Id, login: Login): State {
    s.(logins := s.logins[rid := login])
  }

  function Logged(s: State, e: Event): State {
    s.(log := s.log + [e])
  }

  /** `list.remove` of the one occurrence; ids in `pending` are distinct. */
  function Without(ids: seq<Id>, rid: Id): seq<Id> {
    if ids == [] then []
    else if ids[0] == rid then ids[1..]
    else [ids[0]] + Without(ids[1..], rid)
  }

  predicate RecoveryAvailable(cfg: Config, now: real, login: Login) {
    && login.account.Some?
    && (login.status == SendFailed
        || (login.waitingSince.Some? && now - login.waitingSince.value >= cfg.unlockDelay))
  }

  /** The gate `/idp/retry` and `/idp/recovery` share. */
  predicate MayResend(cfg: Config, s: State, rid: Id) {
    && rid in s.pending && rid in s.logins
    && s.logins[rid].status != Approved
    && RecoveryAvailable(cfg, s.now, s.logins[rid])
  }

  predicate PkceOk(cfg: Config, challenge: Option<string>, verifier: Option<string>) {
    challenge.None?
    || (verifier.Some? && verifier.value != "" && Base64Url.Encode(cfg.sha256(verifier.value)) == challenge.value)
  }

  // ----- handlers without an await -----

  datatype AuthorizeRequest = AuthorizeRequest(
    clientId: string, redirectUri: string, responseType: string, loginHint: Option<string>,
    nonce: Option<string>, challenge: Option<string>, challengeMethod: Option<string>, ip: string)

  /** The hint that starts a login at once; an empty one does not. */
  function HintOf(r: AuthorizeRequest): string {
    if r.loginHint.Some? then r.loginHint.value else ""
  }

  predicate Acceptable(cfg: Config, r: AuthorizeRequest) {
    && r.clientId == cfg.clientId && r.redirectUri == cfg.redirectUri
    && r.responseType == "code"
    && (r.nonce.Some? ==> |r.nonce.value| <= MAX_NONCE)
    && (r.challenge.Some? ==> r.challengeMethod == Some("S256") && Base64Url.IsChallenge(r.challenge.value))
  }

  /** The first id, in insertion order, among those created earliest. */
  function Oldest(logins: map<Id, Login>, ids: seq<Id>): (oldest: Id)
    requires ids != [] && forall id | id in ids :: id in logins
    ensures oldest in ids
    ensures forall id | id in ids :: logins[oldest].createdAt <= logins[id].createdAt
  {
    if |ids| == 1 then ids[0]
    else
      var best := Oldest(logins, ids[..|ids| - 1]);
      if logins[ids[|ids| - 1]].createdAt < logins[best].createdAt then ids[|ids| - 1] else best
  }

  /** Room is made for one more request. */
  function Evict(s: State): State
    requires forall id | id in s.pending :: id in s.logins
    decreases |s.pending|
  {
    if |s.pending| < MAX_PENDING then s
    else
      var oldest := Oldest(s.logins, s.pending);
      WithoutShrinks(s.pending, oldest);
      Evict(Logged(s.(pending := Without(s.pending, oldest)), Evicted(oldest)))
  }

  lemma WithoutShrinks(ids: seq<Id>, rid: Id)
    ensures forall id | id in Without(ids, rid) :: id in ids
    ensures |Without(ids, rid)| == |ids| - (if rid in ids then 1 else 0)
  {
  }

  function Admitted(s: State, r: AuthorizeRequest, rid: Id): State {
    var hint := HintOf(r);
    var login := Login(r.clientId, r.redirectUri, r.nonce, r.challenge, hint, s.now, r.ip, |s.log|,
                       AwaitingEmail, r.loginHint, None, 0, None, 0, 0);
    Logged(WithLogin(s.(pending := s.pending + [rid]), rid, login),
           Authorized(rid, r.clientId, r.redirectUri, r.nonce, r.challenge, hint, r.ip, s.now))
  }

  /** `/authorize`; a request id and a task id never used before come from outside. */
  function Authorize(cfg: Config, s: State, r: AuthorizeRequest, rid: Id, tid: nat): State {
    if !Acceptable(cfg, r) || rid in s.logins || tid in s.tasks || exists id | id in s.pending :: id !in s.logins then s
    else
      var admitted := Admitted(Evict(s), r, rid);
      if HintOf(r) != "" then WithTask(admitted, tid, StartNew(rid, HintOf(r))) else admitted
  }

  function SubmitEmail(s: State, rid: Id, address: string, tid: nat): State {
    if rid !in s.pending || rid !in s.logins || s.logins[rid].status != AwaitingEmail || tid in s.tasks then s
    else
      Logged(WithTask(WithLogin(s, rid, s.logins[rid].(status := Resolving)), tid,
                      StartNew(rid, address)),
             EmailSubmitted(rid, address))
  }

  function Retry(cfg: Config, s: State, rid: Id, tid: nat): State {
    if !MayResend(cfg, s, rid) || tid in s.tasks then s else WithTask(s, tid, RetryLookup(rid))
  }

  /** `_too_many_attempts`: the attempt is recorded against the account and the login. */
  function Counted(s: State, rid: Id): State
    requires rid in s.logins
  {
    var login := s.logins[rid];
    WithLogin(s.(attempts := Window.Push(s.attempts, Owner(login), s.now)), rid,
              login.(recoveryAttempts := login.recoveryAttempts + 1))
  }

  predicate WithinLimits(s: State, rid: Id)
    requires rid in s.logins
  {
    && |Window.Get(s.attempts, Owner(s.logins[rid]))| <= Window.ACCOUNT_LIMIT
    && s.logins[rid].recoveryAttempts <= Window.REQUEST_LIMIT
  }

  /** Every admitted submission is counted before anything else; past a limit it goes no
      further. */
  function SubmitRecoveryCode(cfg: Config, s: State, rid: Id, code: string, ip: string, tid: nat): State {
    if !MayResend(cfg, s, rid) || tid in s.tasks then s
    else
      var counted, account := Counted(s, rid), Owner(s.logins[rid]);
      var noted := Logged(counted, CodeSubmitted(rid, account, ip, code, s.now, WithinLimits(counted, rid)));
      if !WithinLimits(counted, rid) then noted else WithTask(noted, tid, CodeBlockCheck(rid, account, ip, code))
  }

  /** `/idp/complete`; the authorization code is a fresh name. */
  function Complete(s: State, rid: Id, code: string): State {
    if rid !in s.pending || rid !in s.logins || s.logins[rid].status != Approved || code in s.issued then s
    else
      var l := s.logins[rid];
      var entry := CodeEntry(l.clientId, l.redirectUri, l.nonce, l.challenge, l.account, l.email, s.now, |s.log|);
      Logged(s.(codes := s.codes[code := entry], issued := s.issued[code := |s.log|],
                pending := Without(s.pending, rid)),
             Completed(rid, code, s.now, l.authorized, l.approved, entry))
  }

  /** `/idp/fail`. */
  function Fail(s: State, rid: Id): State {
    if rid !in s.pending || rid !in s.logins || !IsFailure(s.logins[rid].status) then s
    else Logged(s.(pending := Without(s.pending, rid)), Failed(rid))
  }

  datatype TokenRequest = TokenRequest(
    grantType: string, code: string, clientId: Option<string>, clientSecret: Option<string>,
    redirectUri: Option<string>, verifier: Option<string>)

  predicate ClientOk(cfg: Config, r: TokenRequest) {
    r.grantType == "authorization_code" && r.clientId == Some(cfg.clientId) && r.clientSecret == Some(cfg.clientSecret)
  }

  /** The checks made on a code once it has been popped. */
  predicate EntryOk(cfg: Config, now: real, entry: CodeEntry, r: TokenRequest) {
    && now - entry.issuedAt <= AUTH_CODE_TTL
    && (r.redirectUri.Some? ==> r.redirectUri.value == entry.redirectUri)
    && PkceOk(cfg, entry.challenge, r.verifier)
  }

  /** `/token`: the code is spent whether or not it is still good; the access token is a
      fresh name. */
  function Token(cfg: Config, s: State, r: TokenRequest, access: string): State {
    if !ClientOk(cfg, r) || r.code !in s.codes || access in s.granted then s
    else
      var entry, rest := s.codes[r.code], s.codes - {r.code};
      if !EntryOk(cfg, s.now, entry, r) then Logged(s.(codes := rest), Spent(r.code))
      else
        var claims := Claims(entry.account, entry.email, entry.clientId, entry.nonce);
        Logged(s.(codes := rest, tokens := s.tokens[access := TokenEntry(entry.account, entry.email, s.now)],
                  granted := s.granted[access := |s.log|]),
               Redeemed(r.code, access, s.now, entry.completed, r.verifier, claims))
  }

  predicate Overdue(cfg: Config, now: real, login: Login) {
    now - login.createdAt > cfg.loginTimeout
  }

  function NotOverdue(cfg: Config, s: State, ids: seq<Id>): seq<Id> {
    if ids == [] then []
    else
      (if ids[0] in s.logins && Overdue(cfg, s.now, s.logins[ids[0]]) then [] else [ids[0]])
      + NotOverdue(cfg, s, ids[1..])
  }

  function OverdueIds(cfg: Config, now: real, logins: map<Id, Login>, pending: seq<Id>): set<Id> {
    set id | id in pending && id in logins && Overdue(cfg, now, logins[id])
  }

  function StaleCodes(now: real, codes: map<string, CodeEntry>): set<string> {
    set c | c in codes && now - codes[c].issuedAt > AUTH_CODE_TTL
  }

  function DeadTokens(now: real, tokens: map<string, TokenEntry>): set<string> {
    set t | t in tokens && now - tokens[t].issuedAt > ACCESS_TOKEN_TTL
  }

  /** `_purge_expired_state`. */
  function Purge(cfg: Config, s: State): State {
    var stale, dead := StaleCodes(s.now, s.codes), DeadTokens(s.now, s.tokens);
    Logged(s.(pending := NotOverdue(cfg, s, s.pending), codes := s.codes - stale,
              tokens := s.tokens - dead, attempts := Window.Swept(s.attempts, s.now)),
           Purged(OverdueIds(cfg, s.now, s.logins, s.pending), stale, dead, s.now))
  }

  /** A WebSocket event: `_resolve_action`. */
  function HaAction(s: State, text: string): State {
    match ActionRegistry.Parse(text)
    case None => s
    case Some((rid, verdict)) =>
      if rid in s.registry && s.registry[rid] in s.tasks
         && s.tasks[s.registry[rid]].AttemptWait? && s.tasks[s.registry[rid]].fut.Unset?
      then
        var tid := s.registry[rid];
        Logged(WithTask(s, tid, s.tasks[tid].(fut := Resolved(verdict, |s.log|))), Tapped(text, rid, verdict, tid))
      else s
  }

  /** The timer of `asyncio.wait_for` fires. It cancels an unset future; on a future
      already resolved, whose waiter has not run yet, it still makes the wait expire. */
  function Timer(s: State, tid: nat): State {
    if tid !in s.tasks || !s.tasks[tid].AttemptWait? || s.now < s.tasks[tid].deadline then s
    else
      var task := s.tasks[tid];
      WithTask(s, tid, task.(expired := true, fut := if task.fut.Unset? then Cancelled else task.fut))
  }

  // ----- the steps of a task -----

  /** What a task is answered at its await: the directory's targets, and which sends got
      through (None when something before or between them raised). */
  datatype Answer = Answer(targets: seq<string>, sends: Option<seq<bool>>)

  const Silent := Answer([], None)

  /** `_run_notify_and_wait` up to its first await. */
  function BeginAttempt(s: State, tid: nat, rid: Id, targets: seq<string>): State {
    if rid !in s.pending || rid !in s.logins then WithTask(s, tid, Done)
    else
      var n := s.logins[rid].attempt + 1;
      Logged(WithTask(WithLogin(s, rid, s.logins[rid].(attempt := n)), tid,
                      AttemptBlockCheck(rid, n, Owner(s.logins[rid]), targets)),
             AttemptBegan(rid, tid, n))
  }

  function StartStep(cfg: Config, s: State, tid: nat, task: Task, answer: Answer): State
    requires task.StartNew? || task.StartLookup?
  {
    var rid := task.rid;
    if rid !in s.logins then s
    else if task.StartNew? then
      WithTask(s, tid, if rid in s.pending then StartLookup(rid, task.address) else Done)
    else if answer.targets == [] then
      WithTask(WithLogin(s, rid, s.logins[rid].(status := Denied)), tid, Done)
    else
      var login := s.logins[rid].(email := Some(task.address), account := Some(cfg.normalize(task.address)));
      BeginAttempt(Logged(WithLogin(s, rid, login), AccountResolved(rid, task.address)), tid, rid, answer.targets)
  }

  function Filing(s: State, tid: nat, row: AuditRow, cause: Option<nat>): State {
    Logged(s.(audit := s.audit + [row]), Filed(tid, row, cause))
  }

  /** The audit row of a finished attempt carries the status the request has when it is
      filed; `log_event` refuses one that is not an outcome. */
  function FileOutcome(s: State, tid: nat, rid: Id, account: string, kept: nat): State
    requires rid in s.logins
  {
    var login := s.logins[rid];
    if IsOutcome(login.status)
    then Filing(s, tid, AuditRow(account, rid, Ended(login.status), login.ip), Some(kept))
    else s
  }

  predicate IsCurrent(s: State, rid: Id, n: nat) {
    rid in s.pending && rid in s.logins && s.logins[rid].attempt == n
  }

  /** The end of a wait: the outcome is written only by the attempt that is still the
      current one of a request that is still registered. */
  function Conclude(s: State, tid: nat, rid: Id, n: nat, account: string, outcome: Status, tapped: nat): State {
    if !IsCurrent(s, rid, n) then WithTask(s, tid, Done)
    else
      var kept := |s.log|;
      var written := Logged(WithLogin(s, rid, s.logins[rid].(status := outcome,
                                approved := if outcome == Approved then kept else s.logins[rid].approved)),
                            Kept(rid, tid, n, account, outcome, tapped));
      if outcome == Approved || outcome == Rejected
      then WithTask(written, tid, AttemptRecord(rid, n, account, kept, outcome == Approved))
      else WithTask(FileOutcome(written, tid, rid, account, kept), tid, Done)
  }

  function BlockCheckStep(s: State, tid: nat, task: Task): State
    requires task.AttemptBlockCheck?
  {
    var rid := task.rid;
    if rid !in s.logins then s
    else
      var login := s.logins[rid];
      if Blocks.RowBlocks(Blocks.Get(s.blocks, (task.account, login.ip))) then
        WithTask(Filing(WithLogin(s, rid, login.(status := Denied)), tid,
                        AuditRow(task.account, rid, WasBlocked, login.ip), None), tid, Done)
      else
        WithTask(WithLogin(s, rid, login.(status := Waiting, waitingSince := Some(s.now))), tid,
                 AttemptNotify(rid, task.n, task.account, task.targets))
  }

  /** The send loop of `run_approval`: it waits unless every send failed, which with no
      targets at all is the case too. */
  function NotifyStep(cfg: Config, s: State, tid: nat, task: Task, answer: Answer): State
    requires task.AttemptNotify?
  {
    match answer.sends
    case None => Conclude(s, tid, task.rid, task.n, task.account, SendFailed, 0)
    case Some(sent) =>
      if |sent| != |task.targets| then s
      else if true !in sent then Conclude(s, tid, task.rid, task.n, task.account, SendFailed, 0)
      else
        WithTask(s.(registry := s.registry[task.rid := tid]), tid,
                 AttemptWait(task.rid, task.n, task.account, s.now + cfg.approvalTimeout, Unset, false))
  }

  /** `wait_for_action` after its await, and what `run_approval` makes of it. */
  function WaitStep(s: State, tid: nat, task: Task): State
    requires task.AttemptWait?
  {
    if task.fut.Unset? && !task.expired then s
    else
      var mine := task.rid in s.registry && s.registry[task.rid] == tid;
      var left := s.(registry := if mine then s.registry - {task.rid} else s.registry);
      if task.expired || !task.fut.Resolved? then Conclude(left, tid, task.rid, task.n, task.account, TimedOut, 0)
      else
        Conclude(left, tid, task.rid, task.n, task.account,
                 if task.fut.verdict then Approved else Rejected, task.fut.tapped)
  }

  function BlockWrite(cfg: Config, s: State, tid: nat, pair: Blocks.Pair, success: bool, cause: nat): State {
    var op := if success then Blocks.Success else Blocks.Failure(s.now);
    Logged(s.(blocks := Blocks.Update(s.blocks, pair, op, cfg.blockThreshold)),
           BlockWritten(tid, pair, success, cause, s.now))
  }

  /** The panel lifts a block by hand. */
  function Unblock(cfg: Config, s: State, pair: Blocks.Pair): State {
    Logged(s.(blocks := Blocks.Update(s.blocks, pair, Blocks.Unblock(s.now), cfg.blockThreshold)),
           Unblocked(pair, s.now))
  }

  function AttemptStep(cfg: Config, s: State, tid: nat, task: Task, answer: Answer): State
    requires task.AttemptNew? || task.AttemptBlockCheck? || task.AttemptNotify? || task.AttemptWait?
             || task.AttemptRecord? || task.AttemptFile?
  {
    if task.rid !in s.logins then s
    else
      match task
      case AttemptNew(rid, targets) => BeginAttempt(s, tid, rid, targets)
      case AttemptBlockCheck(_, _, _, _) => BlockCheckStep(s, tid, task)
      case AttemptNotify(_, _, _, _) => NotifyStep(cfg, s, tid, task, answer)
      case AttemptWait(_, _, _, _, _, _) => WaitStep(s, tid, task)
      case AttemptRecord(rid, n, account, kept, success) =>
        WithTask(BlockWrite(cfg, s, tid, (account, s.logins[rid].ip), success, kept), tid,
                 AttemptFile(rid, n, account, kept))
      case AttemptFile(rid, n, account, kept) => WithTask(FileOutcome(s, tid, rid, account, kept), tid, Done)
  }

  /** The code is wrong, and has yet to be counted as a failure. */
  function Refusing(s: State, tid: nat, rid: Id, account: string, ip: string, code: string): State {
    Logged(WithTask(s, tid, CodeWrong(rid, account, ip, |s.log|)), CodeRefused(rid, tid, account, ip, code))
  }

  /** `submit_recovery_code` after its gate, await by await. */
  function CodeStep(cfg: Config, s: State, tid: nat, task: Task): State
    requires task.CodeBlockCheck? || task.CodeReadGeneration? || task.CodeReadRows? || task.CodeHash?
             || task.CodeWrong? || task.CodeRight? || task.CodeFile? || task.CodeFinish?
  {
    if task.rid !in s.logins then s
    else
      match task
      case CodeBlockCheck(rid, account, ip, code) =>
        WithTask(s, tid, if Blocks.RowBlocks(Blocks.Get(s.blocks, (account, ip))) then Done
                         else CodeReadGeneration(rid, account, ip, code))
      case CodeReadGeneration(rid, account, ip, code) => (
        match Recovery.Current(s.recovery, account)
        case None => Refusing(s, tid, rid, account, ip, code)
        case Some(generation) => WithTask(s, tid, CodeReadRows(rid, account, ip, code, generation)))
      case CodeReadRows(rid, account, ip, code, generation) =>
        WithTask(s, tid, CodeHash(rid, account, ip, code, Recovery.Snapshot(s.recovery.rows, account, generation)))
      case CodeHash(rid, account, ip, code, candidates) => (
        match Recovery.Match(candidates, code)
        case None => Refusing(s, tid, rid, account, ip, code)
        case Some(row) =>
          Logged(WithTask(s.(recovery := Recovery.Spend(s.recovery, row)), tid, CodeRight(rid, account, ip, |s.log|)),
                 CodeAccepted(rid, tid, account, ip, row, code)))
      case CodeWrong(rid, account, ip, refused) =>
        WithTask(BlockWrite(cfg, s, tid, (account, ip), false, refused), tid, Done)
      case CodeRight(rid, account, ip, accepted) =>
        WithTask(BlockWrite(cfg, s, tid, (account, ip), true, accepted), tid,
                 CodeFile(rid, account, ip, accepted))
      case CodeFile(rid, account, ip, accepted) =>
        WithTask(Filing(s, tid, AuditRow(account, rid, RecoveryCodeUsed, ip), Some(accepted)), tid,
                 CodeFinish(rid, account, accepted))
      case CodeFinish(rid, account, accepted) =>
        Logged(WithTask(WithLogin(s, rid, s.logins[rid].(status := Approved, approved := |s.log|)), tid, Done),
               RecoveryApproved(rid, tid, account, accepted))
  }

  function TaskStep(cfg: Config, s: State, tid: nat, answer: Answer): State {
    if tid !in s.tasks then s
    else
      var task := s.tasks[tid];
      if task.Done? then s
      else if task.StartNew? || task.StartLookup? then StartStep(cfg, s, tid, task, answer)
      else if task.RetryLookup? then WithTask(s, tid, AttemptNew(task.rid, answer.targets))
      else if task.AttemptNew? || task.AttemptBlockCheck? || task.AttemptNotify? || task.AttemptWait?
              || task.AttemptRecord? || task.AttemptFile? then AttemptStep(cfg, s, tid, task, answer)
      else CodeStep(cfg, s, tid, task)
  }

  // ----- runs -----

  datatype Action =
    | Tick(elapsed: real)
    | OnAuthorize(request: AuthorizeRequest, rid: Id, tid: nat)
    | OnEmail(rid: Id, address: string, tid: nat)
    | OnRetry(rid: Id, tid: nat)
    | OnRecovery(rid: Id, code: string, ip: string, tid: nat)
    | OnComplete(rid: Id, code: string)
    | OnFail(rid: Id)
    | OnToken(tokenRequest: TokenRequest, access: string)
    | OnPurge
    | OnHaAction(text: string)
    | OnTimer(tid: nat)
    | OnTask(tid: nat, answer: Answer)
    | OnBatch(accountId: string, codes: seq<string>)
    | OnUnblock(pair: Blocks.Pair)

  /** One atomic step. A handler that refuses leaves the state as it was. */
  function Next(cfg: Config, s: State, a: Action): State {
    match a
    case Tick(elapsed) => if elapsed >= 0.0 then s.(now := s.now + elapsed) else s
    case OnAuthorize(request, rid, tid) => Authorize(cfg, s, request, rid, tid)
    case OnEmail(rid, address, tid) => SubmitEmail(s, rid, address, tid)
    case OnRetry(rid, tid) => Retry(cfg, s, rid, tid)
    case OnRecovery(rid, code, ip, tid) => SubmitRecoveryCode(cfg, s, rid, code, ip, tid)
    case OnComplete(rid, code) => Complete(s, rid, code)
    case OnFail(rid) => Fail(s, rid)
    case OnToken(request, access) => Token(cfg, s, request, access)
    case OnPurge => Purge(cfg, s)
    case OnHaAction(text) => HaAction(s, text)
    case OnTimer(tid) => Timer(s, tid)
    case OnTask(tid, answer) => TaskStep(cfg, s, tid, answer)
    case OnBatch(accountId, codes) => s.(recovery := Recovery.Generated(s.recovery, accountId, codes))
    case OnUnblock(pair) => Unblock(cfg, s, pair)
  }

  /** Any interleaving whatever of handlers, tasks, events, timers and purges. */
  function Run(cfg: Config, s: State, actions: seq<Action>): State {
    if actions == [] then s else Next(cfg, Run(cfg, s, actions[..|actions| - 1]), actions[|actions| - 1])
  }
}
