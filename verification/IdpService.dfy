/** The service itself: the module dicts of `app/routers/idp.py` updated in place by the
    handlers, the background tasks and the purge. Each method is one stretch of code
    between awaits, and is proved to be the protocol's step; the states of the service are
    reachable ones, so that whatever is proved of every run is there for its methods. */
module IdpService {
  import opened Options
  import opened LoginProtocol
  import opened ProtocolInvariants
  import opened ProtocolSteps
  import opened ProtocolRuns
  import opened ProtocolStability
  import opened ProtocolTables
  import opened ProtocolTheorems
  import opened ProtocolWrites
  import opened ProtocolCauses
  import opened ProtocolBlocks
  import opened ProtocolEffects
  import ActionRegistry
  import Base64Url
  import Window = AttemptWindow
  import Blocks = IpBlocking
  import Recovery = RecoveryCodes

  datatype Reply =
    | Accepted | Redirect(code: Option<string>)
    | NotFound | Conflict | Forbidden | Unauthorized | BadRequest

  /** Some run leads here; that every pending id occurs once and has its dict follows from it. */
  ghost predicate Reached(cfg: Config, s: State)
    ensures Reached(cfg, s) ==>
              Reachable(cfg, s) && Distinct(s.pending) && (forall id | id in s.pending :: id in s.logins)
  {
    Reachable(cfg, s) && Distinct(s.pending) && (forall id | id in s.pending :: id in s.logins)
  }

  class IdentityProvider {
    const cfg: Config
    var now: real
    var logins: map<Id, Login>
    var pending: seq<Id>
    var tasks: map<nat, Task>
    var registry: map<Id, nat>
    var codes: map<string, CodeEntry>
    var tokens: map<string, TokenEntry>
    var granted: map<string, nat>
    var attempts: Window.Stamps
    var blocks: Blocks.Table
    var recovery: Recovery.Db
    var audit: seq<AuditRow>
    var issued: map<string, nat>
    var log: seq<Event>

    ghost function View(): State
      reads this
    {
      State(now, logins, pending, tasks, registry, codes, issued, tokens, granted,
            attempts, blocks, recovery, audit, log)
    }

    /** The service is in a state some interleaving of the protocol reaches. */
    ghost predicate Valid()
      reads this
    {
      Reached(cfg, View())
    }

    constructor (cfg: Config, start: real)
      ensures Valid() && this.cfg == cfg && View() == Initial(start)
    {
      this.cfg := cfg;
      now, logins, pending, tasks, registry := start, map[], [], map[], map[];
      codes, tokens, granted := map[], map[], map[];
      attempts, blocks, recovery, audit, issued, log := map[], map[], Recovery.EMPTY, [], map[], [];
      new;
      ReachableStart(cfg, start);
    }

    /** `min(_pending, key=created_at)`: the first of the earliest. */
    method FindOldest() returns (oldest: Id)
      requires pending != [] && forall id | id in pending :: id in logins
      ensures oldest == Oldest(logins, pending)
      ensures exists k :: 0 <= k < |pending| && pending[k] == oldest
                && (forall i | 0 <= i < |pending| :: logins[oldest].createdAt <= logins[pending[i]].createdAt)
                && (forall i | 0 <= i < k :: logins[oldest].createdAt < logins[pending[i]].createdAt)
    {
      oldest := pending[0];
      var i := 1;
      ghost var at := 0;
      while i < |pending|
        invariant 0 <= at < i <= |pending| && pending[at] == oldest
        invariant forall j | 0 <= j < i :: logins[oldest].createdAt <= logins[pending[j]].createdAt
        invariant forall j | 0 <= j < at :: logins[oldest].createdAt < logins[pending[j]].createdAt
      {
        if logins[pending[i]].createdAt < logins[oldest].createdAt {
          oldest := pending[i];
          at := i;
        }
        i := i + 1;
      }
      FirstEarliest(logins, pending, at);
    }

    method EvictOne()
      requires |pending| >= MAX_PENDING && forall id | id in pending :: id in logins
      modifies this`pending, this`log
      ensures (forall id | id in pending :: id in logins) && |pending| < |old(pending)|
      ensures Evict(View()) == Evict(old(View()))
    {
      var oldest := FindOldest();
      WithoutShrinks(pending, oldest);
      pending := Without(pending, oldest);
      log := log + [Evicted(oldest)];
    }

    /** The eviction loop: as many of the oldest as it takes to make room for one. */
    method MakeRoom()
      requires forall id | id in pending :: id in logins
      modifies this`pending, this`log
      ensures View() == Evict(old(View())) && |pending| < MAX_PENDING
    {
      while |pending| >= MAX_PENDING
        invariant forall id | id in pending :: id in logins
        invariant Evict(View()) == Evict(old(View()))
        decreases |pending|
      {
        EvictOne();
      }
    }

    method HandleAuthorize(r: AuthorizeRequest, rid: Id, tid: nat) returns (reply: Reply)
      requires Valid() && rid !in logins && tid !in tasks
      modifies this`logins, this`pending, this`tasks, this`log
      ensures Valid() && View() == Authorize(cfg, old(View()), r, rid, tid)
      ensures reply == if Admissible(cfg, r) then Accepted else BadRequest
      ensures Opens(cfg, old(View()), View(), r, rid, tid)
      ensures |pending| <= 500
    {
      AuthorizeOpens(cfg, View(), r, rid, tid);
      AcceptableIsAdmissible(cfg, r);
      ReachableInv(cfg, View());
      NextReached(cfg, View(), OnAuthorize(r, rid, tid));
      if !Acceptable(cfg, r) {
        return BadRequest;
      }
      EvictOnly(View());
      MakeRoom();
      Admit(r, rid);
      if r.loginHint.Some? && r.loginHint.value != "" {
        tasks := tasks[tid := StartNew(rid, r.loginHint.value)];
      }
      ReachableInv(cfg, View());
      reply := Accepted;
    }

    /** The request dict itself. */
    method Admit(r: AuthorizeRequest, rid: Id)
      modifies this`logins, this`pending, this`log
      ensures View() == Admitted(old(View()), r, rid)
    {
      var at, hint := |log|, HintOf(r);
      logins := logins[rid := Login(r.clientId, r.redirectUri, r.nonce, r.challenge, hint, now, r.ip, at,
                                    AwaitingEmail, r.loginHint, None, 0, None, 0, 0)];
      pending := pending + [rid];
      log := log + [Authorized(rid, r.clientId, r.redirectUri, r.nonce, r.challenge, hint, r.ip, now)];
    }

    method HandleEmail(rid: Id, address: string, tid: nat) returns (reply: Reply)
      requires Valid() && tid !in tasks
      modifies this`logins, this`tasks, this`log
      ensures Valid() && View() == SubmitEmail(old(View()), rid, address, tid)
      ensures reply == if rid !in old(pending) then NotFound
                       else if old(logins[rid]).status != AwaitingEmail then Conflict else Accepted
      ensures TakesAddress(old(View()), View(), rid, address, tid)
    {
      EmailTakesAddress(View(), rid, address, tid);
      NextReached(cfg, View(), OnEmail(rid, address, tid));
      if rid !in pending {
        return NotFound;
      }
      if logins[rid].status != AwaitingEmail {
        return Conflict;
      }
      TakeAddress(rid, address, tid);
      reply := Accepted;
    }

    method TakeAddress(rid: Id, address: string, tid: nat)
      requires rid in pending && rid in logins && logins[rid].status == AwaitingEmail && tid !in tasks
      modifies this`logins, this`tasks, this`log
      ensures View() == SubmitEmail(old(View()), rid, address, tid)
    {
      logins := logins[rid := logins[rid].(status := Resolving)];
      tasks := tasks[tid := StartNew(rid, address)];
      log := log + [EmailSubmitted(rid, address)];
    }

    /** The refusals `/idp/retry` and `/idp/recovery` share. */
    method Gate(rid: Id) returns (reply: Reply)
      requires Valid()
      ensures reply == if rid !in pending then NotFound
                       else if logins[rid].status == Approved then Conflict
                       else if Resendable(cfg, View(), rid) then Accepted else Forbidden
      ensures reply == Accepted <==> MayResend(cfg, View(), rid)
    {
      ResendableExactlyWhen(cfg, View(), rid);
      if rid !in pending {
        return NotFound;
      }
      if logins[rid].status == Approved {
        return Conflict;
      }
      reply := if RecoveryAvailable(cfg, now, logins[rid]) then Accepted else Forbidden;
    }

    method HandleRetry(rid: Id, tid: nat) returns (reply: Reply)
      requires Valid() && tid !in tasks
      modifies this`tasks
      ensures Valid() && View() == Retry(cfg, old(View()), rid, tid)
      ensures Resends(cfg, old(View()), View(), rid, tid)
      ensures reply == Accepted <==> Resendable(cfg, old(View()), rid)
    {
      ResendableExactlyWhen(cfg, View(), rid);
      RetryResends(cfg, View(), rid, tid);
      NextReached(cfg, View(), OnRetry(rid, tid));
      reply := Gate(rid);
      if reply == Accepted {
        tasks := tasks[tid := RetryLookup(rid)];
      }
    }

    method HandleRecovery(rid: Id, code: string, ip: string, tid: nat) returns (reply: Reply)
      requires Valid() && tid !in tasks
      modifies this`logins, this`tasks, this`attempts, this`log
      ensures Valid() && View() == SubmitRecoveryCode(cfg, old(View()), rid, code, ip, tid)
      ensures Submits(cfg, old(View()), View(), rid, code, ip, tid)
      ensures reply == Accepted <==> tid in tasks
    {
      RecoverySubmits(cfg, View(), rid, code, ip, tid);
      NextReached(cfg, View(), OnRecovery(rid, code, ip, tid));
      reply := Gate(rid);
      if reply == Accepted {
        reply := TakeCode(rid, code, ip, tid);
      }
    }

    /** Past the gate: counted first, and then let through or not. */
    method TakeCode(rid: Id, code: string, ip: string, tid: nat) returns (reply: Reply)
      requires MayResend(cfg, View(), rid) && tid !in tasks
      modifies this`logins, this`tasks, this`attempts, this`log
      ensures View() == SubmitRecoveryCode(cfg, old(View()), rid, code, ip, tid)
      ensures reply == Accepted <==> tid in tasks
    {
      var account := logins[rid].account.value;
      var tooMany := TooManyAttempts(rid, account);
      log := log + [CodeSubmitted(rid, account, ip, code, now, !tooMany)];
      if tooMany {
        return Unauthorized;
      }
      tasks := tasks[tid := CodeBlockCheck(rid, account, ip, code)];
      reply := Accepted;
    }

    /** `_too_many_attempts`: this attempt is counted, and then the counts compared. */
    method TooManyAttempts(rid: Id, account: string) returns (tooMany: bool)
      requires rid in logins && logins[rid].account == Some(account)
      modifies this`attempts, this`logins
      ensures View() == Counted(old(View()), rid)
      ensures tooMany <==> !WithinLimits(View(), rid)
    {
      var recent := Window.Recent(Window.Get(attempts, account), now) + [now];
      attempts := attempts[account := recent];
      logins := logins[rid := logins[rid].(recoveryAttempts := logins[rid].recoveryAttempts + 1)];
      tooMany := |recent| > Window.ACCOUNT_LIMIT || logins[rid].recoveryAttempts > Window.REQUEST_LIMIT;
    }

    /** A login is completed at most once: the request leaves with its code. */
    method HandleComplete(rid: Id, code: string) returns (reply: Reply)
      requires Valid() && code !in issued
      modifies this`codes, this`issued, this`pending, this`log
      ensures Valid() && View() == Complete(old(View()), rid, code)
      ensures reply == if rid !in old(pending) then NotFound
                       else if old(logins[rid]).status != Approved then Conflict else Redirect(Some(code))
      ensures Completes(old(View()), View(), rid, code)
    {
      CompleteCompletes(cfg, View(), rid, code);
      NextReached(cfg, View(), OnComplete(rid, code));
      if rid !in pending {
        return NotFound;
      }
      if logins[rid].status != Approved {
        return Conflict;
      }
      WithoutKeeps(pending, rid);
      IssueCode(rid, code);
      reply := Redirect(Some(code));
    }

    method IssueCode(rid: Id, code: string)
      requires rid in pending && rid in logins && logins[rid].status == Approved && code !in issued
      modifies this`codes, this`issued, this`pending, this`log
      ensures View() == Complete(old(View()), rid, code)
    {
      var at, l := |log|, logins[rid];
      var entry := CodeEntry(l.clientId, l.redirectUri, l.nonce, l.challenge, l.account, l.email, now, at);
      codes := codes[code := entry];
      issued := issued[code := at];
      pending := Without(pending, rid);
      log := log + [Completed(rid, code, now, l.authorized, l.approved, entry)];
    }

    method HandleFail(rid: Id) returns (reply: Reply)
      requires Valid()
      modifies this`pending, this`log
      ensures Valid() && View() == Fail(old(View()), rid)
      ensures reply == if rid !in old(pending) then NotFound
                       else if logins[rid].status in {Rejected, TimedOut, Denied, SendFailed} then Redirect(None)
                       else Conflict
      ensures Fails(old(View()), View(), rid)
    {
      FailFails(cfg, View(), rid);
      NextReached(cfg, View(), OnFail(rid));
      if rid !in pending {
        return NotFound;
      }
      if logins[rid].status !in {Rejected, TimedOut, Denied, SendFailed} {
        return Conflict;
      }
      WithoutKeeps(pending, rid);
      pending := Without(pending, rid);
      log := log + [Failed(rid)];
      reply := Redirect(None);
    }

    /** `/token`: popped before anything else is checked. */
    method HandleToken(r: TokenRequest, access: string) returns (reply: Reply, claims: Option<Claims>)
      requires Valid() && access !in granted
      modifies this`codes, this`tokens, this`granted, this`log
      ensures Valid() && View() == Token(cfg, old(View()), r, access)
      ensures Serves(cfg, old(View()), View(), r, access)
      ensures claims.Some? <==> Earns(cfg, old(View()), r)
      ensures claims.Some? ==>
                claims.value == var e := old(codes[r.code]); Claims(e.account, e.email, e.clientId, e.nonce)
      ensures reply == if claims.Some? then Accepted
                       else if r.grantType == "authorization_code" && !FromClient(cfg, r) then Unauthorized
                       else BadRequest
      ensures FromClient(cfg, r) && r.code in old(codes) && InTime(old(codes)[r.code], now, r) ==>
                && (old(codes)[r.code].challenge.None? ==> claims.Some?)
                && forall secret | old(codes)[r.code].challenge == Some(Base64Url.Encode(cfg.sha256(secret))) ::
                     claims.Some? <==> r.verifier.Some? && r.verifier.value != ""
                                       && cfg.sha256(r.verifier.value) == cfg.sha256(secret)
    {
      EarnsForAnySecret(cfg, View(), r);
      TokenServes(cfg, View(), r, access);
      NextReached(cfg, View(), OnToken(r, access));
      reply, claims := AnswerToken(r, access);
    }

    method AnswerToken(r: TokenRequest, access: string) returns (reply: Reply, claims: Option<Claims>)
      requires access !in granted
      modifies this`codes, this`tokens, this`granted, this`log
      ensures View() == Token(cfg, old(View()), r, access)
      ensures claims.Some? <==> FromClient(cfg, r) && r.code in old(codes) && EntryOk(cfg, now, old(codes[r.code]), r)
      ensures claims.Some? ==>
                claims.value == var e := old(codes[r.code]); Claims(e.account, e.email, e.clientId, e.nonce)
      ensures reply == if claims.Some? then Accepted
                       else if r.grantType == "authorization_code" && !FromClient(cfg, r) then Unauthorized
                       else BadRequest
      ensures FromClient(cfg, r) ==> r.code !in codes
    {
      claims := None;
      if r.grantType != "authorization_code" {
        return BadRequest, None;
      }
      if r.clientId != Some(cfg.clientId) || r.clientSecret != Some(cfg.clientSecret) {
        return Unauthorized, None;
      }
      if r.code !in codes {
        return BadRequest, None;
      }
      reply, claims := Redeem(r, access);
    }

    /** The code is popped before it is checked. */
    method Redeem(r: TokenRequest, access: string) returns (reply: Reply, claims: Option<Claims>)
      requires ClientOk(cfg, r) && r.code in codes && access !in granted
      modifies this`codes, this`tokens, this`granted, this`log
      ensures View() == Token(cfg, old(View()), r, access)
      ensures claims.Some? <==> EntryOk(cfg, now, old(codes[r.code]), r)
      ensures reply == if claims.Some? then Accepted else BadRequest
      ensures claims.Some? ==>
                claims.value == var e := old(codes[r.code]); Claims(e.account, e.email, e.clientId, e.nonce)
      ensures codes == old(codes) - {r.code}
    {
      var entry := codes[r.code];
      codes := codes - {r.code};
      if now - entry.issuedAt > AUTH_CODE_TTL
         || (r.redirectUri.Some? && r.redirectUri.value != entry.redirectUri)
         || !PkceOk(cfg, entry.challenge, r.verifier) {
        log := log + [Spent(r.code)];
        return BadRequest, None;
      }
      claims := Some(Claims(entry.account, entry.email, entry.clientId, entry.nonce));
      var at := |log|;
      tokens := tokens[access := TokenEntry(entry.account, entry.email, now)];
      granted := granted[access := at];
      log := log + [Redeemed(r.code, access, now, entry.completed, r.verifier, claims.value)];
      reply := Accepted;
    }

    /** `/userinfo` answers for the tokens that were issued and not dropped by a purge more
        than five minutes later, with the claims of the redemption that issued them; the
        token's own age plays no part. */
    method HandleUserinfo(access: string) returns (claims: Option<TokenEntry>)
      requires Valid()
      ensures claims.Some? <==> exists r: nat :: RedeemedAs(log, r, access) && !Dropped(log, r)
      ensures claims.Some? ==> exists r: nat ::
                && RedeemedAs(log, r, access) && FullChain(cfg, View(), r)
                && claims.value == TokenEntry(log[r].claims.sub, log[r].claims.email, log[r].at)
    {
      StoredExactlyWhen(cfg, View(), access);
      if access !in tokens {
        return None;
      }
      ghost var r := StoredClaims(cfg, View(), access);
      claims := Some(tokens[access]);
    }

    // ----- the purge loops -----

    method PurgePending()
      requires Distinct(pending) && forall id | id in pending :: id in logins
      modifies this`pending
      ensures pending == NotOverdue(cfg, old(View()), old(pending))
      ensures forall id :: id in pending <==> id in old(pending) && now - logins[id].createdAt <= cfg.loginTimeout
    {
      ghost var was := View();
      PurgeLoop();
      NotOverdueExactly(cfg, was, was.pending);
    }

    method PurgeLoop()
      requires Distinct(pending) && forall id | id in pending :: id in logins
      modifies this`pending
      ensures pending == NotOverdue(cfg, old(View()), old(pending))
    {
      var all := pending;
      ghost var before := View();
      var i := 0;
      assert all[i..] == all;
      while i < |all|
        invariant 0 <= i <= |all|
        invariant pending == NotOverdue(cfg, before, all[..i]) + all[i..]
      {
        PurgeOne(cfg, before, all, i);
        if now - logins[all[i]].createdAt > cfg.loginTimeout {
          pending := Without(pending, all[i]);
        }
        i := i + 1;
      }
      assert all[..i] == all;
    }

    method PurgeCodes()
      modifies this`codes
      ensures codes == old(codes) - StaleCodes(now, old(codes))
    {
      var unseen := codes.Keys;
      ghost var before := codes;
      while unseen != {}
        invariant unseen <= before.Keys
        invariant forall c | c in before && (c in unseen || !(now - before[c].issuedAt > AUTH_CODE_TTL)) ::
                    c in codes && codes[c] == before[c]
        invariant forall c | c in codes ::
                    c in before && (c in unseen || !(now - before[c].issuedAt > AUTH_CODE_TTL))
        decreases unseen
      {
        var code :| code in unseen;
        if now - codes[code].issuedAt > AUTH_CODE_TTL {
          codes := codes - {code};
        }
        unseen := unseen - {code};
      }
    }

    method PurgeTokens()
      modifies this`tokens
      ensures tokens == old(tokens) - DeadTokens(now, old(tokens))
    {
      var unseen := tokens.Keys;
      ghost var before := tokens;
      while unseen != {}
        invariant unseen <= before.Keys
        invariant forall t | t in before && (t in unseen || !(now - before[t].issuedAt > ACCESS_TOKEN_TTL)) ::
                    t in tokens && tokens[t] == before[t]
        invariant forall t | t in tokens ::
                    t in before && (t in unseen || !(now - before[t].issuedAt > ACCESS_TOKEN_TTL))
        decreases unseen
      {
        var access :| access in unseen;
        if now - tokens[access].issuedAt > ACCESS_TOKEN_TTL {
          tokens := tokens - {access};
        }
        unseen := unseen - {access};
      }
    }

    method PurgeTables()
      requires Distinct(pending) && forall id | id in pending :: id in logins
      modifies this`pending, this`codes, this`tokens, this`attempts
      ensures var s := old(View());
              View() == s.(pending := NotOverdue(cfg, s, s.pending), codes := s.codes - StaleCodes(s.now, s.codes),
                           tokens := s.tokens - DeadTokens(s.now, s.tokens),
                           attempts := Window.Swept(s.attempts, s.now))
    {
      PurgePending();
      PurgeGrants();
      attempts := Window.Swept(attempts, now);
    }

    method PurgeGrants()
      modifies this`codes, this`tokens
      ensures codes == old(codes) - StaleCodes(now, old(codes))
      ensures tokens == old(tokens) - DeadTokens(now, old(tokens))
    {
      PurgeCodes();
      PurgeTokens();
    }

    method Purge()
      requires Valid()
      modifies this`pending, this`codes, this`tokens, this`attempts, this`log
      ensures Valid() && View() == LoginProtocol.Purge(cfg, old(View()))
      ensures Purges(cfg, old(View()), View())
    {
      PurgePurges(cfg, View());
      NextReached(cfg, View(), OnPurge);
      var overdue := OverdueIds(cfg, now, logins, pending);
      var stale, dead := StaleCodes(now, codes), DeadTokens(now, tokens);
      PurgeTables();
      log := log + [Purged(overdue, stale, dead, now)];
    }

    // ----- events and background tasks -----

    method ResolveAction(action: string)
      requires Valid()
      modifies this`tasks, this`log
      ensures Valid() && View() == HaAction(old(View()), action)
    {
      ReachableInv(cfg, View());
      NextReached(cfg, View(), OnHaAction(action));
      var parsed := ActionRegistry.Parse(action);
      if parsed.None? {
        return;
      }
      var (rid, verdict) := parsed.value;
      if rid in registry {
        var tid := registry[rid];
        assert RegisteredAt(registry, tasks, rid);
        if tasks[tid].fut.Unset? {
          var at := |log|;
          tasks := tasks[tid := tasks[tid].(fut := Resolved(verdict, at))];
          log := log + [Tapped(action, rid, verdict, tid)];
        }
      }
    }

    /** `_run_notify_and_wait` of a resend, from its beginning to the block check. */
    method RunNotifyAndWait(tid: nat)
      requires Valid() && tid in tasks && tasks[tid].AttemptNew?
      modifies this`logins, this`tasks, this`log
      ensures Valid() && View() == BeginAttempt(old(View()), tid, old(tasks[tid].rid), old(tasks[tid].targets))
      ensures old(tasks[tid].rid) in pending ==>
                && OnlyLive(View(), tid, old(tasks[tid].rid))
                && tid in tasks && tasks[tid].AttemptBlockCheck? && tasks[tid].targets == old(tasks[tid].targets)
    {
      BeginReaches(cfg, View(), tid);
      BeginFrom(tid, tasks[tid].rid, tasks[tid].targets);
    }

    /** The send loop: whether every target's send failed. */
    static method SendAll(targets: seq<string>, sent: seq<bool>) returns (allFailed: bool)
      requires |sent| == |targets|
      ensures allFailed <==> true !in sent
    {
      var failures := 0;
      for i := 0 to |targets|
        invariant 0 <= failures <= i
        invariant failures == i <==> true !in sent[..i]
      {
        assert sent[..i + 1] == sent[..i] + [sent[i]];
        if !sent[i] {
          failures := failures + 1;
        }
      }
      assert sent[..|targets|] == sent;
      allFailed := failures == |targets|;
    }

    /** The end of a wait, up to the next await. */
    method WaitOver(tid: nat)
      requires Valid() && tid in tasks && tasks[tid].AttemptWait?
      requires tasks[tid].expired || tasks[tid].fut.Resolved?
      modifies this`logins, this`tasks, this`log, this`audit, this`registry
      ensures Valid() && View() == WaitStep(old(View()), tid, old(tasks[tid]))
      ensures forall rid | rid in old(registry) && old(registry)[rid] != tid ::
                rid in registry && registry[rid] == old(registry)[rid]
      ensures var t := old(tasks[tid]);
              if t.rid in old(pending) && t.rid in old(logins) && old(logins)[t.rid].attempt == t.n
              then t.rid in logins && logins[t.rid].status
                   == (if t.expired then TimedOut else if t.fut.verdict then Approved else Rejected)
              else logins == old(logins) && audit == old(audit) && log == old(log)
    {
      WaitReaches(cfg, View(), tid);
      WaitWrites(View(), tid, tasks[tid]);
      EndWait(tid, tasks[tid]);
    }

    method EndWait(tid: nat, task: Task)
      requires task.AttemptWait? && (task.expired || task.fut.Resolved?) && task.rid in logins
      modifies this`logins, this`tasks, this`log, this`audit, this`registry
      ensures View() == WaitStep(old(View()), tid, task)
      ensures registry == Deregistered(old(registry), task.rid, tid)
    {
      WaitConcludes(View(), tid, task);
      Deregister(task.rid, tid);
      var outcome := if task.expired then TimedOut else if task.fut.verdict then Approved else Rejected;
      WriteOutcome(tid, task, outcome, if task.expired then 0 else task.fut.tapped);
    }

    /** The waiter takes its own registration with it, and no one else's. */
    method Deregister(rid: Id, tid: nat)
      modifies this`registry
      ensures registry == Deregistered(old(registry), rid, tid)
    {
      if rid in registry && registry[rid] == tid {
        registry := registry - {rid};
      }
    }

    /** Only the attempt that is still the current one may write anything. */
    method WriteOutcome(tid: nat, task: Task, outcome: Status, tapped: nat)
      requires IsNumbered(task) && IsOutcome(outcome) && task.rid in logins
      modifies this`logins, this`tasks, this`log, this`audit
      ensures View() == Conclude(old(View()), tid, task.rid, task.n, task.account, outcome, tapped)
      ensures if task.rid in old(pending) && old(logins)[task.rid].attempt == task.n
              then task.rid in logins && logins[task.rid].status == outcome
              else logins == old(logins) && audit == old(audit) && log == old(log)
    {
      var rid := task.rid;
      if rid !in pending || logins[rid].attempt != task.n {
        tasks := tasks[tid := Done];
        return;
      }
      var kept := |log|;
      KeepOutcome(tid, task, outcome, tapped);
      if outcome == Approved || outcome == Rejected {
        tasks := tasks[tid := AttemptRecord(rid, task.n, task.account, kept, outcome == Approved)];
      } else {
        FileRow(tid, AuditRow(task.account, rid, Ended(outcome), logins[rid].ip), kept);
      }
    }

    method FileRow(tid: nat, row: AuditRow, kept: nat)
      modifies this`tasks, this`log, this`audit
      ensures View() == WithTask(Filing(old(View()), tid, row, Some(kept)), tid, Done)
    {
      audit := audit + [row];
      log := log + [Filed(tid, row, Some(kept))];
      tasks := tasks[tid := Done];
    }

    method KeepOutcome(tid: nat, task: Task, outcome: Status, tapped: nat)
      requires IsNumbered(task) && task.rid in logins
      modifies this`logins, this`log
      ensures var s, kept, rid := old(View()), |old(log)|, task.rid;
              View() == Logged(WithLogin(s, rid, s.logins[rid].(status := outcome,
                                 approved := if outcome == Approved then kept else s.logins[rid].approved)),
                               Kept(rid, tid, task.n, task.account, outcome, tapped))
    {
      var kept, l := |log|, logins[task.rid];
      logins := logins[task.rid := l.(status := outcome, approved := if outcome == Approved then kept else l.approved)];
      log := log + [Kept(task.rid, tid, task.n, task.account, outcome, tapped)];
    }

    /** The sends are over: with none through, or on any exception, the attempt ends here;
        otherwise its future is registered and the wait begins. */
    method SendsOver(tid: nat, sent: Option<seq<bool>>)
      requires Valid() && tid in tasks && tasks[tid].AttemptNotify?
      requires sent.Some? ==> |sent.value| == |tasks[tid].targets|
      modifies this`logins, this`tasks, this`log, this`audit, this`registry
      ensures Valid() && View() == NotifyStep(cfg, old(View()), tid, old(tasks[tid]), Answer([], sent))
      ensures Notifies(cfg, old(View()), View(), tid, old(tasks[tid].rid), old(tasks[tid].n), sent)
    {
      NotifyReaches(cfg, View(), tid, Answer([], sent));
      EndSends(tid, tasks[tid], sent);
    }

    method EndSends(tid: nat, task: Task, sent: Option<seq<bool>>)
      requires task.AttemptNotify? && task.rid in logins && (sent.Some? ==> |sent.value| == |task.targets|)
      modifies this`logins, this`tasks, this`log, this`audit, this`registry
      ensures View() == NotifyStep(cfg, old(View()), tid, task, Answer([], sent))
    {
      var rid := task.rid;
      var allFailed := true;
      if sent.Some? {
        allFailed := SendAll(task.targets, sent.value);
      }
      if allFailed {
        WriteOutcome(tid, task, SendFailed, 0);
      } else {
        registry := registry[rid := tid];
        tasks := tasks[tid := AttemptWait(rid, task.n, task.account, now + cfg.approvalTimeout, Unset, false)];
      }
    }

    /** After the block check: refused at once, or on to the notification. */
    method BlockChecked(tid: nat)
      requires Valid() && tid in tasks && tasks[tid].AttemptBlockCheck?
      modifies this`logins, this`tasks, this`log, this`audit
      ensures Valid() && View() == BlockCheckStep(old(View()), tid, old(tasks[tid]))
      ensures old(tasks[tid].rid) in old(logins) && old(tasks[tid].rid) in logins && tid in tasks
      ensures var rid, account := old(tasks[tid].rid), old(tasks[tid].account);
              if Blocks.MeansBlocked(OpsOf(old(log), (account, old(logins)[rid].ip)), cfg.blockThreshold)
              then logins[rid].status == Denied && tasks[tid] == Done
                   && audit == old(audit) + [AuditRow(account, rid, WasBlocked, old(logins)[rid].ip)]
              else logins[rid].status == Waiting && tasks[tid].AttemptNotify? && audit == old(audit)
                   && UnlocksFrom(cfg, View(), rid, now)
    {
      BlockCheckReaches(cfg, View(), tid);
      RefuseOrNotify(tid, tasks[tid]);
    }

    method RefuseOrNotify(tid: nat, task: Task)
      requires task.AttemptBlockCheck? && task.rid in logins
      modifies this`logins, this`tasks, this`log, this`audit
      ensures View() == BlockCheckStep(old(View()), tid, task)
    {
      var l := logins[task.rid];
      if Blocks.RowBlocks(Blocks.Get(blocks, (task.account, l.ip))) {
        Refuse(tid, task);
      } else {
        logins := logins[task.rid := l.(status := Waiting, waitingSince := Some(now))];
        tasks := tasks[tid := AttemptNotify(task.rid, task.n, task.account, task.targets)];
      }
    }

    /** A blocked address: denied, and so recorded. */
    method Refuse(tid: nat, task: Task)
      requires task.AttemptBlockCheck? && task.rid in logins
      requires Blocks.RowBlocks(Blocks.Get(blocks, (task.account, logins[task.rid].ip)))
      modifies this`logins, this`tasks, this`log, this`audit
      ensures View() == BlockCheckStep(old(View()), tid, task)
    {
      var row := AuditRow(task.account, task.rid, WasBlocked, logins[task.rid].ip);
      logins := logins[task.rid := logins[task.rid].(status := Denied)];
      audit := audit + [row];
      log := log + [Filed(tid, row, None)];
      tasks := tasks[tid := Done];
    }

    /** After the directory lookup of `_start_approval`: no targets denies; otherwise the
        account is written and the first attempt begins without another await. */
    method TargetsFound(tid: nat, targets: seq<string>)
      requires Valid() && tid in tasks && tasks[tid].StartLookup?
      modifies this`logins, this`tasks, this`log
      ensures Valid() && View() == StartStep(cfg, old(View()), tid, old(tasks[tid]), Answer(targets, None))
      ensures old(tasks[tid].rid) in old(logins) && old(tasks[tid].rid) in logins
      ensures var rid, address := old(tasks[tid].rid), old(tasks[tid].address);
              if targets == [] then logins[rid] == old(logins)[rid].(status := Denied)
              else logins[rid].account == Some(cfg.normalize(address))
                   && logins[rid].email == Some(address)
                   && (rid in pending ==>
                         && OnlyLive(View(), tid, rid)
                         && tid in tasks && tasks[tid].AttemptBlockCheck? && tasks[tid].targets == targets)
    {
      StartReaches(cfg, View(), tid, Answer(targets, None));
      Begin(tid, tasks[tid].rid, tasks[tid].address, targets);
    }

    method Begin(tid: nat, rid: Id, address: string, targets: seq<string>)
      requires rid in logins && tid in tasks && tasks[tid] == StartLookup(rid, address)
      modifies this`logins, this`tasks, this`log
      ensures View() == StartStep(cfg, old(View()), tid, old(tasks[tid]), Answer(targets, None))
      ensures rid in logins
              && if targets == [] then logins[rid] == old(logins)[rid].(status := Denied)
                 else logins[rid].account == Some(cfg.normalize(address)) && logins[rid].email == Some(address)
                      && (rid in pending ==>
                            tid in tasks && tasks[tid].AttemptBlockCheck? && tasks[tid].targets == targets)
    {
      if targets == [] {
        logins := logins[rid := logins[rid].(status := Denied)];
        tasks := tasks[tid := Done];
        return;
      }
      TakeAccount(rid, address);
      BeginFrom(tid, rid, targets);
    }

    method TakeAccount(rid: Id, address: string)
      requires rid in logins
      modifies this`logins, this`log
      ensures var s := old(View());
              View() == Logged(WithLogin(s, rid, s.logins[rid].(email := Some(address),
                                                                account := Some(cfg.normalize(address)))),
                               AccountResolved(rid, address))
    {
      logins := logins[rid := logins[rid].(email := Some(address), account := Some(cfg.normalize(address)))];
      log := log + [AccountResolved(rid, address)];
    }

    method BeginFrom(tid: nat, rid: Id, targets: seq<string>)
      requires rid in logins
      modifies this`logins, this`tasks, this`log
      ensures View() == BeginAttempt(old(View()), tid, rid, targets)
      ensures rid in logins && logins[rid].account == old(logins[rid]).account
              && logins[rid].email == old(logins[rid]).email
      ensures rid in pending ==> tid in tasks && tasks[tid].AttemptBlockCheck? && tasks[tid].targets == targets
    {
      if rid !in pending {
        tasks := tasks[tid := Done];
        return;
      }
      var attempt := logins[rid].attempt + 1;
      logins := logins[rid := logins[rid].(attempt := attempt)];
      tasks := tasks[tid := AttemptBlockCheck(rid, attempt, Owner(logins[rid]), targets)];
      log := log + [AttemptBegan(rid, tid, attempt)];
    }

    /** The last step of a recovery code: whatever the status was, it is approved now. */
    method RecoveryDone(tid: nat)
      requires Valid() && tid in tasks && tasks[tid].CodeFinish?
      modifies this`logins, this`tasks, this`log
      ensures Valid() && View() == CodeStep(cfg, old(View()), tid, old(tasks[tid]))
      ensures old(tasks[tid].rid) in logins && logins[old(tasks[tid].rid)].status == Approved
      ensures !Resendable(cfg, View(), old(tasks[tid].rid))
    {
      CodeReaches(cfg, View(), tid);
      var task := tasks[tid];
      var at := |log|;
      logins := logins[task.rid := logins[task.rid].(status := Approved, approved := at)];
      tasks := tasks[tid := Done];
      log := log + [RecoveryApproved(task.rid, tid, task.account, task.accepted)];
    }
  }

  // ----- the steps of a task are steps of the protocol -----

  lemma NextReached(cfg: Config, s: State, a: Action)
    requires Reachable(cfg, s)
    ensures Reached(cfg, Next(cfg, s, a))
  {
    ReachableNext(cfg, s, a);
    ReachableInv(cfg, Next(cfg, s, a));
  }

  /** The attempt of task tid is the newest of its request, and every other is replaced. */
  ghost predicate OnlyLive(s: State, tid: nat, rid: Id) {
    forall t | t in s.tasks && IsNumbered(s.tasks[t]) && s.tasks[t].rid == rid :: Replaced(s, t) <==> t != tid
  }

  lemma BeginReaches(cfg: Config, s: State, tid: nat)
    requires Reached(cfg, s) && tid in s.tasks && s.tasks[tid].AttemptNew?
    ensures s.tasks[tid].rid in s.logins
    ensures var rid, s' := s.tasks[tid].rid, BeginAttempt(s, tid, s.tasks[tid].rid, s.tasks[tid].targets);
            Reached(cfg, s') && (rid in s.pending ==> OnlyLive(s', tid, rid))
  {
    ReachableInv(cfg, s);
    assert TaskAt(s.log, s.logins, s.tasks, tid);
    NextReached(cfg, s, OnTask(tid, Silent));
    if s.tasks[tid].rid in s.pending {
      BeginReplaces(s, s, tid, s.tasks[tid].rid, s.tasks[tid].targets);
    }
  }

  /** Before it, no attempt of the request had a greater number. */
  lemma BeginReplaces(was: State, s: State, tid: nat, rid: Id, targets: seq<string>)
    requires TasksOk(was.log, was.logins, was.tasks) && rid in was.logins && rid in s.logins && rid in s.pending
    requires s.tasks == was.tasks && s.logins[rid].attempt == was.logins[rid].attempt
    ensures OnlyLive(BeginAttempt(s, tid, rid, targets), tid, rid)
  {
    var s', n := BeginAttempt(s, tid, rid, targets), s.logins[rid].attempt;
    assert s'.logins[rid].attempt == n + 1 && s'.pending == s.pending;
    forall t | t in s'.tasks && IsNumbered(s'.tasks[t]) && s'.tasks[t].rid == rid
      ensures Replaced(s', t) <==> t != tid
    {
      if t != tid {
        NumberedTask(was, t);
      }
    }
  }

  lemma StartReaches(cfg: Config, s: State, tid: nat, answer: Answer)
    requires Reached(cfg, s) && tid in s.tasks && s.tasks[tid].StartLookup?
    ensures s.tasks[tid].rid in s.logins
    ensures var rid, s' := s.tasks[tid].rid, StartStep(cfg, s, tid, s.tasks[tid], answer);
            Reached(cfg, s') && (answer.targets != [] && rid in s.pending ==> OnlyLive(s', tid, rid))
  {
    ReachableInv(cfg, s);
    assert TaskAt(s.log, s.logins, s.tasks, tid);
    NextReached(cfg, s, OnTask(tid, answer));
    StartReplaces(cfg, s, tid, s.tasks[tid].rid, s.tasks[tid].address, answer.targets);
  }

  lemma StartReplaces(cfg: Config, s: State, tid: nat, rid: Id, address: string, targets: seq<string>)
    requires TasksOk(s.log, s.logins, s.tasks) && rid in s.logins
    ensures var login := s.logins[rid].(email := Some(address), account := Some(cfg.normalize(address)));
            var named := Logged(WithLogin(s, rid, login), AccountResolved(rid, address));
            rid in s.pending ==> OnlyLive(BeginAttempt(named, tid, rid, targets), tid, rid)
  {
    var login := s.logins[rid].(email := Some(address), account := Some(cfg.normalize(address)));
    var named := Logged(WithLogin(s, rid, login), AccountResolved(rid, address));
    if rid in s.pending {
      BeginReplaces(s, named, tid, rid, targets);
    }
  }

  /** Recovery opens exactly the unlock delay after this moment. */
  ghost predicate UnlocksFrom(cfg: Config, s: State, rid: Id, since: real) {
    rid in s.logins && forall later: real ::
      RecoveryAvailable(cfg, later, s.logins[rid]) <==> later - since >= cfg.unlockDelay
  }

  ghost predicate Checks(cfg: Config, s: State, s': State, tid: nat, rid: Id, account: string) {
    && rid in s.logins && rid in s'.logins && tid in s'.tasks
    && if Blocks.MeansBlocked(OpsOf(s.log, (account, s.logins[rid].ip)), cfg.blockThreshold)
       then s'.logins[rid].status == Denied && s'.tasks[tid] == Done
            && s'.audit == s.audit + [AuditRow(account, rid, WasBlocked, s.logins[rid].ip)]
       else s'.logins[rid].status == Waiting && s'.tasks[tid].AttemptNotify? && s'.audit == s.audit
            && UnlocksFrom(cfg, s', rid, s.now)
  }

  lemma BlockCheckReaches(cfg: Config, s: State, tid: nat)
    requires Reached(cfg, s) && tid in s.tasks && s.tasks[tid].AttemptBlockCheck?
    ensures s.tasks[tid].rid in s.logins
    ensures var t, s' := s.tasks[tid], BlockCheckStep(s, tid, s.tasks[tid]);
            Reached(cfg, s') && Checks(cfg, s, s', tid, t.rid, t.account)
  {
    ReachableInv(cfg, s);
    NumberedTask(s, tid);
    NextReached(cfg, s, OnTask(tid, Silent));
    NextIsAttempt(cfg, s, tid, Silent);
    AttemptDeniedExactlyWhen(cfg, s, tid, Silent);
    BlockCheckUnlocks(cfg, s, tid);
    BlockCheckAudits(s, tid);
  }

  lemma BlockCheckAudits(s: State, tid: nat)
    requires tid in s.tasks && s.tasks[tid].AttemptBlockCheck? && s.tasks[tid].rid in s.logins
    ensures var t, s' := s.tasks[tid], BlockCheckStep(s, tid, s.tasks[tid]);
            s'.audit == if t.rid in s'.logins && s'.logins[t.rid].status == Denied
                        then s.audit + [AuditRow(t.account, t.rid, WasBlocked, s.logins[t.rid].ip)] else s.audit
  {
    var t, l := s.tasks[tid], s.logins[s.tasks[tid].rid];
    if Blocks.RowBlocks(Blocks.Get(s.blocks, (t.account, l.ip))) {
      var denied := WithLogin(s, t.rid, l.(status := Denied));
      assert BlockCheckStep(s, tid, t)
          == WithTask(Filing(denied, tid, AuditRow(t.account, t.rid, WasBlocked, l.ip), None), tid, Done);
    } else {
      assert BlockCheckStep(s, tid, t)
          == WithTask(WithLogin(s, t.rid, l.(status := Waiting, waitingSince := Some(s.now))), tid,
                      AttemptNotify(t.rid, t.n, t.account, t.targets));
    }
  }

  lemma BlockCheckUnlocks(cfg: Config, s: State, tid: nat)
    requires tid in s.tasks && s.tasks[tid].AttemptBlockCheck? && s.tasks[tid].rid in s.logins
    requires s.logins[s.tasks[tid].rid].account.Some?
    ensures var s' := BlockCheckStep(s, tid, s.tasks[tid]);
            tid in s'.tasks && (s'.tasks[tid].AttemptNotify? ==> UnlocksFrom(cfg, s', s.tasks[tid].rid, s.now))
  {
    var t, s' := s.tasks[tid], BlockCheckStep(s, tid, s.tasks[tid]);
    var l := s.logins[t.rid];
    if Blocks.RowBlocks(Blocks.Get(s.blocks, (t.account, l.ip))) {
      assert s'.tasks[tid] == Done;
    } else {
      WaitingUnlocks(cfg, s', t.rid, l.(status := Waiting, waitingSince := Some(s.now)), s.now);
    }
  }

  lemma WaitingUnlocks(cfg: Config, s: State, rid: Id, l: Login, since: real)
    requires rid in s.logins && s.logins[rid] == l
    requires l.account.Some? && l.status == Waiting && l.waitingSince == Some(since)
    ensures UnlocksFrom(cfg, s, rid, since)
  {
  }

  lemma EarnsForAnySecret(cfg: Config, s: State, r: TokenRequest)
    ensures FromClient(cfg, r) && r.code in s.codes && InTime(s.codes[r.code], s.now, r) ==>
              && (s.codes[r.code].challenge.None? ==> Earns(cfg, s, r))
              && forall secret | s.codes[r.code].challenge == Some(Base64Url.Encode(cfg.sha256(secret))) ::
                   Earns(cfg, s, r) <==> r.verifier.Some? && r.verifier.value != ""
                                         && cfg.sha256(r.verifier.value) == cfg.sha256(secret)
  {
    if FromClient(cfg, r) && r.code in s.codes && InTime(s.codes[r.code], s.now, r) {
      forall secret {
        EarnsExactlyWhen(cfg, s, r, secret);
      }
    }
  }

  /** The first of the earliest is what `min` gives. */
  lemma {:induction false} FirstEarliest(logins: map<Id, Login>, ids: seq<Id>, k: nat)
    requires k < |ids| && forall id | id in ids :: id in logins
    requires forall i | 0 <= i < |ids| :: logins[ids[k]].createdAt <= logins[ids[i]].createdAt
    requires forall i | 0 <= i < k :: logins[ids[k]].createdAt < logins[ids[i]].createdAt
    ensures Oldest(logins, ids) == ids[k]
  {
    var last := |ids| - 1;
    if k < last {
      FirstEarliest(logins, ids[..last], k);
    } else if last > 0 {
      assert Oldest(logins, ids[..last]) in ids[..last];
    }
  }

  lemma NotOverdueExactly(cfg: Config, s: State, ids: seq<Id>)
    requires Distinct(ids) && forall id | id in ids :: id in s.logins
    ensures forall id :: id in NotOverdue(cfg, s, ids) <==>
                           id in ids && id in s.logins && s.now - s.logins[id].createdAt <= cfg.loginTimeout
  {
    if ids != [] {
      NotOverdueExactly(cfg, s, ids[1..]);
      assert ids == [ids[0]] + ids[1..];
    }
  }

  /** From now on a tap for this request is a tap for this attempt, and for no other. */
  ghost predicate HearsTaps(s: State, tid: nat, rid: Id) {
    tid in s.tasks && s.tasks[tid].AttemptWait? && forall text, verdict ::
      ActionRegistry.Parse(text) == Some((rid, verdict)) ==>
      HaAction(s, text).tasks == s.tasks[tid := s.tasks[tid].(fut := Resolved(verdict, |s.log|))]
  }

  /** With a send through, the attempt waits for its taps until the timeout; with none, it
      is over, and if it was the current one its request takes a resend or a code from this
      moment on, at any later time. */
  ghost predicate Notifies(cfg: Config, s: State, s': State, tid: nat, rid: Id, n: nat, sent: Option<seq<bool>>) {
    && rid in s'.logins && tid in s'.tasks
    && if sent.Some? && true in sent.value
       then HearsTaps(s', tid, rid) && s'.tasks[tid].deadline == s.now + cfg.approvalTimeout && !s'.tasks[tid].expired
       else s'.tasks[tid] == Done && s'.registry == s.registry
            && (IsCurrent(s, rid, n) ==>
                  && s'.logins[rid].status == SendFailed
                  && forall later: real :: Resendable(cfg, s'.(now := later), rid))
  }

  lemma NotifyReaches(cfg: Config, s: State, tid: nat, answer: Answer)
    requires Reached(cfg, s) && tid in s.tasks && s.tasks[tid].AttemptNotify?
    requires answer.sends.Some? ==> |answer.sends.value| == |s.tasks[tid].targets|
    ensures s.tasks[tid].rid in s.logins
    ensures var s' := NotifyStep(cfg, s, tid, s.tasks[tid], answer);
            Reached(cfg, s') && Notifies(cfg, s, s', tid, s.tasks[tid].rid, s.tasks[tid].n, answer.sends)
  {
    ReachableInv(cfg, s);
    NumberedTask(s, tid);
    NextReached(cfg, s, OnTask(tid, answer));
    NotifyHears(cfg, s, tid, answer);
    var s', rid := NotifyStep(cfg, s, tid, s.tasks[tid], answer), s.tasks[tid].rid;
    if s'.tasks[tid] == Done && IsCurrent(s, rid, s.tasks[tid].n) {
      forall later: real
        ensures Resendable(cfg, s'.(now := later), rid)
      {
        FailedSendsUnlock(cfg, s', rid, later);
      }
    }
  }

  lemma NotifyHears(cfg: Config, s: State, tid: nat, answer: Answer)
    requires tid in s.tasks && s.tasks[tid].AttemptNotify? && s.tasks[tid].rid in s.logins
    requires answer.sends.Some? ==> |answer.sends.value| == |s.tasks[tid].targets|
    ensures var s' := NotifyStep(cfg, s, tid, s.tasks[tid], answer);
            && s.tasks[tid].rid in s'.logins && tid in s'.tasks && s'.pending == s.pending
            && if answer.sends.Some? && true in answer.sends.value
               then HearsTaps(s', tid, s.tasks[tid].rid) && s'.tasks[tid].deadline == s.now + cfg.approvalTimeout
                    && !s'.tasks[tid].expired
               else s'.tasks[tid] == Done && s'.registry == s.registry
                    && (IsCurrent(s, s.tasks[tid].rid, s.tasks[tid].n)
                        ==> s'.logins[s.tasks[tid].rid].status == SendFailed)
  {
    var t := s.tasks[tid];
    if answer.sends.Some? && true in answer.sends.value {
      var wait := AttemptWait(t.rid, t.n, t.account, s.now + cfg.approvalTimeout, Unset, false);
      RegisteredHears(WithTask(s.(registry := s.registry[t.rid := tid]), tid, wait), tid, t.rid);
    } else {
      SendFailedEnds(s, tid, t.rid, t.n, t.account);
    }
  }

  lemma RegisteredHears(s: State, tid: nat, rid: Id)
    requires rid in s.registry && s.registry[rid] == tid
    requires tid in s.tasks && s.tasks[tid].AttemptWait? && s.tasks[tid].fut.Unset?
    ensures HearsTaps(s, tid, rid)
  {
  }

  lemma SendFailedEnds(s: State, tid: nat, rid: Id, n: nat, account: string)
    requires rid in s.logins
    ensures var s' := Conclude(s, tid, rid, n, account, SendFailed, 0);
            && rid in s'.logins && tid in s'.tasks && s'.tasks[tid] == Done
            && s'.registry == s.registry && s'.pending == s.pending
            && (IsCurrent(s, rid, n) ==> s'.logins[rid].status == SendFailed)
  {
    if IsCurrent(s, rid, n) {
      var l, kept := s.logins[rid].(status := SendFailed), Kept(rid, tid, n, account, SendFailed, 0);
      var written := Logged(WithLogin(s, rid, l), kept);
      var filed := Filing(written, tid, AuditRow(account, rid, Ended(SendFailed), l.ip), Some(|s.log|));
      assert FileOutcome(written, tid, rid, account, |s.log|) == filed;
      assert Conclude(s, tid, rid, n, account, SendFailed, 0) == WithTask(filed, tid, Done);
    }
  }

  /** Only a current wait writes, and it writes how it ended. */
  lemma WaitWrites(s: State, tid: nat, t: Task)
    requires t.AttemptWait? && (t.expired || t.fut.Resolved?)
    ensures var s' := WaitStep(s, tid, t);
            if IsCurrent(s, t.rid, t.n)
            then t.rid in s'.logins && s'.logins[t.rid].status
                 == (if t.expired then TimedOut else if t.fut.verdict then Approved else Rejected)
            else s'.logins == s.logins && s'.audit == s.audit && s'.log == s.log
  {
    WaitConcludes(s, tid, t);
    var left := s.(registry := Deregistered(s.registry, t.rid, tid));
    ConcludeWrites(left, tid, t.rid, t.n, t.account, WaitOutcome(t).0, WaitOutcome(t).1);
  }

  lemma ConcludeWrites(s: State, tid: nat, rid: Id, n: nat, account: string, outcome: Status, tapped: nat)
    ensures var s' := Conclude(s, tid, rid, n, account, outcome, tapped);
            if IsCurrent(s, rid, n) then rid in s'.logins && s'.logins[rid].status == outcome
            else s'.logins == s.logins && s'.audit == s.audit && s'.log == s.log
  {
  }

  lemma WaitReaches(cfg: Config, s: State, tid: nat)
    requires Reached(cfg, s) && tid in s.tasks && s.tasks[tid].AttemptWait?
    ensures s.tasks[tid].rid in s.logins
    ensures Reached(cfg, WaitStep(s, tid, s.tasks[tid]))
  {
    ReachableInv(cfg, s);
    NumberedTask(s, tid);
    NextReached(cfg, s, OnTask(tid, Silent));
    NextIsWait(cfg, s, tid);
  }

  lemma CodeReaches(cfg: Config, s: State, tid: nat)
    requires Reached(cfg, s) && tid in s.tasks && s.tasks[tid].CodeFinish?
    ensures s.tasks[tid].rid in s.logins
    ensures Reached(cfg, CodeStep(cfg, s, tid, s.tasks[tid]))
  {
    ReachableInv(cfg, s);
    CodeTask(s, tid);
    NextReached(cfg, s, OnTask(tid, Silent));
  }

  // ----- the purge loop -----

  lemma {:induction false} NotOverdueSnoc(cfg: Config, s: State, ids: seq<Id>, i: nat)
    requires i < |ids|
    ensures NotOverdue(cfg, s, ids[..i + 1])
         == NotOverdue(cfg, s, ids[..i])
            + (if ids[i] in s.logins && Overdue(cfg, s.now, s.logins[ids[i]]) then [] else [ids[i]])
  {
    if i == 0 {
      assert ids[..1] == [ids[0]] && ids[..0] == [];
    } else {
      var rest := ids[1..];
      NotOverdueSnoc(cfg, s, rest, i - 1);
      assert ids[..i + 1][1..] == rest[..i] && ids[..i][1..] == rest[..i - 1] && rest[i - 1] == ids[i];
    }
  }

  lemma {:induction false} SeenBefore(cfg: Config, s: State, ids: seq<Id>, i: nat)
    requires i < |ids| && Distinct(ids)
    ensures ids[i] !in NotOverdue(cfg, s, ids[..i])
  {
    if i > 0 {
      NotOverdueIn(cfg, s, ids[..i]);
    }
  }

  lemma {:induction false} NotOverdueIn(cfg: Config, s: State, ids: seq<Id>)
    ensures forall id | id in NotOverdue(cfg, s, ids) :: id in ids
  {
    if ids != [] {
      NotOverdueIn(cfg, s, ids[1..]);
    }
  }

  /** One turn of the purge loop. */
  lemma PurgeOne(cfg: Config, s: State, all: seq<Id>, i: nat)
    requires i < |all| && Distinct(all) && all[i] in s.logins
    ensures var front, back := NotOverdue(cfg, s, all[..i]), all[i + 1..];
            && NotOverdue(cfg, s, all[..i + 1]) + back
               == (if Overdue(cfg, s.now, s.logins[all[i]]) then Without(front + all[i..], all[i])
                   else front + all[i..])
  {
    NotOverdueSnoc(cfg, s, all, i);
    SeenBefore(cfg, s, all, i);
    var front, back := NotOverdue(cfg, s, all[..i]), all[i + 1..];
    assert all[i..] == [all[i]] + back;
    RemoveHead(front, all[i], back);
    assert front + ([all[i]] + back) == front + [all[i]] + back;
    assert front + [] == front;
  }

  lemma {:induction false} RemoveHead(front: seq<Id>, id: Id, back: seq<Id>)
    requires id !in front
    ensures Without(front + ([id] + back), id) == front + back
  {
    if front != [] {
      var all := front + ([id] + back);
      assert all[1..] == front[1..] + ([id] + back);
      RemoveHead(front[1..], id, back);
      assert front == [front[0]] + front[1..];
    } else {
      assert front + ([id] + back) == [id] + back;
      assert front + back == back;
    }
  }
}
