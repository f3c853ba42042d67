/** What ties the tables beside the login to the history: the recovery rows to the checks
    that read and spent them, the access tokens to the redemptions that made them and the
    purges that dropped them, the attempt stamps to every submission ever counted, and what
    is filed to the address it is about. A second invariant over the same runs, with a
    frame of its own (`Plain`) for the many steps that touch none of them. */
module ProtocolTables {
  import opened Options
  import opened LoginProtocol
  import opened ProtocolInvariants
  import opened ProtocolRuns
  import Recovery = RecoveryCodes
  import Window = AttemptWindow

  // ----- recovery rows -----

  predicate IsChecking(task: Task) {
    task.CodeBlockCheck? || task.CodeReadGeneration? || task.CodeReadRows? || task.CodeHash?
  }

  /** The code was submitted for that login and that account, from that address, and
      counted within the limits. */
  predicate Submitted(log: seq<Event>, rid: Id, account: string, ip: string, code: string) {
    exists k :: 0 <= k < |log| && SubmittedAt(log, k, rid, account, ip, code)
  }

  predicate SubmittedAt(log: seq<Event>, k: nat, rid: Id, account: string, ip: string, code: string)
    requires k < |log|
  {
    log[k].CodeSubmitted? && log[k].rid == rid && log[k].account == account && log[k].ip == ip && log[k].code == code
    && log[k].passed
  }

  predicate RowOf(rows: seq<Recovery.Row>, account: string, c: Recovery.Candidate) {
    c.id < |rows| && rows[c.id].accountId == account && rows[c.id].hash == c.hash
  }

  predicate Held(rows: seq<Recovery.Row>, account: string, candidates: seq<Recovery.Candidate>) {
    forall i :: 0 <= i < |candidates| ==> RowOf(rows, account, candidates[i])
  }

  predicate IsVerdict(outcome: Status) {
    outcome == Approved || outcome == Rejected
  }

  /** A check works on a code submitted for it, and on rows of its own account; what goes
      on to be recorded is a verdict, or a code accepted or refused from that address. */
  predicate Backed(rows: seq<Recovery.Row>, log: seq<Event>, task: Task) {
    && (IsChecking(task) ==> Submitted(log, task.rid, task.account, task.ip, task.code))
    && (task.CodeHash? ==> Held(rows, task.account, task.candidates))
    && (task.AttemptRecord? || task.AttemptFile? ==>
          task.kept < |log| && log[task.kept].Kept? && log[task.kept].rid == task.rid
          && IsVerdict(log[task.kept].outcome))
    && (task.CodeWrong? ==> task.refused < |log| && log[task.refused].CodeRefused? && log[task.refused].ip == task.ip)
    && (task.CodeRight? || task.CodeFile? ==>
          task.accepted < |log| && log[task.accepted].CodeAccepted? && log[task.accepted].ip == task.ip)
  }

  predicate BackedAt(rows: seq<Recovery.Row>, log: seq<Event>, tasks: map<nat, Task>, tid: nat)
    requires tid in tasks
  {
    Backed(rows, log, tasks[tid])
  }

  /** The row an acceptance names is of its account, was made from the submitted code, and
      is used up. */
  predicate SpentRow(rows: seq<Recovery.Row>, account: string, id: nat, code: string) {
    id < |rows| && rows[id].accountId == account && rows[id].hash == Recovery.Argon2(code) && rows[id].used
  }

  predicate AcceptedAt(rows: seq<Recovery.Row>, log: seq<Event>, j: nat)
    requires j < |log|
  {
    && (log[j].CodeAccepted? ==> SpentRow(rows, log[j].account, log[j].id, log[j].code))
    && (log[j].CodeAccepted? || log[j].CodeRefused? ==>
          Submitted(log[..j], log[j].rid, log[j].account, log[j].ip, log[j].code))
  }

  ghost predicate RecoveryOk(rows: seq<Recovery.Row>, log: seq<Event>, tasks: map<nat, Task>) {
    && (forall tid {:trigger BackedAt(rows, log, tasks, tid)} | tid in tasks :: BackedAt(rows, log, tasks, tid))
    && (forall j {:trigger AcceptedAt(rows, log, j)} | 0 <= j < |log| :: AcceptedAt(rows, log, j))
  }

  /** Rows are only added, and marked. */
  predicate Grows(rows: seq<Recovery.Row>, rows': seq<Recovery.Row>) {
    |rows| <= |rows'| && forall i :: 0 <= i < |rows| ==> Marked(rows[i], rows'[i])
  }

  predicate Marked(row: Recovery.Row, row': Recovery.Row) {
    row' == row || row' == row.(used := true)
  }

  lemma SubmittedStays(log: seq<Event>, more: seq<Event>, rid: Id, account: string, ip: string, code: string)
    ensures Submitted(log, rid, account, ip, code) ==> Submitted(log + more, rid, account, ip, code)
  {
    if Submitted(log, rid, account, ip, code) {
      var k :| 0 <= k < |log| && SubmittedAt(log, k, rid, account, ip, code);
      assert SubmittedAt(log + more, k, rid, account, ip, code);
    }
  }

  lemma BackedStays(rows: seq<Recovery.Row>, rows': seq<Recovery.Row>, log: seq<Event>, more: seq<Event>, task: Task)
    requires Backed(rows, log, task) && Grows(rows, rows')
    ensures Backed(rows', log + more, task)
  {
    if IsChecking(task) {
      SubmittedStays(log, more, task.rid, task.account, task.ip, task.code);
    }
    if task.CodeHash? {
      forall i | 0 <= i < |task.candidates|
        ensures RowOf(rows', task.account, task.candidates[i])
      {
        assert RowOf(rows, task.account, task.candidates[i]);
        assert Marked(rows[task.candidates[i].id], rows'[task.candidates[i].id]);
      }
    }
  }

  lemma AcceptedStays(rows: seq<Recovery.Row>, rows': seq<Recovery.Row>, log: seq<Event>, more: seq<Event>, j: nat)
    requires j < |log| && AcceptedAt(rows, log, j) && Grows(rows, rows')
    ensures AcceptedAt(rows', log + more, j)
  {
    assert (log + more)[..j] == log[..j];
    if log[j].CodeAccepted? {
      assert Marked(rows[log[j].id], rows'[log[j].id]);
    }
  }

  /** Every task is as it was or backed anew, and every acceptance is well founded. */
  lemma RecoveryStays(rows: seq<Recovery.Row>, rows': seq<Recovery.Row>, log: seq<Event>, more: seq<Event>,
                      tasks: map<nat, Task>, tasks': map<nat, Task>)
    requires RecoveryOk(rows, log, tasks) && Grows(rows, rows')
    requires forall t | t in tasks' :: (t in tasks && tasks'[t] == tasks[t]) || Backed(rows', log + more, tasks'[t])
    requires forall j | |log| <= j < |log + more| :: AcceptedAt(rows', log + more, j)
    ensures RecoveryOk(rows', log + more, tasks')
  {
    forall t | t in tasks'
      ensures BackedAt(rows', log + more, tasks', t)
    {
      if t in tasks && tasks'[t] == tasks[t] {
        assert BackedAt(rows, log, tasks, t);
        BackedStays(rows, rows', log, more, tasks[t]);
      }
    }
    forall j | 0 <= j < |log + more|
      ensures AcceptedAt(rows', log + more, j)
    {
      if j < |log| {
        assert AcceptedAt(rows, log, j);
        AcceptedStays(rows, rows', log, more, j);
      }
    }
  }

  // ----- what is written, and for which address -----

  predicate IsCodeEvent(e: Event) {
    e.CodeAccepted? || e.CodeRefused?
  }

  /** The address a written verdict counts for: the request's own, or for a code the one
      it was submitted from. */
  predicate AddressOf(log: seq<Event>, logins: map<Id, Login>, why: nat, ip: string)
    requires why < |log|
  {
    && (log[why].Kept? ==> log[why].rid in logins && ip == logins[log[why].rid].ip)
    && (IsCodeEvent(log[why]) ==> ip == log[why].ip)
  }

  /** Block writes and audit rows are of the address they are about; and an attempt that
      ended without a verdict was filed as what it ended in. */
  predicate FiledAt(log: seq<Event>, logins: map<Id, Login>, j: nat)
    requires j < |log|
  {
    && (log[j].BlockWritten? ==> log[j].why < j && AddressOf(log, logins, log[j].why, log[j].pair.1))
    && (log[j].Filed? ==>
          match log[j].cause
          case None => log[j].row.rid in logins && log[j].row.ip == logins[log[j].row.rid].ip
          case Some(k) =>
            && k < j && AddressOf(log, logins, k, log[j].row.ip)
            && (log[k].Kept? && !IsVerdict(log[k].outcome) ==> log[j].row.kind == Ended(log[k].outcome)))
  }

  ghost predicate FilesOk(log: seq<Event>, logins: map<Id, Login>) {
    forall j {:trigger FiledAt(log, logins, j)} | 0 <= j < |log| :: FiledAt(log, logins, j)
  }

  predicate SameAddresses(logins: map<Id, Login>, logins': map<Id, Login>) {
    forall id | id in logins :: id in logins' && logins'[id].ip == logins[id].ip
  }

  lemma FilesStay(log: seq<Event>, more: seq<Event>, logins: map<Id, Login>, logins': map<Id, Login>)
    requires FilesOk(log, logins) && SameAddresses(logins, logins')
    requires forall j | |log| <= j < |log + more| :: FiledAt(log + more, logins', j)
    ensures FilesOk(log + more, logins')
  {
    forall j | 0 <= j < |log + more|
      ensures FiledAt(log + more, logins', j)
    {
      assert j < |log| ==> FiledAt(log, logins, j);
    }
  }

  lemma FilesStayQuiet(log: seq<Event>, e: Event, logins: map<Id, Login>, logins': map<Id, Login>)
    requires FilesOk(log, logins) && SameAddresses(logins, logins') && !e.BlockWritten? && !e.Filed?
    ensures FilesOk(log + [e], logins')
  {
    FilesStay(log, [e], logins, logins');
  }

  // ----- access tokens -----

  /** A purge ran more than five minutes after event k. */
  predicate Dropped(log: seq<Event>, k: nat)
    requires k < |log| && log[k].Redeemed?
  {
    exists j :: k < j < |log| && PurgedLate(log, k, j)
  }

  predicate PurgedLate(log: seq<Event>, k: nat, j: nat)
    requires k < |log| && log[k].Redeemed? && j < |log|
  {
    log[j].Purged? && log[j].at - log[k].at > 300.0
  }

  predicate RedeemedAs(log: seq<Event>, k: nat, access: string) {
    k < |log| && log[k].Redeemed? && log[k].access == access
  }

  /** The token is stored exactly as long as no late purge has come, with the claims of
      the redemption that made it. */
  ghost predicate GrantedAt(log: seq<Event>, tokens: map<string, TokenEntry>, granted: map<string, nat>, access: string)
    requires access in granted
  {
    var k := granted[access];
    && RedeemedAs(log, k, access)
    && (access in tokens <==> !Dropped(log, k))
    && (access in tokens ==> tokens[access] == TokenEntry(log[k].claims.sub, log[k].claims.email, log[k].at))
  }

  predicate RedeemedKnown(log: seq<Event>, granted: map<string, nat>, j: nat)
    requires j < |log|
  {
    log[j].Redeemed? ==> log[j].access in granted && granted[log[j].access] == j
  }

  ghost predicate TokensOk(log: seq<Event>, tokens: map<string, TokenEntry>, granted: map<string, nat>) {
    && tokens.Keys <= granted.Keys
    && (forall a {:trigger GrantedAt(log, tokens, granted, a)} | a in granted :: GrantedAt(log, tokens, granted, a))
    && (forall j {:trigger RedeemedKnown(log, granted, j)} | 0 <= j < |log| :: RedeemedKnown(log, granted, j))
  }

  lemma DroppedLater(log: seq<Event>, e: Event, k: nat)
    requires k < |log| && log[k].Redeemed?
    ensures Dropped(log + [e], k) <==> Dropped(log, k) || (e.Purged? && e.at - log[k].at > ACCESS_TOKEN_TTL)
  {
    var longer := log + [e];
    if Dropped(log, k) {
      var j :| k < j < |log| && PurgedLate(log, k, j);
      assert PurgedLate(longer, k, j);
    } else if Dropped(longer, k) {
      var j :| k < j < |longer| && PurgedLate(longer, k, j);
      assert j < |log| ==> PurgedLate(log, k, j);
    }
    if e.Purged? && e.at - log[k].at > ACCESS_TOKEN_TTL {
      assert PurgedLate(longer, k, |log|);
    }
  }

  /** An event that neither redeems nor purges leaves the tokens as they are. */
  lemma TokensStay(log: seq<Event>, e: Event, tokens: map<string, TokenEntry>, granted: map<string, nat>)
    requires TokensOk(log, tokens, granted) && !e.Redeemed? && !e.Purged?
    ensures TokensOk(log + [e], tokens, granted)
  {
    forall a | a in granted
      ensures GrantedAt(log + [e], tokens, granted, a)
    {
      assert GrantedAt(log, tokens, granted, a);
      DroppedLater(log, e, granted[a]);
    }
    forall j | 0 <= j < |log + [e]|
      ensures RedeemedKnown(log + [e], granted, j)
    {
      assert j < |log| ==> RedeemedKnown(log, granted, j);
    }
  }

  lemma {:induction false} TokensStayLong(log: seq<Event>, more: seq<Event>, tokens: map<string, TokenEntry>,
                                          granted: map<string, nat>)
    requires TokensOk(log, tokens, granted)
    requires forall e | e in more :: !e.Redeemed? && !e.Purged?
    ensures TokensOk(log + more, tokens, granted)
  {
    if more == [] {
      assert log + more == log;
    } else {
      var front, e := more[..|more| - 1], more[|more| - 1];
      TokensStayLong(log, front, tokens, granted);
      TokensStay(log + front, e, tokens, granted);
      assert log + more == log + front + [e];
    }
  }

  lemma TokenGranted(log: seq<Event>, e: Event, tokens: map<string, TokenEntry>, granted: map<string, nat>)
    requires TokensOk(log, tokens, granted) && e.Redeemed? && e.access !in granted
    ensures TokensOk(log + [e], tokens[e.access := TokenEntry(e.claims.sub, e.claims.email, e.at)],
                     granted[e.access := |log|])
  {
    var longer, tokens' := log + [e], tokens[e.access := TokenEntry(e.claims.sub, e.claims.email, e.at)];
    var granted' := granted[e.access := |log|];
    forall a | a in granted'
      ensures GrantedAt(longer, tokens', granted', a)
    {
      if a != e.access {
        assert GrantedAt(log, tokens, granted, a);
        DroppedLater(log, e, granted[a]);
      }
    }
    forall j | 0 <= j < |longer|
      ensures RedeemedKnown(longer, granted', j)
    {
      assert j < |log| ==> RedeemedKnown(log, granted, j);
    }
  }

  lemma TokensPurged(log: seq<Event>, e: Event, tokens: map<string, TokenEntry>, granted: map<string, nat>)
    requires TokensOk(log, tokens, granted) && e.Purged?
    ensures TokensOk(log + [e], tokens - DeadTokens(e.at, tokens), granted)
  {
    var longer, tokens' := log + [e], tokens - DeadTokens(e.at, tokens);
    forall a | a in granted
      ensures GrantedAt(longer, tokens', granted, a)
    {
      assert GrantedAt(log, tokens, granted, a);
      DroppedLater(log, e, granted[a]);
    }
    forall j | 0 <= j < |longer|
      ensures RedeemedKnown(longer, granted, j)
    {
      assert j < |log| ==> RedeemedKnown(log, granted, j);
    }
  }

  // ----- counted submissions -----

  /** The submissions ever counted, as the limits see them. */
  function AttemptsOf(log: seq<Event>): seq<Window.Attempt> {
    if log == [] then []
    else
      var e := log[|log| - 1];
      AttemptsOf(log[..|log| - 1])
      + (if e.CodeSubmitted? then [Window.Attempt(e.account, e.rid, e.at, e.passed)] else [])
  }

  function CountsOf(logins: map<Id, Login>): map<string, nat> {
    map id | id in logins :: logins[id].recoveryAttempts
  }

  lemma AttemptsAppend(log: seq<Event>, e: Event)
    ensures AttemptsOf(log + [e])
         == AttemptsOf(log) + (if e.CodeSubmitted? then [Window.Attempt(e.account, e.rid, e.at, e.passed)] else [])
  {
    assert (log + [e])[..|log|] == log;
  }

  lemma {:induction false} AttemptsSame(log: seq<Event>, more: seq<Event>)
    requires forall e | e in more :: !e.CodeSubmitted?
    ensures AttemptsOf(log + more) == AttemptsOf(log)
  {
    if more == [] {
      assert log + more == log;
    } else {
      var front, e := more[..|more| - 1], more[|more| - 1];
      AttemptsSame(log, front);
      AttemptsAppend(log + front, e);
      assert log + more == log + front + [e];
      assert AttemptsOf(log) + [] == AttemptsOf(log);
    }
  }

  /** The stamps and the counts answer as the whole history of submissions would. */
  ghost predicate AttemptsOk(s: State) {
    Window.Sound(s.attempts, CountsOf(s.logins), AttemptsOf(s.log), s.now)
  }

  /** No login is forgotten, none is counted without a submission, new ones begin at none. */
  ghost predicate SameCounts(logins: map<Id, Login>, logins': map<Id, Login>) {
    && logins.Keys <= logins'.Keys
    && forall id | id in logins' ::
         logins'[id].recoveryAttempts == if id in logins then logins[id].recoveryAttempts else 0
  }

  lemma AttemptsStay(s: State, s': State, more: seq<Event>)
    requires AttemptsOk(s) && s'.log == s.log + more && s'.attempts == s.attempts && s'.now >= s.now
    requires SameCounts(s.logins, s'.logins) && forall e | e in more :: !e.CodeSubmitted?
    ensures AttemptsOk(s')
  {
    AttemptsSame(s.log, more);
    var history, counts, counts' := AttemptsOf(s.log), CountsOf(s.logins), CountsOf(s'.logins);
    LaterFaithful(s.attempts, history, s.now, s'.now);
    forall r
      ensures (if r in counts' then counts'[r] else 0) == Window.CountOf(history, r)
    {
      assert (if r in counts then counts[r] else 0) == Window.CountOf(history, r);
    }
  }

  lemma LaterFaithful(attempts: Window.Stamps, history: seq<Window.Attempt>, clock: real, now: real)
    requires Window.Faithful(attempts, history, clock) && clock <= now
    ensures Window.Faithful(attempts, history, now)
  {
    forall a: string
      ensures Window.AnswersFor(attempts, history, now, a)
    {
      assert Window.AnswersFor(attempts, history, clock, a);
      Window.LaterAnswers(Window.Get(attempts, a), Window.StampsOf(history, a), clock, now);
    }
  }

  // ----- all of them together -----

  ghost predicate Tables(s: State) {
    && RecoveryOk(s.recovery.rows, s.log, s.tasks)
    && FilesOk(s.log, s.logins)
    && TokensOk(s.log, s.tokens, s.granted)
    && AttemptsOk(s)
  }

  predicate IsPlain(e: Event) {
    !e.CodeSubmitted? && !IsCodeEvent(e) && !e.Redeemed? && !e.Purged?
  }

  /** A step that touches none of the tables, and leaves every check it moves backed. */
  ghost predicate Plain(s: State, s': State, more: seq<Event>) {
    && s'.log == s.log + more && (forall e | e in more :: IsPlain(e))
    && SameAddresses(s.logins, s'.logins)
    && (forall j | |s.log| <= j < |s.log + more| :: FiledAt(s.log + more, s'.logins, j))
    && s'.recovery == s.recovery && s'.tokens == s.tokens && s'.granted == s.granted && s'.attempts == s.attempts
    && s'.now == s.now && SameCounts(s.logins, s'.logins)
    && forall t | t in s'.tasks ::
         (t in s.tasks && s'.tasks[t] == s.tasks[t]) || Backed(s.recovery.rows, s.log + more, s'.tasks[t])
  }

  lemma PlainKeepsTables(s: State, s': State, more: seq<Event>)
    requires Tables(s) && Plain(s, s', more)
    ensures Tables(s')
  {
    forall j | |s.log| <= j < |s'.log|
      ensures AcceptedAt(s.recovery.rows, s'.log, j)
    {
      assert s'.log[j] == more[j - |s.log|] && more[j - |s.log|] in more;
    }
    forall i | 0 <= i < |s.recovery.rows|
      ensures Marked(s.recovery.rows[i], s.recovery.rows[i])
    {
    }
    RecoveryStays(s.recovery.rows, s.recovery.rows, s.log, more, s.tasks, s'.tasks);
    FilesStay(s.log, more, s.logins, s'.logins);
    TokensStayLong(s.log, more, s.tokens, s.granted);
    AttemptsStay(s, s', more);
  }
}
