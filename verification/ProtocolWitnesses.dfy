/** Runs that end where one might not expect: for each property the protocol does not have,
    a reachable state that shows it, for every configuration and every name. */
module ProtocolWitnesses {
  import opened Options
  import opened LoginProtocol
  import opened ProtocolInvariants
  import opened ProtocolRuns
  import opened ProtocolTables
  import opened ProtocolNames
  import opened ProtocolTheorems
  import opened ProtocolScenes
  import ActionRegistry
  import Recovery = RecoveryCodes
  import Window = AttemptWindow

  // ----- where the runs begin -----

  /** A login with one address whose first attempt waits. */
  ghost predicate FirstWaits(cfg: Config, s: State, rid: Id, address: string) {
    && Reachable(cfg, s) && s.pending == [rid] && s.logins.Keys == {rid} && s.now == 0.0
    && s.registry == map[rid := 1] && s.blocks == map[] && s.recovery == Recovery.EMPTY && s.attempts == map[]
    && s.codes == map[] && s.issued == map[] && s.granted == map[] && s.tokens == map[]
    && s.tasks == map[1 := AttemptWait(rid, 1, cfg.normalize(address), cfg.approvalTimeout, Unset, false)]
    && var l := s.logins[rid];
    && l.status == Waiting && l.attempt == 1 && l.account == Some(cfg.normalize(address)) && l.email == Some(address)
    && l.waitingSince == Some(0.0) && l.createdAt == 0.0 && l.recoveryAttempts == 0 && l.challenge.None?
  }

  /** Nothing but requests, tasks and history has changed since the start. */
  predicate Untouched(s: State) {
    && s.now == 0.0 && s.registry == map[] && s.blocks == map[] && s.recovery == Recovery.EMPTY && s.attempts == map[]
    && s.codes == map[] && s.issued == map[] && s.granted == map[] && s.tokens == map[]
  }

  lemma Submitted(cfg: Config, rid: Id, address: string) returns (s: State)
    ensures Reachable(cfg, s) && Untouched(s) && s.pending == [rid] && s.logins.Keys == {rid} && s.tasks.Keys == {1}
    ensures s.tasks[1] == StartLookup(rid, address)
    ensures s.logins[rid] == NewLogin(cfg, "").(status := Resolving)
  {
    s := Opened(cfg, rid, "", 1);
    s := Emailed(cfg, s, rid, address, 1);
    s := LooksUp(cfg, s, 1);
  }

  lemma Started(cfg: Config, rid: Id, address: string) returns (s: State)
    ensures Reachable(cfg, s) && Untouched(s) && s.pending == [rid] && s.logins.Keys == {rid} && s.tasks.Keys == {1}
    ensures var account := cfg.normalize(address);
            && s.tasks[1] == AttemptBlockCheck(rid, 1, account, ["phone"])
            && s.logins[rid] == NewLogin(cfg, "").(status := Resolving, email := Some(address),
                                                   account := Some(account), attempt := 1)
  {
    s := Submitted(cfg, rid, address);
    s := Resolves(cfg, s, 1);
  }

  lemma FirstSent(cfg: Config, rid: Id, address: string) returns (s: State)
    ensures FirstWaits(cfg, s, rid, address)
  {
    s := Started(cfg, rid, address);
    s := Notified(cfg, s, 1);
    assert s.tasks == map[1 := s.tasks[1]];
  }

  /** The same after the delay, so that the recovery screen is open. */
  ghost predicate FirstOpen(cfg: Config, s: State, rid: Id, address: string) {
    && s.now >= 0.0 && s.now >= cfg.unlockDelay && Reachable(cfg, s) && FirstLike(cfg, s, rid, address)
  }

  ghost predicate FirstLike(cfg: Config, s: State, rid: Id, address: string) {
    && s.pending == [rid] && s.logins.Keys == {rid} && s.registry == map[rid := 1] && s.blocks == map[]
    && s.recovery == Recovery.EMPTY && s.attempts == map[]
    && s.tasks == map[1 := AttemptWait(rid, 1, cfg.normalize(address), cfg.approvalTimeout, Unset, false)]
    && var l := s.logins[rid];
    && l.status == Waiting && l.attempt == 1 && l.account == Some(cfg.normalize(address))
    && l.waitingSince == Some(0.0) && l.recoveryAttempts == 0
  }

  lemma Unlocked(cfg: Config, rid: Id, address: string) returns (s: State)
    ensures FirstOpen(cfg, s, rid, address)
  {
    s := FirstSent(cfg, rid, address);
    s := Passes(cfg, s, if cfg.unlockDelay > 0.0 then cfg.unlockDelay else 0.0);
  }

  // ----- an approval taken back -----

  /** A resend admitted before the tap lands turns the approved request back to waiting. */
  lemma ApprovalCanBeLost(cfg: Config, rid: Id, address: string) returns (s: State, a: Action)
    ensures Reachable(cfg, s) && rid in s.pending && rid in s.logins && s.logins[rid].status == Approved
    ensures rid in Next(cfg, s, a).logins && Next(cfg, s, a).logins[rid].status == Waiting
  {
    s := Unlocked(cfg, rid, address);
    s := Resent(cfg, s, rid, 2);
    s := Answered(cfg, s, 1, true);
    s := Begins(cfg, s, 2);
    a := OnTask(2, Silent);
    BlockCheckOverwrites(cfg, s, 2);
  }

  // ----- a replaced attempt that still writes -----

  /** An attempt at its block check, replaced by a later one that was approved, writes
      over that approval. */
  lemma ReplacedOverridesApproval(cfg: Config, rid: Id, address: string) returns (s: State, tid: nat)
    ensures Reachable(cfg, s) && rid in s.pending && rid in s.logins && s.logins[rid].status == Approved
    ensures tid in s.tasks && s.tasks[tid].AttemptBlockCheck? && s.tasks[tid].rid == rid
    ensures s.tasks[tid].n < s.logins[rid].attempt
    ensures var s' := Next(cfg, s, OnTask(tid, Silent));
            rid in s'.logins && s'.logins[rid].status == Waiting
  {
    s := BothResent(cfg, rid, address);
    s := Notified(cfg, s, 3);
    s := Answered(cfg, s, 3, true);
    tid := 2;
    BlockCheckOverwrites(cfg, s, 2);
  }

  /** Two resends are admitted, and both have begun. */
  lemma BothResent(cfg: Config, rid: Id, address: string) returns (s: State)
    ensures Reachable(cfg, s) && s.pending == [rid] && s.logins.Keys == {rid} && s.blocks == map[]
    ensures s.logins[rid].attempt == 3 && s.tasks.Keys == {1, 2, 3}
    ensures var account := cfg.normalize(address);
            s.tasks[2] == AttemptBlockCheck(rid, 2, account, ["phone"])
            && s.tasks[3] == AttemptBlockCheck(rid, 3, account, ["phone"])
  {
    s := Unlocked(cfg, rid, address);
    s := Resent(cfg, s, rid, 2);
    s := Resent(cfg, s, rid, 3);
    s := Begins(cfg, s, 2);
    s := Begins(cfg, s, 3);
  }

  // ----- the hint and the address -----

  /** The history begins with the request's hint, and then has the address. */
  predicate GivenBoth(s: State, rid: Id, hint: string, address: string) {
    && rid in s.logins && s.logins[rid].authorized == 0 && |s.log| >= 2
    && s.log[0].Authorized? && s.log[0].rid == rid && s.log[0].hint == hint && s.log[1] == EmailSubmitted(rid, address)
  }

  lemma HintThenAddress(cfg: Config, rid: Id, hint: string, address: string) returns (s: State)
    requires hint != ""
    ensures Reachable(cfg, s) && s.pending == [rid] && s.logins.Keys == {rid} && s.tasks.Keys == {1, 2}
    ensures s.tasks[1] == StartNew(rid, hint) && s.tasks[2] == StartNew(rid, address)
    ensures s.logins[rid].attempt == 0 && s.blocks == map[]
    ensures s.issued == map[] && s.granted == map[] && s.codes == map[]
    ensures s.logins[rid].challenge.None? && GivenBoth(s, rid, hint, address)
  {
    s := Opened(cfg, rid, hint, 1);
    s := Emailed(cfg, s, rid, address, 2);
  }

  /** A hinted request to which another address is given as well: both are being resolved. */
  lemma HintAndAddress(cfg: Config, rid: Id, hint: string, address: string) returns (s: State)
    requires hint != ""
    ensures Reachable(cfg, s) && s.pending == [rid] && s.logins.Keys == {rid} && s.tasks.Keys == {1, 2}
    ensures s.tasks[1] == StartLookup(rid, hint) && s.tasks[2] == StartLookup(rid, address)
    ensures s.logins[rid].attempt == 0 && s.blocks == map[]
    ensures s.issued == map[] && s.granted == map[] && s.codes == map[]
    ensures s.logins[rid].challenge.None? && GivenBoth(s, rid, hint, address)
  {
    s := HintThenAddress(cfg, rid, hint, address);
    s := LooksUp(cfg, s, 1);
    s := LooksUp(cfg, s, 2);
  }

  lemma HintBegun(cfg: Config, rid: Id, hint: string, address: string) returns (s: State)
    requires hint != ""
    ensures Reachable(cfg, s) && s.pending == [rid] && s.logins.Keys == {rid} && s.tasks.Keys == {1, 2}
    ensures s.tasks[1] == AttemptBlockCheck(rid, 1, cfg.normalize(hint), ["phone"])
    ensures s.tasks[2] == StartLookup(rid, address) && s.logins[rid].attempt == 1 && s.blocks == map[]
    ensures s.issued == map[] && s.granted == map[] && s.codes == map[]
    ensures s.logins[rid].challenge.None? && GivenBoth(s, rid, hint, address)
  {
    s := HintAndAddress(cfg, rid, hint, address);
    s := Resolves(cfg, s, 1);
  }

  /** The hinted account taps, while the address is still being looked up. */
  lemma HintTapped(cfg: Config, rid: Id, hint: string, address: string) returns (s: State)
    requires hint != ""
    ensures Reachable(cfg, s) && s.pending == [rid] && s.logins.Keys == {rid}
    ensures s.issued == map[] && s.granted == map[] && s.codes == map[] && GivenBoth(s, rid, hint, address)
    ensures 2 in s.tasks && s.tasks[2] == StartLookup(rid, address)
    ensures var l := s.logins[rid];
            && l.status == Approved && l.challenge.None?
            && ApprovalAt(s.log, l.approved, rid) && s.log[l.approved].account == cfg.normalize(hint)
  {
    s := HintBegun(cfg, rid, hint, address);
    s := Notified(cfg, s, 1);
    var n := |s.log|;
    s := Answered(cfg, s, 1, true);
    assert s.log[n + 1].Kept?;
  }

  /** Then the address is found, and takes the request over. */
  lemma TakenOver(cfg: Config, rid: Id, hint: string, address: string) returns (s: State)
    requires hint != ""
    ensures Reachable(cfg, s) && s.pending == [rid] && s.logins.Keys == {rid}
    ensures s.issued == map[] && s.granted == map[] && s.codes == map[] && GivenBoth(s, rid, hint, address)
    ensures var l := s.logins[rid];
            && l.status == Approved && l.challenge.None? && l.approved < |s.log|
            && l.account == Some(cfg.normalize(address)) && l.email == Some(address)
            && ApprovalAt(s.log, l.approved, rid) && s.log[l.approved].account == cfg.normalize(hint)
  {
    s := HintTapped(cfg, rid, hint, address);
    s := Resolves(cfg, s, 2);
  }

  /** Token r answers a request that came with this hint and was then given this address,
      and is for another account than the one that approved it. */
  ghost predicate Crosses(cfg: Config, s: State, r: nat, hint: string, address: string) {
    && Reachable(cfg, s) && r < |s.log| && s.log[r].Redeemed?
    && s.log[r].completed < |s.log| && s.log[s.log[r].completed].Completed?
    && var done := s.log[s.log[r].completed];
    && done.authorized < |s.log| && s.log[done.authorized].Authorized? && s.log[done.authorized].rid == done.rid
    && s.log[done.authorized].hint == hint && EmailSubmitted(done.rid, address) in s.log[..s.log[r].completed]
    && done.approved < |s.log| && ApprovalAt(s.log, done.approved, done.rid)
    && s.log[r].claims.sub != Some(s.log[done.approved].account)
  }

  /** So a token is issued for one account on the tap of another. */
  lemma HintCrossesAccounts(cfg: Config, rid: Id, hint: string, address: string, code: string, access: string)
    returns (s: State, r: nat)
    requires hint != "" && cfg.normalize(hint) != cfg.normalize(address)
    ensures Crosses(cfg, s, r, hint, address)
    ensures s.log[r].access == access && s.log[s.log[r].completed].rid == rid
    ensures s.log[r].claims.sub == Some(cfg.normalize(address))
    ensures s.log[s.log[s.log[r].completed].approved].account == cfg.normalize(hint)
  {
    s := TakenOver(cfg, rid, hint, address);
    var approved, c := s.logins[rid].approved, |s.log|;
    s := Completes(cfg, s, rid, code);
    r := |s.log|;
    s := Redeems(cfg, s, code, access);
    assert s.log[c].Completed? && ApprovalAt(s.log, approved, rid);
    assert s.log[..c][1] == EmailSubmitted(rid, address);
  }

  /** And only so: some run makes a token for another account than the one that approved
      it exactly if the request's hint and the address given besides are of two accounts. */
  lemma CrossesExactlyWhen(cfg: Config, hint: string, address: string)
    ensures (exists s: State, r: nat :: Crosses(cfg, s, r, hint, address))
            <==> hint != "" && cfg.normalize(hint) != cfg.normalize(address)
  {
    if hint != "" && cfg.normalize(hint) != cfg.normalize(address) {
      var s, r := HintCrossesAccounts(cfg, "", hint, address, "", "");
    }
    forall s: State, r: nat | Crosses(cfg, s, r, hint, address)
      ensures hint != "" && cfg.normalize(hint) != cfg.normalize(address)
    {
      CrossesTwoAccounts(cfg, s, r, hint, address);
    }
  }

  lemma CrossesTwoAccounts(cfg: Config, s: State, r: nat, hint: string, address: string)
    requires Crosses(cfg, s, r, hint, address)
    ensures hint != "" && cfg.normalize(hint) != cfg.normalize(address)
  {
    TokenProvenance(cfg, s, r);
    ReachableInv(cfg, s);
    var c := s.log[r].completed;
    var rid := s.log[c].rid;
    assert !OneAccount(cfg, s.log[..c], rid, hint);
    forall other | EmailSubmitted(rid, other) in s.log[..c]
      ensures other == address
    {
      SubmittedOnce(cfg, s.log, c, rid, other, address);
    }
  }

  // ----- a row that does not say what its attempt came to -----

  /** A first attempt rejected and about to be recorded, while an admitted resend has
      begun and set the request to waiting again. */
  lemma RejectedAndResent(cfg: Config, rid: Id, address: string) returns (s: State, kept: nat)
    ensures Reachable(cfg, s) && s.pending == [rid] && s.logins.Keys == {rid} && s.tasks.Keys == {1, 2}
    ensures s.tasks[1] == AttemptRecord(rid, 1, cfg.normalize(address), kept, false)
    ensures s.tasks[2] == AttemptNotify(rid, 2, cfg.normalize(address), ["phone"])
    ensures kept < |s.log| && s.log[kept].Kept? && s.log[kept].outcome == Rejected && s.log[kept].tid == 1
    ensures s.logins[rid].status == Waiting && s.logins[rid].attempt == 2
  {
    s := Unlocked(cfg, rid, address);
    s := Resent(cfg, s, rid, 2);
    kept := |s.log| + 1;
    s := Answered(cfg, s, 1, false);
    assert s.log[kept].Kept?;
    s := Begins(cfg, s, 2);
    s := Allowed(cfg, s, 2);
  }

  /** The row of a rejected attempt says that the sends failed: by the time it was filed,
      the resend's had. */
  lemma RowOfAnotherOutcome(cfg: Config, rid: Id, address: string) returns (s: State, i: nat, kept: nat)
    ensures Reachable(cfg, s) && i < |s.log| && kept < i && s.log[kept].Kept? && s.log[kept].outcome == Rejected
    ensures s.log[i].Filed? && s.log[i].cause == Some(kept) && s.log[i].tid == s.log[kept].tid
    ensures s.log[i].row.kind == Ended(SendFailed)
  {
    s, kept := RejectedAndResent(cfg, rid, address);
    s := FailsToSend(cfg, s, 2);
    s := Records(cfg, s, 1);
    i := |s.log|;
    s := Files(cfg, s, 1);
  }

  /** Or no row at all: filed while the resend was waiting. */
  lemma RowNeverFiled(cfg: Config, rid: Id, address: string) returns (s: State, kept: nat)
    ensures Reachable(cfg, s) && 1 in s.tasks && s.tasks[1].AttemptFile? && s.tasks[1].kept == kept
    ensures kept < |s.log| && s.log[kept].Kept? && s.log[kept].outcome == Rejected
    ensures var s' := Next(cfg, s, OnTask(1, Silent));
            1 in s'.tasks && s'.tasks[1].Done? && s'.audit == s.audit && s'.log == s.log
  {
    s, kept := RejectedAndResent(cfg, rid, address);
    s := Records(cfg, s, 1);
    FilesNothing(cfg, s, 1);
  }

  // ----- one recovery code, accepted twice -----

  /** Two checks of one code have both taken their snapshot. */
  lemma BothSnapshots(cfg: Config, rid: Id, address: string, code: string) returns (s: State)
    ensures Reachable(cfg, s) && s.pending == [rid] && s.logins.Keys == {rid} && s.tasks.Keys == {1, 2, 3}
    ensures var account, hash := cfg.normalize(address), Recovery.Argon2(code);
            && s.recovery == Recovery.Db(map[account := 1], [Recovery.Row(account, hash, 1, false)])
            && s.tasks[2] == CodeHash(rid, account, "", code, [Recovery.Candidate(0, hash)])
            && s.tasks[3] == CodeHash(rid, account, "", code, [Recovery.Candidate(0, hash)])
  {
    var account := cfg.normalize(address);
    var row := Recovery.Row(account, Recovery.Argon2(code), 1, false);
    s := BothSubmitted(cfg, rid, address, code);
    s := Snapshots(cfg, s, 2, row);
    s := Snapshots(cfg, s, 3, row);
  }

  /** A code of the one batch there is has been submitted, and another may be. */
  lemma OneSubmitted(cfg: Config, rid: Id, address: string, code: string) returns (s: State)
    ensures Reachable(cfg, s) && s.pending == [rid] && s.logins.Keys == {rid} && s.tasks.Keys == {1, 2}
    ensures s.blocks == map[] && MayResend(cfg, s, rid) && WithinLimits(Counted(s, rid), rid)
    ensures var account := cfg.normalize(address);
            && s.recovery == Recovery.Db(map[account := 1], [Recovery.Row(account, Recovery.Argon2(code), 1, false)])
            && s.logins[rid].account == Some(account) && s.tasks[2] == CodeBlockCheck(rid, account, "", code)
  {
    s := Unlocked(cfg, rid, address);
    s := Batched(cfg, s, cfg.normalize(address), code);
    s := Submits(cfg, s, rid, code, 2);
  }

  lemma BothSubmitted(cfg: Config, rid: Id, address: string, code: string) returns (s: State)
    ensures Reachable(cfg, s) && s.pending == [rid] && s.logins.Keys == {rid} && s.tasks.Keys == {1, 2, 3}
    ensures s.blocks == map[]
    ensures var account := cfg.normalize(address);
            && s.recovery == Recovery.Db(map[account := 1], [Recovery.Row(account, Recovery.Argon2(code), 1, false)])
            && s.tasks[2] == CodeBlockCheck(rid, account, "", code)
            && s.tasks[3] == CodeBlockCheck(rid, account, "", code)
  {
    s := OneSubmitted(cfg, rid, address, code);
    s := Submits(cfg, s, rid, code, 3);
  }

  /** Both accept it: the history has two acceptances of one row. */
  lemma OneRowAcceptedTwice(cfg: Config, rid: Id, address: string, code: string) returns (s: State, i: nat, j: nat)
    ensures Reachable(cfg, s) && i < j < |s.log| && s.log[i].CodeAccepted? && s.log[j].CodeAccepted?
    ensures s.log[i].tid != s.log[j].tid && s.log[i].id == s.log[j].id
    ensures s.log[i].account == s.log[j].account == cfg.normalize(address) && s.log[i].code == s.log[j].code == code
  {
    s := BothSnapshots(cfg, rid, address, code);
    i := |s.log|;
    s := Accepts(cfg, s, 2);
    j := |s.log|;
    s := Accepts(cfg, s, 3);
  }

  // ----- ages that nothing but a purge looks at -----

  /** A login approved at once. */
  lemma ApprovedAtOnce(cfg: Config, rid: Id, address: string) returns (s: State)
    ensures Reachable(cfg, s) && s.pending == [rid] && s.logins.Keys == {rid} && s.now == 0.0
    ensures s.codes == map[] && s.issued == map[] && s.granted == map[] && s.tokens == map[]
    ensures var l := s.logins[rid];
            l.status == Approved && l.createdAt == 0.0 && l.challenge.None?
  {
    s := FirstSent(cfg, rid, address);
    s := Answered(cfg, s, 1, true);
  }

  /** An access token answers more than five minutes after it was issued. */
  lemma OldTokenAnswers(cfg: Config, rid: Id, address: string, code: string, access: string) returns (s: State)
    ensures Reachable(cfg, s) && access in s.tokens
    ensures s.now - s.tokens[access].issuedAt > 300.0
  {
    s := ApprovedAtOnce(cfg, rid, address);
    s := Completes(cfg, s, rid, code);
    s := Redeems(cfg, s, code, access);
    s := Passes(cfg, s, ACCESS_TOKEN_TTL + 1.0);
  }

  /** A login past its timeout is still registered, and would be completed. */
  lemma OverdueCompletes(cfg: Config, rid: Id, address: string) returns (s: State)
    ensures Reachable(cfg, s) && rid in s.pending && rid in s.logins && s.logins[rid].status == Approved
    ensures s.now - s.logins[rid].createdAt > cfg.loginTimeout
  {
    s := ApprovedAtOnce(cfg, rid, address);
    s := Passes(cfg, s, if cfg.loginTimeout > 0.0 then cfg.loginTimeout + 1.0 else 1.0);
  }

  // ----- a tap lost to the timer -----

  /** An approve action reached the current attempt, and the attempt timed out all the
      same: its timer fired before its waiter was resumed. */
  lemma TapLostToTimer(cfg: Config, rid: Id, address: string) returns (s: State, k: nat, i: nat)
    ensures Reachable(cfg, s) && k < i < |s.log|
    ensures s.log[k] == Tapped(ActionRegistry.ActionName(rid, true), rid, true, 1)
    ensures s.log[i].Kept? && s.log[i].rid == rid && s.log[i].tid == 1 && s.log[i].outcome == TimedOut
    ensures rid in s.logins && s.logins[rid].status == TimedOut
  {
    s := FirstSent(cfg, rid, address);
    s := Passes(cfg, s, if cfg.approvalTimeout > 0.0 then cfg.approvalTimeout else 0.0);
    k := |s.log|;
    s := Pressed(cfg, s, 1, true);
    s := Fires(cfg, s, 1);
    i := |s.log|;
    s := Expires(cfg, s, 1);
  }
}
