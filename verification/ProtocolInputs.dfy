/** From the history back to what came in: every event was caused by one action of the run,
    with that action's parameters. So a token goes back to the very requests that were
    made of the service. */
module ProtocolInputs {
  import opened Options
  import opened LoginProtocol
  import opened ProtocolInvariants
  import opened ProtocolRuns
  import opened ProtocolTables
  import opened ProtocolNames
  import opened ProtocolTheorems
  import opened ProtocolCauses
  import Base64Url

  ghost function Before(cfg: Config, start: real, actions: seq<Action>, k: nat): State
    requires k <= |actions|
  {
    Run(cfg, Initial(start), actions[..k])
  }

  /** Action k of the run wrote event j. */
  ghost predicate WroteAt(cfg: Config, start: real, actions: seq<Action>, k: nat, j: nat) {
    k < |actions| && |Before(cfg, start, actions, k).log| <= j < |Before(cfg, start, actions, k + 1).log|
  }

  lemma OneStep(cfg: Config, start: real, actions: seq<Action>, k: nat)
    requires k < |actions|
    ensures Before(cfg, start, actions, k + 1) == Next(cfg, Before(cfg, start, actions, k), actions[k])
    ensures Reachable(cfg, Before(cfg, start, actions, k))
  {
    assert actions[..k + 1][..k] == actions[..k];
  }

  lemma StepGrows(cfg: Config, s: State, a: Action)
    requires Reachable(cfg, s)
    ensures s.log <= Next(cfg, s, a).log
  {
    ReachableInv(cfg, s);
    NextAccounts(cfg, s, a);
  }

  lemma {:induction false} RunGrows(cfg: Config, start: real, actions: seq<Action>, k: nat, n: nat)
    requires k <= n <= |actions|
    ensures Before(cfg, start, actions, k).log <= Before(cfg, start, actions, n).log
    decreases n
  {
    if k < n {
      RunGrows(cfg, start, actions, k, n - 1);
      OneStep(cfg, start, actions, n - 1);
      StepGrows(cfg, Before(cfg, start, actions, n - 1), actions[n - 1]);
    }
  }

  lemma {:induction false} Writer(cfg: Config, start: real, actions: seq<Action>, n: nat, j: nat) returns (k: nat)
    requires n <= |actions| && j < |Before(cfg, start, actions, n).log|
    ensures k < n && WroteAt(cfg, start, actions, k, j)
    decreases n
  {
    if n > 0 && j < |Before(cfg, start, actions, n - 1).log| {
      k := Writer(cfg, start, actions, n - 1, j);
    } else {
      k := n - 1;
    }
  }

  lemma StepExplains(cfg: Config, s: State, a: Action, j: nat)
    requires Reachable(cfg, s) && |s.log| <= j < |Next(cfg, s, a).log|
    ensures Explains(cfg, s, a, Next(cfg, s, a).log[j])
  {
    ReachableInv(cfg, s);
    NextAccounts(cfg, s, a);
    var s' := Next(cfg, s, a);
    assert s'.log[j] == s'.log[|s.log|..][j - |s.log|];
  }

  /** Every event of every run was written by one of its actions, which explains it. */
  lemma EveryEventCaused(cfg: Config, start: real, actions: seq<Action>, j: nat) returns (k: nat)
    requires j < |Run(cfg, Initial(start), actions).log|
    ensures WroteAt(cfg, start, actions, k, j)
    ensures Explains(cfg, Before(cfg, start, actions, k), actions[k], Run(cfg, Initial(start), actions).log[j])
  {
    assert actions[..|actions|] == actions;
    k := Writer(cfg, start, actions, |actions|, j);
    OneStep(cfg, start, actions, k);
    RunGrows(cfg, start, actions, k + 1, |actions|);
    StepExplains(cfg, Before(cfg, start, actions, k), actions[k], j);
  }

  /** Earlier events are written earlier. */
  lemma WrittenInOrder(cfg: Config, start: real, actions: seq<Action>, k1: nat, j1: nat, k2: nat, j2: nat)
    requires WroteAt(cfg, start, actions, k1, j1) && WroteAt(cfg, start, actions, k2, j2) && j1 <= j2
    ensures k1 <= k2
  {
    if k2 < k1 {
      RunGrows(cfg, start, actions, k2 + 1, k1);
    }
  }

  // ----- the cause of each kind of event -----

  /** The request was opened by this action, and as it came. */
  predicate OpenedWith(a: Action, e: Event)
    requires e.Authorized?
  {
    && a.OnAuthorize? && e.rid == a.rid && e.clientId == a.request.clientId && e.redirectUri == a.request.redirectUri
    && e.nonce == a.request.nonce && e.challenge == a.request.challenge && e.ip == a.request.ip
    && (e.hint != "" ==> a.request.loginHint == Some(e.hint))
  }

  lemma CauseOfOpening(cfg: Config, start: real, actions: seq<Action>, j: nat) returns (k: nat)
    requires j < |Run(cfg, Initial(start), actions).log| && Run(cfg, Initial(start), actions).log[j].Authorized?
    ensures WroteAt(cfg, start, actions, k, j) && OpenedWith(actions[k], Run(cfg, Initial(start), actions).log[j])
    ensures Admissible(cfg, actions[k].request)
  {
    k := EveryEventCaused(cfg, start, actions, j);
  }

  lemma CauseOfAddress(cfg: Config, start: real, actions: seq<Action>, j: nat) returns (k: nat)
    requires j < |Run(cfg, Initial(start), actions).log| && Run(cfg, Initial(start), actions).log[j].EmailSubmitted?
    ensures WroteAt(cfg, start, actions, k, j)
    ensures var e := Run(cfg, Initial(start), actions).log[j];
            actions[k].OnEmail? && actions[k].rid == e.rid && actions[k].address == e.address
  {
    k := EveryEventCaused(cfg, start, actions, j);
  }

  lemma CauseOfTap(cfg: Config, start: real, actions: seq<Action>, j: nat) returns (k: nat)
    requires j < |Run(cfg, Initial(start), actions).log| && Run(cfg, Initial(start), actions).log[j].Tapped?
    ensures WroteAt(cfg, start, actions, k, j)
    ensures var e := Run(cfg, Initial(start), actions).log[j];
            actions[k] == OnHaAction((if e.verdict then "approve_login_" else "reject_login_") + e.rid)
  {
    k := EveryEventCaused(cfg, start, actions, j);
  }

  lemma CauseOfCode(cfg: Config, start: real, actions: seq<Action>, j: nat) returns (k: nat)
    requires j < |Run(cfg, Initial(start), actions).log| && Run(cfg, Initial(start), actions).log[j].CodeSubmitted?
    ensures WroteAt(cfg, start, actions, k, j)
    ensures var e := Run(cfg, Initial(start), actions).log[j];
            actions[k].OnRecovery? && actions[k].rid == e.rid && actions[k].code == e.code && actions[k].ip == e.ip
  {
    k := EveryEventCaused(cfg, start, actions, j);
  }

  lemma CauseOfCompletion(cfg: Config, start: real, actions: seq<Action>, j: nat) returns (k: nat)
    requires j < |Run(cfg, Initial(start), actions).log| && Run(cfg, Initial(start), actions).log[j].Completed?
    ensures WroteAt(cfg, start, actions, k, j)
    ensures var e := Run(cfg, Initial(start), actions).log[j];
            actions[k] == OnComplete(e.rid, e.code) && e.at == Before(cfg, start, actions, k).now
  {
    k := EveryEventCaused(cfg, start, actions, j);
  }

  lemma CauseOfToken(cfg: Config, start: real, actions: seq<Action>, j: nat) returns (k: nat)
    requires j < |Run(cfg, Initial(start), actions).log| && Run(cfg, Initial(start), actions).log[j].Redeemed?
    ensures WroteAt(cfg, start, actions, k, j)
    ensures var e, before := Run(cfg, Initial(start), actions).log[j], Before(cfg, start, actions, k);
            e.code in before.codes && e.at == before.now
            && Presents(cfg, actions[k], e, before.codes[e.code].redirectUri)
  {
    k := EveryEventCaused(cfg, start, actions, j);
  }

  // ----- a token, from what came in -----

  /** The code went to `/token` from the one client, with this verifier, and if it named a
      redirect URI, it was this one. */
  predicate Presents(cfg: Config, a: Action, e: Event, redirectUri: string)
    requires e.Redeemed?
  {
    && a.OnToken? && FromClient(cfg, a.tokenRequest) && a.access == e.access
    && a.tokenRequest.code == e.code && a.tokenRequest.verifier == e.verifier
    && (a.tokenRequest.redirectUri.Some? ==> a.tokenRequest.redirectUri.value == redirectUri)
  }

  /** The token is what this `/authorize` asked for: its nonce, its client, and a verifier
      that its challenge is the digest of. */
  predicate Answers(cfg: Config, r: AuthorizeRequest, e: Event)
    requires e.Redeemed?
  {
    && Admissible(cfg, r) && e.claims.nonce == r.nonce && e.claims.aud == r.clientId
    && (r.challenge.Some? ==>
          e.verifier.Some? && e.verifier.value != ""
          && Base64Url.Decode(Base64Url.Repad(r.challenge.value)) == Some(cfg.sha256(e.verifier.value)))
  }

  /** The address came as the request's hint, or was submitted for it before action n. */
  ghost predicate AddressCame(actions: seq<Action>, n: nat, rid: Id, r: AuthorizeRequest, address: string) {
    || (address != "" && r.loginHint == Some(address))
    || exists k :: 0 <= k < n && k < |actions| && EmailCame(actions, k, rid, address)
  }

  predicate EmailCame(actions: seq<Action>, k: nat, rid: Id, address: string)
    requires k < |actions|
  {
    actions[k].OnEmail? && actions[k].rid == rid && actions[k].address == address
  }

  /** Before action n someone approved the request: the button of its notification was
      pressed, or a recovery code was submitted for it. */
  ghost predicate ApprovalCame(actions: seq<Action>, n: nat, rid: Id) {
    exists k :: 0 <= k < n && k < |actions| && Approves(actions, k, rid)
  }

  predicate Approves(actions: seq<Action>, k: nat, rid: Id)
    requires k < |actions|
  {
    actions[k] == OnHaAction("approve_login_" + rid) || (actions[k].OnRecovery? && actions[k].rid == rid)
  }

  /** Token `e` comes of three actions of the run, in this order: the `/authorize` it
      answers, the `/idp/complete` that made its code, and the `/token` that took it at most
      a minute later; between the first two an address and an approval came in. */
  ghost predicate FromInputs(cfg: Config, start: real, actions: seq<Action>, e: Event,
                             opens: nat, completes: nat, redeems: nat) {
    && e.Redeemed? && opens < completes < redeems < |actions| && actions[opens].OnAuthorize?
    && var r, rid := actions[opens].request, actions[opens].rid;
    && actions[completes] == OnComplete(rid, e.code) && Presents(cfg, actions[redeems], e, r.redirectUri)
    && Answers(cfg, r, e)
    && Before(cfg, start, actions, redeems).now - Before(cfg, start, actions, completes).now <= 60.0
    && e.claims.email.Some? && e.claims.sub == Some(cfg.normalize(e.claims.email.value))
    && AddressCame(actions, completes, rid, r, e.claims.email.value)
    && ApprovalCame(actions, completes, rid)
  }

  lemma AddressComes(cfg: Config, start: real, actions: seq<Action>, c: nat, completes: nat, opens: nat,
                     hint: string, address: string)
    requires WroteAt(cfg, start, actions, completes, c) && actions[completes].OnComplete?
    requires opens < |actions| && actions[opens].OnAuthorize?
    requires hint != "" ==> actions[opens].request.loginHint == Some(hint)
    requires c < |Run(cfg, Initial(start), actions).log|
    requires WasGiven(Run(cfg, Initial(start), actions).log[..c], actions[opens].rid, hint, address)
    ensures AddressCame(actions, completes, actions[opens].rid, actions[opens].request, address)
  {
    if !(hint != "" && address == hint) {
      var log := Run(cfg, Initial(start), actions).log;
      var j :| 0 <= j < c && log[..c][j] == EmailSubmitted(actions[opens].rid, address);
      var k := CauseOfAddress(cfg, start, actions, j);
      WrittenInOrder(cfg, start, actions, k, j, completes, c);
      assert EmailCame(actions, k, actions[opens].rid, address);
    }
  }

  lemma ApprovalComes(cfg: Config, start: real, actions: seq<Action>, c: nat, completes: nat, p: nat, rid: Id)
    requires WroteAt(cfg, start, actions, completes, c) && actions[completes].OnComplete?
    requires p < c < |Run(cfg, Initial(start), actions).log|
              && ApprovalAt(Run(cfg, Initial(start), actions).log, p, rid)
    ensures ApprovalCame(actions, completes, rid)
  {
    var s := Run(cfg, Initial(start), actions);
    var j, k := ApprovalInput(cfg, start, actions, p, rid);
    WrittenInOrder(cfg, start, actions, k, j, completes, c);
    assert Approves(actions, k, rid);
  }

  lemma ApprovalInput(cfg: Config, start: real, actions: seq<Action>, p: nat, rid: Id) returns (j: nat, k: nat)
    requires ApprovalAt(Run(cfg, Initial(start), actions).log, p, rid)
    ensures j < p && WroteAt(cfg, start, actions, k, j) && Approves(actions, k, rid)
  {
    var s := Run(cfg, Initial(start), actions);
    ApprovalMeaning(cfg, s, p, rid);
    if s.log[p].Kept? {
      j := s.log[p].tapped;
      k := CauseOfTap(cfg, start, actions, j);
    } else {
      var a := s.log[p].accepted;
      j :| 0 <= j < a && SubmittedAt(s.log[..a], j, rid, s.log[p].account, s.log[a].ip, s.log[a].code);
      assert s.log[..a][j] == s.log[j];
      k := CauseOfCode(cfg, start, actions, j);
    }
  }

  /** A code stands for one entry as long as it is there. */
  lemma EntryOfCode(cfg: Config, s: State, before: State, r: nat, c: nat)
    requires Reachable(cfg, s) && Reachable(cfg, before) && before.log <= s.log
    requires r < |s.log| && s.log[r].Redeemed? && s.log[r].code in before.codes
    requires c < |s.log| && s.log[c].Completed? && s.log[c].code == s.log[r].code
    ensures before.codes[s.log[r].code] == s.log[c].entry
  {
    ReachableInv(cfg, before);
    var code := s.log[r].code;
    assert IssuedAt(before.now, before.log, before.codes, before.issued, code);
    var d := before.issued[code];
    assert s.log[d] == before.log[d];
    if c != d {
      LeavesOnce(cfg, s, c, d);
    }
  }

  /** The three actions behind a token, its completion c and its opening o. */
  ghost predicate Behind(cfg: Config, start: real, actions: seq<Action>, r: nat, c: nat, o: nat,
                         opens: nat, completes: nat, redeems: nat)
  {
    var log := Run(cfg, Initial(start), actions).log;
    && o < c < r < |log| && log[o].Authorized? && log[c].Completed? && log[r].Redeemed?
    && WroteAt(cfg, start, actions, opens, o) && WroteAt(cfg, start, actions, completes, c)
    && WroteAt(cfg, start, actions, redeems, r)
    && actions[opens].OnAuthorize? && actions[completes] == OnComplete(log[c].rid, log[c].code)
    && actions[redeems].OnToken?
    && opens < completes < redeems
  }

  lemma TokenBehind(cfg: Config, start: real, actions: seq<Action>, r: nat, c: nat, o: nat)
    returns (opens: nat, completes: nat, redeems: nat)
    requires var log := Run(cfg, Initial(start), actions).log;
             o < c < r < |log| && log[o].Authorized? && log[c].Completed? && log[r].Redeemed?
    ensures Behind(cfg, start, actions, r, c, o, opens, completes, redeems)
    ensures var log, redeeming := Run(cfg, Initial(start), actions).log, Before(cfg, start, actions, redeems);
            && OpenedWith(actions[opens], log[o])
            && log[c].at == Before(cfg, start, actions, completes).now && log[r].at == redeeming.now
            && log[r].code in redeeming.codes
            && Presents(cfg, actions[redeems], log[r], redeeming.codes[log[r].code].redirectUri)
            && Admissible(cfg, actions[opens].request)
  {
    redeems := CauseOfToken(cfg, start, actions, r);
    completes := CauseOfCompletion(cfg, start, actions, c);
    opens := CauseOfOpening(cfg, start, actions, o);
    WrittenInOrder(cfg, start, actions, completes, c, redeems, r);
    WrittenInOrder(cfg, start, actions, opens, o, completes, c);
  }

  /** Every token of every run comes of inputs of that run. */
  lemma TokenFromInputs(cfg: Config, start: real, actions: seq<Action>, r: nat)
    returns (opens: nat, completes: nat, redeems: nat)
    requires r < |Run(cfg, Initial(start), actions).log| && Run(cfg, Initial(start), actions).log[r].Redeemed?
    ensures FromInputs(cfg, start, actions, Run(cfg, Initial(start), actions).log[r], opens, completes, redeems)
  {
    var s := Run(cfg, Initial(start), actions);
    var c, o := TokenRests(cfg, s, r);
    opens, completes, redeems := TokenBehind(cfg, start, actions, r, c, o);
    AddressComes(cfg, start, actions, c, completes, opens, s.log[o].hint, s.log[r].claims.email.value);
    ApprovalComes(cfg, start, actions, c, completes, s.log[c].approved, s.log[c].rid);
    RedirectOfCode(cfg, start, actions, r, c, redeems);
  }

  lemma RedirectOfCode(cfg: Config, start: real, actions: seq<Action>, r: nat, c: nat, redeems: nat)
    requires var log := Run(cfg, Initial(start), actions).log;
             && r < |log| && log[r].Redeemed? && c < |log| && log[c].Completed? && log[c].code == log[r].code
             && redeems < |actions| && log[r].code in Before(cfg, start, actions, redeems).codes
    ensures var log := Run(cfg, Initial(start), actions).log;
            Before(cfg, start, actions, redeems).codes[log[r].code] == log[c].entry
  {
    assert actions[..|actions|] == actions;
    RunGrows(cfg, start, actions, redeems, |actions|);
    OneStep(cfg, start, actions, redeems);
    EntryOfCode(cfg, Run(cfg, Initial(start), actions), Before(cfg, start, actions, redeems), r, c);
  }

  /** What the history alone says of a token. */
  lemma TokenRests(cfg: Config, s: State, r: nat) returns (c: nat, o: nat)
    requires Reachable(cfg, s) && r < |s.log| && s.log[r].Redeemed?
    ensures o < c < r && s.log[c].Completed? && s.log[o].Authorized? && s.log[o].rid == s.log[c].rid
    ensures s.log[r].completed == c && s.log[c].code == s.log[r].code && s.log[r].at - s.log[c].at <= 60.0
    ensures s.log[r].claims.nonce == s.log[o].nonce && s.log[r].claims.aud == s.log[o].clientId
    ensures Proves(cfg, s.log[o].challenge, s.log[r].verifier) && s.log[c].entry.redirectUri == s.log[o].redirectUri
    ensures var claims := s.log[r].claims;
            && claims.email.Some? && claims.sub == Some(cfg.normalize(claims.email.value))
            && WasGiven(s.log[..c], s.log[c].rid, s.log[o].hint, claims.email.value)
    ensures s.log[c].approved < c && ApprovalAt(s.log, s.log[c].approved, s.log[c].rid)
  {
    TokenProvenance(cfg, s, r);
    c := s.log[r].completed;
    o := s.log[c].authorized;
    EntryIsAsked(cfg, s, c);
  }

  lemma EntryIsAsked(cfg: Config, s: State, c: nat)
    requires Reachable(cfg, s) && c < |s.log| && s.log[c].Completed?
    ensures s.log[c].authorized < c
    ensures var asked, entry := s.log[s.log[c].authorized], s.log[c].entry;
            asked.Authorized? && asked.rid == s.log[c].rid && entry.clientId == asked.clientId
            && entry.redirectUri == asked.redirectUri && entry.nonce == asked.nonce
            && entry.challenge == asked.challenge
  {
    ReachableInv(cfg, s);
    assert EventOk(cfg, s.log, c);
  }
}
