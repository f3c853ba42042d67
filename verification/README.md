# Verified model of the passwordless OIDC bridge

The service is an OIDC provider with no passwords: a person types an address, their
phones get a notification through Home Assistant, and a tap, or a one-time recovery
code, approves the login. This project models the parts of it where the order of events
matters, and the few algorithms whose result has a simple meaning, and proves what they
guarantee. `dafny verify dfyconfig.toml` checks everything.

## How the model is built

**The login protocol** (`LoginProtocol.dfy` to `IdpService.dfy`). One login is touched by
HTTP handlers, by any number of overlapping approval attempts, by WebSocket events, by
timers and by a periodic purge. `LoginProtocol` gives each stretch of code between two
awaits as one atomic step and lets any task take the next one; a reachable state is what
some interleaving leads to. A `log` of what happened is part of the state, with indices
that say which earlier event something rests on; no decision reads them.
Several invariants hold in every reachable state. `ProtocolInvariants`, `ProtocolSteps`
and `ProtocolRuns` are about requests, tasks, codes and the history itself;
`ProtocolTables` and `ProtocolTableSteps` about recovery rows, access tokens, counted
submissions and what is filed for whom; `ProtocolNames` about whose login it is;
`ProtocolCauses` about what each action adds to the history. From these,
`ProtocolTheorems` draws the guarantees, `ProtocolBlocks` what blocks a login,
`ProtocolInputs` what a token goes back to among the requests that were made, and
`ProtocolEffects` what each handler does, said without the functions that compute it.
`ProtocolStability` and `ProtocolLosses` say how outcomes persist, `ProtocolWrites` what an
attempt still writes once it is not the only one. `ProtocolScenes` and `ProtocolWitnesses`
build, for every configuration and every name, the runs that show what the protocol does
not promise. `IdpService` is the imperative side: a class with the module's dicts as
fields, whose states are reachable ones and whose methods (eviction loop, purge loops,
send loop and handlers) are each proved to be the protocol's step and to have that effect.

**Tables and registries.** `ActionRegistry` (futures), `IpBlocking`, `AttemptWindow`,
`RecoveryCodes`, `SigningKeys` and `AdminSessions` are classes over the tables and dicts
of their source files. Each keeps a ghost history and is proved against what that history
means: a purge never appears in the meaning, so it cannot be observed in the answers.

**Algorithms.** `TargetApp` (event replay against a declarative meaning), `ClientIp`
(the walk through forwarded addresses), `LoginMap` (canvas from tiles, zoom),
`Base64Url` (unpadded base64url, RSA integers, PKCE challenges) and `IsoTime`
(timestamps compared as text).

## What the code does that one might not expect

These are properties of the code as it is. Each has an exact condition, a reachable state
that shows it, or both.

- A request that came with a `login_hint` keeps the status `awaiting_email` until its block
  check, so another address can be submitted for it. Both are then resolved side by side,
  and a tap of the one account can complete a login of the other
  (`HintCrossesAccounts`). That happens in some run exactly if the two addresses are of two
  accounts (`CrossesExactlyWhen`); whatever happens, no account gets into a login but those
  of the addresses it was given (`TokenProvenance`).
- An approval is not final by itself. A resend admitted before the tap lands turns
  `approved` back to `waiting` (`ApprovalCanBeLost`); an attempt still waiting while a
  recovery code approves may write its own outcome. `ApprovalLostExactlyWhen` lists the
  steps that do it, and `FinalExactlyWhenSettled` says of which states some continuation
  loses the approval and of which none does.
- Replacing an attempt does not stop it where it is. At its block check it still writes
  `waiting` or `denied`, even over an approval a later attempt won
  (`ReplacedOverridesApproval`), and after its verdict it still writes the block counter
  and the audit row. `ReplacedWritesExactlyWhen` is exact; once at its sends or its wait it
  writes nothing any more (`SupersededWritesNothing`).
- The audit row of a verdict takes the status the request has when it is filed, which may be
  another attempt's (`RowOfAnotherOutcome`), or none the log accepts, and then no row is
  filed (`RowNeverFiled`); `FilesItsVerdictExactlyWhen` is exact for both.
- Two checks of one recovery code that both read the table before either commits both
  accept it (`OneRowAcceptedTwice`); single use holds against snapshots taken after the
  commit (`AcceptedIffNotYetCommitted`). A check that has read the generation before a new
  batch lands still accepts the old code, and only such a check does
  (`OldCodeAcceptedExactlyIfReadBefore`, `EarlierGenerationsEnd`).
- The login timeout is enforced by the purge alone: an overdue request that was approved is
  completed if the purge has not come by (`OverdueCompletes`,
  `PurgeObservableAtComplete`). What `/token` does with a code does not depend on purges.
- `/userinfo` looks only at the table: it answers for a token exactly if no purge ran more
  than five minutes after it was issued (`StoredExactlyWhen`), so an old token may still
  answer (`OldTokenAnswers`).
- In Python 3.12 `asyncio.wait_for` can expire although the future was already resolved and
  its waiter not yet resumed; such a tap is lost (`TapLostToTimer`), and exactly then
  (`TapCountsExactlyWhen`).
- An unblock does not re-arm a pair: until the next success no number of failures blocks
  it again (`UnblockedStaysOpen`).
- A forwarded header that is not empty and holds only blanks and commas, from a trusted
  proxy, raises an IndexError; nothing else does (`ClientIp.Resolve`).
- Signing out of an admin session answers whether a row was deleted, and so can tell
  whether a dead session has been purged; every other answer cannot (`DeadRowUndecided`).

## Model

| member | source | states |
|---|---|---|
| `ProtocolInputs.TokenFromInputs` | app/routers/idp.py:180-653 | every token of every run goes back to three of the run's actions, in order: the `/authorize` whose nonce and client it has and whose challenge, padded and decoded, is the digest of the verifier; the `/idp/complete` that made its code; and the `/token` that came from the client with that code, verifier and redirect URI at most a minute later; its address came as the hint or was submitted in between, and so did the pressed button or the recovery code that approved it |
| `ProtocolInputs.EveryEventCaused` | app/routers/idp.py:180-701 | every event of every run was written by one of its actions, with that action's parameters, at its moment, and only if the source's conditions for it held |
| `ProtocolCauses.NextAccounts` | app/routers/idp.py:180-701 | every step only adds to the history, adds only what its action explains, and touches the block table exactly with an event that says so |
| `ProtocolTheorems.TokenProvenance` | app/routers/idp.py:599-653 | every token of every interleaving goes back, through a code presented within 60 seconds, to one authorization request with its audience and nonce, whose challenge decodes to the digest of the verifier presented; to an address that request was given, whose normal form is the subject; and to an approve tap of that very id on the current attempt or a recovery code submitted and spent for that login; tap or code is of an account the request was given an address of, and of the token's own account unless hint and submitted address are of two |
| `ProtocolTheorems.PkceExactlyWhen` | app/routers/idp.py:584-596 | against the digest of a secret exactly the non-empty verifiers of that digest pass; without a challenge none is needed |
| `ProtocolNames.OneAdmission` | app/routers/idp.py:212-224 | a request is opened by one admission |
| `ProtocolWitnesses.CrossesExactlyWhen` | app/routers/idp.py:212-231 | some run makes a token for another account than the one that approved it exactly if the request came with a hint and the address submitted besides is of another account |
| `ProtocolWitnesses.HintCrossesAccounts` | app/routers/idp.py:417-460 | such a run, for every hint and every address of another account |
| `ProtocolNames.NextKeepsNames` | app/routers/idp.py:417-433 | every step keeps the accounts of requests, tasks, outcomes and completions among those of the addresses the request was given |
| `ProtocolNames.AccountsAgree` | app/routers/idp.py:417-433 | a request without a hint, or with a hint and no address of another account, has one account |
| `ProtocolTheorems.ApprovalMeaning` | app/routers/idp.py:387-397 | what approved a request is the built approve action of its own id resolving the writing attempt's future, no later attempt having begun and the request never having left; or a recovery code submitted for that login and account within the limits, whose row, of that account and made from that code, is used up |
| `ProtocolTheorems.OneAddress` | app/routers/idp.py:450-460 | no request ever has a second address accepted |
| `ProtocolTheorems.OutcomesAreCurrent` | app/routers/idp.py:387-397 | an outcome is written only by an attempt that nothing replaced, of a request still registered, and a verdict only as the matching action that reached that attempt said |
| `ProtocolTheorems.BlockWritesRestOnVerdicts` | app/routers/idp.py:401-411 | each block-counter write rests on a kept tap, an accepted code or a refused code of the same task and account, is for the address the request was opened from or the code submitted from, and is a success exactly for an approval or an accepted code |
| `ProtocolBlocks.BlocksAreHistory` | app/ip_blocking.py:29-79 | in every reachable state each pair's row is the replay of the verdicts counted for it and the blocks lifted, in order and with their times; it blocks exactly if they mean a block |
| `ProtocolBlocks.VerdictIsCounted` | app/routers/idp.py:401-411 | a verdict is counted once: a success or a failure at this moment for its own pair and no other, and the task goes on without it |
| `ProtocolBlocks.UnblockLifts` | app/ip_blocking.py:71-79 | lifting a block counts as such, at this moment and for its own pair only, which is blocked no more |
| `ProtocolBlocks.AttemptDeniedExactlyWhen` | app/routers/idp.py:346-353 | an attempt is denied exactly if the verdicts counted for its account at the request's address mean a block; otherwise the request waits |
| `ProtocolBlocks.CodeCheckedExactlyWhen` | app/routers/idp.py:505-509 | a submitted code is looked at exactly if the verdicts counted for the account at the address it came from do not mean a block |
| `ProtocolBlocks.CheckAcceptsExactlyWhen` | app/recovery_codes.py:102-121 | a check accepts exactly if one of the rows it has read was made from the code |
| `ProtocolBlocks.CheckAlone` | app/recovery_codes.py:90-121 | a check no one interferes with accepts exactly the codes of unused rows of the current batch |
| `ProtocolBlocks.CheckWithoutBatch` | app/recovery_codes.py:90-100 | an account without a batch has every code refused, and counted as wrong |
| `ProtocolEffects.ResendNotifiesFound` | app/routers/idp.py:327-345 | a resend begins the attempt of the next number, with the targets looked up for it, or ends if its request is gone |
| `ProtocolTheorems.WritesRestOnOutcomes` | app/routers/idp.py:401-414 | each audit row rests on an outcome or accepted code of the same task, account, request and address; an attempt without a verdict and a used code are filed as such; the rest are refusals of a blocked address |
| `ProtocolWrites.FilesItsVerdictExactlyWhen` | app/routers/idp.py:401-414 | an attempt's row carries its own verdict exactly if the status is still that verdict when it is filed, and is never filed exactly if the status is none an attempt ends in |
| `ProtocolWitnesses.RowOfAnotherOutcome` | app/routers/idp.py:401-414 | a reachable history in which a rejected attempt is filed as `send_failed` |
| `ProtocolWitnesses.RowNeverFiled` | app/routers/idp.py:401-414 | a reachable state in which a rejected attempt is about to end without a row |
| `ProtocolTheorems.LeavesOnce` | app/routers/idp.py:530-572 | no request leaves the pending table twice, by completion, failure, eviction or purge; no code is presented twice or issued twice |
| `ProtocolTheorems.TokensCodesApprovals` | app/routers/idp.py:530-653 | in every reachable state, tokens issued are at most codes issued, and these at most approved requests |
| `ProtocolTheorems.PurgeUnobservableAtToken` | app/routers/idp.py:617-634 | the token endpoint issues exactly when the client proves itself and the code is at most a minute old, not yet presented, for the redirect URI if one is named, and its challenge, if there is one, is the base64url digest of a non-empty verifier; purges play no part |
| `ProtocolTheorems.PurgeObservableAtComplete` | app/routers/idp.py:530-554 | an approved registered request is completed whatever its age, and after a purge exactly if it is not past the login timeout |
| `ProtocolWitnesses.OverdueCompletes` | app/routers/idp.py:682-688 | a reachable approved request past its timeout and still registered |
| `ProtocolTheorems.StoredExactlyWhen` | app/routers/idp.py:656-671 | an access token is stored exactly if it was issued and no purge ran more than 300 seconds later |
| `ProtocolTheorems.StoredClaims` | app/routers/idp.py:656-671 | what is stored are the claims of the one redemption that issued it, and so of a whole chain |
| `ProtocolWitnesses.OldTokenAnswers` | app/routers/idp.py:656-671 | a reachable state with a stored token older than its five minutes |
| `ProtocolTheorems.SubmissionsLimited` | app/routers/idp.py:106-120 | in every reachable history no 300 seconds hold more than ten submissions of an account let through to a check, and no login has more than five |
| `ProtocolTableSteps.ReachableTables` | app/routers/idp.py:493-526 | in every reachable state the rows a check holds are of its account, every accepted code names a row of that account made from it and used up, tokens are those redeemed and not dropped, and the attempt stamps are those of all submissions |
| `ProtocolTheorems.AuthorizeEvictsOldest` | app/routers/idp.py:207-224 | the table never exceeds 500 and is in order of age; a new request displaces the oldest one when it is full, and no other |
| `ProtocolRuns.NextKeepsInv` | app/routers/idp.py:180-701 | any atomic step of any handler, task, event, timer or purge keeps the invariant |
| `ProtocolRuns.ReachableInv` | app/routers/idp.py:180-701 | the invariant holds in every reachable state: history well founded, registry entries owned by live waiters, attempts numbered apart, codes and requests gone for good once taken |
| `ProtocolInvariants.MoveKeepsInv` | app/routers/idp.py:327-433 | a step that moves one task and softly changes one request cannot break what any other task relies on |
| `ProtocolSteps.ConcludeKeepsInv` | app/routers/idp.py:387-414 | an outcome, written by the current attempt or discarded by a superseded one, keeps the invariant |
| `ProtocolSteps.HaActionKeepsInv` | app/ha_client.py:230-242 | an incoming action resolves only the waiter registered for its own id |
| `ProtocolSteps.EvictKeepsInv` | app/routers/idp.py:208-210 | the eviction loop ends with room for one and keeps the invariant |
| `ProtocolStability.OthersStayPut` | app/ha_client.py:240-242 | a task moves only by its own steps; a resolved future keeps its first verdict whatever comes later |
| `ProtocolStability.SupersededWritesNothing` | app/routers/idp.py:387-395 | once a later attempt began or the request left, an attempt at its sends or its wait, after any interleaving and any number of resends, changes nothing but its own place and registration |
| `ProtocolWrites.ReplacedWritesExactlyWhen` | app/routers/idp.py:346-353 | a replaced attempt's step writes anything else exactly at its block check (unless the request is waiting since this moment), at the record of its verdict, and at its audit row if the status is one the log accepts |
| `ProtocolWitnesses.ReplacedOverridesApproval` | app/routers/idp.py:346-353 | a reachable state where a replaced attempt's block check writes over the approval of a later one |
| `ProtocolWrites.TapCountsExactlyWhen` | app/ha_client.py:218-227 | a verdict that reached the current attempt decides the request exactly if the timer has not fired before the waiter is resumed |
| `ProtocolWitnesses.TapLostToTimer` | app/ha_client.py:218-227 | a reachable history in which an approve action is followed by the timeout of the attempt it reached |
| `ProtocolStability.ApprovalLostExactlyWhen` | app/routers/idp.py:346-353 | an approved request becomes anything else exactly by a refused start, an attempt reaching its block check, or the current attempt ending without approval |
| `ProtocolWitnesses.ApprovalCanBeLost` | app/routers/idp.py:483-490 | a reachable state where a resend in flight takes an approval back |
| `ProtocolStability.TapSettles` | app/routers/idp.py:397-399 | a tap read by the current attempt with no resend in flight leaves the request approved with nothing able to undo it |
| `ProtocolStability.SettledLasts` | app/routers/idp.py:475-526 | a settled approval lasts through every continuation until the request leaves the table, and a request that left never returns |
| `ProtocolLosses.FinalExactlyWhenSettled` | app/routers/idp.py:475-526 | of a registered approved request some continuation takes the approval back exactly if it has not settled |
| `IdpService.IdentityProvider.FindOldest` | app/routers/idp.py:209 | the loop finds the first of the requests created earliest |
| `IdpService.IdentityProvider.MakeRoom` | app/routers/idp.py:208-210 | the eviction loop terminates with room for one, having evicted as the protocol does |
| `ProtocolEffects.AuthorizeOpens` | app/routers/idp.py:193-231 | an admissible request, said in numbers and characters, is stored with its own client, redirect URI, nonce, challenge, address and hint at this moment, and with a hint its login starts; any other changes nothing |
| `IdpService.IdentityProvider.HandleAuthorize` | app/routers/idp.py:180-231 | accepts exactly the admissible requests, with that effect, and never holds more than 500 |
| `IdpService.IdentityProvider.HandleEmail` | app/routers/idp.py:450-460 | 404, 409 or `resolving` with one new task for that address, so that no other is accepted after it |
| `ProtocolEffects.FailedSendsUnlock` | app/routers/idp.py:442-443 | while a registered request is `send_failed` it takes resends and codes at any moment, whatever the unlock delay |
| `ProtocolEffects.NeverUnlocks` | app/routers/idp.py:440-447 | without an account, or never notified and not `send_failed`, it never does |
| `IdpService.IdentityProvider.Gate` | app/routers/idp.py:477-487 | 404 for a request not registered, 409 for an approved one, and past those exactly a known account with all sends failed or the unlock delay over; 403 otherwise |
| `IdpService.IdentityProvider.HandleRetry` | app/routers/idp.py:475-490 | a resend of the request is admitted exactly past that gate, and nothing else changes |
| `ProtocolEffects.RecoverySubmits` | app/routers/idp.py:493-512 | past the gate a submission is noted, and its check begins, with its code and from its address, exactly if fewer than ten of the account came in the last 300 seconds and fewer than five for the login |
| `IdpService.IdentityProvider.HandleRecovery` | app/routers/idp.py:493-512 | with that effect, accepted exactly if the check begins |
| `IdpService.IdentityProvider.HandleComplete` | app/routers/idp.py:530-554 | a fresh code with the request's own fields, made now, for an approved request, which leaves the table with it and alone |
| `IdpService.IdentityProvider.HandleFail` | app/routers/idp.py:557-572 | access_denied for a rejected, timed-out, denied or send-failed request only, which leaves the table alone |
| `ProtocolEffects.EarnsExactlyWhen` | app/routers/idp.py:594-634 | a code presented in time by the client, whose challenge is the digest of a secret, earns a token exactly with a verifier of that digest; without a challenge it always does |
| `ProtocolEffects.TokenServes` | app/routers/idp.py:617-650 | a presented code is gone, and a token of its entry stored, as of now, exactly if it was earned |
| `IdpService.IdentityProvider.HandleToken` | app/routers/idp.py:599-653 | 400, 401 or the claims of the code's entry, exactly in those cases |
| `IdpService.IdentityProvider.HandleUserinfo` | app/routers/idp.py:656-671 | answers exactly for a token that was issued and not dropped by a purge more than five minutes later, with the claims of a redemption that has its whole chain |
| `IdpService.IdentityProvider.PurgePending` | app/routers/idp.py:686-688 | the loop removes exactly the requests older than the login timeout |
| `ProtocolEffects.PurgePurges` | app/routers/idp.py:674-701 | requests past the timeout go and the others stay in order; codes over 60 and tokens over 300 seconds old go, and no others |
| `ProtocolEffects.TimerExpiresExactlyWhen` | app/ha_client.py:218-227 | a timer expires exactly a wait whose deadline has come |
| `IdpService.IdentityProvider.Purge` | app/routers/idp.py:674-701 | the four loops together are the protocol's purge |
| `IdpService.IdentityProvider.ResolveAction` | app/ha_client.py:230-242 | an action resolves the registered future of its id, once |
| `IdpService.IdentityProvider.SendAll` | app/approval_flow.py:59-71 | the counting loop reports total failure exactly when no send got through |
| `IdpService.IdentityProvider.SendsOver` | app/approval_flow.py:59-73 | with none through the attempt ends, and its request, if it was current, takes a resend or a code in that very state and at any later moment; otherwise every later action of its request's id resolves this attempt's future and no other task, until the approval timeout from now |
| `IdpService.IdentityProvider.WaitOver` | app/ha_client.py:218-227 | a waiter that leaves takes its own registration along and no other; if it was current the status is `timeout` if its timer fired and otherwise as the tap said, and if not nothing is written |
| `IdpService.IdentityProvider.WriteOutcome` | app/routers/idp.py:387-414 | the current attempt of a registered request sets its status; any other leaves requests, audit log and history as they were |
| `IdpService.IdentityProvider.RunNotifyAndWait` | app/routers/idp.py:327-346 | unless the request has left, a resend becomes its one live attempt: every other is replaced |
| `IdpService.IdentityProvider.BlockChecked` | app/routers/idp.py:346-353 | denied and audited exactly if the verdicts counted so far mean a block; otherwise resends and recovery codes open exactly the unlock delay after this moment |
| `IdpService.IdentityProvider.TargetsFound` | app/routers/idp.py:417-433 | no targets denies and changes nothing else of the request; otherwise the account is that of the address and, in the same step, this attempt the one live one |
| `IdpService.IdentityProvider.RecoveryDone` | app/routers/idp.py:526 | a used recovery code approves the request whatever its status was, and no resend or code is taken for it after |
| `ActionRegistry.ParseInvertsActionName` | app/ha_client.py:233-238 | an action parses to an id and a verdict exactly when it is the name built for them |
| `ActionRegistry.Registry.Register` | app/ha_client.py:214-216 | a fresh future takes over its id's entry; every entry belongs to a waiter of its id |
| `ActionRegistry.Registry.Resolve` | app/ha_client.py:230-242 | exactly the registered, still unset future of the parsed id changes |
| `ActionRegistry.Registry.Exit` | app/ha_client.py:217-227 | an exiting waiter removes its own entry only, and answers None exactly when its timer fired |
| `AttemptWindow.AtMostTenInAnyWindow` | app/routers/idp.py:80-82 | no 300 seconds hold more than ten attempts of an account that were let through |
| `AttemptWindow.AtMostFivePerLogin` | app/routers/idp.py:83-84 | no login has more than five attempts let through |
| `AttemptWindow.WithinExactlyWhen` | app/routers/idp.py:106-120 | within the limits means at most ten attempts of the account in 300 seconds and five of the login, with this one |
| `AttemptWindow.RecentOfRecent` | app/routers/idp.py:109-112 | pruning at one moment loses nothing a later moment would count |
| `AttemptWindow.Limiter.TooManyAttempts` | app/routers/idp.py:106-120 | the verdict is that of the full history, and the stored stamps are its part inside the window |
| `AttemptWindow.Limiter.Purge` | app/routers/idp.py:696-701 | sweeping stamps leaves every later verdict as the history gives it |
| `IpBlocking.BlockedMeaning` | app/ip_blocking.py:24-26 | over every history a pair is blocked exactly when the failures since the last success have a first full run and no unblock came after it |
| `IpBlocking.CrossingMeaning` | app/ip_blocking.py:48-57 | a failure reports True exactly when it ends the first full run since the last success |
| `IpBlocking.UnblockedStaysOpen` | app/ip_blocking.py:71-79 | after an unblock nothing but a success can make the pair blockable again |
| `IpBlocking.HistoryGrows` | app/ip_blocking.py:16-21 | an operation on one pair is part of no other pair's history |
| `IpBlocking.BlockTable.IsBlocked` | app/ip_blocking.py:24-26 | the answer is the declarative condition on that pair's own history |
| `IpBlocking.BlockTable.RecordFailure` | app/ip_blocking.py:29-57 | the new table, and the answer exactly at the crossing |
| `IpBlocking.BlockTable.RecordSuccess` | app/ip_blocking.py:60-68 | the pair's row is cleared, if there is one, and no other |
| `IpBlocking.BlockTable.UnblockPair` | app/ip_blocking.py:71-79 | the counter is cleared and the block lifted, the time of the block kept |
| `IpBlocking.BlockTable.ListBlocked` | app/ip_blocking.py:82-87 | the list is exactly the pairs that are refused, each once, the latest blocked first |
| `RecoveryCodes.MatchMeaning` | app/recovery_codes.py:78-87 | a snapshot matches a code exactly when an unused row of that generation holds it, and names such a row |
| `RecoveryCodes.FreshBatchAccepts` | app/recovery_codes.py:35-74 | right after a batch exactly its codes are accepted |
| `RecoveryCodes.AcceptedIffNotYetCommitted` | app/recovery_codes.py:102-121 | after any interleaving of batches and commits a snapshot matches a distinct code exactly if its row was not committed before |
| `RecoveryCodes.CommittedRowNeverMatches` | app/recovery_codes.py:113-121 | no snapshot taken after a commit is ever satisfied by that row, whatever the codes are |
| `RecoveryCodes.RunKeepsRows` | app/recovery_codes.py:35-74 | rows are never lost; a commit marks its own row only, and new batches have generations of their own |
| `RecoveryCodes.OverlappingChecksBothAccept` | app/recovery_codes.py:102-121 | two snapshots taken before the commit of a row, with anything else between them, are both satisfied by it, and one taken after it is not |
| `ProtocolWitnesses.OneRowAcceptedTwice` | app/recovery_codes.py:102-121 | a reachable history with two acceptances of one row by two checks |
| `RecoveryCodes.EarlierGenerationsEnd` | app/recovery_codes.py:90-121 | a check begun after a batch accepts no earlier code of the account, whatever happened since |
| `RecoveryCodes.OldCodeAcceptedExactlyIfReadBefore` | app/recovery_codes.py:90-121 | a check under way when a batch lands accepts an old code exactly if it had read the generation before, and its row is not committed before the snapshot |
| `RecoveryCodes.CodeTable.GenerateBatch` | app/recovery_codes.py:35-74 | the loop inserts the batch under a new generation, and the codes left are exactly that batch |
| `RecoveryCodes.CodeTable.FindMatchingCode` | app/recovery_codes.py:78-87 | the first candidate with that code, None exactly if there is none |
| `RecoveryCodes.CodeTable.VerifyCode` | app/recovery_codes.py:90-121 | accepted exactly if an unused row of the current generation holds the code, and then one such row is spent |
| `RecoveryCodes.CodeTable.RemainingCount` | app/recovery_codes.py:137-151 | codes left plus codes accepted since the last batch are the batch |
| `RecoveryCodes.CodeTable.HasEverBeenGenerated` | app/recovery_codes.py:124-134 | true exactly if a batch was ever issued |
| `SigningKeys.JwksIsHistory` | app/idp_jwt.py:166-189 | the published keys are exactly those signing, or retired less than an hour ago and not discarded, whenever purges happened |
| `SigningKeys.VerifiesUntilExpiry` | app/idp_jwt.py:26-29 | a token verifies at every moment before its expiry exactly if its key was not discarded |
| `SigningKeys.RotateFaithful` | app/idp_jwt.py:104-119 | a rotation, discarding or not, leaves the table as its history says |
| `SigningKeys.RotateFates` | app/idp_jwt.py:104-114 | the live key is discarded if that was asked and otherwise retired at this moment; every earlier key keeps its fate |
| `SigningKeys.RotateRows` | app/idp_jwt.py:104-119 | its row is gone if it was to be discarded, and otherwise stays, inactive; rows retired an hour ago or more go, the others stay as they were |
| `SigningKeys.PurgeFaithful` | app/idp_jwt.py:64-69 | a purge removes no key that still belongs to the published set |
| `SigningKeys.KeyStore.Load` | app/idp_jwt.py:72-89 | the loop leaves the globals and the published list in agreement with the table |
| `SigningKeys.KeyStore.EnsureSigningKey` | app/idp_jwt.py:92-101 | exactly one active key, the stored one if there is one |
| `SigningKeys.KeyStore.RotateSigningKey` | app/idp_jwt.py:104-119 | exactly one active key, the fresh one; fates and rows as above; and an unexpired token of the old key verifies exactly if it was not to be discarded |
| `SigningKeys.KeyStore.PurgeRetiredKeys` | app/idp_jwt.py:122-128 | no key's fate changes; exactly the keys whose hour is over are gone |
| `SigningKeys.KeyStore.BuildIdToken` | app/idp_jwt.py:144-163 | signed by the active key under its own kid, expiring in five minutes; refused exactly if no key is loaded |
| `SigningKeys.KeyStore.GetJwks` | app/idp_jwt.py:166-189 | the published set by history, under which every unexpired token issued so far verifies unless its key was discarded |
| `AdminSessions.PurgeLeavesAlive` | app/admin_sessions.py:171-176 | comparing texts, a purge leaves exactly the sessions alive at that moment |
| `AdminSessions.UsedInTime` | app/admin_sessions.py:130-131 | a use is in time exactly if the story with it still has no gap over 30 minutes and nothing past 8 hours |
| `AdminSessions.DeadRowUndecided` | app/admin_sessions.py:142-146 | a dead session's row may be there or not under the same story, a live one's must be there |
| `AdminSessions.SessionStore.Create` | app/admin_sessions.py:104-117 | a new story begins at this moment |
| `AdminSessions.SessionStore.Lookup` | app/admin_sessions.py:120-139 | succeeds exactly if the session's story is alive; no purge is part of a story |
| `AdminSessions.SessionStore.End` | app/admin_sessions.py:142-146 | a live session is always ended; the answer is whether a row was there |
| `AdminSessions.SessionStore.ListSessions` | app/admin_sessions.py:153-161 | the list is exactly the sessions alive, each once, the one used last first |
| `IsoTime.TextComparesTimes` | app/admin_sessions.py:171-176 | comparing stored texts decides exactly what comparing the moments does, with or without a fraction, and equal texts are equal times |
| `IsoTime.MicrosCounts` | app/admin_sessions.py:171-176 | the moment goes up by one with every reading of a clock that counts microseconds through days, months and leap years |
| `IsoTime.MicrosBegin` | app/admin_sessions.py:171-176 | it begins with the first day of the calendar |
| `IsoTime.FourCenturies` | app/admin_sessions.py:171-176 | 400 years are 146097 days |
| `IsoTime.TextReadsDate` | app/admin_sessions.py:108 | the date's fields stand in the text where ISO 8601 has them, in decimal |
| `IsoTime.TextReadsClock` | app/admin_sessions.py:108 | and the clock's, the fraction only if it is not zero |
| `IsoTime.CutoffSelects` | app/idp_jwt.py:64-69 | each SQL cutoff selects the rows the subtraction of times would |
| `IsoTime.FractionOrder` | app/admin_sessions.py:108 | a whole second, its fraction left out, sorts before any fraction of it |
| `TargetApp.NamesByClientId` | app/target_app.py:185-213 | a client_id is in the answer exactly if a live named application holds it; its owner decides what is shown, None exactly if its latest redirect URIs span several hosts, else its latest name cut to 80 |
| `TargetApp.Replay` | app/target_app.py:193-209 | the loop's dicts are the last words of the history, in order of birth |
| `TargetApp.SpanExactlyWhen` | app/target_app.py:204-213 | there is more than one host exactly if two of the URIs have different ones |
| `TargetApp.OneOwner` | app/target_app.py:210-213 | a shared client_id has one owner, the application born last |
| `TargetApp.OthersDoNotMatter` | app/target_app.py:193-209 | what an application holds and shows is up to its own events alone |
| `TargetApp.LastWordStands` | app/target_app.py:198-209 | the computed last word is the event told last with no removal since |
| `TargetApp.BirthIsBorn` | app/target_app.py:200-209 | a removed and re-added application is born again, a changed one is not |
| `ClientIp.Networks` | app/client_ip.py:30-37 | unusable entries of the setting cover nothing and stop nothing |
| `ClientIp.IsTrusted` | app/client_ip.py:40-48 | trusted exactly if the address parses and some usable entry, the blanks around it left off, covers it |
| `ClientIp.CoversIsPrefix` | app/client_ip.py:48 | an aligned network covers exactly the addresses of its version with its prefix |
| `ClientIp.EntriesExactly` | app/client_ip.py:63 | the entries are what is between the commas, in order, the blanks around each left off and blank ones dropped, and nothing else is |
| `ClientIp.Resolve` | app/client_ip.py:51-75 | the peer unless trusted; else, of the header's entries so understood, the rightmost no trusted proxy wrote, or the leftmost; and the IndexError exactly if a trusted peer's header is not empty and holds only blanks and commas |
| `ClientIp.OneAnswer` | app/client_ip.py:63-70 | the answer is determined |
| `ClientIp.PrependingChangesNothing` | app/client_ip.py:61-70 | text put in front of a header changes no answer once it has an untrusted entry |
| `ClientIp.NoEntriesExactlyWhenBlank` | app/client_ip.py:61-70 | a header has no entries exactly if it holds only blanks and commas |
| `LoginMap.ZoomFor` | app/login_map.py:54-61 | the largest zoom from 15 down to 2 at which the circle fits, every smaller one fitting too; 2 if none does |
| `LoginMap.FitsExactlyWhen` | app/login_map.py:49-60 | the circle fits exactly if twice its radius, 50 km if unknown, is at most 240 pixels of 156543.03392 metres at the equator, halved with every zoom |
| `LoginMap.RoundIsNearest` | app/login_map.py:100 | no integer is nearer, and of two as near the rounded one is even |
| `LoginMap.RoundShifts` | app/login_map.py:100 | rounding halves to even commutes with moving by whole tiles |
| `LoginMap.PasteIsShift` | app/login_map.py:100 | every tile is pasted at its world place moved by one shift, within half a pixel of the exact corner |
| `LoginMap.ExactlyOneTile` | app/login_map.py:91-96 | every column and row is covered by exactly one tile, and the range walked contains it |
| `LoginMap.Positions` | app/login_map.py:91-96 | the positions are exactly the tiles whose row exists and whose exact place meets the canvas, its far edges included |
| `LoginMap.BaseMap` | app/login_map.py:87-101 | every pixel of the canvas is the world image moved by that shift, wrapping eastwards, and sea beyond its rows |
| `LoginMap.WorldIsTile` | app/login_map.py:97-100 | pixel (i, j) of a tile is that far into the world image from the tile's corner |
| `LoginMap.WorldWraps` | app/login_map.py:97 | the world image repeats after its last column of tiles |
| `Base64Url.RoundTrip` | app/target_app.py:108 | re-padding and decoding undoes unpadded encoding, for every byte string |
| `Base64Url.EncodeReadsBits` | app/routers/idp.py:595 | symbol i of the text is that of bits 6i to 6i + 5 of the bytes, most significant first, zeros after the end (RFC 4648, section 5) |
| `Base64Url.EncodeLength` | app/routers/idp.py:595 | there are as many symbols as the bits need |
| `Base64Url.Alphabet` | app/routers/idp.py:595 | capitals, small letters, digits, `-` and `_`, in that order (RFC 4648, table 2) |
| `Base64Url.EncodeInjective` | app/routers/idp.py:595-596 | equal texts are equal bytes |
| `Base64Url.DigestChallenge` | app/routers/idp.py:101-103 | a 32-byte digest gives a 43-character challenge the pattern accepts, and challenges are equal exactly if digests are |
| `Base64Url.MinimalOctets` | app/idp_jwt.py:169-171 | the octets of a positive integer are enough, give it back, and do not start with zero |
| `Base64Url.B64uDecodes` | app/idp_jwt.py:169-171 | what the JWKS publishes of a positive integer decodes to it |

## Left out

- HTTP itself, pages, cookies, headers, the discovery document and `/idp/status`, which only reads: replies are a small datatype.
- Client credentials in the Authorization header: the token step takes the id and secret however they came.
- Home Assistant, the broker, GeoIP, map tiles and logos over the network: their results are arbitrary, failures included, and only what follows is modelled.
- RSA, JWT encoding, Argon2, SHA-256 and random names: keys are names, a hash verifies exactly its own code, digests are a parameter, request ids, codes and tokens are fresh.
- Time is a real number in the protocol and whole microseconds elsewhere, never going back; floating-point rounding in the map's coordinates is not modelled.
- Address normalisation is a parameter; the model does not depend on what stripping and lower-casing do.
- Each operation on a table is one transaction; only `verify_code` is opened at its awaits.
- What a login shows on the phone (target app, map, browser) and its audit columns other than account, request, kind and address.
- The low-recovery-codes warning, accounts, branding, the audit log's pages, migrations and the connectivity watchdog.
- Exceptions of the database inside a background task, which would end that task where it stands.
- IdpService: starting tasks, the lookup of a resend, the bookkeeping after an outcome, the steps of a code check before its last, and timers are steps of the protocol without a method of their own.
- `_from_keycloak_state` and the event-store queries around the replay, and the once-a-minute cache of its result.
- Events whose fields are not of the expected type: the replay takes strings, and a URI without a host has none.
- The order of the published keys.
- SigningKeys: its times are integers, so that its cutoff compares texts is `IsoTime.CutoffSelects` read beside it; published keys carry the name of a pair instead of its numbers.
- AdminSessions: sign-in attempts, their limit and the password rules are not part of the model; a session keeps no address or user agent.
- The tile cache and drawing on the finished canvas; a pasted tile is 256 pixels square, and the cosine of the latitude and the projected centre are parameters.
- Base64Url: decoding is strict; characters Python's decoder would skip are refused.
