# Astrata: a verified model of its state machines

Astrata is a local agent runtime written in Python. Around its plumbing it has a number of
state machines whose guarantees hold only over whole runs: nowhere in the code is the fact
itself stored or checked. This project restates those machines in Dafny and proves the
guarantees, or the exact condition under which they hold.

Where the source changes things in place the model does too: a class holds the tables, its
methods update them, and each method is proved equal to a function of the state before.
The theorems over whole runs are then lemmas about those functions.

| files | what they model |
|---|---|
| `AccountRecords`, `AccountOperations`, `AccountInvariant`, `AccountGrants`, `AccountFlow`, `AccountLinks`, `AccountCodes`, `AccountSignUp`, `AccountSwitchedOff`, `AccountScopes`, `AccountRegistry` | the account and OAuth control plane (`astrata/accounts/service.py`), an authorization-code flow after sections 4.1.2 and 4.1.3 of RFC 6749 with the S256 challenge of section 4.6 of RFC 7636 |
| `RelayStore`, `RelayRuns`, `RelayLinks`, `RelaySessions`, `RelayWatcher`, `RelayCalls`, `RelayTwoWatchers`, `RelayService` | the hosted relay and its watcher (`astrata/mcp/relay.py`, `astrata/main.py`), as interleaved steps with crash and restart |
| `TaskGraph`, `FollowUps`, `Duplicates`, `Batching`, `Consensus`, `ConsensusAudit` | the Loop 0 task lifecycle (`astrata/loop0/runner.py`) and the audits of its consensus decisions (`astrata/audit/`) |
| `Thermal`, `Delegation`, `Ratings`, `GovernanceDrift`, `RouteSpecs`, `Cyclone` | thermal hysteresis, recursive delegation and voting, ratings, governance drift memory, route specifications, the draft-and-verify loop |
| `Agents`, `Lanes`, `LaneSenders` | replies to the principal with failover from Prime (`astrata/comms/`, `astrata/agents/service.py`) |
| `Options`, `Sequences`, `Graphs`, `Text` | shared definitions |

`dafny verify dfyconfig.toml` checks the whole project.

## How to read the statements

- Identifiers, timestamps and secrets are numbers. Minted ones are parameters that are fresh
  where the source draws a uuid or a random token, so each statement holds for every choice.
- SHA-256 and the S256 transform are injective constructors.
- The clock is a parameter that never goes back along a run. An operation of the account
  registry or the relay reads it once, where the source may read it two or three times in a
  row; the thermal controller reads it twice, as the source does.
- What lies outside (models, providers, the file system, the local runtime) is an arbitrary
  value or function, so that theorems hold whatever it answers.
- No operation of the account registry deactivates a link, a device or a client. Runs may
  contain environment steps that do, so that the checks for active records are not vacuous.

## What turned out not to hold

Each of these is kept as the code has it, with the exact condition proved.

- A dependency that was closed as superseded, a duplicate for instance, blocks its dependents
  for ever (`TaskGraph.SupersededNeverUnblocks`); what selection can complete is exactly what
  waits only for pending tasks, in no cycle (`TaskGraph.CompletableExactly`).
- Follow-up proposals of one bundle may name each other (`FollowUps.MutualProposalsDeadlock`);
  they can all be completed exactly when the proposals, as given, have no cycle
  (`FollowUps.FollowUpsCompletableExactly`).
- The consensus decision compares blank answers while its audit ignores them, so a correct
  disagreement with a blank answer is flagged (`ConsensusAudit.DecisionFlaggedExactly`).
- More required reviews than distinct lanes, or one failed worker, and a consensus task stays
  open (`Consensus.DecidedExactly`, `Consensus.TooManyReviewsNeverDecided`).
- A result lookup without a profile may change its answer (`RelayRuns.UnscopedResultCanChange`,
  exactly when in `RelayRuns.UnscopedResultChangesExactly`).
- A crash between acknowledgement and delivery loses a request (`RelayWatcher.CrashLosesRequest`);
  all that was acknowledged is delivered exactly when no crash or refusal fell there
  (`RelayWatcher.AcknowledgedExactly`, `RelayWatcher.DeliveredInFullExactly`).
- Two watchers can deliver a request twice (`RelayTwoWatchers.BothStartDeliverTwice`), after a
  heartbeat exactly when the other has still to acknowledge something of its snapshot
  (`RelayTwoWatchers.TwoWatchersDeliverTwice`, `RelayTwoWatchers.ClearRunsDeliverOnce`).
- A message whose handling always raises keeps every younger one of its lane unanswered
  (`Lanes.AnsweredWithinExactly`).
- A call that is queued while the node is offline stays in the queue for ever: no operation
  takes it out again (`RelayLinks.QueueExactly`).
- A deleted governance file is drift, but never a new one (`GovernanceDrift.MissingReportedExactly`).
- A CLI route with an empty tool does not survive printing (`RouteSpecs.RoundTripExactly`).
- A rating of exactly zero is read back as 1500 and a self-match loses one of its two updates
  (`Ratings.SumKeptExactly`, `Ratings.DriftCountsZeros`).
- With a round limit below one a failed draft is revised once and nobody reviews the result
  (`Cyclone.RunCyclone`).
- Evaluating the thermal state more often than the cooldown keeps the latch for ever
  (`Thermal.FrequentPollingNeverAllows`).

## Model

| member | source | states |
|---|---|---|
| `AccountInvariant.EmptyStateInv` | astrata/accounts/service.py:783-811 | the empty document satisfies the ownership and eligibility invariant |
| `AccountInvariant.RedeemKeeps` | astrata/accounts/service.py:188-232 | redeeming an invite keeps the invariant and drops or re-owns no record |
| `AccountInvariant.RegisterDeviceKeeps` | astrata/accounts/service.py:234-259 | so does registering a device |
| `AccountInvariant.LinkWrites` | astrata/accounts/service.py:339-379 | an accepted link adds one link record and makes its device the profile's default; a refused one changes nothing |
| `AccountInvariant.LinkKeeps` | astrata/accounts/service.py:339-379 | linking keeps the invariant: link, device and profile have one owner |
| `AccountInvariant.PairKeeps` | astrata/accounts/service.py:381-417 | pairing a device with the user's first profile keeps the invariant |
| `AccountInvariant.RegisterDesktopKeeps` | astrata/accounts/service.py:261-337 | so does a desktop registration, which may create user, profile, device and link at once or take over an unowned profile |
| `AccountInvariant.IssueCodeWrites` | astrata/accounts/service.py:560-625 | an issued code is open and binds an eligible user to a profile and device of that user; nothing else changes |
| `AccountInvariant.IssueCodeKeeps` | astrata/accounts/service.py:560-625 | issuing a code keeps the invariant |
| `AccountInvariant.ExchangeWrites` | astrata/accounts/service.py:627-693 | an exchange spends or expires one open code, and adds a token only when it spends it |
| `AccountInvariant.ExchangeKeeps` | astrata/accounts/service.py:627-693 | exchanging a code keeps the invariant |
| `AccountInvariant.ResolveWrites` | astrata/accounts/service.py:695-723 | resolving a token writes at most that token's expiry |
| `AccountInvariant.ResolveKeeps` | astrata/accounts/service.py:695-723 | resolving keeps the invariant |
| `AccountInvariant.RevokeKeeps` | astrata/accounts/service.py:725-737 | revoking keeps the invariant |
| `AccountInvariant.StepKeeps` | astrata/accounts/service.py:188-737 | every operation, and switching off a link, device or client from outside, keeps the invariant; eligibility and ownership are never lost |
| `AccountInvariant.RunKeeps` | astrata/accounts/service.py:188-737 | the invariant holds after every run: links, codes and tokens name a profile and device of their own user, defaults belong to their profile's owner, code and token users are eligible, emails are unique |
| `AccountInvariant.EligibleAtMostRedeemed` | astrata/accounts/service.py:188-232 | a user is eligible exactly when an invite was redeemed by them, so eligible users never outnumber redeemed invites |
| `AccountOperations.UserByEmail` | astrata/accounts/service.py:739-744 | finds a user with the email whenever one exists |
| `AccountOperations.FirstOwnedExactly` | astrata/accounts/service.py:419-423 | a user's default profile is the first in table order that they own, and is missing only when they own none |
| `AccountOperations.BestLinkIsBest` | astrata/accounts/service.py:441-449 | the link used for a pair is usable, and no usable link is more recent, or as recent and stored earlier |
| `AccountGrants.VerifyMeansLive` | astrata/accounts/service.py:488-521 | the link check answers `ok` exactly when an active link joins the profile to that active device of the profile's owner |
| `AccountGrants.ExchangeExactly` | astrata/accounts/service.py:627-693 | an exchange succeeds exactly for the open, unexpired code presented with its client, redirect URI and verifier while its link is live (RFC 6749 section 4.1.3, RFC 7636 section 4.6); the token carries the code's client, user, profile, device and scope; a refusal changes nothing except marking expiry |
| `AccountGrants.ResolveExactly` | astrata/accounts/service.py:695-723 | a token is authorized exactly when it is active, unexpired and its link is live; only an expiry is ever written |
| `AccountGrants.AuthorizedMeansOwned` | astrata/accounts/service.py:488-521 | in a reachable state an authorized answer implies an eligible user who owns profile and device, an active device and an active link between them |
| `AccountGrants.StepAges` | astrata/accounts/service.py:560-737 | a code that is not open never changes, a token that is not active never becomes active again, and neither ever changes its grant |
| `AccountGrants.RunAges` | astrata/accounts/service.py:560-737 | the same along every run |
| `AccountGrants.CodeIsSingleUse` | astrata/accounts/service.py:627-693 | at most one exchange of a code succeeds in any run, none once it is spent |
| `AccountGrants.DeadTokenStaysDead` | astrata/accounts/service.py:695-737 | a token that is not active, or past its expiry, is refused in every later state |
| `AccountGrants.FoundDeadNeverAuthorized` | astrata/accounts/service.py:695-737 | after an expired, revoked or revoking answer no later resolution succeeds, whatever happens in between |
| `AccountGrants.RunKeepsGrantMap` | astrata/accounts/service.py:627-693 | in every run the tokens stay in one-to-one correspondence with the redeemed codes, each with its code's grant |
| `AccountGrants.TokensCountRedeemedCodes` | astrata/accounts/service.py:667-692 | there are exactly as many tokens as redeemed codes |
| `AccountFlow.StepServes` | astrata/accounts/service.py:419-423 | every eligible user keeps a profile of their own, step by step |
| `AccountFlow.RunServes` | astrata/accounts/service.py:188-232 | and in every run |
| `AccountFlow.OthersMakeNobodyEligible` | astrata/accounts/service.py:188-232 | redemption is the only step that makes anyone eligible, whatever the state |
| `AccountFlow.PairWrites` | astrata/accounts/service.py:381-417 | a pairing adds at most one device and one link, sets the default device of the one profile it links, and touches no other record |
| `AccountFlow.PairMakesReady` | astrata/accounts/service.py:381-417 | pairing an eligible user succeeds and makes the new device the live default of their profile |
| `AccountFlow.PairExactly` | astrata/accounts/service.py:381-417 | in a reachable state pairing answers `ok` exactly for the emails of eligible users |
| `AccountFlow.ReadyIssues` | astrata/accounts/service.py:560-625 | for a user with a live default device an acceptable code request is answered with an open code for that device |
| `AccountFlow.LiveThroughService` | astrata/accounts/service.py:488-521 | no operation of the registry breaks a live link |
| `AccountFlow.CodeStaysExchangeable` | astrata/accounts/service.py:627-693 | an unspent code stays exchangeable until its expiry through every run of the registry |
| `AccountFlow.TokenStaysAuthorized` | astrata/accounts/service.py:695-723 | an unrevoked token stays authorized until its expiry through every run of the registry |
| `AccountFlow.InviteToCode` | astrata/accounts/service.py:188-232 | redeeming an open invite, pairing and issuing a code, in any spelling of the address that normalizes alike, all answer `ok` from any reachable state |
| `AccountFlow.InviteToAuthorizedToken` | astrata/accounts/service.py:560-723 | and with any runs in between, exchanging with the right client, redirect and verifier before expiry yields a token that resolves as authorized |
| `AccountRegistry.AccountControlPlane.UserForEmail` | astrata/accounts/service.py:739-744 | the scan finds the user of the normalized email |
| `AccountRegistry.AccountControlPlane.ResolveUser` | astrata/accounts/service.py:774-781 | a user id wins over an email; an unknown one is refused |
| `AccountRegistry.AccountControlPlane.DefaultRelayProfileForUser` | astrata/accounts/service.py:419-423 | the first profile of the user in table order |
| `AccountRegistry.AccountControlPlane.VerifyDeviceLink` | astrata/accounts/service.py:488-521 | the device of the most recent usable link |
| `AccountRegistry.AccountControlPlane.IssueInviteCode` | astrata/accounts/service.py:178-186 | adds one open invite under a new id |
| `AccountRegistry.AccountControlPlane.RedeemInviteCode` | astrata/accounts/service.py:188-232 | an open invite makes the user of the email, or a new one, eligible and gives a new one a profile; any other invite changes nothing |
| `AccountRegistry.AccountControlPlane.RegisterDevice` | astrata/accounts/service.py:234-259 | a new active device for the user, or a refusal for an unknown one |
| `AccountRegistry.AccountControlPlane.LinkDeviceToProfile` | astrata/accounts/service.py:339-379 | a new active link and default device when profile and device have one owner, or a refusal |
| `AccountRegistry.AccountControlPlane.PairDeviceForUser` | astrata/accounts/service.py:381-417 | device, link and default in one step for an eligible user with a profile, or a refusal |
| `AccountRegistry.AccountControlPlane.SaveDesktopRecords` | astrata/accounts/service.py:270-327 | stores user, profile and device as they are missing, in a valid state |
| `AccountRegistry.AccountControlPlane.RegisterDesktopDevice` | astrata/accounts/service.py:261-337 | those records and then the link, with a refusal for somebody else's profile; the object stays valid |
| `AccountRegistry.AccountControlPlane.RegisterOAuthClient` | astrata/accounts/service.py:523-542 | adds one active client with the non-blank redirect URIs under a new id, and keeps the object valid |
| `AccountRegistry.AccountControlPlane.IsRedirectAllowed` | astrata/accounts/service.py:579-583 | a redirect is allowed exactly when the client registered none or a matching one |
| `AccountRegistry.AccountControlPlane.AuthorizeCodeRequest` | astrata/accounts/service.py:575-607 | the checks before a code is issued: the first failing one decides the refusal, otherwise the grant with its normalized scope |
| `AccountRegistry.AccountControlPlane.IssueOAuthAuthorizationCode` | astrata/accounts/service.py:560-625 | refused exactly as the checks say; otherwise one open code with a lifetime of at least a minute; the object stays valid |
| `AccountRegistry.AccountControlPlane.CheckExchange` | astrata/accounts/service.py:636-666 | the checks of an exchange in their order |
| `AccountRegistry.AccountControlPlane.ExchangeOAuthAuthorizationCode` | astrata/accounts/service.py:627-693 | one token under a new secret for one spent code, or the refusal with an overdue code marked; the object stays valid |
| `AccountRegistry.AccountControlPlane.ResolveOAuthAccessToken` | astrata/accounts/service.py:695-723 | the grant, or the refusal with expiry marked |
| `AccountRegistry.AccountControlPlane.RevokeOAuthAccessToken` | astrata/accounts/service.py:725-737 | the token ends as revoked, unknown ones are refused |
| `AccountLinks.VerifyExactly` | astrata/accounts/service.py:488-521 | for every device and secret: the check answers `ok` exactly when some stored link is active, joins the profile to an active device of its owner, is the asked device if one is asked, and was made with the presented secret if one is presented; it names the device of the latest such link |
| `AccountLinks.OnlyItsSecrets` | astrata/accounts/service.py:512-513 | an accepted secret made an active link of this very profile |
| `AccountLinks.OnlyMadeSecretsAccepted` | astrata/accounts/service.py:261-417 | after any run no check accepts a secret that no operation of the run made a link with |
| `AccountLinks.LinkExactly` | astrata/accounts/service.py:339-379 | a link is refused exactly for an unknown device or profile, an inactive device or different owners, with the status of the first; otherwise the whole new link and default |
| `AccountLinks.PairedSecretExactly` | astrata/accounts/service.py:381-417 | after a pairing its device is accepted with the secret of that pairing and no other |
| `AccountCodes.NamedExactly` | astrata/accounts/service.py:774-781 | which user a request names: by id, or else by the normalized address |
| `AccountCodes.DefaultExactly` | astrata/accounts/service.py:419-423 | which profile is a user's default, in table order |
| `AccountCodes.GrantExactly` | astrata/accounts/service.py:575-607 | a code may be granted exactly for an active client, no registered redirect or one with the same text or callback, no challenge or the S256 method, an eligible user who is named, the asked or first owned profile, and a usable link of the asked or default device; the grant names exactly these |
| `AccountCodes.RefusalExactly` | astrata/accounts/service.py:575-607 | which of these checks a refused request fails first |
| `AccountCodes.IssueExactly` | astrata/accounts/service.py:560-625 | a code is issued exactly then, with the redirect and challenge of the request and a lifetime of 600 seconds or as asked and at least 60; nothing else changes |
| `AccountCodes.RunKeepsRedirects` | astrata/accounts/service.py:560-625 | in every reachable state each code was issued to a redirect that its client has registered |
| `AccountCodes.ExchangeAnswers` | astrata/accounts/service.py:627-693 | which check a refused exchange fails first, and the lifetime of a token: 3600 seconds or as asked and at least 300 |
| `AccountCodes.ResolveAnswers` | astrata/accounts/service.py:695-723 | what each resolution answers: unknown, dead with its status, expired, without a live link, or the grant |
| `AccountCodes.RevokedForEver` | astrata/accounts/service.py:725-737 | every stored token can be revoked, and is refused in every later state |
| `AccountSignUp.RedeemExactly` | astrata/accounts/service.py:188-232 | an invite is redeemed exactly while open; the user of the address, or a new one, becomes eligible and gets a profile only if they have none |
| `AccountSignUp.RegisterExactly` | astrata/accounts/service.py:234-259 | a device is registered exactly for an eligible user that the request names |
| `AccountSignUp.PairRefusedExactly` | astrata/accounts/service.py:381-417 | which check a refused pairing fails first |
| `AccountSignUp.DesktopExactly` | astrata/accounts/service.py:261-337 | a desktop registration is refused exactly for a profile of somebody else; otherwise the link goes to the asked, first or new profile, whose default it becomes, and a new user is not eligible |
| `AccountSignUp.InviteOpenUntilRedeemed` | astrata/accounts/service.py:178-232 | an invite stays open through every run until it is redeemed, and no longer |
| `AccountSignUp.IssuedInviteRedeems` | astrata/accounts/service.py:178-232 | an issued invite can be redeemed after any run that does not redeem it |
| `AccountSignUp.ClientRegistered` | astrata/accounts/service.py:523-542 | a new client is active, and accepts the redirects that were registered and not blank, or any if there were none |
| `AccountSwitchedOff.RunKeepsOff` | astrata/accounts/service.py:188-737 | no run of the registry switches a device, client or link on again, or rewrites a stored link |
| `AccountSwitchedOff.DeviceOffForEver` | astrata/accounts/service.py:488-521 | once a device is off every later check for it is refused, its tokens never resolve, its codes are never exchanged and no code is issued for it |
| `AccountSwitchedOff.ClientOffForEver` | astrata/accounts/service.py:560-583 | a client that is off is issued no code in any later state |
| `AccountSwitchedOff.LinkOffForEver` | astrata/accounts/service.py:488-521 | a link that is off authorizes nothing in any later state |
| `AccountScopes.ScopeOrder` | astrata/accounts/service.py:38-52 | a scope stands where it was first asked for |
| `AccountScopes.ScopeExactly` | astrata/accounts/service.py:38-52 | a granted scope is never empty, has no repetition, and is exactly what was asked for after translation, or the relay's scope when nothing was |
| `AccountScopes.NormalizeOAuthScope` | astrata/accounts/service.py:38-52 | the loop computes the specified scope |
| `RelayRuns.OthersUntouched` | astrata/mcp/relay.py:219-453 | a call for one profile leaves the queues, results and sessions of every other profile alone |
| `RelayRuns.OthersKeepQueues` | astrata/mcp/relay.py:278-373 | only enqueueing and acknowledging touch a queue |
| `RelayRuns.AcknowledgeSplits` | astrata/mcp/relay.py:308-344 | an acknowledgement splits the pending ids without loss or doubling and keeps their order |
| `RelayRuns.AcknowledgeMovesNamed` | astrata/mcp/relay.py:308-344 | it moves exactly the named requests, marked as acknowledged |
| `RelayRuns.StepConserves` | astrata/mcp/relay.py:219-344 | one call keeps: enqueued ids are the disjoint union of pending and acknowledged ids, pending in enqueue order |
| `RelayRuns.RunConserves` | astrata/mcp/relay.py:219-344 | so does every run |
| `RelayRuns.ConservedMeansDisjoint` | astrata/mcp/relay.py:308-344 | no id is ever both pending and acknowledged or listed twice |
| `RelayRuns.RunGrows` | astrata/mcp/relay.py:346-453 | session logs and result lists only grow |
| `RelayRuns.SeenBySide` | astrata/mcp/relay.py:219-373 | enqueueing leaves what the local side has seen alone, heartbeats and results what the remote side has seen |
| `RelayRuns.ResultNeverChanges` | astrata/mcp/relay.py:375-386 | once a profile's lookup for a request returns a result it returns the same one forever |
| `RelayRuns.UnscopedResultCanChange` | astrata/mcp/relay.py:375-386 | a lookup without a profile can change its answer: a concrete store and call |
| `RelayRuns.OthersKeepResults` | astrata/mcp/relay.py:346-373 | only an authorized recording touches the results: it appends to its profile's list, and a new profile to the end of the table |
| `RelayRuns.RunListsResults` | astrata/mcp/relay.py:346-373 | in every run the table order lists exactly the profiles with results, each once |
| `RelayRuns.UnscopedResultChangesExactly` | astrata/mcp/relay.py:375-386 | for every call: the answer changes exactly when a profile that stands earlier in the table, without a result so far, records a different one |
| `RelayLinks.HeartbeatExactly` | astrata/mcp/relay.py:278-306 | an authorized heartbeat returns what is pending and brings a registered link online; any other changes nothing |
| `RelayLinks.OnlineExactly` | astrata/mcp/relay.py:546-558 | after any run a link is online exactly by its last registration or an authorized heartbeat since |
| `RelayLinks.CallExactly` | astrata/mcp/relay.py:169-217 | what a tool call is answered after any run: refused without profile or tool, queued exactly while the link is not online, otherwise delivered or rejected as authorized |
| `RelayLinks.QueueExactly` | astrata/mcp/relay.py:186-199 | the offline queue is the list of all calls ever queued: nothing leaves it |
| `RelayLinks.BeatEndsQueueing` | astrata/mcp/relay.py:278-306 | after an authorized heartbeat of a registered link no call is queued until the link is registered again |
| `RelayLinks.EnqueueExactly` | astrata/mcp/relay.py:219-261 | an accepted request is the last pending one, unacknowledged, in its session; which refusal otherwise |
| `RelayLinks.AcknowledgeExactly` | astrata/mcp/relay.py:308-344 | an acknowledgement answers how many are still pending; an unauthorized one changes nothing |
| `RelayLinks.LookupExactly` | astrata/mcp/relay.py:375-386 | a lookup returns the earliest result recorded for the request |
| `RelaySessions.SessionExactly` | astrata/mcp/relay.py:388-453 | what each call adds to each session and which side's mark it sets |
| `RelaySessions.LogExactly` | astrata/mcp/relay.py:416-453 | after any run a session's log is what the calls of the run said in it, in order, and nothing else |
| `RelaySessions.ReadReturns` | astrata/mcp/relay.py:388-414 | reading returns the session as it then is |
| `RelayWatcher.DeliveryReachesNode` | astrata/main.py:1364-1390 | with a registered link that nobody registers as offline during a round, the watcher's calls reach the node or are rejected, and are never queued |
| `RelayWatcher.AnswerRecorded` | astrata/main.py:1364-1390 | recording adds the watcher's own answer to the request it stands at, and a lookup then returns it if there was none before |
| `RelayWatcher.MoveKeeps` | astrata/main.py:1364-1399 | each remote call, heartbeat, acknowledgement, delivery, recording or crash keeps the watcher invariant |
| `RelayWatcher.RunKeeps` | astrata/main.py:1355-1399 | so does every interleaving |
| `RelayWatcher.DeliveryIsSafe` | astrata/main.py:1364-1399 | with one watcher, acknowledged then pending ids are the enqueue sequence; each request is delivered at most once, after its acknowledgement and in enqueue order |
| `RelayWatcher.AcknowledgedExactly` | astrata/main.py:1364-1399 | each acknowledged request is delivered, or lost to a crash or refusal between acknowledgement and delivery, or due right now, and only one of these |
| `RelayWatcher.DeliveredInFullExactly` | astrata/main.py:1364-1399 | everything acknowledged was delivered exactly when nothing was lost and nothing is due |
| `RelayWatcher.CrashLosesRequest` | astrata/main.py:1379-1390 | a run that loses a request: acknowledged, then a crash, then nothing is pending |
| `RelayWatcher.FinishedRoundAnswersAll` | astrata/main.py:1364-1399 | a round that ends has a result for every request of its heartbeat |
| `RelayCalls.MoveIsCall` | astrata/main.py:1364-1390 | each move of the watcher writes to the relay exactly what one call of it writes, a crash nothing |
| `RelayCalls.RunIsRelayRun` | astrata/main.py:1355-1399 | every run of the watcher and the remote callers is a run of the relay, so what holds of all relay runs holds of it |
| `RelayCalls.WatchedStore` | astrata/main.py:1364-1390 | after such a run each session holds what callers and watcher said in it, in order, and the offline queue the calls that found no online link |
| `RelayTwoWatchers.ClearRunsDeliverOnce` | astrata/main.py:1364-1399 | two watchers of one profile: while each heartbeat finds the other with nothing left to acknowledge, every request is delivered at most once |
| `RelayTwoWatchers.TwoWatchersDeliverTwice` | astrata/main.py:1364-1399 | after a heartbeat in such a state, some continuation without further heartbeats delivers a request twice exactly when the other watcher has still to acknowledge something of its snapshot; remote calls, a registration of tools for instance, may be part of the continuation |
| `RelayTwoWatchers.BothStartDeliverTwice` | astrata/main.py:1355-1399 | a run in which two watchers beat at once and one request is delivered twice |
| `RelayService.Relay.AppendSessionMessage` | astrata/mcp/relay.py:416-453 | appends one message and marks the writing side as seen |
| `RelayService.Relay.SessionFor` | astrata/mcp/relay.py:388-414 | reading a session stores it and marks the reader |
| `RelayService.Relay.MarkSessionSeen` | astrata/mcp/relay.py:561-581 | marks every session of the profile |
| `RelayService.Relay.EnqueueRemoteRequest` | astrata/mcp/relay.py:219-261 | an accepted request goes to the end of the pending list and into its session; a refused one changes nothing |
| `RelayService.Relay.LocalHeartbeat` | astrata/mcp/relay.py:278-306 | returns the pending list and marks link and sessions |
| `RelayService.Relay.AcknowledgeRequests` | astrata/mcp/relay.py:308-344 | does what the specification of an acknowledgement says |
| `RelayService.Relay.Record` | astrata/mcp/relay.py:346-373 | the same for recording a result |
| `RelayService.Relay.Deliver` | astrata/mcp/relay.py:169-217 | the same for handing a call to the node or its offline queue |
| `RelayService.Relay.ResultForRequest` | astrata/mcp/relay.py:375-386 | the first recorded result for the request |
| `RelayService.Relay.ResultForAnyProfile` | astrata/mcp/relay.py:375-386 | the first profile in table order that has one |
| `RelayService.Relay.HandOver` | astrata/main.py:1379-1398 | acknowledges the front request, delivers it and records how the delivery went; refused exactly when a call is |
| `RelayService.Relay.ServeBatch` | astrata/main.py:1375-1398 | serves a whole snapshot in order; succeeds exactly when every request is servable |
| `RelayService.Relay.WatchRound` | astrata/main.py:1364-1399 | an undisturbed round leaves nothing pending, everything acknowledged in order, and one result for each request that says delivered or rejected for a registered link and queued without one |
| `TaskGraph.ReadyByStatus` | astrata/loop0/runner.py:2049-2088 | ready exactly when known dependencies are complete or satisfied and known children neither pending, working nor blocked |
| `TaskGraph.ReadyExactly` | astrata/loop0/runner.py:2049-2088 | a pending task is ready exactly when it waits for nothing: no open dependency and no active child |
| `TaskGraph.SomeReady` | astrata/loop0/runner.py:2049-2088 | in every nonempty set of pending tasks that wait only for each other, in no cycle, some member is ready |
| `TaskGraph.ClosedSetCompletes` | astrata/loop0/runner.py:2049-2088 | such a set can be completed entirely, one ready task after another |
| `TaskGraph.EveryRunExtends` | astrata/loop0/runner.py:2049-2088 | and no run inside it gets stuck: whatever was selected so far, the rest can follow |
| `TaskGraph.AwaitedFirst` | astrata/loop0/runner.py:2049-2088 | whatever a task waited for at the start, dependency or child, is selected strictly before it |
| `TaskGraph.DependenciesFirst` | astrata/loop0/runner.py:2062-2074 | no task is selected before a dependency of it that was neither complete nor satisfied |
| `TaskGraph.SelectedIsClosed` | astrata/loop0/runner.py:2049-2088 | what a run selects waits only for each other, in no cycle |
| `TaskGraph.CompletableExactly` | astrata/loop0/runner.py:2049-2088 | in any store selection can complete exactly the tasks that lie in such a set |
| `TaskGraph.AllPendingComplete` | astrata/loop0/runner.py:2049-2088 | in any store selection can complete all that is pending exactly when pending tasks wait only for each other, in no cycle |
| `TaskGraph.DependenciesSuffice` | astrata/loop0/runner.py:2049-2088 | without active children an acyclic dependency graph is enough |
| `TaskGraph.StuckDownstream` | astrata/loop0/runner.py:2049-2088 | a task from which a chain of waiting leads to one that is not pending is never selected |
| `TaskGraph.SupersededNeverUnblocks` | astrata/loop0/runner.py:2072 | in particular a superseded dependency never unblocks its dependents |
| `TaskGraph.SelectionsRun` | astrata/loop0/runner.py:2049-2088 | selecting tasks in their turn is a run of the store that completes exactly these tasks and leaves everything else as it was |
| `TaskGraph.CycleMemberNotReady` | astrata/loop0/runner.py:2062-2074 | no member of a cycle of unresolved tasks is ready |
| `TaskGraph.CycleNeverReady` | astrata/loop0/runner.py:2049-2088 | and none ever becomes ready in a run where tasks complete only by selection |
| `FollowUps.NameOfLast` | astrata/loop0/runner.py:3789-3792 | a name stands for the task of the last proposal that has it as title or hint |
| `FollowUps.NameOfNone` | astrata/loop0/runner.py:3789-3792 | a name that no proposal has stands for nothing |
| `FollowUps.DependenciesInside` | astrata/loop0/runner.py:3794-3798 | the edges of a follow-up task are exactly the known names it depends on, other than itself |
| `FollowUps.EdgesInsideBundle` | astrata/loop0/runner.py:3745-3809 | each edge points to a different task of the same bundle |
| `FollowUps.EdgesExactly` | astrata/loop0/runner.py:3789-3798 | one follow-up depends on another exactly when its proposal names the other, and no later proposal takes that name |
| `FollowUps.BundleAcyclicExactly` | astrata/loop0/runner.py:3745-3809 | the tasks of a bundle are acyclic exactly when the proposals, as needing each other by position, are |
| `FollowUps.BundleKeepsAcyclicExactly` | astrata/loop0/runner.py:3745-3809 | adding a bundle keeps the task graph acyclic exactly when the proposals have no cycle |
| `FollowUps.FollowUpsCompletableExactly` | astrata/loop0/runner.py:3745-3809 | in any store, all tasks of a bundle can be completed by selection exactly when the proposals have no cycle |
| `FollowUps.MutualProposalsDeadlock` | astrata/loop0/runner.py:3745-3809 | two proposals that name each other are accepted into any store, and neither ever becomes ready |
| `FollowUps.PreparedExactly` | astrata/loop0/runner.py:3745-3772 | only the first four specs are looked at, and each well-formed one stands in its order |
| `FollowUps.TaskStore.PrepareProposals` | astrata/loop0/runner.py:3745-3772 | the well-formed proposals among the first four |
| `FollowUps.TaskStore.StoreBare` | astrata/loop0/runner.py:3773-3792 | the first pass stores the tasks under new ids without edges and learns their names |
| `FollowUps.TaskStore.ResolveDependencies` | astrata/loop0/runner.py:3794-3798 | the second pass resolves names to ids |
| `FollowUps.TaskStore.AddEdges` | astrata/loop0/runner.py:3793-3809 | and stores the edges |
| `FollowUps.TaskStore.MaterializeFollowupTasks` | astrata/loop0/runner.py:3728-3816 | both passes together add exactly the bundle of those proposals |
| `Duplicates.PeersExactly` | astrata/loop0/runner.py:1580-1593 | duplicates are messages and follow-ups of one communication that agree in all texts, and runner tasks that agree in title and completion type; other sources never are |
| `Duplicates.SurvivesExactly` | astrata/loop0/runner.py:652-704 | a pending task survives a pass exactly when no other rule closes it and all its peers with a smaller key were scanned before it and closed |
| `Duplicates.ClosedExactly` | astrata/loop0/runner.py:668-704 | what a pass makes of each pending row, with its status and reason, in terms of its findings and of the duplicates ahead of it that are still pending |
| `Duplicates.OthersLeftAlone` | astrata/loop0/runner.py:657-659 | rows that were not pending are left alone |
| `Duplicates.DuplicateHoldsDependents` | astrata/loop0/runner.py:678-680 | nobody who depends on a task closed as a duplicate is ever selected |
| `Duplicates.RealizedLetsDependentsGo` | astrata/loop0/runner.py:681-683 | nobody waits for a dependency that a pass found realized |
| `Duplicates.PassLeavesOnePending` | astrata/loop0/runner.py:652-704 | after a pass every duplicate group has at most one pending task |
| `Duplicates.DuplicateHadEarlierPeer` | astrata/loop0/runner.py:1595-1617 | a task closed as a duplicate had at that moment a pending peer with a strictly smaller (created, updated, id) key |
| `Duplicates.MinimumSurvives` | astrata/loop0/runner.py:1595-1617 | when no other rule fires in its group a task survives exactly when it is the minimum |
| `Duplicates.SettledClosesNoDuplicate` | astrata/loop0/runner.py:652-704 | once groups have one pending task each, no pass closes a task as a duplicate |
| `Duplicates.PassIsIdempotent` | astrata/loop0/runner.py:652-704 | with the same findings a second pass changes nothing |
| `Duplicates.Minimum` | astrata/loop0/runner.py:1609-1616 | the canonical peer has no smaller one |
| `Duplicates.TaskTable.IsDuplicatePendingTask` | astrata/loop0/runner.py:1595-1617 | true exactly when a pending peer with a smaller key is stored |
| `Duplicates.TaskTable.ReconciledTaskPayload` | astrata/loop0/runner.py:668-704 | what closing a stored task makes of it, exactly when some rule closes it |
| `Duplicates.TaskTable.ReconcilePendingTasks` | astrata/loop0/runner.py:652-666 | the scan over the snapshot with live reads does what the specification of a pass says, and returns the rows it changed in scan order |
| `Batching.PlaceInLine` | astrata/loop0/runner.py:1675-1681 | a candidate's place in its sorted group is the number of older members |
| `Batching.CoveredOnce` | astrata/loop0/runner.py:1653-1719 | no candidate is covered by two results |
| `Batching.CoveredExactly` | astrata/loop0/runner.py:1653-1719 | covered are exactly the candidates that are not batchable or have fewer than four older group members; the rest is deferred |
| `Batching.CarrierIsOldest` | astrata/loop0/runner.py:1682-1719 | a carrier is its group's oldest member, by creation and then id, and covers two to four members, all of them if it can |
| `Batching.ResultInOrder` | astrata/loop0/runner.py:1653-1719 | further candidates move nothing that stood before them in the result |
| `Batching.RoundServes` | astrata/loop0/runner.py:1070-1094 | a round of one group takes the first four of its line and nobody else |
| `Batching.RoundsServeInOrder` | astrata/loop0/runner.py:1070-1094 | with rounds of other groups in between, each round of a group takes the next four, oldest first |
| `Batching.GroupDrainsExactly` | astrata/loop0/runner.py:1653-1719 | a group of n is gone exactly when it had at least ceil(n/4) rounds |
| `Batching.SyncIsOneRound` | astrata/loop0/runner.py:1070-1094 | a carrier that leaves pending takes exactly the tasks it covers with it |
| `Batching.SyncCopies` | astrata/loop0/runner.py:1070-1094 | the carrier takes the status, each other covered task the status and the carrier as parent, all others stay |
| `Batching.SyncsAreRounds` | astrata/loop0/runner.py:1070-1094 | any sequence of such syncs of the stored rows is the same rounds of the pending candidates |
| `Batching.SyncsDrainExactly` | astrata/loop0/runner.py:1070-1094 | a group with n pending rows has none left exactly when at least ceil(n/4) of the syncs were its own |
| `Batching.GroupCandidates` | astrata/loop0/runner.py:1657-1671 | the first loop splits the candidates into those passed through and groups in first-seen order |
| `Batching.CollapseBatchableCandidates` | astrata/loop0/runner.py:1653-1719 | the loops produce the specified result list |
| `Batching.MessageTasks.SyncBatchedPeerTasks` | astrata/loop0/runner.py:1070-1094 | copies status and parent to exactly the batched ids other than the carrier |
| `Consensus.LanesExactly` | astrata/loop0/runner.py:3182-3231 | the asked lanes are distinct and at most four more than the preferred tools |
| `Consensus.PrimaryFirst` | astrata/loop0/runner.py:3209 | the primary route is the first lane, or none without a provider |
| `Consensus.LanesAskTools` | astrata/loop0/runner.py:3210-3230 | every other lane asks a preferred or default tool other than the primary route's own, and only Gemini's is told a model |
| `Consensus.ToolAsked` | astrata/loop0/runner.py:3210-3231 | each such tool is asked unless there are as many lanes as required and at least two |
| `Consensus.ToolsInOrder` | astrata/loop0/runner.py:3210-3231 | in the order of the tools, preferred ones first |
| `Consensus.ConsensusWorkerRoutes` | astrata/loop0/runner.py:3182-3231 | the loop yields the first distinct routes, at most as many as required |
| `Consensus.CollectedIsLatest` | astrata/loop0/runner.py:975-979 | the results kept are the last delivery of each worker |
| `Consensus.SuccessesInOrder` | astrata/loop0/runner.py:960-986 | successes that are their workers' last results stand in the order in which they arrived, so the first of them is the earliest |
| `Consensus.DecisionExactly` | astrata/loop0/runner.py:986-1065 | the decision in terms of each worker's last delivery alone; approval exactly when all required responses agree after normalization |
| `Consensus.SameAnswersDecideAlike` | astrata/loop0/runner.py:926-1065 | deliveries with the same last answers decide alike, redelivered or not |
| `Consensus.ArrivalOrderIrrelevant` | astrata/loop0/runner.py:926-1065 | results delivered once each decide alike in every order of arrival |
| `Consensus.DecidedExactly` | astrata/loop0/runner.py:986-1065 | a decision is reached exactly when there are as many workers as required and each succeeded in its last delivery |
| `Consensus.TooManyReviewsNeverDecided` | astrata/loop0/runner.py:3182-3231 | more than four required reviews without preferred tools are never decided |
| `Consensus.ParentExactly` | astrata/loop0/runner.py:926-1065 | what becomes of the parent in terms of each worker's last delivery: complete when as many as required and at least two all succeeded with the same words, blocked when they differ, working otherwise |
| `Consensus.ActiveExactly` | astrata/loop0/runner.py:1052-1065 | the parent still waits for a worker exactly when each of its deliveries came with a disagreement |
| `Consensus.SuccessfulResults` | astrata/loop0/runner.py:986 | the results that report success, in order |
| `Consensus.ConsensusParent.ReconcileConsensusWorkerResult` | astrata/loop0/runner.py:926-1065 | one delivery does to the stored parent what its specification says |
| `ConsensusAudit.MixedBlankDisagrees` | astrata/audit/consensus.py:18-19 | a disagreement in which the audit sees at most one answer is exactly one between blank and equal non-blank answers |
| `ConsensusAudit.DecisionFlaggedExactly` | astrata/audit/consensus.py:8-85 | the audit of a decision has a high or critical finding exactly when the required answers are in and differ only in that some are blank |
| `ConsensusAudit.BlankAnswerFlagged` | astrata/audit/consensus.py:43-53 | concrete input: one blank and one other answer, correctly decided as disagreement and flagged |
| `ConsensusAudit.SevereExactly` | astrata/audit/consensus.py:21-62 | which outcomes over which results the audit objects to, right or wrong |
| `ConsensusAudit.FindingsExactly` | astrata/audit/consensus.py:8-85 | exactly which findings an audit reports, and how severe each is |
| `ConsensusAudit.MetaFindingsExactly` | astrata/audit/meta_review.py:8-64 | exactly which findings the review of an audit reports |
| `ConsensusAudit.ReuseReportedExactly` | astrata/audit/consensus.py:63-72 | a moderate finding is reported exactly when two asked lanes have one worker id |
| `ConsensusAudit.RunsAuditClean` | astrata/audit/consensus.py:8-85 | without blank answers no run of deliveries leads to a severe finding |
| `ConsensusAudit.AuditsReviewClean` | astrata/audit/meta_review.py:8-64 | the review of a consensus audit is clean exactly when the task has an id |
| `ConsensusAudit.CoherentExactly` | astrata/audit/meta_review.py:8-64 | a review passes exactly when it names its subject and is resolved just when it has no findings |
| `ConsensusAudit.ReviewConsensusJudgment` | astrata/audit/consensus.py:8-85 | the code that appends findings produces the specified review |
| `ConsensusAudit.ReviewAuditReview` | astrata/audit/meta_review.py:8-64 | likewise |
| `Thermal.PressureExactly` | astrata/local/thermal.py:178-182 | which texts name which pressure |
| `Thermal.LatchLevelExactly` | astrata/local/thermal.py:42-96 | a held latch keeps its level through unknown samples and is fair from the first nominal one on |
| `Thermal.LatchExactly` | astrata/local/thermal.py:42-96 | the latch is hot exactly when some hot sample has not been followed by a clearing, a gap of the cooldown time or a bypassed nominal sample |
| `Thermal.AllowedExactly` | astrata/local/thermal.py:42-96 | new work is allowed exactly when the latch is not held, and denied exactly on severe and critical samples |
| `Thermal.AllowAfterHotNeedsGap` | astrata/local/thermal.py:42-96 | without bypass and clearing, an allow after a hot sample needs two consecutive evaluations at least the cooldown time apart in between |
| `Thermal.AllowedAfterGap` | astrata/local/thermal.py:42-96 | conversely, after such a gap and no further hot sample every decision is allow |
| `Thermal.FrequentPollingNeverAllows` | astrata/local/thermal.py:42-96 | evaluations closer together than the cooldown hold the latch for ever |
| `Thermal.ClearedIsNew` | astrata/local/thermal.py:98-99 | after a clearing every later decision is that of a controller set up at that moment |
| `Thermal.LastOfExactly` | astrata/local/thermal.py:161-175 | trimming keeps the last ones, as many as the limit |
| `Thermal.HistoryIsLastDecisions` | astrata/local/thermal.py:161-175 | the history file holds the last decisions of the whole run, as many as the limit |
| `Thermal.ThermalController.Evaluate` | astrata/local/thermal.py:42-96 | the branches compute the specified decision, state and history |
| `Thermal.ThermalController.StoreState` | astrata/local/thermal.py:138-150 | overwrites the state and appends to the trimmed history |
| `Delegation.AllFineExactly` | astrata/controllers/base.py:123-181 | everything reached is fine exactly when the root is and everything is below each of its delegations |
| `Delegation.ProcessRecursiveTask` | astrata/controllers/base.py:123-181 | terminates; succeeds exactly when the task and every delegated descendant through known controllers succeed above the depth limit; fails with the limit, its own decision or the first action that failed below it; makes at most the sum of b^i evaluations |
| `Delegation.FirstMaximum` | astrata/controllers/base.py:242-243 | the majority status is the first of the most frequent ones |
| `Delegation.JoinedExactly` | astrata/controllers/base.py:245 | reasons are joined by a semicolon and a space |
| `Delegation.AggregateDecisions` | astrata/controllers/base.py:215-252 | majority vote: no status is more frequent, ties go to the one seen first, follow-ups are kept in order, reasons are joined and the confidence is the mean; no votes at all are refused |
| `Cyclone.RunHasTrace` | astrata/eval/cyclone.py:243-350 | what it returns is a chain of calls: each review of the answer before, each edit of that answer with its review, and the time of all of them |
| `Cyclone.RunCyclone` | astrata/eval/cyclone.py:243-350 | accepts exactly when one of the allowed revisions passes and then ends with the first that does; the final answer is the one reviewed last, except after a failed draft when the limit is below one; the total is the time of the calls made |
| `Ratings.PlayedMovesSums` | astrata/eval/ratings.py:36-53 | how one matchup moves the sums of ratings and match counts, for distinct variants and for a self-match |
| `Ratings.SumKeptExactly` | astrata/eval/ratings.py:36-53 | the sum stays at 1500 per variant exactly when no rating is stored as zero, or for a self-match when the lost update equals that lift |
| `Ratings.NewRatingsExactly` | astrata/eval/ratings.py:31-48 | the new ratings: 32 times what each side did better than expected, the score taken between 0 and 1; in a self-match the right side's only |
| `Ratings.ReadExactly` | astrata/eval/ratings.py:31-37 | a new variant, or one stored at exactly zero, is read as 1500 |
| `Ratings.PutKeepsPlaces` | astrata/eval/ratings.py:47-48 | variants stand in the order of their first appearance |
| `Ratings.MovesLessThanK` | astrata/eval/ratings.py:38-48 | each update moves a rating by less than 32 and leaves other variants alone |
| `Ratings.BetterThanExpectedRises` | astrata/eval/ratings.py:38-48 | the side that does better than expected rises and the other falls by as much |
| `Ratings.DomainsAreIndependent` | astrata/eval/ratings.py:31-53 | a domain's ratings depend on its own matchups only |
| `Ratings.SumsOfRun` | astrata/eval/ratings.py:20-67 | the sums after a run |
| `Ratings.FairRunsConserve` | astrata/eval/ratings.py:20-67 | with distinct variants and no stored zero, ratings sum to 1500 per variant and match counts to twice the matchups |
| `Ratings.DriftCountsZeros` | astrata/eval/ratings.py:36-37 | with distinct variants the sum drifts by exactly 1500 for each time a zero is read |
| `Ratings.RatingStore.RecordMatchup` | astrata/eval/ratings.py:20-67 | the updates do what the specification says, and the recent list keeps the last 200 |
| `Ratings.RatingStore.GetDomainLeader` | astrata/eval/ratings.py:75-90 | the first maximum among the entries with enough matches, none when there are no such entries |
| `GovernanceDrift.BaselineExactly` | astrata/governance/policy.py:66-101 | only the first scan and approvals change the baseline |
| `GovernanceDrift.ReportsRememberOneScan` | astrata/governance/policy.py:80-85 | the stored report map says no more than what the scan just before found at drifted paths |
| `GovernanceDrift.NewlyReportedExactly` | astrata/governance/policy.py:79-85 | newly reported are exactly the drifted paths whose fingerprint differs from the previous scan's |
| `GovernanceDrift.InitializesExactly` | astrata/governance/policy.py:66-78 | only the first scan initializes the baseline, and it reports nothing |
| `GovernanceDrift.SameDriftReportedOnce` | astrata/governance/policy.py:80-85 | an unchanged drift is newly reported once |
| `GovernanceDrift.MissingReportedExactly` | astrata/governance/policy.py:79-85 | a missing file is newly reported exactly when the scan before found other unapproved contents |
| `GovernanceDrift.DeletionNeverReported` | astrata/governance/policy.py:79-85 | the deletion of an approved file is drift in every scan and newly reported in none |
| `GovernanceDrift.GovernanceSurfaceFingerprint` | astrata/governance/policy.py:46-57 | one fingerprint per path, the empty one for a missing file |
| `GovernanceDrift.GovernanceDriftMonitor.ScanSurface` | astrata/governance/policy.py:66-96 | a scan does what the specification says |
| `GovernanceDrift.GovernanceDriftMonitor.ApproveCurrent` | astrata/governance/policy.py:98-101 | an approval sets the baseline and forgets the reports |
| `RouteSpecs.ParsesWellFormed` | astrata/eval/cyclone.py:625-641 | parsing returns only trimmed lowercase providers, trimmed non-empty models, and tools exactly for CLI specs |
| `RouteSpecs.RoundTripExactly` | astrata/eval/cyclone.py:82-87 | exactly which specs come back from their printed form |
| `RouteSpecs.EmptyToolIsLost` | astrata/eval/cyclone.py:82-87 | a CLI spec with an empty tool does not come back |
| `RouteSpecs.FormsExactly` | astrata/eval/cyclone.py:625-641 | how the four forms of a specification are read |
| `RouteSpecs.SpellingIrrelevant` | astrata/eval/cyclone.py:625-630 | white space around a specification does not matter, and a blank one is refused |
| `RouteSpecs.NicknameShown` | astrata/eval/cyclone.py:82-87 | a nickname is shown instead of the route |
| `RouteSpecs.ParsePrintParseExactly` | astrata/eval/cyclone.py:625-641 | parse, print, parse equals parse exactly when the spec has a tool if CLI, and a provider or a model |
| `Agents.ChoiceExactly` | astrata/agents/service.py:206-221 | which agent stands in for any agent |
| `Agents.BootstrappedExactly` | astrata/agents/service.py:22-97 | the stored agents and the four defaults; a stored default only has a blank name filled in |
| `Agents.OtherStandInExactly` | astrata/agents/service.py:206-221 | an agent other than Local stands in for Prime exactly when configured, available, and the message is open |
| `Agents.DurableAgentRegistry.EnsureBootstrapAgents` | astrata/agents/service.py:22-97 | adds exactly the default agents that are missing, and fills blank names of those that exist |
| `Agents.DurableAgentRegistry.ChooseFallback` | astrata/agents/service.py:206-221 | the branches compute the specified choice |
| `Lanes.FailoverExactly` | astrata/comms/runtime.py:218-401 | when Reception, Local or the fallback text answers in place of Prime |
| `Lanes.PendingExactly` | astrata/comms/runtime.py:91-103 | the pending list is exactly the open principal and operator messages to the lane, oldest first |
| `Lanes.StepKeeps` | astrata/comms/runtime.py:440-469 | one pass, arrival, direct handling or closing elsewhere keeps: a reply answers an older closed message, is the only one to it, and comes from a permitted lane |
| `Lanes.RunKeeps` | astrata/comms/runtime.py:91-258 | so does every run |
| `Lanes.AtMostOneReply` | astrata/comms/runtime.py:440-469 | after any run no message has two replies, and an answered one is pending on no lane |
| `Lanes.PassAnswersExactly` | astrata/comms/runtime.py:91-103 | a pass gives exactly one reply to, and resolves, exactly the messages taken before the first failure |
| `Lanes.PassesLeave` | astrata/comms/runtime.py:91-103 | after n passes the oldest n times the limit no longer wait, except the first message whose handling raises and all younger ones |
| `Lanes.AnsweredWithinExactly` | astrata/comms/runtime.py:91-103 | a message at position p is answered within n passes exactly when p is below n times the limit and no message up to it raises; one that always raises keeps every younger one of its lane waiting |
| `Lanes.ConfidentialStaysLocal` | astrata/comms/runtime.py:218-258 | after any run a sensitive, secret or enclave message was answered only by Prime, Local or the fallback text |
| `Lanes.ConfidentialFailover` | astrata/comms/runtime.py:218-258 | and when Prime does not answer it, only by Local or the fallback text |
| `Lanes.LaneRuntime.UpdateStatus` | astrata/comms/lanes.py:157-174 | changes the status of one record on the lane's channels |
| `Lanes.LaneRuntime.EmitReply` | astrata/comms/runtime.py:430-469 | sends one reply and resolves the message |
| `Lanes.LaneRuntime.HandlePrimeUnavailable` | astrata/comms/runtime.py:218-401 | the chain of stand-ins yields the specified answer |
| `Lanes.LaneRuntime.HandleMessage` | astrata/comms/runtime.py:105-137 | handling a message does what the specification says |
| `Lanes.LaneRuntime.ListPending` | astrata/comms/lanes.py:113-132 | lists the pending messages |
| `Lanes.LaneRuntime.ProcessPendingTurns` | astrata/comms/runtime.py:91-103 | one pass over the lane does what the specification says |
| `LaneSenders.SenderExactly` | astrata/comms/runtime.py:105-216 | exactly who sends the reply and of what kind: the lane itself from state, work or locally; Prime exactly when route, provider and completion all succeed; otherwise its stand-in, Local or the fallback text |
| `LaneSenders.ReplyExactly` | astrata/comms/runtime.py:430-469 | the whole record of each reply of a pass, its sender included, in the order of the messages |
| `LaneSenders.TakenExactly` | astrata/comms/runtime.py:91-103 | which messages a pass takes, in terms of their records and the limit |
| `LaneSenders.DefaultFailover` | astrata/comms/runtime.py:218-401 | with the default agents Reception answers an open message for Prime, then Local, then the fallback text |
| `LaneSenders.StatusExactly` | astrata/comms/lanes.py:157-174 | a status update changes one record, on the principal's and operators' channels only |
| `Text.NormalizedExactly` | astrata/loop0/runner.py:1067-1068 | consensus texts are compared in lower case, word by word |

## Left out

- JSON files, SQLite, recovery from corrupt files and concurrent access to one store: each store is an in-memory table and its operations are sequential.
- Display names, labels, endpoints, metadata, tool arguments and timestamps that no branch reads.
- The listing, summary, telemetry and desktop-status operations of the account registry and the relay.
- Parsing of ChatGPT callback addresses: a redirect carries what the parser would make of it.
- Characters outside ASCII in `strip`, `lower` and `split`.
- Rounding: ratings are real numbers and the expected score any number strictly between 0 and 1.
- AccountRegistry.AccountControlPlane.VerifyDeviceLink: keeps the best link in one scan where the source sorts all links and takes the first; the chosen link is the same.
- AccountOperations.UserByEmail: chooses any user of the email, of which the invariant leaves one at most; the source takes the first in table order.
- AccountRegistry.AccountControlPlane.UserForEmail: is stated, like the methods that call it, for tables without two users of one email, which the invariant guarantees; on other tables the source takes the first in table order.
- RelayService.Relay.LocalHeartbeat: the device id, the advertised capabilities and the timestamp written to the link are left out.
- RelayService.Relay.Deliver: the request id is a parameter, and the handoff to the node's controller is left out.
- RelayService.Relay.HandOver: the id that the queued call mints for itself is the request's own here.
- RelayService.Relay.WatchRound: the account registry gives one answer for the calls of a round and one for each delivery; the runs of the watcher modules leave both open at every move.
- FollowUps.TaskStore.MaterializeFollowupTasks: takes proposals that are already normalized, and leaves out promotion from artifacts and the recording of the decomposition.
- Duplicates.TaskTable.ReconcilePendingTasks: the findings about low signal, realized goals and completed work are fields of a row, constant during a pass; supervision and worker results, which run before the scan, are separate operations here, and the returned list holds what the scan changed, without their results.
- Batching.CollapseBatchableCandidates: titles and descriptions of batches are left out; ids are present and distinct, as the table's key makes them.
- Consensus.ConsensusParent.ReconcileConsensusWorkerResult: the notices, artifacts and follow-up tasks of an approval are left out, and a parent that is missing.
- Scheduling, retry and supervision of worker tasks: reassignment has no bound in the code, and `active_child_ids` can be overwritten by stale metadata.
- Delegation.ProcessRecursiveTask: priorities, metadata and reasons are left out; a decision is a function of the controller and of the path of delegations to it.
- `_conversation_history`, authority helpers, keyword classifiers and path normalization: easy members or text heuristics.
- Cyclone.RunCyclone: prompts, and the parsing of a verdict from the text of an answer, which may fail.
- GovernanceDrift.GovernanceDriftMonitor.ScanSurface: the sorted path lists are sets, and a fingerprint is the content itself.
- Lanes.LaneRuntime.ProcessPendingTurns: records are kept in order of creation, so that sorting them by creation time changes nothing; message texts, conversation ids and the results returned for each turn are left out.
- Lanes.LaneRuntime.HandleMessage: an exception is taken to come before the reply is sent; a failure between sending and resolving belongs to the storage layer.
