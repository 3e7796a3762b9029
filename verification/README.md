# Quest Termux lab: verified models of the peer mesh, the fleet controller and their tools

A Dafny model of the parts of the repository that carry real state, with proofs about every input,
every run or every reachable state. `dafny verify dfyconfig.toml` checks the whole project.

- **Gossip mesh.** `Gossip` is the last-writer-wins merge of peer observations, the summary of the
  table and the relay of an envelope, `MeshRound` the synchronous relay round over a directed graph,
  `RoundFiles` the round with the program's own directories and file names, `HttpReceiver` the receiver with its
  replay window, digest dedupe, receipts and counters, `ReplayWindow` what that window means by the clock.
- **Fleet control.** `FleetControl` is the controller as a value with step functions and as the
  class `FleetState` tied to them; `FleetDelivery` and `MirrorAudit` prove what whole runs keep,
  `FleetEffects` what each operation does by the fields of commands, leases, intents and results.
  `AgentPolicy` holds the agent's gates, `ApkUpdate` its verified package update.
- **Sender.** `Delivery`, `DispatchPlan`, `SendDryRun` and `RetryPlan` are the delivery ledger, the
  plan over it, the dry run that carries the plan out, and the backoff plan.
- **Gates.** `Handoff` is the authority-handoff validator. `RouteHealth`, `RouteHistory`,
  `Readiness`, `Topology`, `LabBundle` and `PreflightFixture` are the preflight chain.
- **Small loops.** `VncFrame` captures a raw framebuffer update (sections 7.6.1 and 7.7.1 of
  RFC 6143), `HeartbeatLog` scans a log backwards for its last line, `DesktopMapping` is the
  letterbox map.

State that the programs update in place is a class or a loop here, and each method's contract equates
the new state with a specification function of the old one; the theorems are about those functions, and
each operation has one that tells its effect without them, field by field.
Times are texts that parse to an integer or do not parse (microseconds in `RetryPlan`, whose printed times are cut to the second; reals
where clock readings are subtracted), a digest is a function of the payload, and a handler call is one
atomic step with its clock readings as arguments.

## Where the code does less than its names promise

Each of these is kept as the code has it. The exact condition is proved, and a lemma exhibits an input.

- A gossip call answered with an error may still have taught the receiver something: the merge can raise
  half-way over a value that does not convert, and the receipt, which sums the whole table up, can raise
  after the merge (`HttpReceiver.ErrorReplyIsCleanIff`; `HttpReceiver.RefusedPayloadTeaches`,
  `HttpReceiver.UnansweredPayloadTeaches`).
- A duplicate whose receipt raises is counted as duplicate and as rejected, so the counters add up to the
  calls exactly when no duplicate meets a table with such a value
  (`HttpReceiver.EachCallCountedOnceIff`; `HttpReceiver.DuplicateCountedTwice`).
- A round over a heartbeat whose time does not parse delivers everything and then ends without a report
  (`RoundFiles.SimulateNamedRound`; `RoundFiles.GarbledHeartbeatIsValid`).
- Envelope file names are cut at 120 characters, so relayed envelopes can overwrite each other. A
  round is complete exactly when the names in each inbox are distinct; a round id of 120 characters or
  more loses letters (`MeshRound.CompleteIffDistinct`; `RoundFiles.LongRoundIdLosesLetters` with
  `RoundFiles.StarScenarioIsStar`).
- Agent ids that differ only in characters the program removes or replaces share a directory, and a
  node then knows agents that never reach it (`RoundFiles.SharedDirectoryLeaks`).
- `RoundFiles.NamesFit` is a condition on the scenario that rules out both: the ids are their own file
  parts, none followed by a dash begins another, and the longest message id stays under the cut. The
  repository's own scenario meets it (`RoundFiles.LineScenarioFits`).
- Two deliveries of one message to one target are looked up by the first match, so a send meant for
  the second is booked on the first (`SendDryRun.AttemptsMatchPlanIff`; `SendDryRun.TwinTakesTheSend`).
- A retry is announced for a time cut to the second, at which it may not be due yet
  (`RetryPlan.AnnouncedTimeKeptIff`; `RetryPlan.AnnouncedTooEarly`).
- The "not newer" guard of the verified update is skipped when the installed version cannot be read
  (`ApkUpdate.InstallsOverNewerIff`; `ApkUpdate.OldVersionVerified`).
- A VNC rectangle that leaves the screen makes the framebuffer grow and the capture fail with an index
  error, except where it only runs over the right edge and wraps into the next row
  (`VncFrame.UpdateSucceedsIff`; `VncFrame.BelowTheScreenFails`, `VncFrame.RightEdgeWraps`).
- The tail reader never tests offset 0, so a newline there hides the line after it
  (`HeartbeatLog.ReadsLastLineIff`; `HeartbeatLog.HiddenObject`).

## Model

| member | source | states |
|---|---|---|
| Gossip.GossipState.MergeEnvelope | tools/peer_mesh_gossip.py:128-140 | the table, the counter of forbidden payloads and the error after a merge are those of the specification, also when the loop stops at a value that does not convert |
| Gossip.GossipState.Summary | tools/peer_mesh_gossip.py:142-167 | every known agent with its status, or the error of the first observation whose time or limit does not convert |
| Gossip.StopsEarly | tools/peer_mesh_gossip.py:128-140 | where the merge stops, and that what came before it stays merged |
| Gossip.RefusedIff | tools/peer_mesh_gossip.py:79-137 | a merge counts an envelope as refused exactly if it has a defect, names the defect and changes nothing; another fleet is an error that is not counted |
| Gossip.ReplacesIff | tools/peer_mesh_gossip.py:253-258 | an observation replaces a known one exactly if the two compare and it is later, or as late and of higher sequence |
| Gossip.MergeStopsIff | tools/peer_mesh_gossip.py:128-140 | a merge stops exactly where an observation first meets a known one it cannot be compared with |
| Gossip.SummaryShows | tools/peer_mesh_gossip.py:261-269 | the summary fails exactly on an alive observation without readable time or limit; otherwise an agent is alive until its limit has passed and stale from then on |
| Gossip.RelayEnvelope | tools/peer_mesh_gossip.py:229-250 | a relay lowers the hop count, names the sender and changes each observation only in whom it was heard from; at hop count zero it is an error |
| Gossip.MergeHoldsFirstLatest | tools/peer_mesh_gossip.py:128-140 | the table holds just the agents observed, each with the earliest-merged observation of greatest (time, sequence) |
| Gossip.MergeIgnoresOrder | tools/peer_mesh_gossip.py:253-258 | the same observations in any order and multiplicity give the same agents and stamps |
| Gossip.MergeRunFlattens | tools/peer_mesh_gossip.py:128-140 | merging envelope by envelope is merging all their observations in sequence |
| Gossip.EnvelopeOrderIrrelevant | tools/peer_mesh_gossip.py:128-140 | valid envelopes of one fleet, permuted and repeated at will, end in the same agents and stamps |
| MeshRound.DeliveredHistory | tools/peer_mesh_round.py:182-234 | a delivered letter is a base letter or the relay of one held a pass earlier |
| MeshRound.Provenance | tools/peer_mesh_round.py:182-234 | hops used plus hops left equal the limit, relays do not outnumber passes, and the observation says of the origin what its heartbeat says, field by field, heard from the sender |
| MeshRound.IdDeterminesLetter | tools/peer_mesh_round.py:205-234 | a message id names one letter in the whole round |
| MeshRound.LetterWalked | tools/peer_mesh_round.py:193-234 | a letter arrived along a walk one link longer than its relays |
| MeshRound.WalkDelivers | tools/peer_mesh_round.py:193-234 | along every walk within the limits a letter arrives |
| MeshRound.DeliveredIffReaches | tools/peer_mesh_round.py:193-234 | what can be delivered is exactly bounded-hop reachability, for every graph |
| MeshRound.ValidateScenario | tools/peer_mesh_round.py:54-121 | the checks in order accept exactly the valid scenarios |
| MeshRound.ListInbox | tools/peer_mesh_round.py:145-149 | a listing holds exactly the letters of the inbox |
| MeshRound.PlaceOwnLetters | tools/peer_mesh_round.py:173-191 | each node with a heartbeat starts with its own letter; the first document of another fleet or agent ends the round |
| MeshRound.DeliverDirect | tools/peer_mesh_round.py:193-203 | the first deliveries, one along each link whose source has a letter |
| MeshRound.RelayPass | tools/peer_mesh_round.py:205-234 | a pass moves every inbox from the letters of pass p-1 to those of pass p, reading only the snapshot |
| MeshRound.SummarizeNode | tools/peer_mesh_round.py:152-159 | the table is the merge of the listed directory, and the summary fails exactly when an observation in it cannot be summed up |
| MeshRound.MergeRunKnows | tools/peer_mesh_round.py:152-159 | letters with one observation each teach exactly the agents they are about |
| MeshRound.SummarizableIff | tools/peer_mesh_gossip.py:142-167 | an inbox of letters of this round can be summed up exactly when the time of every letter left in it parses |
| MeshRound.OwnLettersShow | tools/peer_mesh_round.py:173-191 | where own files are kept apart, readable letters mean that all times of the scenario parse |
| MeshRound.SimulateRound | tools/peer_mesh_round.py:162-269 | for any directories and file names: the report is made exactly when all letters left parse; each entry of a table says of its agent what the heartbeat says, as a letter left in the directory brought it; with directories of their own every node knows only agents that reach it, and all of them where file names are distinct |
| MeshRound.CompleteIffDistinct | tools/peer_mesh_round.py:134-142 | the round loses no letter exactly when no two letters of an inbox share a file name |
| RoundFiles.OwnFileIsSafe | tools/peer_mesh_round.py:134-142 | a node's own file never gets the name of a file sent to it |
| RoundFiles.FilePartIff | tools/peer_mesh_round.py:42-46 | a text is its own file part exactly when it is non-empty, at most 120 characters, all safe, with no dot or dash at either end |
| RoundFiles.UnsafeRunBecomesDash | tools/peer_mesh_round.py:42-46 | whatever stands between two safe texts, one dash is left of it |
| RoundFiles.OuterEdgesGo | tools/peer_mesh_round.py:42-46 | dots and dashes around a file part go |
| RoundFiles.FileNamesAre | tools/peer_mesh_round.py:134-142 | the names of own, direct and relayed files as texts |
| RoundFiles.PrivateKeepsOwn | tools/peer_mesh_round.py:124-142 | with a directory for each node no own file is ever overwritten |
| RoundFiles.MessageTextInjective | tools/peer_mesh_round.py:180-224 | where no agent id with a dash after it begins another one with a dash after it, the text of a message id names one id |
| RoundFiles.FittingNamesAreDistinct | tools/peer_mesh_round.py:42-142 | where names fit, every letter of an inbox has a file name of its own |
| RoundFiles.LineScenarioFits | examples/peer-mesh-round-scenario.synthetic.json:1-43 | the scenario that comes with the program fits |
| RoundFiles.SimulateNamedRound | tools/peer_mesh_round.py:162-269 | with the program's own directories and file names, and nodes or own files apart in them, the round reports exactly on valid scenarios whose ids leave a file part, with matching documents and times that parse; where names fit every node knows exactly the agents that reach it |
| RoundFiles.GarbledHeartbeatIsValid | tools/peer_mesh_round.py:68-121 | a scenario that passes every check although a heartbeat's time does not parse |
| RoundFiles.StarScenarioIsStar | tools/peer_mesh_round.py:68-121 | a valid scenario of the shape the next row speaks of |
| RoundFiles.LongRoundIdLosesLetters | tools/peer_mesh_round.py:42-46 | with a round id of 120 safe characters or more the sink of a star cannot hold letters of both senders that reach it |
| RoundFiles.SharedScenarioShares | tools/peer_mesh_round.py:124-142 | two nodes whose ids lose their difference share a directory, in which their own files still have different names |
| RoundFiles.SharedDirectoryLeaks | tools/peer_mesh_round.py:124-159 | a reported round in which a node knows an agent that does not reach it |
| HttpReceiver.PeerHttpState.PruneSeenMessages | tools/peer_mesh_http_sim.py:82-91 | pruning forgets exactly the ids older than the window and counts them |
| HttpReceiver.PeerHttpState.AcceptGossip | tools/peer_mesh_http_sim.py:93-122 | one call's verdict, table, remembered ids and counters are those of the specification |
| HttpReceiver.PeerHttpState.AnswerDuplicate | tools/peer_mesh_http_sim.py:104-118 | a duplicate is counted once more as rejected when its receipt raises |
| HttpReceiver.PeerHttpState.TakeIn | tools/peer_mesh_http_sim.py:114-141 | a fresh payload is merged, remembered and counted before the receipt that may raise |
| HttpReceiver.Accounting | tools/peer_mesh_http_sim.py:82-122 | in every reachable state acceptances are live or expired entries, and the counters add up to the calls plus the duplicates whose receipt raised |
| HttpReceiver.EachCallCountedOnceIff | tools/peer_mesh_http_sim.py:93-141 | the counters add up to the calls iff no call repeated a remembered payload while the table could not be summed up |
| HttpReceiver.DuplicateCountedTwice | tools/peer_mesh_http_sim.py:104-118 | a payload posted twice that makes three counts |
| HttpReceiver.ReadableRunAnswers | tools/peer_mesh_http_sim.py:93-141 | with values that convert every accepted or duplicate payload is answered |
| HttpReceiver.ReadableAccounting | tools/peer_mesh_http_sim.py:82-122 | and every call is counted once |
| HttpReceiver.DedupeIsTransparent | tools/peer_mesh_http_sim.py:82-122 | after any calls the table is the plain merge of all payloads accepted, met as duplicates, or refused half-way |
| HttpReceiver.ReadableDedupeIsTransparent | tools/peer_mesh_http_sim.py:82-122 | with values that convert it is the plain merge of accepted and duplicate payloads |
| HttpReceiver.MergeIsIdleIff | tools/peer_mesh_gossip.py:128-140 | a merge leaves the table alone exactly when it meets nothing new before it ends or raises |
| HttpReceiver.ErrorReplyIsCleanIff | tools/peer_mesh_http_sim.py:93-141 | a call answered with an error leaves the table alone exactly when the payload never got to the merge or the merge met nothing new |
| HttpReceiver.RefusedPayloadTeaches | tools/peer_mesh_http_sim.py:114-118 | a payload whose merge raises half-way and still changes the table |
| HttpReceiver.UnansweredPayloadTeaches | tools/peer_mesh_http_sim.py:119-141 | a payload that is merged, remembered and counted, and answered with an error |
| HttpReceiver.AcceptancesApart | tools/peer_mesh_http_sim.py:82-122 | under a monotone clock two acceptances of one message id are more than the window apart |
| ReplayWindow.CallForgetsPassed | tools/peer_mesh_http_sim.py:82-122 | a call forgets and counts exactly the ids whose window has passed when it begins, and remembers the one it accepts by digest and stamp |
| ReplayWindow.RememberedIffOpen | tools/peer_mesh_http_sim.py:82-122 | after any calls, whatever the clock did, an id is remembered exactly while the window of its last acceptance is open, by that acceptance |
| ReplayWindow.VerdictByWindow | tools/peer_mesh_http_sim.py:93-122 | while that window is open a payload equal by digest is a duplicate and another one a conflict, and the table stays; otherwise the payload is merged and answered by how the merge went |
| ReplayWindow.OpenIffRecent | tools/peer_mesh_http_sim.py:82-91 | if no call began later, the window is open exactly up to its length after the last acceptance |
| ReplayWindow.UnsendableIsRefused | tools/peer_mesh_http_sim.py:93-100 | a payload without id or with a defect is refused for it and only counted |
| FleetControl.FleetState.Queue | tools/fleet_control_plane.py:89-112 | queueing appends and indexes, or reports the duplicate or the error, leaving the state alone |
| FleetControl.FleetState.Next | tools/fleet_control_plane.py:114-145 | expired commands go with their keys, the first other one is handed out, the rest stay in order |
| FleetControl.FleetState.Create | tools/fleet_control_plane.py:157-184 | a lease is stored under its id, or the first fault is reported |
| FleetControl.FleetState.Revoke | tools/fleet_control_plane.py:186-203 | a known lease becomes revoked |
| FleetControl.FleetState.Submit | tools/fleet_control_plane.py:205-264 | the decision, stored status, event, index entry and queue after a submission |
| FleetControl.FleetState.Reject | tools/fleet_control_plane.py:266-305 | a rejection is stored under the intent's id and logged under its lease |
| FleetControl.FleetState.Record | tools/fleet_control_plane.py:147-155 | a result reaches every intent waiting for the command |
| FleetDelivery.SweepSplits | tools/fleet_control_plane.py:114-145 | a sweep splits the queue into expired, selected and kept, in order, and frees just the expired keys |
| FleetDelivery.RunKeepsQueues | tools/fleet_control_plane.py:89-145 | the queue invariant of every agent holds after every run |
| FleetDelivery.DeliveredAtMostOnce | tools/fleet_control_plane.py:89-145 | no two commands handed to an agent share an idempotency key |
| FleetDelivery.DeliveredInOrder | tools/fleet_control_plane.py:114-145 | delivered then queued commands are a subsequence of those enqueued |
| FleetDelivery.IndexIsQueuedOrDelivered | tools/fleet_control_plane.py:89-145 | a key is taken exactly while queued or once delivered, never both |
| FleetDelivery.NoCommandLost | tools/fleet_control_plane.py:89-145 | enqueued = delivered + expired + still queued |
| FleetDelivery.DeliveredKeyStaysTaken | tools/fleet_control_plane.py:89-112 | a delivered key answers duplicate for the rest of the run |
| FleetEffects.QueuedIff | tools/fleet_control_plane.py:89-112 | a command is queued exactly if complete, unexpired and its key free; it is a duplicate if only the key is taken; otherwise an error and nothing changes |
| FleetEffects.RefusedCommandLacks | tools/fleet_control_plane.py:89-100 | the error names what is wrong with the command |
| FleetEffects.PolledIffLive | tools/fleet_control_plane.py:114-145 | in every reachable state polling hands out the first command whose expiry is to come, drops exactly those whose expiry has passed and frees their keys, keeps the rest in order, and is empty exactly if all have expired |
| FleetEffects.HandedBeforeExpiry | tools/fleet_control_plane.py:433-437 | a command is only handed out to its target before its expiry |
| MirrorAudit.EventLogReplays | tools/fleet_control_plane.py:205-355 | in every reachable state a lease's events replay to the stored states, each intent has one decision, and waits for results once iff it was not rejected |
| MirrorAudit.StepOnIntent | tools/fleet_control_plane.py:326-355 | only a target result changes a stored intent, never its identity and never a rejected one |
| FleetEffects.ResultReaches | tools/fleet_control_plane.py:147-155 | a complete result reaches exactly the intents that wait for its command: stored with them, naming their state by its text, and last in the log of their lease |
| FleetEffects.StatesFollowResults | tools/fleet_control_plane.py:326-355 | in every reachable state an intent has the state that the text of its command's last result names, if one has reached it |
| MirrorAudit.RejectionIsFinal | tools/fleet_control_plane.py:326-355 | a rejected intent stays as stored for the rest of the run |
| MirrorAudit.QueuedIffCovered | tools/fleet_control_plane.py:440-467 | an intent becomes a command exactly when it is ready and a live lease of its fleet, source, target and kind covers it |
| FleetEffects.TakenIntentTells | tools/fleet_control_plane.py:205-264 | a taken intent is stored and logged; its command ends the target's queue and says field by field what the intent says, or the command that took its key is the one it waits for |
| FleetEffects.RejectionNamesDefect | tools/fleet_control_plane.py:205-305 | a rejection names something that is wrong with the intent or its lease, and is stored and logged |
| FleetEffects.UntakenIntentTells | tools/fleet_control_plane.py:205-228 | a submission that repeats a stored intent answers with it, one that lacks something is an error that names it, and neither changes anything |
| FleetEffects.LeaseAcceptedIff | tools/fleet_control_plane.py:157-184 | a lease is stored, as requested, exactly if the request is complete, between two agents, unexpired and allows something; otherwise the error names the defect |
| MirrorAudit.LeasesStep | tools/fleet_control_plane.py:157-203 | a lease changes only by its own creation or revocation |
| MirrorAudit.RevokedStaysRevoked | tools/fleet_control_plane.py:186-203 | a revoked lease stays revoked until it is created anew |
| MirrorAudit.RevokedLeaseIsQuiet | tools/fleet_control_plane.py:186-264 | after a revocation no intent under the lease is queued until it is created anew |
| AgentPolicy.MirrorCommandsAreWellMade | tools/fleet_control_plane.py:474-496 | a command the controller makes of an intent never fails the agent's form checks |
| AgentPolicy.RunsIff | scripts/termux_fleet_agent.py:199-236 | a command runs exactly if it is this agent's, unexpired and of an allowed kind, a live session lease covers it unless it is passive, and it is not mirrored or its source's binding allows it |
| AgentPolicy.RefusalNamesDefect | scripts/termux_fleet_agent.py:328-466 | a refusal names something that is wrong |
| AgentPolicy.MirrorIsAuthorizedTwice | scripts/termux_fleet_agent.py:199-236 | an intent whose command was enqueued and runs was covered by a live lease and by the agent's binding for the source that lease names |
| AgentPolicy.AttachedToHeldCommand | tools/fleet_control_plane.py:100-112 | an attached intent enqueues nothing; its command was delivered to or queued for the same target under the same key |
| ApkUpdate.AgentState.RunUpdate | scripts/termux_fleet_agent.py:562-731 | result, remembered results and device after an update request |
| ApkUpdate.VerifiedOncePerKey | scripts/termux_fleet_agent.py:575-584 | a non-empty key has at most one verified install and no attempt after it |
| ApkUpdate.VerifiedVersionsIncrease | scripts/termux_fleet_agent.py:613-631 | verified versions of a package strictly increase, whatever flags the install command carries, when installed versions can be read and only the agent changes them |
| ApkUpdate.InstallsOverNewerIff | scripts/termux_fleet_agent.py:603-631 | a call installs over an equal or newer version exactly when that version could not be read and no other gate stopped it, and verifies it exactly when the install succeeds and reads back |
| ApkUpdate.StatusTells | scripts/termux_fleet_agent.py:562-731 | each status by the gates and the tools; an install that works and reads back is remembered even if the launch after it fails |
| ApkUpdate.OldVersionVerified | scripts/termux_fleet_agent.py:603-631 | version 1 verified over an installed version 2 that does not read |
| Delivery.FindDelivery | tools/peer_mesh_delivery.py:104-108 | the first delivery for the target and message, or an error |
| Delivery.ExpirePending | tools/peer_mesh_delivery.py:146-159 | exactly the overdue pending deliveries expire; a pending one whose expiry does not parse is an error, a settled one is not |
| Delivery.ApplyReceipt | tools/peer_mesh_delivery.py:111-124 | a receipt settles the first matching delivery and no other |
| Delivery.ApplyError | tools/peer_mesh_delivery.py:127-143 | an error rejects the first matching delivery and no other |
| Delivery.RecordNoResponse | tools/peer_mesh_send_dry_run.py:107-123 | silence counts an attempt on the first matching delivery |
| DispatchPlan.RouteForFinds | tools/peer_mesh_dispatch_plan.py:89-90 | with unique targets the lookup finds exactly the configured route |
| DispatchPlan.BuildDispatchPlan | tools/peer_mesh_dispatch_plan.py:144-189 | the plan is the entry of each delivery after expiry, or the first error, unreadable times included |
| DispatchPlan.DispatchTells | tools/peer_mesh_dispatch_plan.py:93-174 | decision, way of sending and address by the delivery's state and the route to its target |
| SendDryRun.ApplyReadyOutcome | tools/peer_mesh_send_dry_run.py:126-179 | the outcome of a send applied to the delivery it is looked up by |
| SendDryRun.RunDryRun | tools/peer_mesh_send_dry_run.py:204-260 | the run succeeds on exactly the valid inputs whose pending expiries parse, and ends in the plan carried out |
| SendDryRun.AttemptsMatchPlanIff | tools/peer_mesh_send_dry_run.py:204-260 | attempt counts rise exactly on ready dispatches iff no delivery to be sent stands behind another for its target and message |
| SendDryRun.DryRunConserves | tools/peer_mesh_send_dry_run.py:204-260 | without such twins ids, order and untouched deliveries stay and each action reports the final state |
| SendDryRun.DryRunSendsAsListed | tools/peer_mesh_send_dry_run.py:73-260 | every pending delivery over a route that is on is sent with the outcome listed for it, or with silence if none is, told in state, attempts, last attempt, receipt and error; any other is untouched |
| SendDryRun.TwinTakesTheSend | tools/peer_mesh_delivery.py:104-108 | two deliveries of one message where the send for the second is booked on the first |
| SendDryRun.SummarizeActions | tools/peer_mesh_send_dry_run.py:182-201 | the five counters count what they name and add up to the actions |
| SendDryRun.PendingIsAccountedFor | tools/peer_mesh_send_dry_run.py:204-260 | pending before = pending after + newly expired + accepted + duplicate + rejected |
| RetryPlan.RoundsToNearestEven | tools/peer_mesh_retry_plan.py:91-98 | rounding gives a nearest integer, the even one of two |
| RetryPlan.DelayBoundedAndMonotone | tools/peer_mesh_retry_plan.py:91-98 | from the first attempt on, the delay lies within the policy's bounds and never shrinks |
| RetryPlan.DelayIsRoundedBackoff | tools/peer_mesh_retry_plan.py:91-98 | the delays start at the minimum, each a multiple of the one before, rounded to nearest even and cut to the maximum |
| RetryPlan.BuildRetryPlan | tools/peer_mesh_retry_plan.py:158-220 | the plan is the decision for each delivery after expiry, or the first error; the last attempt must parse exactly where a backoff is counted from it |
| RetryPlan.RetryTells | tools/peer_mesh_retry_plan.py:101-200 | each decision by the fields of the delivery; due from the last attempt plus the delay on, announced for that time without its fraction of a second |
| RetryPlan.DecisionsMoveForward | tools/peer_mesh_retry_plan.py:158-200 | as time passes a decision stays, a wait becomes due, or a pending delivery expires |
| RetryPlan.DueAfterAnnouncedTime | tools/peer_mesh_retry_plan.py:110-200 | a live delivery is due from exactly the announced time plus the fraction of a second of its last attempt on |
| RetryPlan.AnnouncedTimeKeptIff | tools/peer_mesh_retry_plan.py:53-54 | it is due at the announced time exactly when its last attempt was at a whole second |
| RetryPlan.AnnouncedTooEarly | tools/peer_mesh_retry_plan.py:53-54 | an attempt at half a second whose repetition is still waiting at the announced time |
| RetryPlan.SendsAreBoundedAndSpaced | tools/peer_mesh_retry_plan.py:158-200 | sending only when due respects the attempt limit and the backoff between sends |
| Handoff.CheckEnrollments | tools/peer_authority_source_handoff.py:97-137 | no error iff every enrollment is in order, and the two indexes hold those enrollments |
| Handoff.CheckEvidence | tools/peer_authority_source_handoff.py:139-182 | no error iff every proposal is in order and its signer's key enrolled |
| Handoff.CheckReciprocity | tools/peer_authority_source_handoff.py:184-202 | no error iff each proposal has exactly one answer with equal bound fields and the other role |
| Handoff.CheckPeers | tools/peer_authority_source_handoff.py:204-247 | no error iff each peer's status is just what its evidence supports |
| Handoff.ValidateHandoff | tools/peer_authority_source_handoff.py:76-251 | no errors if and only if the document is accepted |
| Handoff.PartnersPairUp | tools/peer_authority_source_handoff.py:184-202 | answering is an involution without fixed points, with one role of each kind in a pair |
| Handoff.OrderedPairsDistinct | tools/peer_authority_source_handoff.py:184-202 | no (signer, counterparty) pair repeats and nobody signs about itself |
| Handoff.RolesBalance | tools/peer_authority_source_handoff.py:201-202 | as many group owners as clients, and nothing else |
| Handoff.AcceptedPairsUp | tools/peer_authority_source_handoff.py:139-202 | in an accepted handoff the proposals come in pairs, hence in even number |
| Handoff.AcceptedProposalTells | tools/peer_authority_source_handoff.py:139-202 | an accepted proposal has its own id, a window of up to sixty seconds, an enrolled signer under the key it uses, and one answer with equal bound fields and window and the other role |
| Handoff.TextBeforeIff | tools/peer_authority_source_handoff.py:209-210 | text order by the first place where two texts differ |
| Handoff.BothEndsEnrolled | tools/peer_authority_source_handoff.py:176-178 | both ends of a pair are enrolled under the keys they sign with |
| Handoff.EligibleIff | tools/peer_authority_source_handoff.py:215-241 | a peer is eligible exactly with its own enrollment and a listed proposal it signed |
| RouteHealth.LatestActions | tools/peer_mesh_route_health.py:94-98 | one pass keeps the last action for each target |
| RouteHealth.BuildRouteHealth | tools/peer_mesh_route_health.py:189-235 | succeeds exactly on valid routes with evidence of the same source, and reports each route by its newest evidence |
| RouteHealth.Tally | tools/peer_mesh_route_health.py:173-186 | the counters count each status and add up to the routes |
| RouteHealth.NewestEvidenceDecides | tools/peer_mesh_route_health.py:94-98 | the last action toward a target is the one looked up |
| RouteHealth.StatusTells | tools/peer_mesh_route_health.py:101-155 | each of the five statuses exactly by what the newest action and retry say |
| RouteHealth.HealthByNewest | tools/peer_mesh_route_health.py:189-235 | a report judges each route by the newest action and retry toward its target |
| RouteHistory.TrendIff | tools/peer_mesh_route_history.py:74-86 | each trend says exactly how the last status compares with the first, and whether anything changed |
| RouteHistory.TransitionsCountChanges | tools/peer_mesh_route_history.py:89-98 | the transitions are the samples whose status differs from the one before |
| RouteHistory.InOrderSorts | tools/peer_mesh_route_history.py:70-71 | sorting permutes the reports into time order |
| RouteHistory.GatherSamples | tools/peer_mesh_route_history.py:153-161 | samples of a target are what the reports say of it, in their order, and no target is listed twice |
| RouteHistory.SamplesShow | tools/peer_mesh_route_history.py:153-157 | the samples of a target are what the reports say of it |
| RouteHistory.SamplesInOrder | tools/peer_mesh_route_history.py:70-71 | and from reports in time order they are in time order |
| RouteHistory.MakeEntry | tools/peer_mesh_route_history.py:89-113 | the loop over the samples makes the entry |
| RouteHistory.BuildHistory | tools/peer_mesh_route_history.py:137-180 | succeeds exactly on reports of one source whose times all parse; one entry for each target seen, from its samples in time order |
| RouteHistory.SteadyIsStable | tools/peer_mesh_route_history.py:89-113 | a route that all of several reports see alike is stable and keeps its status |
| RouteHistory.SteadyIsTracked | tools/peer_mesh_route_history.py:137-180 | a route that every report mentions is in the history |
| Readiness.BuildReadiness | tools/peer_mesh_live_lab_readiness.py:202-299 | not ready iff the policy is not met by the history or a route; a required approval is the only reason for a review |
| Readiness.CountedIff | tools/peer_mesh_live_lab_readiness.py:224-262 | a last status is counted exactly when some route has it |
| Topology.Summarize | tools/peer_mesh_topology.py:307-325 | the edge counters count what they name and add up to the edges |
| Topology.BuildTopology | tools/peer_mesh_topology.py:376-408 | blocked iff a threshold or strict requirement fails; ready iff all edges are reachable as well |
| Topology.EdgeCount | tools/peer_mesh_topology.py:279-304 | one edge to each expected agent but the source |
| Topology.EdgesAreExpected | tools/peer_mesh_topology.py:279-304 | the edges lead to exactly the expected agents but the source |
| Topology.EdgeTells | tools/peer_mesh_topology.py:261-276 | what an edge says, exactly by whether a route leads to the agent and what the health report says of it |
| Topology.HealthyRoutesReach | tools/peer_mesh_topology.py:261-304 | over healthy routes the reachable edges are the covered agents and the rest miss a route |
| Topology.CoveredIff | tools/peer_mesh_topology.py:279-325 | the count of covered agents is maximal exactly when every expected agent has a route |
| PreflightFixture.SyntheticSendReport | tools/peer_mesh_preflight_clear_fixture.py:204-241 | one accepted action for each configured route |
| PreflightFixture.ClearEvidenceIsClear | tools/peer_mesh_preflight_clear_fixture.py:380-387 | that evidence makes every route healthy, except the disabled ones |
| PreflightFixture.HistoryOfClear | tools/peer_mesh_preflight_clear_fixture.py:388-388 | every history entry belongs to a configured route, is stable and ends in the route's status |
| PreflightFixture.HistoryStatuses | tools/peer_mesh_preflight_clear_fixture.py:388-394 | no unknown, unavailable or worsening route; disabled ones are counted iff configured |
| PreflightFixture.TopologyOfClear | tools/peer_mesh_preflight_clear_fixture.py:400-405 | without disabled routes the reachable edges are exactly the covered agents |
| PreflightFixture.ClearPolicyMet | tools/peer_mesh_preflight_clear_fixture.py:244-256 | the derived policy is valid iff there is a route and met iff none is disabled |
| PreflightFixture.BuildPreflight | tools/peer_mesh_preflight_clear_fixture.py:353-450 | the chain succeeds exactly on valid inputs with a route; ready, review or blocked by a condition on routes and topology manifest alone |
| VncFrame.ReadExact | tools/capture_vnc_screenshot.py:18-27 | the next bytes whatever the fragments; an error exactly when the server sends fewer |
| VncFrame.Capture | tools/capture_vnc_screenshot.py:83-112 | the outcome is a function of the bytes sent, for every fragmentation |
| VncFrame.Blit | tools/capture_vnc_screenshot.py:99-103 | the rows of one rectangle, copied by slice assignment |
| VncFrame.SwapChannels | tools/capture_vnc_screenshot.py:105-112 | red, green, blue and opaque at every pixel, or an index error when the framebuffer grew |
| VncFrame.RectsDecode | tools/capture_vnc_screenshot.py:92-103 | encoded rectangles are read back and copied in order |
| VncFrame.UpdateDecodes | tools/capture_vnc_screenshot.py:83-112 | what is captured from the bytes of an update, whatever follows them, is the picture its rectangles make; the rows below speak of that picture |
| VncFrame.TruncatedUpdateFails | tools/capture_vnc_screenshot.py:18-27 | an update that breaks off anywhere before its last byte is a closed connection |
| VncFrame.OtherEncodingFails | tools/capture_vnc_screenshot.py:92-97 | a rectangle in another encoding ends the capture, whatever came before it |
| VncFrame.UpdateSucceedsIff | tools/capture_vnc_screenshot.py:91-112 | a well-formed update gives an image exactly when every rectangle fits, and otherwise an index error |
| VncFrame.BelowTheScreenFails | tools/capture_vnc_screenshot.py:99-112 | a rectangle just below a screen of one pixel is an index error |
| VncFrame.ImageShowsLastRow | tools/capture_vnc_screenshot.py:91-112 | whenever the update succeeds, each pixel is that of the row written to it last, rows that wrap over the right edge included |
| VncFrame.FindLastWriter | tools/capture_vnc_screenshot.py:91-103 | a pixel that some row writes has a last writer, so the two image rows account for every pixel |
| VncFrame.ImageShowsLastWriter | tools/capture_vnc_screenshot.py:91-112 | inside the screen each pixel is the red, green and blue of the last rectangle covering it, opaque |
| VncFrame.ImageIsBlackElsewhere | tools/capture_vnc_screenshot.py:91-112 | a pixel that no row of any rectangle writes is black and opaque |
| VncFrame.AreaIsProduct | tools/capture_vnc_screenshot.py:91-91 | the pixel count used throughout is rows times width |
| HeartbeatLog.LogFile.Append | scripts/termux_fleet_agent.py:109-113 | an append adds one entry to the log |
| HeartbeatLog.LogFile.Latest | tools/wait_for_tls_recovery_heartbeat.py:22-44 | the reader returns the entry appended last, or nothing before the first |
| HeartbeatLog.ReadLatest | tools/wait_for_tls_recovery_heartbeat.py:22-44 | the scan ends and returns the one line its stopping rule admits |
| HeartbeatLog.StripTrims | tools/wait_for_tls_recovery_heartbeat.py:38-44 | stripping takes away white space on both sides, and all of it |
| HeartbeatLog.LatestIsLast | tools/wait_for_tls_recovery_heartbeat.py:22-44 | after any appends that line is the last entry, however long the file |
| HeartbeatLog.ReadsLastLineIff | tools/wait_for_tls_recovery_heartbeat.py:29-38 | on any file the last line is returned unless the newline before it is at offset 0 |
| HeartbeatLog.HiddenObject | tools/wait_for_tls_recovery_heartbeat.py:29-38 | a newline and an object: nothing is read |
| DesktopMapping.ClampIsIdle | examples/spatial-desktop-panel/app/src/main/java/io/github/mesmerprism/questtermuxlab/spatialdesktop/DesktopMapping.kt:16-20 | inside the content the clamp never changes a coordinate |
| DesktopMapping.MapsToIff | examples/spatial-desktop-panel/app/src/main/java/io/github/mesmerprism/questtermuxlab/spatialdesktop/DesktopMapping.kt:9-21 | a touch maps to a pixel exactly when the pixel is on the desktop and the touch in its square |
| DesktopMapping.CentreRoundTrip | examples/spatial-desktop-panel/app/src/main/java/io/github/mesmerprism/questtermuxlab/spatialdesktop/DesktopMapping.kt:9-21 | the centre of a pixel's square maps back to the pixel |
| DesktopMapping.MapIsMonotone | examples/spatial-desktop-panel/app/src/main/java/io/github/mesmerprism/questtermuxlab/spatialdesktop/DesktopMapping.kt:9-21 | right never maps left and down never maps up |
| DesktopMapping.ContentFits | examples/spatial-desktop-panel/app/src/main/java/io/github/mesmerprism/questtermuxlab/spatialdesktop/DesktopMapping.kt:11-15 | the content lies in the view and touches two opposite edges |
| DesktopMapping.ContentIsCentred | examples/spatial-desktop-panel/app/src/main/java/io/github/mesmerprism/questtermuxlab/spatialdesktop/DesktopMapping.kt:11-15 | the content is centred and keeps its shape |

## Left out

- HTTP handlers, command lines, JSON reading and writing, the audit files and directory creation: input and output around the state.
- Interleaving of server threads: the state classes take no locks, so a handler call is one atomic step.
- SHA-256: a digest is an arbitrary function of the payload in the dedupe proofs; what it covers and no branch reads is one text of the payload.
- The text form of the idempotency index key: the pair of agent and key, so that texts which join alike are not confused.
- Errors of the file system in a round (names it refuses or folds in case, a round directory that is not empty, an agent's directory in the place of the report): directories are distinct texts, and writing one succeeds.
- Outboxes, counters and the report document of a round: they record what the inboxes already show.
- Schema and required fields of a heartbeat document, and its number fields: one flag that says it converts to an envelope.
- Type errors: a time without an offset compared with one that has one, or a list where a number is asked for. A value is absent, one that raises a value error, or an instant or number.
- Times before the first and after the last date the program can represent: sums of a time and a delay never overflow.
- Heartbeat recording, recovery candidates and summaries of the controller, and the reply texts of the receiver: the receiver's summary is kept as far as it can raise, since receipts are made from it.
- Completion of mirror intents: one attached to a finished or later expired command gets no further result.
- Numeric limits and payload contents of mirror intents: kept as one flag that says the conversion succeeds.
- ADB, downloads, signature checks and package tools: each update request comes with what they would answer, with or without the downgrade flag; temporary files are not modelled, nor changes to the device by anyone but the agent.
- Floating-point backoff: exact reals, with the rounding to even written out.
- URL, path and schema checks of route configurations and the other documents: only the checks that tie documents together are kept.
- The per-field format tests of a handoff: one flag for each object; its error messages carry the index of the object instead of texts.
- Peer ids in a handoff that are no text, on which sorting raises: ids are texts, and sorted and unique is strictly ascending.
- Sorted order of the entries in a route history and of the edges in a topology report: a history is any listing of its entries, edges follow the manifest.
- Message texts, reasons, numbering and generated-artifact lists of the preflight chain, and the one permitted experiment scope: no branch of the verdict depends on them.
- The handshake before the framebuffer update and the PNG file: the model starts at the update message.
- Socket timeouts and appends seen half-written by the tail reader: a read either gets bytes or meets the end, and an append is atomic.
- Decoding of the bytes and of the JSON the tail reader finds, and the recovery predicate over it: the file is the text its bytes decode to.
- Single-precision touch coordinates: exact reals.
- The remaining report builders, file-drop and cleanup tools, scanners, and the Android and Kotlin user interface: field checks, counting and platform calls.
