# Proofs about the relay, the refresh services, the option maps and the built-in releases

This project models the parts of the repository whose behaviour is hardest to see from one function, and proves
what they are for. `dafny verify dfyconfig.toml` checks everything.

**Acknowledged relay** (`packages/client`, with the frame codec of `packages/shared`). `RelayTransport` is the
encoder and the assembler; `RelayEndpoint` one endpoint as a state machine whose steps are the stretches of code
between two calls into code it does not own (sendFrame, listeners), so that whatever runs re-entrantly in such a
call is simply more steps; `RelaySender` what every step keeps; `RelaySystem` two endpoints over a network that
may lose, repeat and reorder; `RelayFifo` two endpoints over an ordered link that refuses, loses everything at a
reconnect and sees a replay; `RelayRuns` shows runs of it. `RelayBatchQueue`, `RelayDeadline` and `RelayProtocol` are
the objects of the code with their fields. Each method of the protocol object keeps a ghost endpoint in step with its fields and shows that
what it does, with every re-entrant call its environment makes, is a run of the endpoint machine; so the results
about reachable endpoints hold of the fields (`FieldsAreExact`). `LegacyRelay` is the older relay, with a
sendFrame that may call back, and `LegacyRelayProtocol` its object.

**Refresh services** (`packages/provider`). `RefreshWaiters` is the bookkeeping of promises both services share;
`AccountRefresh` and `RegistryRefresh` are their loops, cut at each await and at each call to listeners;
`AccountProviderService` and `ProviderRegistryService` the objects, one method for each such stretch;
`ProviderRegistry` the view and indexes behind the latter, with the order of what the resolver lists;
`RefreshSystem` both of them over one config source.

**Option maps** (`packages/model-option-map`). `CelTokens`, `CelParsing`, `CelParser`, `CelEvaluation` and
`CelCompiler` are the expression language from text to value; `CelLexicon` says what tokens are and `CelMeaning` what
expressions mean, apart from the code that finds them; `CelComplaints` what is said of a source that is none;
`CelText` and `CelRoundTrip` write trees down and compile them again; `JsonMergePatch` applies the results.

**Built-in releases** (`packages/provider-node`). `RefreshLease` and `RemoteSynchronizer` are the lease over the
shared control file; `BuiltinReleases` and `BuiltinSource` the shared release files.

Where a property one would expect is not true of the code, the table has a run that shows it and a lemma that says
when it holds:

- waiters and `AThrowingListenerStrands`: `StrandedWhen`;
- fresh publication and `FailClosedIgnoresPending`, `FailClosedIsOutdated`: `OnlyFreshIsPublished`,
  `PublishedRevisionWasHeld`;
- answers by a round and `ADyingLoopGivesUpNewerRequests`: `OnlyDeathOrDisposalGivesUp`, `ALoopDiesWhen`;
- the registry's view and `ADuplicateIsShown`: `ViewAndSnapshotPart`, `ViewIsThePublishedOne`;
- convergence and `AThrowingListenerHidesAChange`: `Converged`, `StaleWhen`, `StaleUntilAsked`;
- no gap over an ordered link and `OvertakingIsAGap`: `DeliveryFaultsWhen`;
- the parser round trip and `TextIsTakenForABracket`: `ParserTreesAreTheWellFormedOnes`;
- the older relay's deliveries and `GenerationsAreNotTold`: `DeliversAPrefixWhen`;
- its ascending numbers and `ASendInsideAFlush`, `ASendInsideASend`: `NumbersAscendWhen`, `UnnestedNumbersAscend`;
- its account of every frame and `ThenAFrameIsLost`: `AFrameIsLostWhen`, `TheCountIsRightWhen`, `UndisturbedIsRight`;
- back-off and `AForcedRefreshCancelled`: `BackoffIsKept`, `CancellationLiftsTheDelay`;
- exclusion and `TwoEndpointsOverlap`: `ExclusionHoldsWhen`, and `LeasesDoNotOverlap` for one endpoint per file.

The comment at `packages/provider/src/account-provider-service.ts:170` says that an outdated round is never published
even briefly; the fail-closed snapshot is, and the model follows the code.

What is outside is a parameter: clocks are values that do not decrease, timers the time they are armed for, sendFrame
and listeners a tape of reactions, sources and resolvers the answers that arrive, files one cell that is accessed under
its lock. CRC-32, the byte meters, number arithmetic, white space and character codes are functions passed in.

## Model

| member | source | states |
|---|---|---|
| RelayTypes.ResolveLimits | packages/client/src/webRemoteControlAcknowledgedRelayProtocolTypes.ts:111-155 | limits are refused if and only if one that is given is not a safe integer (positive, or not negative for the low mark) or the low mark is above the high one; the marks are those given or 1 MiB and 256 KiB; replay buffer, grace period and assembly timeout are what is given below 8 MiB, 45 s and 30 s, and these caps in every other case |
| RelayTransport.DecodedBudget | packages/shared/src/web-remote-control-rpc-transport.ts:316-345 | the largest number of message bytes whose frame stays within the envelope limit |
| RelayTransport.FindDecodedBudget | packages/shared/src/web-remote-control-rpc-transport.ts:316-345 | the binary search finds that number |
| RelayTransport.Base64Groups | packages/shared/src/web-remote-control-rpc-transport.ts:289-291 | base64 takes four characters for each started group of three bytes |
| RelayTransport.Plan | packages/shared/src/web-remote-control-rpc-transport.ts:381-406 | the fragment count found fits the fragment limit, the budget of that count and the sequence range |
| RelayTransport.EncodeIsBatch | packages/shared/src/web-remote-control-rpc-transport.ts:348-431 | whatever the encoder returns has consecutive sequence numbers from the first one asked for, one shared header, every frame within the envelope limit, and data that adds up to the message |
| RelayTransport.EncodesWhen | packages/shared/src/web-remote-control-rpc-transport.ts:348-431 | for any meter that counts a JSON text, a message can be encoded if and only if its numbers are safe, it has 1 to 16 MiB bytes and some number of frames up to 64 suffices for it; it is then cut into the fewest frames that suffice, each but the last with all the bytes that fit, and the internal envelope error never occurs |
| RelayTransport.SeqNamesFrame | packages/shared/src/web-remote-control-rpc-transport.ts:408-430 | over a whole sending history a physical sequence number names one frame only |
| RelayTransport.OldFrameIsDuplicate | packages/shared/src/web-remote-control-rpc-transport.ts:643-675 | a frame the assembler has passed, whenever it turns up again, is a duplicate answered with the last completed message |
| RelayTransport.StageOfBatch | packages/shared/src/web-remote-control-rpc-transport.ts:696-764 | staging the next frame of a batch never faults; the last frame of it yields the message itself |
| RelayTransport.OnlyIntactMessagesComplete | packages/shared/src/web-remote-control-rpc-transport.ts:602-765 | any well-formed frame, whoever made it: only the next frame of the next message is staged, as the next missing fragment; a message completes only at its last fragment, with the announced length and checksum, and is the staged fragments in order; a duplicate changes nothing and, where its frame is still known, is the same frame |
| RelayTransport.AssemblerFollowsHistory | packages/shared/src/web-remote-control-rpc-transport.ts:602-765 | on any frame of the sender's history, however often and in whatever order it arrives: old frames are duplicates, the next frame advances and at a batch's end completes exactly that message, any later frame is a physical gap; no other fault is possible but the assembly timeout |
| RelaySender.StepKeeps | packages/client/src/webRemoteControlAcknowledgedRelayProtocol.ts:124-378 | the endpoint invariant (queue, cursor, counters, bytes, ages, send order, wire bound, saturation edges) survives every stretch of code between two outside calls, wherever it is nested |
| RelaySender.SenderSafety | packages/client/src/webRemoteControlAcknowledgedRelayProtocol.ts:124-180 | in every reachable live state the queue is exactly the messages after lastAcked, sent before the cursor, partly sent at it, untouched after it; the byte counter is the sum of what the meter says of every frame held and within the cap (the clamp at 0 never acts); saturation respects both marks and its events alternate |
| RelaySender.AMessageIsAdmittedWhen | packages/client/src/webRemoteControlAcknowledgedRelayProtocol.ts:124-180 | a message is admitted if and only if it can be encoded, the meter gives each frame 1 byte to 1 MiB, and the sum over these and all held frames is within the cap; the endpoint saturates exactly when the sum exceeds the high mark; otherwise it degrades with the reason that applies |
| RelaySender.AnAckReleases | packages/client/src/webRemoteControlAcknowledgedRelayProtocol.ts:317-335 | an old ACK changes nothing, one for a message not yet sent degrades, any other releases exactly the messages up to it; saturation ends exactly when the bytes left are within the low mark |
| RelayEndpoint.MeasureIsTheSum | packages/client/src/webRemoteControlAcknowledgedRelayProtocolTypes.ts:84-101 | frames can be measured if and only if the meter gives each 1 byte to 1 MiB, and then measure the sum |
| RelayEndpoint.MeterSumIsASum | packages/client/src/webRemoteControlAcknowledgedRelayProtocolTypes.ts:84-101 | the sum is 0 for no frame, the meter's value for one, and additive |
| RelayEndpoint.FramesAreHeldInOrder | packages/client/src/webRemoteControlAcknowledgedRelayProtocol.ts:161-168 | the frames held are those of each batch, in the order of the queue |
| RelaySender.FramesLeaveInOrder | packages/client/src/webRemoteControlAcknowledgedRelayProtocol.ts:198-239 | a data frame goes out only while no ACK is pending; its number exceeds every one taken since the last replay, and the numbers it skips belong to acknowledged messages |
| RelaySender.AcceptedAckIsCleared | packages/client/src/webRemoteControlAcknowledgedRelayProtocol.ts:203-218 | when the link accepts an ACK, the pending ACK is still that one, so it is cleared |
| RelaySender.HeadAndAckSuffice | packages/client/src/webRemoteControlAcknowledgedRelayDeadline.ts:53-76 | looking at the queue head and the coalesced ACK is enough: if neither has expired, no queued batch and no pending ACK is older than graceMs |
| RelaySystem.DeliveredWasSent | packages/client/src/webRemoteControlAcknowledgedRelayProtocol.ts:230-237 | a delivered message was fully sent, or its last frame is inside the sendFrame call in progress |
| RelaySystem.FrameAsReceiver | packages/client/src/webRemoteControlAcknowledgedRelayProtocol.ts:279-305 | a frame of a correct peer degrades a live endpoint if and only if the assembly is too old or the frame number is beyond the next one; no other fault is possible |
| RelaySystem.AckAsReceiver | packages/client/src/webRemoteControlAcknowledgedRelayProtocol.ts:317-335 | an ACK of a correct peer never claims more than was fully sent, even inside sendFrame, and is processed without a fault |
| RelaySystem.DeliveryIsAPrefix | packages/client/src/webRemoteControlAcknowledgedRelayProtocol.ts:181-335 | over any losing, repeating, reordering network and any nesting of calls each side delivers exactly the first messages the other reserved, once each and in order; lastAcked <= delivered <= highestFullySent, up to the message whose last frame is being handed over |
| RelaySystem.OnlyGapsDegrade | packages/client/src/webRemoteControlAcknowledgedRelayProtocol.ts:269-335 | whatever the network hands over to either side, now or out of the deferred queue, a correct peer never raises futureAck, invalidPayload or any other fault than a physical gap, exactly for a frame beyond the next one, or the assembly timeout, exactly for an expired assembly |
| RelayFifo.DeliveryFaultsWhen | packages/client/src/webRemoteControlAcknowledgedRelayProtocol.ts:251-305 | over an ordered link that may refuse anything, lose all in flight at a reconnect and then see a replay, and that may hand over at any time, a payload degrades an endpoint if and only if its assembly has expired or the payload is a frame beyond the next one; the latter only if what it needs is still deferred |
| RelayFifo.DeferredFaultsWhen | packages/client/src/webRemoteControlAcknowledgedRelayProtocol.ts:262-268 | a payload drained from the deferred queue degrades an endpoint if and only if it is a frame for an expired assembly |
| RelayFifo.QuiescentIsComplete | packages/client/src/webRemoteControlAcknowledgedRelayProtocol.ts:181-335 | reliable delivery: when both ends live and nothing is left to do, each side has delivered exactly the other's messages, everything is acknowledged and no byte is held |
| RelayRuns.OneMessageCompletes | packages/client/src/webRemoteControlAcknowledgedRelayProtocol.ts:181-335 | such a state is reached with a message delivered and acknowledged |
| RelayRuns.OvertakingIsAGap | packages/client/src/webRemoteControlAcknowledgedRelayProtocol.ts:251-268 | acceptPayload does not look at the deferred queue: a run in which two frames are deferred during sendFrame, the first is drained, and the third, handed over from its listener, is a gap |
| RelayBatchQueue.BatchQueue.StorageIsBounded | packages/client/src/webRemoteControlAcknowledgedRelayBatchQueue.ts:22-31 | storage length is at most max(active + 1023, 2 * active - 1); released slots hold no batch; over any run compaction has copied no more slots than were released |
| RelayBatchQueue.BatchQueue.Append | packages/client/src/webRemoteControlAcknowledgedRelayBatchQueue.ts:39-41 | the batch is added at the end, the cursor stays |
| RelayBatchQueue.BatchQueue.NextUnsent | packages/client/src/webRemoteControlAcknowledgedRelayBatchQueue.ts:14-16 | the batch at the cursor, or none at the end |
| RelayBatchQueue.BatchQueue.Oldest | packages/client/src/webRemoteControlAcknowledgedRelayBatchQueue.ts:10-12 | the first batch not yet released |
| RelayBatchQueue.BatchQueue.ActiveCount | packages/client/src/webRemoteControlAcknowledgedRelayBatchQueue.ts:18-20 | how many batches are held |
| RelayBatchQueue.BatchQueue.RetainedReferences | packages/client/src/webRemoteControlAcknowledgedRelayBatchQueue.ts:27-31 | as many batches are referenced as are held |
| RelayBatchQueue.BatchQueue.RetainedBytes | packages/client/src/webRemoteControlAcknowledgedRelayBatchQueue.ts:33-37 | the bytes referenced are those of the batches held |
| RelayBatchQueue.BatchQueue.AdvanceUnsent | packages/client/src/webRemoteControlAcknowledgedRelayBatchQueue.ts:43-45 | the cursor moves one batch on and never past the end; the contents stay |
| RelayBatchQueue.BatchQueue.ResetReplay | packages/client/src/webRemoteControlAcknowledgedRelayBatchQueue.ts:47-53 | every held batch starts again from its first frame, and the cursor at the head |
| RelayBatchQueue.BatchQueue.ReleaseThrough | packages/client/src/webRemoteControlAcknowledgedRelayBatchQueue.ts:55-70 | exactly the batches a cumulative ACK covers leave from the head; their bytes and number are returned; the cursor keeps its batch |
| RelayBatchQueue.BatchQueue.CompactReleasedPrefix | packages/client/src/webRemoteControlAcknowledgedRelayBatchQueue.ts:78-91 | contents and cursor are unchanged; afterwards the released prefix is short or less than half |
| RelayBatchQueue.BatchQueue.Clear | packages/client/src/webRemoteControlAcknowledgedRelayBatchQueue.ts:72-76 | nothing is held or referenced any more |
| RelayDeadline.Deadline.Select | packages/client/src/webRemoteControlAcknowledgedRelayDeadline.ts:53-76 | the earlier of the two deadlines with its own fault; the ACK if both are equally old |
| RelayDeadline.Deadline.Check | packages/client/src/webRemoteControlAcknowledgedRelayDeadline.ts:29-35 | a fault exactly when something is overdue; when none is reported neither entry is older than graceMs |
| RelayDeadline.Deadline.Refresh | packages/client/src/webRemoteControlAcknowledgedRelayDeadline.ts:37-46 | the armed timer is that of the earliest deadline, or there is none |
| RelayProtocol.MeasureBatch | packages/client/src/webRemoteControlAcknowledgedRelayProtocolTypes.ts:84-101 | the loop fails exactly when the meter gives a frame less than 1 byte or more than 1 MiB, and else adds up what the meter says |
| RelayProtocol.AcknowledgedRelayProtocol.constructor | packages/client/src/webRemoteControlAcknowledgedRelayProtocol.ts:69-104 | a new object is in the initial state of the endpoint machine |
| RelayProtocol.AcknowledgedRelayProtocol.CheckDeadline | packages/client/src/webRemoteControlAcknowledgedRelayProtocol.ts:86-102 | true exactly if the endpoint degraded, with the fault of an overdue entry; otherwise nothing at all is overdue and only the clock moved |
| RelayProtocol.AcknowledgedRelayProtocol.ReserveMessage | packages/client/src/webRemoteControlAcknowledgedRelayProtocol.ts:124-174 | a live endpoint takes the message in as its next one, whole and before anything else is reserved; if nothing is refused and it is not nested in a flush, everything is on the link afterwards |
| RelayProtocol.AcknowledgedRelayProtocol.TryReserve | packages/client/src/webRemoteControlAcknowledgedRelayProtocol.ts:126-172 | the first thing that happens is the step that admits the message or degrades the endpoint, and AMessageIsAdmittedWhen says which; all else is a run from there |
| RelayProtocol.AcknowledgedRelayProtocol.AppendBatch | packages/client/src/webRemoteControlAcknowledgedRelayProtocol.ts:159-180 | queue, byte counter, sequence counters and saturation flag after an admission |
| RelayProtocol.AcknowledgedRelayProtocol.FlushPendingFrames | packages/client/src/webRemoteControlAcknowledgedRelayProtocol.ts:192-245 | the new state is reached from the old one by a run of the endpoint machine; not nested and with nothing refused, no ACK and no frame is left unsent, and it returns true if the endpoint lives |
| RelayProtocol.AcknowledgedRelayProtocol.InvokeSend | packages/client/src/webRemoteControlAcknowledgedRelayProtocol.ts:181-191 | whatever sendFrame calls re-entrantly, the queue it sends from is only appended to, the cursor and the pending ACK stay; a refusal or a throw is accounted for; the payload precedes all that is sent during the call |
| RelayProtocol.AcknowledgedRelayProtocol.FinishAck | packages/client/src/webRemoteControlAcknowledgedRelayProtocol.ts:214-219 | an accepted ACK is cleared and the timer re-armed |
| RelayProtocol.AcknowledgedRelayProtocol.FinishFrame | packages/client/src/webRemoteControlAcknowledgedRelayProtocol.ts:230-237 | an accepted frame moves the batch's frame index, and with its last frame the cursor and highestFullySent |
| RelayProtocol.AcknowledgedRelayProtocol.ReplayUnacknowledged | packages/client/src/webRemoteControlAcknowledgedRelayProtocol.ts:246-250 | every held batch is rewound and flushed again |
| RelayProtocol.AcknowledgedRelayProtocol.AcceptPayload | packages/client/src/webRemoteControlAcknowledgedRelayProtocol.ts:251-261 | true exactly for a live endpoint and a payload addressed to it; outside sendFrame the first thing that happens is that it is taken in, or the endpoint degrades as overdue; during a call it is queued behind what was deferred before |
| RelayProtocol.AcknowledgedRelayProtocol.DrainQueuedInbound | packages/client/src/webRemoteControlAcknowledgedRelayProtocol.ts:262-268 | outside a sendFrame call nothing deferred is left on a live endpoint |
| RelayProtocol.AcknowledgedRelayProtocol.ProcessInbound | packages/client/src/webRemoteControlAcknowledgedRelayProtocol.ts:269-305 | the first thing that happens is the endpoint machine's step for this payload, all else is a run from there |
| RelayProtocol.AcknowledgedRelayProtocol.ProcessFramePayload | packages/client/src/webRemoteControlAcknowledgedRelayProtocol.ts:279-305 | the first thing that happens is that the frame is taken in: what the assembler makes of it is delivered and owed an ACK, or degrades the endpoint with its fault; all else is a run from there |
| RelayProtocol.AcknowledgedRelayProtocol.QueueAck | packages/client/src/webRemoteControlAcknowledgedRelayProtocol.ts:306-316 | the first thing that happens is that the owed ACK is queued, coalesced upwards; if nothing is refused and it is not nested in a flush, it is sent |
| RelayProtocol.AcknowledgedRelayProtocol.RecordAck | packages/client/src/webRemoteControlAcknowledgedRelayProtocol.ts:308-314 | the pending ACK never goes back, and keeps the time of the first one coalesced into it |
| RelayProtocol.AcknowledgedRelayProtocol.ProcessAckPayload | packages/client/src/webRemoteControlAcknowledgedRelayProtocol.ts:317-335 | the first thing that happens is the step for this ACK: an old one changes nothing, a future one degrades, any other releases what it covers, with drained at the low mark |
| RelayProtocol.AcknowledgedRelayProtocol.ReleaseBatches | packages/client/src/webRemoteControlAcknowledgedRelayProtocol.ts:327-334 | bytes, lastAcked and saturation after a release |
| RelayProtocol.AcknowledgedRelayProtocol.EnterDegraded | packages/client/src/webRemoteControlAcknowledgedRelayProtocol.ts:349-362 | the first thing that happens is that all state is dropped and this fault is noted; a second fault changes nothing |
| RelayProtocol.AcknowledgedRelayProtocol.Dispose | packages/client/src/webRemoteControlAcknowledgedRelayProtocol.ts:363-378 | all state is dropped, nothing is told, everything else stays; the second time nothing happens |
| RelayProtocol.AcknowledgedRelayProtocol.OnDeadlineTimer | packages/client/src/webRemoteControlAcknowledgedRelayDeadline.ts:42-45 | when the timer has fired, the endpoint is dead, or nothing is overdue and the timer is armed for the earliest deadline |
| RelayProtocol.AcknowledgedRelayProtocol.OnAssemblyTimer | packages/client/src/webRemoteControlAcknowledgedRelayProtocol.ts:339-343 | when the timer has fired, a live endpoint has no expired assembly |
| RelayProtocol.AcknowledgedRelayProtocol.FieldsAreExact | packages/client/src/webRemoteControlAcknowledgedRelayProtocol.ts:105-107 | after any calls, re-entrant or not, the fields themselves satisfy the queue, byte, counter and saturation properties |
| RefreshWaiters.SettleWaiters | packages/provider/src/registry-service.ts:257-273 | exactly the waiters up to the generation are told, each once and in order; the others remain |
| RefreshWaiters.SettleKeeps | packages/provider/src/account-provider-service.ts:219-235 | requests stay partitioned into waiting and settled, no request is settled twice, and a round answers only requests made before it started |
| RefreshWaiters.SettleTells | packages/provider/src/account-provider-service.ts:219-235 | exactly the waiters up to the generation are told the outcome, each of them, in the current round; the others go on waiting |
| RefreshWaiters.AskKeeps | packages/provider/src/account-provider-service.ts:112-124 | a request gets the next number and waits |
| AccountRefresh.StepKeeps | packages/provider/src/account-provider-service.ts:112-217 | the loop's invariant holds after every stretch between awaits or listener calls, whatever the sources answer and whichever listeners throw |
| AccountRefresh.RefreshIsAnsweredByALaterRound | packages/provider/src/account-provider-service.ts:112-124 | a refresh promise is settled at most once, and never by a round that was running when it was requested, whether to resolve or to reject it |
| AccountRefresh.PromisesEndAsTheRoundDoes | packages/provider/src/account-provider-service.ts:148-217 | in every run: a round that concludes, with news or with what is known, resolves exactly its waiters with the overlay of its own reads; one that fails before there was a snapshot resolves them with the overlay that grants nothing; any other failed round rejects them; dispose gives up on all; any other step tells nobody |
| AccountRefresh.OutcomesOfAStep | packages/provider/src/account-provider-service.ts:186-213 | a settlement made by a step is Resolved if and only if the step concludes, confirms or fails closed, Rejected if and only if it fails with a snapshot to keep or nothing read, GivenUp if and only if it is dispose |
| AccountRefresh.ARoundKeepsItsReads | packages/provider/src/account-provider-service.ts:157-185 | whatever is called in between, a round concludes with the configuration it read first and the account resolved for it |
| AccountRefresh.ReasonsReachARound | packages/provider/src/account-provider-service.ts:112-178 | no reason is lost: each stays pending until a round begins, and exactly then that round is given all of them and answers all requests so far; when a round begins is stated exactly |
| AccountRefresh.LoopsEndWhen | packages/provider/src/account-provider-service.ts:148-217 | a loop dies exactly with a throwing error listener, fails exactly with a round that rejects, and otherwise returns the snapshot once no reason is pending |
| AccountRefresh.ListenersHearWhen | packages/provider/src/account-provider-service.ts:156-201 | change listeners hear of a conclusion exactly when it replaces a snapshot; error listeners of failed reads, failed or late resolutions and throwing change listeners, and of nothing else |
| AccountRefresh.AWaiterIsNotForgotten | packages/provider/src/account-provider-service.ts:136-146 | an unsettled promise has a running round that answers it or a pending reason that starts one, unless a loop was cut short by a throwing error listener |
| AccountRefresh.StrandedWhen | packages/provider/src/account-provider-service.ts:199-213 | a waiter is stranded by a step if and only if an error listener throws while nothing is pending and someone waits |
| AccountRefresh.AThrowingListenerStrands | packages/provider/src/account-provider-service.ts:199-202 | a run that strands a waiter |
| AccountRefresh.OnlyFreshIsPublished | packages/provider/src/account-provider-service.ts:166-209 | exactly two steps publish: a round that concludes with nothing pending and the built-in revision of its second read, and the fail-closed snapshot of a failed first round; a snapshot is published over a pending request if and only if it is the latter |
| AccountRefresh.FailClosedIgnoresPending | packages/provider/src/account-provider-service.ts:202-208 | a run in which the fail-closed snapshot is published while a newer request is pending |
| AccountProviderService.AccountProviderService.Read | packages/provider/src/account-provider-service.ts:64-71 | a read causes a round only if there is neither a snapshot nor a loop in flight |
| AccountProviderService.AccountProviderService.Refresh | packages/provider/src/account-provider-service.ts:73-77 | a new request with its own promise, or an error once disposed |
| AccountProviderService.AccountProviderService.OnConfigChanged | packages/provider/src/account-provider-service.ts:102-110 | a config change is a request with the reason config:... |
| AccountProviderService.AccountProviderService.RequestRefresh | packages/provider/src/account-provider-service.ts:112-124 | the request step: next generation, reason and waiter added, loop started if idle |
| AccountProviderService.AccountProviderService.FinishRefresh | packages/provider/src/account-provider-service.ts:136-146 | after the loop's promise settled, the next loop starts exactly if a reason is pending and the service lives |
| AccountProviderService.AccountProviderService.OnAccountResolved | packages/provider/src/account-provider-service.ts:159-172 | a failed or late answer goes to the error listeners, any other to the second config read |
| AccountProviderService.AccountProviderService.OnConfigRead | packages/provider/src/account-provider-service.ts:155-158 | a failed read ends the round as an error without a config, otherwise the resolver is asked with what was read |
| AccountProviderService.AccountProviderService.OnConfigReadAgain | packages/provider/src/account-provider-service.ts:173-198 | superseded results are dropped, known ones confirm, new ones are published and told |
| AccountProviderService.AccountProviderService.AfterErrorListeners | packages/provider/src/account-provider-service.ts:199-213 | fail-closed snapshot, rejection, or a loop cut short |
| AccountProviderService.AccountProviderService.AfterChangeListeners | packages/provider/src/account-provider-service.ts:195-199 | a throwing change listener turns into a refresh error; otherwise the loop goes on |
| AccountProviderService.AccountProviderService.Dispose | packages/provider/src/account-provider-service.ts:91-100 | every waiter is given up, once |
| RegistryRefresh.NextKeeps | packages/provider/src/registry-service.ts:143-273 | the registry loop's invariant holds after every stretch between awaits or listener calls |
| RegistryRefresh.SnapshotsAreCoherentAndAnswersFresh | packages/provider/src/registry-service.ts:180-255 | a published snapshot pairs account and config of one built-in revision; promises are settled at most once and by a round whose reads began after the request, unless given up |
| RegistryRefresh.PromisesEndAsTheRoundDoes | packages/provider/src/registry-service.ts:160-255 | in every run: a round that leaves the snapshot, on a mismatch or for the same sources, resolves exactly its waiters with it; one that publishes a new pair resolves them with that pair; a failed round rejects them once its error was told; dispose and the end of a dead loop give up on all; any other step tells nobody and leaves the snapshot |
| RegistryRefresh.ReasonsReachARound | packages/provider/src/registry-service.ts:150-202 | no reason is lost: each stays pending until a round begins, and that round is given all of them and those of the round it replaces; when a round begins is stated exactly |
| RegistryRefresh.ListenersHearWhen | packages/provider/src/registry-service.ts:194-253 | change listeners hear of exactly what is published; error listeners of sources that could not be read or built while nothing newer was requested, and of throwing change listeners |
| RegistryRefresh.OnlyAnEarlyMismatchLeavesWaiters | packages/provider/src/registry-service.ts:174-212 | idle with a snapshot nobody waits; a waiter outlives its generation only after a revision mismatch before the first snapshot |
| RegistryRefresh.OnlyDeathOrDisposalGivesUp | packages/provider/src/registry-service.ts:133-172 | while somebody waits, a step gives a request up if and only if it is dispose or the handler of a loop that died |
| RegistryRefresh.ALoopDiesWhen | packages/provider/src/registry-service.ts:150-255 | a loop dies if and only if an error listener throws or its sources arrive after dispose |
| RegistryRefresh.ADyingLoopGivesUpNewerRequests | packages/provider/src/registry-service.ts:165-172 | a run in which a request made by an error listener that then throws is rejected although no round looked at it |
| RegistryRefresh.ViewAndSnapshotPart | packages/provider/src/registry-service.ts:221-253 | after a step that replaces the view, view and snapshot agree if and only if nothing is listed twice; after any other step they agree if and only if they did before |
| RegistryRefresh.ViewIsThePublishedOne | packages/provider/src/registry-service.ts:221-253 | with the repository's resolver the view is the published one in every state of every run |
| RegistryRefresh.ADuplicateIsShown | packages/provider/src/registry-service.ts:221-253 | with an injected resolver that lists a provider twice, a run in which the view shows what was never published |
| ProviderRegistry.ProviderRegistry.Replace | packages/provider/src/registry.ts:94-99 | the view is replaced in any case; the indexes find exactly what is listed if nothing is listed twice, and otherwise stay as they were |
| ProviderRegistry.Indexes | packages/provider/src/registry.ts:106-125 | the loops build indexes that find exactly what is listed, and fail if and only if a provider or a model of one is listed twice |
| ProviderRegistry.UniqueInOrder | packages/provider/src/owned-order.ts:25-34 | the loop computes the list of which UniqueIsDistinct and UniqueKeepsFirst say what it is |
| ProviderRegistry.UniqueIsDistinct | packages/provider/src/owned-order.ts:25-34 | every value is there, and once |
| ProviderRegistry.UniqueKeepsFirst | packages/provider/src/owned-order.ts:25-34 | values stand in the order in which they first occur |
| ProviderRegistry.OwnedOrderListsOnce | packages/provider/src/owned-order.ts:7-23 | every built-in and personal member is listed, each once, whatever is repeated or unknown in the lists |
| ProviderRegistry.OwnedOrderIs | packages/provider/src/owned-order.ts:7-23 | built-in members nobody ordered come first, then what was ordered, then the other personal ones, each part in the order its own list first mentions them |
| ProviderRegistry.ResolvedProvidersAreIndexable | packages/provider/src/resolver.ts:217-340 | the resolver's registry list never has a provider or a model twice |
| ProviderRegistry.ListedAre | packages/provider/src/resolver.ts:217-340 | a provider is listed if and only if it is among the ids, valid, and has a model that can be executed, and with exactly those models |
| ProviderRegistryService.ProviderRegistryService.Start | packages/provider/src/registry-service.ts:76-89 | the first start, and any start without a snapshot, awaits a new request; otherwise nothing happens |
| ProviderRegistryService.ProviderRegistryService.Refresh | packages/provider/src/registry-service.ts:91-95 | an error before start or after dispose, else a new request |
| ProviderRegistryService.ProviderRegistryService.RefreshFromSource | packages/provider/src/registry-service.ts:143-148 | a source event is a request with the source's name, unless disposed |
| ProviderRegistryService.ProviderRegistryService.FinishRefresh | packages/provider/src/registry-service.ts:161-178 | a dead loop gives up every waiter; a new loop starts exactly if a generation is not completed |
| ProviderRegistryService.ProviderRegistryService.OnSourcesRead | packages/provider/src/registry-service.ts:202-253 | out of date, incoherent, known or new pairs of sources |
| ProviderRegistryService.ProviderRegistryService.BuildAndPublish | packages/provider/src/registry-service.ts:221-253 | a list is put into the registry first; it is published exactly if nothing in it is listed twice, and is an error otherwise |
| ProviderRegistryService.ProviderRegistryService.OnSourcesFailed | packages/provider/src/registry-service.ts:194-200 | a failed read is retried if newer requests exist, else it completes the generation with an error |
| ProviderRegistryService.ProviderRegistryService.AfterErrorListeners | packages/provider/src/registry-service.ts:248-253 | the round's waiters are rejected, or the loop dies |
| ProviderRegistryService.ProviderRegistryService.Dispose | packages/provider/src/registry-service.ts:133-141 | every waiter is given up, once |
| RefreshSystem.ActKeeps | packages/provider/src/registry-service.ts:143-255 | what both services know about the sources survives every interleaving of changes, events, reads, answers and requests |
| RefreshSystem.StepClaims | packages/provider/src/account-provider-service.ts:148-217 | unless a change event is due or a reason pending, what the account service holds is about the current built-in revision |
| RefreshSystem.ReadingKeeps | packages/provider/src/account-provider-service.ts:64-71 | a read of the account source yields the current snapshot, unless a change is going to be told |
| RefreshSystem.Converged | packages/provider/src/registry-service.ts:180-255 | composed convergence: in every quiescent state whose last rounds succeeded, the registry's snapshot is the current config with the current account snapshot, which is about the current built-in revision, provided no account change was hidden by a throwing listener since the registry was last asked for anything |
| RefreshSystem.StaleWhen | packages/provider/src/registry-service.ts:180-255 | without the proviso: the last finding is about the current config and the account snapshot the registry read last; if it was a pair, the registry is out of date if and only if the account service holds another snapshot by now; a mismatch is possible only after a hidden change |
| RefreshSystem.StaleUntilAsked | packages/provider/src/registry-service.ts:143-178 | until its next request an up-to-date registry keeps what it has, and once all is quiet it is out of date if and only if the account service holds another snapshot |
| RefreshSystem.BothStart | packages/provider/src/registry-service.ts:76-89 | such a state is reached |
| RefreshSystem.AThrowingListenerHidesAChange | packages/provider/src/account-provider-service.ts:195-198 | a run that ends quiet, with successful rounds and an outdated registry |
| RefreshSystem.PublishedRevisionWasHeld | packages/provider/src/account-provider-service.ts:148-209 | a published account snapshot is about a built-in revision the source held at some moment since the deciding read began (the second one of a concluded round, the first one of one that fails closed); it is outdated if and only if a change since then left the revision and none came back; then a change is still to be told or, for the fail-closed snapshot, a request is pending |
| RefreshSystem.FailClosedIsOutdated | packages/provider/src/account-provider-service.ts:202-208 | a run in which the fail-closed snapshot is about a revision the source has left |
| JsonMergePatch.MergeObject | packages/model-option-map/src/merge-patch.ts:63-78 | the loop computes MergePatch of section 2 of RFC 7396 |
| JsonMergePatch.MergeIsIdempotent | packages/model-option-map/src/merge-patch.ts:63-78 | merging a patch twice is merging it once |
| JsonMergePatch.CollectWrittenPaths | packages/model-option-map/src/merge-patch.ts:35-49 | exactly the paths from the root to a leaf of the patch, each once, under the prefix |
| JsonMergePatch.PathsOverlap | packages/model-option-map/src/merge-patch.ts:51-57 | true if and only if one path is a prefix of the other |
| JsonMergePatch.LeavesAreApart | packages/model-option-map/src/merge-patch.ts:35-49 | the written paths of one patch never overlap, so a patch does not conflict with itself |
| JsonMergePatch.ClashIffIncompatible | packages/model-option-map/src/merge-patch.ts:20-29 | two patches write overlapping paths if and only if they touch a common member that is a leaf in one of them, at some depth |
| JsonMergePatch.ApplyOrderedJsonMergePatches | packages/model-option-map/src/merge-patch.ts:13-33 | fails if and only if two different patches write prefix-comparable paths, naming such a pair and path; else the result is that of merging in order |
| JsonMergePatch.MergesCommute | packages/model-option-map/src/merge-patch.ts:30-32 | patches that do not conflict commute, for every target |
| JsonMergePatch.AcceptanceIgnoresOrder | packages/model-option-map/src/merge-patch.ts:17-33 | whether the list is accepted does not depend on its order |
| JsonMergePatch.OrderDoesNotMatter | packages/model-option-map/src/merge-patch.ts:17-33 | every permutation of an accepted list gives the same object, for every body |
| JsonMergePatch.EveryLeafReadsBack | packages/model-option-map/src/merge-patch.ts:63-78 | after success every non-null leaf reads back, every null leaf is absent, every empty-object leaf is an object |
| JsonMergePatch.EverythingElseIsUnchanged | packages/model-option-map/src/merge-patch.ts:63-78 | a path not prefix-related to any written path reads as before |
| CelParsing.RoundTrip | packages/model-option-map/src/parser.ts:46-214 | every well-formed tree, written with the parentheses that precedence and left associativity call for, is parsed back as itself, offsets included |
| CelParsing.ParserTreesAreTheWellFormedOnes | packages/model-option-map/src/parser.ts:46-214 | the trees some token list is parsed to are exactly the well-formed ones: safe numbers, known operators, unique keys, no object whose first key is } |
| CelParsing.Written | packages/model-option-map/src/parser.ts:79-180 | the same for any level and any position between tokens that do not continue the expression |
| CelParsing.LeftSpine | packages/model-option-map/src/parser.ts:112-128 | operators of one level associate to the left |
| CelParsing.OperatorsBindByRank | packages/model-option-map/src/parser.ts:79-145 | for every two binary operators without parentheses, the one of higher rank in the table of the grammar binds its operands, the first one if the ranks are equal; signs bind tighter and the conditional looser than both |
| CelComplaints.NamesAndNumbers | packages/model-option-map/src/parser.ts:147-171 | a single name is the input if and only if it is the variable, else true, false, null or an unknown identifier; a single number is itself or not safe |
| CelComplaints.NothingMayFollow | packages/model-option-map/src/parser.ts:61-77 | after any complete expression a token that cannot continue it is refused, as member access if it is a point |
| CelComplaints.NothingBeginsLikeThis | packages/model-option-map/src/parser.ts:147-180 | a token that cannot begin an expression is unexpected, and a name before a parenthesis is a function call |
| CelComplaints.BracketsAreMissed | packages/model-option-map/src/parser.ts:172-222 | a parenthesis, array or object that is not closed is missed at the token in its place; a repeated key and a key that is no string are named where they stand |
| CelParsing.TextIsTakenForABracket | packages/model-option-map/src/parser.ts:182-222 | consume looks at a token's text only: a leading string ] ends an array and a first key } ends an object |
| CelParser.Parser.Parse | packages/model-option-map/src/parser.ts:61-77 | the outcome, tree or error with its offset, is that of the specification; trailing tokens are refused |
| CelParser.Parser.ParseConditional | packages/model-option-map/src/parser.ts:79-86 | outcome and new index are those of the specification |
| CelParser.Parser.ParseBinary | packages/model-option-map/src/parser.ts:88-128 | the same for the six binary levels |
| CelParser.Parser.ParseUnary | packages/model-option-map/src/parser.ts:130-145 | the same for signs and negation |
| CelParser.Parser.ParsePrimary | packages/model-option-map/src/parser.ts:147-180 | the same for literals, names, parentheses and brackets |
| CelParser.Parser.ParseArray | packages/model-option-map/src/parser.ts:182-190 | the loop reads the elements up to the closing bracket |
| CelParser.Parser.ParseObject | packages/model-option-map/src/parser.ts:192-214 | the loop reads the entries, refusing keys that are no strings or occur twice |
| CelParser.Parser.Consume | packages/model-option-map/src/parser.ts:216-220 | moves on exactly if the current token has this text |
| CelParser.Parser.Expect | packages/model-option-map/src/parser.ts:222-229 | moves on, or reports the expected text at the current token |
| CelTokens.TokenizeRestrictedCel | packages/model-option-map/src/tokenizer.ts:22-73 | the loop returns the specified tokens or the specified error; CelLexicon.TokensAreWhatIsRead says which tokens these are |
| CelTokens.ReadString | packages/model-option-map/src/tokenizer.ts:83-124 | the loop reads a string literal with its escapes, or reports where it is broken |
| CelTokens.ReadWhile | packages/model-option-map/src/tokenizer.ts:137-141 | the cursor stops at the first character of another kind |
| CelTokens.TokensCover | packages/model-option-map/src/tokenizer.ts:22-73 | tokens are not empty, do not overlap, stand in source order with white space only between them, carry their own text, and one eof closes them |
| CelTokens.TokensAreReady | packages/model-option-map/src/tokenizer.ts:22-73 | the parser can start on whatever the tokenizer returns |
| CelTokens.QuotedIsOneToken | packages/model-option-map/src/tokenizer.ts:83-135 | a string quoted by escaping quote, backslash, CR and LF is read back as itself, ending just past the closing quote |
| CelLexicon.NumberIsLongest | packages/model-option-map/src/tokenizer.ts:75-81 | a number token is 0 or digits without a leading 0, perhaps a fraction, perhaps an exponent, and no longer piece of the source is such a literal |
| CelLexicon.NameIsLongest | packages/model-option-map/src/tokenizer.ts:44-48 | an identifier is letters, digits and underscores without a leading digit, and no longer piece of the source is one |
| CelLexicon.ReadIsSpelled | packages/model-option-map/src/tokenizer.ts:83-124 | what a string token says is what the text between its quotes spells by the table of escapes |
| CelLexicon.SpelledIsRead | packages/model-option-map/src/tokenizer.ts:83-135 | and any text between quotes that spells something is read as that, up to its closing quote |
| CelLexicon.FourHexIs | packages/model-option-map/src/tokenizer.ts:111-117 | an escape of four hexadecimal digits is the number they write |
| CelLexicon.TokenIs | packages/model-option-map/src/tokenizer.ts:22-73 | the token at a position is the longest number or name, an operator of two characters before one of one, a punctuation mark or a string literal |
| CelLexicon.TokenIsTheOne | packages/model-option-map/src/tokenizer.ts:22-73 | and there is no other: what meets that description is the token the tokenizer takes |
| CelLexicon.TokensAreWhatIsRead | packages/model-option-map/src/tokenizer.ts:22-73 | the tokenizer returns tokens if and only if the source is exactly these tokens with white space between them, and they are the only ones |
| CelLexicon.RefusedWhereUnreadable | packages/model-option-map/src/tokenizer.ts:22-124 | a source is refused where, behind tokens it can be read as, something stands that is no token, and the error names it: a character that begins none, or where and why a string literal is broken |
| CelText.WrittenTokensAreReadBack | packages/model-option-map/src/tokenizer.ts:22-135 | a source written from tokens with blanks between them is cut into exactly those tokens |
| CelRoundTrip.OffsetsDoNotMatter | packages/model-option-map/src/parser.ts:46-222 | two token lists that differ in offsets only are parsed to the same tree or refused for the same reason |
| CelRoundTrip.TreesAreReadBack | packages/model-option-map/src/compiler.ts:67-74 | the text of any well-formed tree, written for a variable, is analysed for that variable to the tree, offsets apart |
| CelRoundTrip.TrimIs | packages/model-option-map/src/compiler.ts:59-65 | trimming takes away exactly the white space around a text |
| CelRoundTrip.TreesCompile | packages/model-option-map/src/compiler.ts:17-33 | with any white space around it, that text compiles to the trimmed text and the tree, offsets apart |
| CelEvaluation.EvaluationIsSound | packages/model-option-map/src/evaluator.ts:17-120 | whatever a parsed expression evaluates to, every number in it is finite and safe if integral, and no object has a key twice |
| CelEvaluation.StaticCheckSuffices | packages/model-option-map/src/compiler.ts:80-88 | what the static check accepts can only evaluate to an object |
| CelEvaluation.EqualityIsMeaning | packages/model-option-map/src/evaluator.ts:180-199 | jsonEquals holds if and only if both values mean the same once the order of keys is forgotten, hence it is an equivalence insensitive to key order |
| CelMeaning.EvaluateIsTheMeaning | packages/model-option-map/src/evaluator.ts:17-159 | the evaluator yields a value or an error exactly as the rules of the language give it, one for each construct: short circuit, branches, operators, the first failing part from left to right, and its offset |
| CelMeaning.InputsAreChecked | packages/model-option-map/src/evaluator.ts:9-15 | an input that is a string or a safe number gets that meaning, any other one is refused |
| CelMeaning.StringOrderIsLexicographic | packages/model-option-map/src/evaluator.ts:122-145 | strings are compared at the first place where they differ, and a proper prefix is less |
| CelMeaning.StringOrderIsTotal | packages/model-option-map/src/evaluator.ts:122-145 | of two strings exactly one is less or they are the same, and less is transitive |
| CelMeaning.OrderIsTotal | packages/model-option-map/src/evaluator.ts:122-145 | numbers and strings each have one total order; numbers on a level, like 0 and -0, need not be equal, strings on a level are |
| CelMeaning.ComparisonsAreOneOrder | packages/model-option-map/src/evaluator.ts:122-145 | the four comparisons of any two such operands are the four questions about that order |
| CelMeaning.AndOrAreDual | packages/model-option-map/src/evaluator.ts:60-72 | && and || are dual under negation for any operands, errors and their offsets included |
| CelCompiler.ObjectError | packages/model-option-map/src/compiler.ts:80-88 | no error exactly for an object literal, or a conditional both of whose branches pass |
| CelCompiler.TheCheckLooksAtEveryBranch | packages/model-option-map/src/compiler.ts:80-88 | the static check accepts exactly what can only come down to object literals, and otherwise names the first branch that is none |
| CelCompiler.OptionMapsYieldObjects | packages/model-option-map/src/compiler.ts:35-57 | the not-an-object error at run time is unreachable |
| CelCompiler.ProgramsYieldSafeNumbers | packages/model-option-map/src/compiler.ts:17-33 | a compiled program yields safe numbers only, for every input |
| CelCompiler.KeysDiffer | packages/model-option-map/src/compiler.ts:76-78 | different source and variable have different cache keys |
| CelCompiler.Compiler.ParseExpression | packages/model-option-map/src/compiler.ts:67-74 | cached or not, the result is that of parsing afresh |
| CelCompiler.Compiler.CompileRestrictedCel | packages/model-option-map/src/compiler.ts:17-33 | for every sequence of calls the result is that of compiling without caches |
| CelCompiler.Compiler.CompileModelOptionMap | packages/model-option-map/src/compiler.ts:35-57 | the same for option maps, including the static check |
| RefreshLease.StepKeeps | packages/provider-node/src/zcode-builtin-remote-synchronizer.ts:86-101 | the control file's invariant survives every locked section |
| RefreshLease.LeasesDoNotOverlap | packages/provider-node/src/zcode-builtin-remote-synchronizer.ts:86-101 | with one endpoint per file every lease lasts the lease duration unless it is finished before, and the next one begins only when it is over |
| RefreshLease.OnlyTheLastHolderFinishes | packages/provider-node/src/zcode-builtin-remote-synchronizer.ts:146-148 | the finish of a superseded or finished lease changes nothing |
| RefreshLease.BackoffIsKept | packages/provider-node/src/zcode-builtin-remote-synchronizer.ts:149-166 | failureCount is the number of failures since the last success, cancellations apart; a try is refused as held while a lease lasts, then as not due, unless forced, before the interval after a success, the doubling delay after a failure, or at once after a cancellation, and is granted in every other case |
| RefreshLease.FailuresAreCounted | packages/provider-node/src/zcode-builtin-remote-synchronizer.ts:149-150 | the count is the number of failures since the last success or the beginning |
| RefreshLease.DelayDoubles | packages/provider-node/src/zcode-builtin-remote-synchronizer.ts:151-159 | the delay is the base after the first failure and twice the one before after each further one, never above the maximum |
| RefreshLease.AnotherEndpointStartsAfresh | packages/provider-node/src/zcode-builtin-remote-synchronizer.ts:89-99 | a refresher for another endpoint takes the lease without any delay or failure count of the one before |
| RefreshLease.CancellationLiftsTheDelay | packages/provider-node/src/zcode-builtin-remote-synchronizer.ts:149-166 | a cancelled refresh leaves the count but lifts the delay of the failure before it |
| RefreshLease.AForcedRefreshCancelled | packages/provider-node/src/zcode-builtin-remote-synchronizer.ts:149-166 | a run: after a failure the lease is not due; a forced refresh that is cancelled makes it so, with the failure still counted |
| RefreshLease.StaysApartWhen | packages/provider-node/src/zcode-builtin-remote-synchronizer.ts:86-101 | whatever endpoints the file is used for, a locked section makes leases overlap if and only if it takes the lease while the file says that it is held for another endpoint |
| RefreshLease.ExclusionHoldsWhen | packages/provider-node/src/zcode-builtin-remote-synchronizer.ts:86-101 | no two leases overlap throughout a run if and only if no step of it does that |
| RefreshLease.TwoEndpointsOverlap | packages/provider-node/src/zcode-builtin-remote-synchronizer.ts:89-100 | a run with two endpoints over one file in which leases overlap |
| RemoteSynchronizer.Synchronizer.Refresh | packages/provider-node/src/zcode-builtin-remote-synchronizer.ts:61-74 | disposed, joined, or a new refresh |
| RemoteSynchronizer.Synchronizer.OnEndpoint | packages/provider-node/src/zcode-builtin-remote-synchronizer.ts:82-85 | a missing endpoint is an error, a disposed refresher stops |
| RemoteSynchronizer.Synchronizer.TakeLease | packages/provider-node/src/zcode-builtin-remote-synchronizer.ts:86-108 | the lease is taken exactly when the file allows it; a refused attempt writes nothing |
| RemoteSynchronizer.Synchronizer.OnFetched | packages/provider-node/src/zcode-builtin-remote-synchronizer.ts:109-113 | fetch failure, disposal, or on to the second endpoint check |
| RemoteSynchronizer.Synchronizer.OnEndpointAgain | packages/provider-node/src/zcode-builtin-remote-synchronizer.ts:114-121 | a changed endpoint ends the refresh as a success without applying |
| RemoteSynchronizer.Synchronizer.OnApplied | packages/provider-node/src/zcode-builtin-remote-synchronizer.ts:121-129 | applied releases end as success, errors as failure, or as cancelled once disposed |
| RemoteSynchronizer.Synchronizer.FinishLease | packages/provider-node/src/zcode-builtin-remote-synchronizer.ts:141-168 | the lease is given back by the locked section; somebody else's lease is left alone |
| RemoteSynchronizer.OthersStayValid | packages/provider-node/src/zcode-builtin-remote-synchronizer.ts:86-101 | a locked section of one refresher leaves the lease of every other one as it was |
| RemoteSynchronizer.HoldersDoNotOverlap | packages/provider-node/src/zcode-builtin-remote-synchronizer.ts:86-148 | of two refreshers at work at the same time, over a file used for one endpoint, the earlier one's lease had run out before the later one's began |
| BuiltinReleases.RevisionNeverGoesBack | packages/provider-node/src/zcode-builtin-provider-config-source.ts:64-121 | over any interleaving of locked reads and applies from many processes, with a separate Active file and a valid fixed Bundled one, the active revision never decreases, and the same revision keeps its content |
| BuiltinReleases.EndsAtTheHighest | packages/provider-node/src/zcode-builtin-provider-config-source.ts:64-121 | the active release is one that was seen, and none seen has a higher revision |
| BuiltinReleases.OrderDoesNotMatter | packages/provider-node/src/zcode-builtin-provider-config-source.ts:64-84 | if equal revisions carry equal content the final release does not depend on the order |
| BuiltinReleases.FirstContentWins | packages/provider-node/src/zcode-builtin-provider-config-source.ts:72-77 | otherwise the first content of a revision stays and the second is refused |
| BuiltinReleases.SharedPathOverwritesBundled | packages/provider-node/src/zcode-builtin-provider-config-source.ts:100-121 | with one path for both files an update replaces the Bundled release |
| BuiltinReleases.TheAnswerIs | packages/provider-node/src/zcode-builtin-provider-config-source.ts:64-82 | an offered release is stale, unchanged, refused or an update by its revision and content against the one selected, and fails without one |
| BuiltinSource.Source.SelectReleaseCandidate | packages/provider-node/src/zcode-builtin-provider-config-source.ts:180-206 | the selected release is one of the two, none usable is newer, the Bundled one is preferred for its revision; none only if neither is valid |
| BuiltinSource.Source.ReadAndMaterializeLocked | packages/provider-node/src/zcode-builtin-provider-config-source.ts:100-113 | the selection, written to the Active file exactly if that does not hold it already |
| BuiltinSource.Source.Read | packages/provider-node/src/zcode-builtin-provider-config-source.ts:49-62 | a valid Bundled release can always be read; without the Active file it is what is read |
| BuiltinSource.Source.ApplyRemoteRelease | packages/provider-node/src/zcode-builtin-provider-config-source.ts:64-84 | stale, unchanged, refused or written and told, by revision and content; a dispose before the release is written ends the call with the files untouched or brought up to date, a later one only keeps listeners from being told; a throwing listener fails the call after it took effect |
| BuiltinSource.AnyEndIsAnAccess | packages/provider-node/src/zcode-builtin-provider-config-source.ts:64-84 | however the call ends, the files are untouched or as after one complete access |
| BuiltinSource.Source.OnFileEvent | packages/provider-node/src/zcode-builtin-provider-config-source.ts:133-148 | listeners are told of a change exactly when the selection is not the one observed last, and of an error when there is none or a listener threw at the change; if one throws at the error, file events are looked at no more |
| BuiltinSource.OwnUpdateIsToldOnce | packages/provider-node/src/zcode-builtin-provider-config-source.ts:78-82 | the file event of the process's own update is not told again |
| BuiltinSource.AThrowingErrorListenerEndsTheWatch | packages/provider-node/src/zcode-builtin-provider-config-source.ts:133-148 | a change of the files after that is not noticed |
| LegacyRelay.DeliversAPrefix | packages/client/src/webRemoteControlRelayProtocol.ts:192-216 | for any dropping, repeating or reordering channel the deliveries are a prefix of the messages sent |
| LegacyRelay.NothingAfterAGap | packages/client/src/webRemoteControlRelayProtocol.ts:193-213 | after the first gap nothing is delivered |
| LegacyRelay.GivesUpWhen | packages/client/src/webRemoteControlRelayProtocol.ts:201-213 | the receiver gives up if and only if a frame of its session is beyond the next number |
| LegacyRelay.GenerationsAreNotTold | packages/client/src/webRemoteControlRelayProtocol.ts:193-199 | frames of another generation with the same session id are taken for the receiver's own |
| LegacyRelay.DeliversAPrefixWhen | packages/client/src/webRemoteControlRelayProtocol.ts:192-216 | for frames from anywhere the deliveries are a prefix of the messages if and only if no frame that was next when it arrived carried anything but the message of its number |
| LegacyRelay.StaysAscendingWhen | packages/client/src/webRemoteControlRelayProtocol.ts:116-181 | a step leaves the numbers of the frames taken ascending if and only if it begins no taken sendFrame call for a frame that is not beyond the last one taken |
| LegacyRelay.NumbersAscendWhen | packages/client/src/webRemoteControlRelayProtocol.ts:116-181 | in any run, whatever sendFrame calls back, the frames taken have strictly increasing numbers if and only if no step goes back in that way |
| LegacyRelay.UnnestedNumbersAscend | packages/client/src/webRemoteControlRelayProtocol.ts:116-181 | if nothing is sent or flushed from inside sendFrame, frames taken and waiting have strictly increasing numbers whenever no call is in progress |
| LegacyRelay.TheCountIsRightWhen | packages/client/src/webRemoteControlRelayProtocol.ts:97-141 | in any run, once no call is in progress, taken, waiting and dropped frames are as many as messages if and only if no accepted call of the flush loop returned to an empty buffer |
| LegacyRelay.UndisturbedIsRight | packages/client/src/webRemoteControlRelayProtocol.ts:97-181 | if nothing is called from inside sendFrame, every message's frame is on the link or waiting, once and in order, or dropped and counted |
| LegacyRelay.OtherEndDeliversAPrefix | packages/client/src/webRemoteControlRelayProtocol.ts:97-216 | in any run, whatever sendFrame calls back, an endpoint that gets any of the frames taken delivers a prefix of the messages |
| LegacyRelay.AFrameIsLostWhen | packages/client/src/webRemoteControlRelayProtocol.ts:97-151 | a step loses a waiting frame uncounted if and only if an accepted sendFrame of the flush loop returns and the frame in front by then is one the link has not taken |
| LegacyRelay.ASendInsideAFlush | packages/client/src/webRemoteControlRelayProtocol.ts:155-175 | a run in which a send inside the sendFrame of a flush puts one frame on the link twice |
| LegacyRelay.ThenAFrameIsLost | packages/client/src/webRemoteControlRelayProtocol.ts:116-134 | and how it goes on: the link refuses, and a frame is neither sent nor buffered nor counted |
| LegacyRelay.ASendInsideASend | packages/client/src/webRemoteControlRelayProtocol.ts:155-181 | a run in which a send inside the refused sendFrame of another overtakes it: nothing is lost, but the other end sees a gap |
| LegacyRelayProtocol.Protocol.Send | packages/client/src/webRemoteControlRelayProtocol.ts:155-181 | the first thing that happens is that the message gets the next number and its frame goes to sendFrame or behind those waiting, all else is a run from there; if sendFrame calls nothing back, the frame is on the link or in the buffer behind all others, or dropped with a full buffer and counted |
| LegacyRelayProtocol.Protocol.BufferFrame | packages/client/src/webRemoteControlRelayProtocol.ts:97-107 | a full buffer drops everything with the new frame and reports the count |
| LegacyRelayProtocol.Protocol.InvokeSend | packages/client/src/webRemoteControlRelayProtocol.ts:109-114 | sendFrame is given the frame of the innermost call in progress, and whatever it calls back leaves the calls in progress as they are |
| LegacyRelayProtocol.Protocol.FlushPendingFrames | packages/client/src/webRemoteControlRelayProtocol.ts:116-134 | the first thing that happens is the sendFrame call for the frame in front, all else is a run from there; true only if the buffer emptied; if sendFrame calls nothing back, frames only move from the front to the link, in order |
| LegacyRelayProtocol.Protocol.DropBufferedFrames | packages/client/src/webRemoteControlRelayProtocol.ts:136-141 | all buffered frames are dropped and counted |
| LegacyRelayProtocol.Protocol.OnTimer | packages/client/src/webRemoteControlRelayProtocol.ts:89-94 | the timed-out frames are dropped and counted |
| LegacyRelayProtocol.Protocol.MarkDegraded | packages/client/src/webRemoteControlRelayProtocol.ts:143-151 | degrading drops the buffer, once |
| LegacyRelayProtocol.Protocol.AcceptPayload | packages/client/src/webRemoteControlRelayProtocol.ts:192-216 | the receiver's step; a gap also ends the sending side |
| LegacyRelayProtocol.Protocol.OtherEndDeliversAPrefix | packages/client/src/webRemoteControlRelayProtocol.ts:97-216 | after any calls, re-entrant or not, any endpoint that gets any of the frames taken delivers a prefix |
| LegacyRelayProtocol.Protocol.NothingIsLost | packages/client/src/webRemoteControlRelayProtocol.ts:97-181 | after any calls, if sendFrame never called back, taken and waiting frames ascend and no frame is lost uncounted |

## Left out

- Timers, emitters, sockets, file watching, JSON and zod decoding, base64: values that arrive already decoded stand for them; when the assembly timer is armed is not modelled, only what it does.
- RelayTransport.EncodesWhen: stated for meters that do not fall when a number in the header grows and add no more for data than its base64 text, which is true of the length of a JSON text; the meter itself is a parameter.
- RelayTransport: the encoder's loops, but for the search for the budget, and the assembler's fields are functions on values; the identity of a frame is compared before (Candidate) and not carried in it; the assembler's terminalReason is not modelled, since the protocol drops the assembler with the first terminal fault.
- RelayProtocol.AcknowledgedRelayProtocol.InvokeSend: sendFrame does not call replayUnacknowledged itself (any other nesting is covered); the code goes on with the batch it read before the call.
- RelayProtocol.AcknowledgedRelayProtocol.Fire: exceptions from saturated, drained and degraded listeners are not propagated further; only message listeners' exceptions have a handler in the code.
- RelayBatchQueue.BatchQueue.MarkFrameSent: a batch is a value in its slot, so that the code's object shared between queue and flush loop is one place here.
- Sequence numbers at the end of the safe range: the model has the checks of the code, but no separate result about exhaustion.
- AccountRefresh: the revision text of an account snapshot is taken to be injective, so equal revisions are equal snapshots.
- ProviderRegistry.ResolvedProvidersAreIndexable: the families are keys of one map (ProviderConfigMap is not part of this model); which providers and models are valid is a parameter.
- RefreshSystem.Converged: neither service is disposed in these runs.
- JsonMergePatch.MergeObject: cloning and freezing (aliasing between body, patches and result) are not modelled; values have no identity.
- CelTokens.ReadString: strings are sequences of characters; a character outside the basic plane counts as one, not as two code units.
- CelText.WrittenTokensAreReadBack: stated for alphabets in which a blank is white space and nothing a token begins with is, which is true of the language.
- CelMeaning.OrderIsTotal: that numbers other than NaN are ordered is an assumption on the arithmetic passed in.
- CelEvaluation.EvaluationIsSound: IEEE arithmetic is opaque; which numbers are safe is a parameter.
- RemoteSynchronizer.Synchronizer.FinishLease: a failing write of the control file is not modelled.
- BuiltinReleases.RevisionNeverGoesBack: corruption from outside and a Bundled file that changes while processes run are excluded; the Active file may begin with anything.
- LegacyRelayProtocol.Protocol.InvokeSend: a sendFrame that throws is not modelled, nor are timeout, gap and message listeners that call back.
- `packages/formal-proof`, the Lumi providers, the resolver beyond the order of its lists, and account state projection: true by enumeration or easy.
