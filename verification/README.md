# Momentum monitor: verified model

The program watches the spot and linear markets of an exchange, decides when enough coins have risen, and
reports that and new listings over Telegram. It keeps running through reconnects, failed writes and
crashes. This project models the parts whose correctness depends on that and proves what they keep.

- **Subscriptions** (`Subscription`, `SubscriptionProtocol`, `SubscriptionRequests`, `SubscriptionServed`,
  `SubscriptionConvergence`, `SubscriptionRecovery`). A client keeps three sets, wanted, requested and confirmed,
  and a lock around its batched requests. The protocol is a step system: the lock holder's unsent list and the send
  it is suspended in, one queue a direction for the current connection, and the exchange's session. Steps are what
  happens between two suspension points, so a run is any interleaving of subscribe and unsubscribe passes, answers,
  repeated answers, changes of the wanted set, failed and cancelled sends, disconnections and reconnections in the
  middle of a batch.
- **Alert policy** (`AlertMachine`, `AlertTrace`, `DedupeKeys`). One evaluation of the state machine, then
  what holds of every run of evaluations: when exactly a transition or an hourly flag is raised, how often,
  and that the keys of the messages, as strings, never collide.
- **Durable pipeline** (`Outbox`, `Pipeline`, `PipelineListing`, `PipelineBounds`, `PipelineLimit`,
  `PipelineErrors`, `PipelineCounts`, `PipelineRuns`, `RepairTask`, `PipelineTransactions`, `AlertService`,
  `Dispatcher`). Alert state, outbox and listing events are durable; the market loop, the listing side, the startup
  repair and the one delivery worker are volatile tasks whose steps interleave with each other, with the clock, and
  with crashes, cancellations, rollbacks, lost answers and failed status writes.
- **Connection lock** (`Database`). The task-aware lock around the single connection, as a step system over
  any number of tasks. It is what lets the pipeline treat a transaction as one step, which
  `PipelineTransactions` proves.
- **Listings and registry** (`Listing`, `ListingEvents`, `Registry`, `RegistryEvents`, `RegistryDiff`), **spot
  history** (`SpotHistory`, `SpotCoverage`), **aggregation** (`Aggregation`), **health** (`Health`), **message
  splitting** (`SplitMessage`). `Ordering` and `Wrappers` hold what they share.

What the program updates in place is a class whose methods are proved equal to a specification function;
the lemmas then speak of that function, step by step and over whole runs.

## Where the code and its promises part

- An unsubscribe whose send is cancelled or fails after its frame has left keeps its symbols confirmed
  although the exchange stops serving them. `ServedExactly` gives the exact condition,
  `CancelledUnsubscribeBreaksAgreement` a run, `AgreementWithoutAbandonedUnsubscribes` the property without
  such sends. These runs, and those with a lingering request, need a sending task that is cancelled by itself. They
  are about the client object: as it is wired, the program cancels its tasks only when it shuts down.
- The rollback of a failed send at `app/bybit/websocket.py:341-343` does not see a cancellation: a request
  cancelled before its frame leaves stays recorded, nobody will answer it, and its symbols are not requested
  again before a timeout or a reconnection (`CancelledRequestLingers`). `RequestsExactly` shows that these are
  exactly the requests that linger.
- A subscribe send that fails after its frame has left is rolled back although the exchange accepts the frame: its
  symbols are served and nobody knows (`FailedSendLeaks`). On a quiet connection the exchange serves, beyond the
  confirmed symbols, exactly what was so rolled back and neither confirmed nor unsubscribed since
  (`ServedBeyondExactly`); both differences between client and exchange are in `QuietDifference`.
- One reconciliation leaves exactly the wanted symbols confirmed if and only if nothing unwanted was
  requested before it (`SyncThenAnswers`); two always do. As a run of the protocol, that needs exactly that no request
  was abandoned on the connection (`ConvergesExactly`); through a reconnection it is possible from every reachable
  state (`RecoversFromAnything`).
- A cycle with both the composition and the hourly flag announces the composition only, and its hour is
  used up (`CompositionSwallowsHourly`); `SilentHourExactly` says which hours stay without their message and
  `SilentHourPossibleExactly` under which configurations there are any.
- The comment at `app/alerts/service.py:86-89`, that a suppressed cycle would have stored the same state, is wrong
  whenever it applies: a decision is only ever suppressed without a debounce, at a cycle that has just entered
  the active range, so the state rolled back with it differs from the stored one (`SuppressionLosesState`).
  `NeverSuppressedExactly` gives the configurations in which that branch is never taken.
- A cooldown that truncates to zero makes a composition cycle end in a division by zero before anything is stored.
  In every reachable state that happens exactly to other coins in range while the stored state is active and settled
  (`ErrsExactly`); from then on the state is frozen, and the same coins fail again, until a cycle with other coins
  commits (`GoesOnErring`, `ErrorFreezes`). No run ends a cycle so if and only if there is a cooldown, or no
  composition is announced, or no non-empty list of coins is in range (`NeverErrsExactly`, `ChangeErrs`).
- Pruning spot samples is harmless for every history if and only if the cutoff, with the retention and the
  tolerance truncated as the code truncates them, stays outside the window
  (`PruneNeverChangesAnswersExactly`); a fractional retention of 3600 seconds plus the tolerance is not
  always enough (`WholeRetentionIsSafe`).
- The anchor bound `interval + gap <= 2 * tolerance` is neither necessary nor, for tolerances beyond an hour,
  sufficient (`LongIntervalCanLackAnchor`). `AnchorExactly` gives the exact condition, which asks nothing of the
  prices after the window has closed.
- A send whose answer is lost after Telegram accepted it is repeated, by the client or by the dispatcher, with no
  crash and no failed write; `DeliveryAccounting` counts these acceptances.
- `handle_registry` ends in an error at an event whose outbox row is there although it was never recorded, and the
  events behind it stay unrecorded (`HandlingRecordsExactly`, `UnrecordedExactly`); without such rows it never does.
- A crash between the two writes of a reconciliation, or behind them and before the events are handled, loses
  registry events for good: all new instruments and changes of status in the first case (`CrashLosesFetchEvents`),
  removals as well in the second (`CrashLosesEvents`).
- The lists fetched from the exchange are concatenated, so an identity may be in them twice, and every copy is
  compared with the old table. The events are still the exact difference if and only if there is no stored
  instrument whose last copy has the stored status while another copy has a different one (`EventsAreExactDiff`,
  `RepetitionMisleads`); none of them is redundant if and only if no copy repeats what was last told of it
  (`NoneRedundantExactly`); and a second reconciliation is silent if and only if all copies of one identity agree
  (`SecondReconcileIsSilent`).
- Nothing in the code bounds the time between an expiry pass and the poll behind it, nor therefore the attempts. With
  the default ages 8 attempts for alerts and 30 for listings hold in all runs if and only if that time stays below
  1000 seconds (`BoundsHoldExactly`); `NinthFailure` is a run with an attempt a thousand seconds after the row's age.

## Model

| member | source | states |
|---|---|---|
| SubscriptionProtocol.ServerAgreement | app/bybit/websocket.py:185-209 | after any run from a fresh client, every confirmed symbol, except those of the unsubscribe batch being sent or left behind by an abandoned one, was in a request the exchange accepted on this very connection, is in its session, and no unsubscribe of it is on its way |
| SubscriptionProtocol.ServedExactly | app/bybit/websocket.py:306-349 | once the exchange has processed all that was sent on this connection, a confirmed symbol is in its session if and only if it is in neither of the two exceptions |
| SubscriptionProtocol.AgreementWithoutAbandonedUnsubscribes | app/bybit/websocket.py:344-346 | over runs in which no unsubscribe send fails or is cancelled after its frame left, all confirmed symbols outside the batch being dropped are in the session |
| SubscriptionProtocol.NothingOrphaned | app/bybit/websocket.py:344-346 | without abandoned unsubscribes nothing is ever left behind |
| SubscriptionProtocol.CancelledUnsubscribeBreaksAgreement | app/bybit/websocket.py:344-346 | a concrete run from the start in which a cancelled unsubscribe leaves a live, idle client with a confirmed symbol the exchange no longer serves |
| SubscriptionProtocol.PlansPendingConfirmedDisjoint | app/bybit/websocket.py:293-349 | after any run the unsent part of a subscribe pass, the requested batches and the confirmed set are pairwise disjoint, no symbol is in two batches or twice in the plan, and every batch has between 1 and the batch size symbols |
| SubscriptionProtocol.OnlyOwnAnswerConfirms | app/bybit/websocket.py:409-445 | whenever an answer changes the confirmed set, it adds exactly the batch outstanding under its own number, and the exchange accepted that very batch on this connection; late and repeated answers change nothing |
| SubscriptionProtocol.IdsNeverRepeat | app/bybit/websocket.py:329-336 | the number of a later subscribe batch is larger than that of an earlier one, whatever happens between them, reconnections included |
| SubscriptionProtocol.StepKeepsInv | app/bybit/websocket.py:185-349 | every step of every activity keeps the whole invariant of client and channels |
| SubscriptionProtocol.StepKeepsExactInv | app/bybit/websocket.py:306-349 | every step keeps that what is being dropped or left behind is out of the session or will be by what is already queued |
| SubscriptionProtocol.BeginBatchKeepsDisjoint | app/bybit/websocket.py:319-336 | registering the next batch before its frame leaves keeps plan, batches and confirmed set disjoint, even on a connection replaced since the pass began |
| SubscriptionProtocol.TransmitKeepsNet | app/bybit/websocket.py:337-346 | a frame that enters the queue never stands behind a request it would undo, and every backed answer stays backed |
| SubscriptionProtocol.AnswerKeepsNet | app/bybit/websocket.py:409-445 | an answer of the exchange to a request keeps every answer to an outstanding request backed by its session |
| SubscriptionProtocol.ReceiveKeepsClient | app/bybit/websocket.py:409-445 | handling an answer without the lock, in the middle of a pass, keeps the disjointness of the client's sets |
| SubscriptionProtocol.BatchesFull | app/bybit/websocket.py:316-338 | after any run, what the lock holder is sending has between 1 and the batch size symbols, and exactly the batch size unless it is the last batch of its pass; the next batch is the front of what is left, which loses nothing else |
| SubscriptionProtocol.RejectionEndsListening | app/bybit/websocket.py:409-445 | the rejection of an outstanding request forgets it and ends the receive loop, and nothing is confirmed any more before a new connection; no other answer ends it |
| SubscriptionProtocol.WantedKept | app/bybit/websocket.py:148-197 | only a new registry snapshot changes what is wanted, whatever connections, failures and answers come |
| SubscriptionRequests.RequestsExactly | app/bybit/websocket.py:322-343 | after any run, an outstanding request is about to leave, on its way, or has an answer still to be received if and only if its send was not cancelled before its frame left; once the connection is quiet, exactly the requests so abandoned are outstanding |
| SubscriptionRequests.NoFalseRequests | app/bybit/websocket.py:297-343 | on a quiet connection with no such cancellation nothing is outstanding, and a pass asks for every wanted symbol that is not confirmed |
| SubscriptionRequests.CancelledRequestLingers | app/bybit/websocket.py:337-343 | a concrete run that ends live, idle and quiet, with a wanted symbol neither confirmed nor asked for by the next pass |
| SubscriptionRequests.StepKeepsAccounted | app/bybit/websocket.py:306-349 | every step keeps every request accounted for, but for the one it abandons |
| SubscriptionServed.ServedBeyondExactly | app/bybit/websocket.py:337-343 | after any run that ends on a quiet connection, what the exchange serves beyond the confirmed symbols is exactly what it accepted of requests rolled back after their frames had left, and that was neither confirmed nor unsubscribed since |
| SubscriptionServed.QuietDifference | app/bybit/websocket.py:337-346 | there the confirmed symbols it does not serve are exactly those of abandoned unsubscribes, and the two sets are equal if and only if neither happened |
| SubscriptionServed.QuietAgreement | app/bybit/websocket.py:337-346 | they are equal after runs in which no subscribe send failed, and no unsubscribe send failed or was cancelled, after its frame had left |
| SubscriptionServed.FailedSendLeaks | app/bybit/websocket.py:337-343 | a concrete run that ends live and quiet with a symbol served, not confirmed, and to be requested again |
| SubscriptionServed.NothingLeaks | app/bybit/websocket.py:337-343 | nothing is so left behind unless a subscribe send fails after its frame has left |
| SubscriptionConvergence.ConvergesExactly | app/bybit/websocket.py:504-533 | from a reachable state of a live connection on which no rejection waits, some run without failing sends and reconnections ends quietly with exactly the wanted symbols confirmed and served, but for those of earlier abandoned unsubscribes, if and only if no request was abandoned before |
| SubscriptionConvergence.ProtocolConverges | app/bybit/websocket.py:504-533 | that run: two reconciliations, each with its frames taken by the exchange and its answers received |
| SubscriptionRecovery.RecoversFromAnything | app/bybit/websocket.py:185-250 | from every reachable state whatsoever, rejections, abandoned requests and unsubscribes, leaks and passes under way included, there is a run through a reconnection after which exactly the wanted symbols are confirmed and served and nothing is on its way |
| SubscriptionRecovery.Reconnects | app/bybit/websocket.py:193-250 | from every reachable state the connection can be lost and opened again, with the lock free, what is wanted kept, and everything of the old connection forgotten |
| SubscriptionRequests.UndisturbedSync | app/bybit/websocket.py:526-529 | from any state with an open connection and a free lock, an undisturbed reconciliation is a run of the protocol that ends with the client and the frames the client in place computes |
| SubscriptionRequests.UndisturbedSubscribePass | app/bybit/websocket.py:316-343 | an undisturbed subscribe pass of the protocol ends with the client and the frames of the batching loop |
| SubscriptionRequests.UndisturbedUnsubscribePass | app/bybit/websocket.py:344-346 | the same of an unsubscribe pass |
| Subscription.TwoSyncsConverge | app/bybit/websocket.py:504-533 | two reconciliations with their answers, in any order and number, leave exactly the wanted symbols confirmed and nothing requested, from any state; a third sends no frame and changes nothing |
| Subscription.SyncThenAnswers | app/bybit/websocket.py:504-533 | what exactly one reconciliation with its answers confirms, and when that is exactly the wanted set |
| Subscription.ConfirmAllConfirms | app/bybit/websocket.py:409-434 | any sequence of answers that leaves no request out, with any repetitions and strangers, confirms all that was requested and empties the requests |
| Subscription.SendSubscribesRequests | app/bybit/websocket.py:316-343 | batching loses and adds nothing: the requested symbols grow by exactly the listed ones, whatever the batch size, and no earlier request is overwritten |
| Subscription.SubscribeFramesFull | app/bybit/websocket.py:316-338 | a pass sends its list in order and whole, every frame but the last with exactly the batch size of symbols, in as many frames as the size rounds up to, under consecutive numbers |
| Subscription.UnsubscribeFramesFull | app/bybit/websocket.py:316-346 | the same of the list an unsubscribe pass drops |
| Subscription.SendUntilSends | app/bybit/websocket.py:337-343 | a pass whose send fails after n others has sent exactly the first n frames of the whole pass, and it is complete if and only if no send failed |
| Subscription.DropUntilSends | app/bybit/websocket.py:337-346 | the same of an unsubscribe pass |
| Subscription.FailedSendLeavesNothing | app/bybit/websocket.py:337-343 | wherever a send fails, the pass leaves exactly what the pass over the part it has sent would have left, but for the number it used up; that part is a prefix, and all of the list exactly if no send failed |
| Subscription.FailedDropKeepsRest | app/bybit/websocket.py:344-346 | wherever a send fails, exactly the symbols whose frames were sent are dropped |
| Subscription.BybitWebSocketClient.SetSymbols | app/bybit/websocket.py:148-150 | only the wanted set changes, to the given one |
| Subscription.BybitWebSocketClient.ClearForConnection | app/bybit/websocket.py:193-197 | a new connection has a socket and starts with nothing confirmed or requested; the wanted set and the request counter stay |
| Subscription.BybitWebSocketClient.LoseConnection | app/bybit/websocket.py:244-250 | the end of a connection takes the socket and clears nothing |
| Subscription.BybitWebSocketClient.PlanSubscribe | app/bybit/websocket.py:297-301 | the list to request is ascending and holds exactly what is wanted and neither confirmed nor requested |
| Subscription.BybitWebSocketClient.PlanUnsubscribe | app/bybit/websocket.py:310-311 | the list to drop is ascending and holds exactly the given symbols that are confirmed |
| Subscription.BybitWebSocketClient.RegisterBatch | app/bybit/websocket.py:329-336 | the batch is recorded under the next number before its frame is sent |
| Subscription.BybitWebSocketClient.RollBackBatch | app/bybit/websocket.py:341-343 | a failed send forgets its request and nothing else |
| Subscription.BybitWebSocketClient.HandleSubscribeAck | app/bybit/websocket.py:409-445 | a known success confirms its batch, a known rejection forgets it and asks for recovery, everything else changes nothing |
| Subscription.BybitWebSocketClient.SendSubscribeOps | app/bybit/websocket.py:316-343 | the batching loop, with a send that may fail anywhere, leaves the state, sends the frames and ends as the recursive specification says |
| Subscription.BybitWebSocketClient.SendUnsubscribeOps | app/bybit/websocket.py:344-346 | the same of the loop that drops the listed symbols batch by batch |
| Subscription.BybitWebSocketClient.Resubscribe | app/bybit/websocket.py:293-304 | without a socket nothing happens; otherwise exactly what is missing is requested in sorted batches, up to a send that fails |
| Subscription.BybitWebSocketClient.Unsubscribe | app/bybit/websocket.py:306-314 | without a socket nothing happens; otherwise exactly the confirmed ones of the given symbols are dropped, up to a send that fails |
| Subscription.BybitWebSocketClient.SyncSubscriptions | app/bybit/websocket.py:526-529 | one reconciliation in which no send fails: its frames and its new state, with and without a socket |
| AlertMachine.AlertStateMachine.Evaluate | app/alerts/state_machine.py:95-167 | the stepwise evaluation returns the decision and the state of the pure policy and stores nothing |
| AlertMachine.AlertStateMachine.MaybeCompositionUpdate | app/alerts/state_machine.py:185-195 | the flag is raised, and the time kept, exactly when enabled and the cooldown since the last one is over |
| AlertMachine.AlertStateRepository.Load | app/persistence/repository.py:310-323 | returns what was stored last of everything ever stored, or the initial state if nothing was |
| AlertMachine.AlertStateRepository.Save | app/persistence/repository.py:347-387 | the state is stored last, and the one row keeps being the last of all that were stored |
| AlertTrace.ExactDebounce | app/alerts/state_machine.py:121-151 | with transition alerts on, a transition fires at a cycle if and only if it is the first of its unbroken active episode at least the debounce after the episode's first cycle, and it names the range the episode was entered from, never the active one; the clock may even go back |
| AlertTrace.RangesExactly | app/alerts/state_machine.py:39-44 | decision and stored state of every cycle say empty below the minimum count, active from it to the maximum and over otherwise; the state keeps the cycle's coins and time |
| AlertTrace.TransitionStateHolds | app/alerts/state_machine.py:131-147 | the stored time of the last transition is that of the latest cycle that made one, and none is stored if none did |
| AlertTrace.OneTransitionPerEpisode | app/alerts/state_machine.py:121-151 | two transitions never belong to one episode |
| AlertTrace.DebounceStateHolds | app/alerts/state_machine.py:121-151 | after any cycles the stored debounce fields are the first cycle and the origin of the current episode while its debounce runs, and empty otherwise |
| AlertTrace.HourlyExactly | app/alerts/state_machine.py:153-162 | with a clock that never goes back, the hourly flag is raised exactly at the active cycles without a transition whose episode has run for the debounce, at them or before, and whose hour no earlier cycle has used up |
| AlertTrace.CompositionExactly | app/alerts/state_machine.py:125-130 | a composition is announced at a cycle if and only if that is enabled, the debounce of its episode was over before it, its coins differ from those of the cycle before, and no composition was announced less than the cooldown ago; the clock may even go back |
| AlertTrace.SettledExactly | app/alerts/state_machine.py:153-156 | no debounce is left running after an active cycle exactly when it or an earlier cycle of its episode came at least the debounce after the first |
| AlertTrace.HourStateHolds | app/alerts/state_machine.py:141-162 | the stored hour is the latest hour any cycle has used up |
| AlertTrace.HourlyMessageRate | app/alerts/service.py:60-84 | an hour gets at most one hourly message, and none once a transition was announced in it |
| AlertTrace.CompositionsSpaced | app/alerts/state_machine.py:185-195 | any two composition announcements of a run are at least the cooldown apart |
| AlertTrace.NoMessageOutOfRange | app/alerts/service.py:60-69 | a cycle that announces anything has a count within the configured range |
| AlertTrace.HourUsedWithMessage | app/alerts/service.py:60-84 | an hour is only used up by a cycle that announces something |
| AlertTrace.CompositionSwallowsHourly | app/alerts/service.py:63-68 | in every run whose clock never goes back, wherever both flags are raised the composition alone is announced, and every later hourly message comes in a later hour |
| AlertTrace.SilentHourExactly | app/alerts/service.py:60-84 | an hour is used up without an hourly or transition message if and only if a composition swallows it and no transition is announced in it, which is if and only if every cycle that uses it up also recomposes; never with composition or hourly alerts off |
| AlertTrace.SilentHourPossibleExactly | app/alerts/service.py:60-84 | a configuration has a run with such an hour if and only if compositions and hours are both announced and some non-empty list of coins is in range |
| DedupeKeys.KeysDistinct | app/alerts/service.py:106-117 | with a clock that never goes back, and a debounce of at least a second or no transition alerts, the messages of any two cycles of a run that have keys have different ones |
| DedupeKeys.KeysOfKindsDiffer | app/alerts/service.py:106-117 | keys of different kinds, and keys of alerts and of listings, are different strings |
| DedupeKeys.TransitionKeyNamesSecond | app/alerts/service.py:110-111 | a transition key determines its second, whatever characters the coins contain |
| DedupeKeys.HourlyKeyNamesHour | app/alerts/service.py:112-113 | an hourly key determines its hour |
| DedupeKeys.CompositionKeyNamesSlot | app/alerts/service.py:114-116 | a composition key determines its cooldown slot |
| DedupeKeys.KeysNameCoins | app/alerts/service.py:106-117 | two messages with the same key are of one kind and of the same list of coins, for coins that are non-empty and without a colon |
| DedupeKeys.DecimalReadsBack | app/alerts/service.py:106-117 | numbers in keys are their decimal digits, without leading zeros |
| DedupeKeys.TransitionsApart | app/alerts/state_machine.py:131-147 | two transitions of a run are at least the debounce apart |
| DedupeKeys.KeysDistinctExactly | app/alerts/service.py:106-117 | all keys of all runs whose clock never goes back are distinct if and only if there is a debounce, or no transition is announced, or no count is in range |
| DedupeKeys.SharedKeyMeans | app/alerts/service.py:85-90 | two cycles of a run share a key only without a debounce, as transitions of one second and the same plain coins, the later one entering the active range; so the state it would store is never the stored one |
| DedupeKeys.InAndOutShares | app/alerts/service.py:85-90 | for every configuration outside that condition, entering, leaving and entering the range with sorted coins in one second shares a key |
| Outbox.DueFrom | app/persistence/repository.py:131-139 | the poll lists due rows only, in order of their ids, at most the limit of them, and all of them if fewer |
| Outbox.NextAttempt | app/alerts/dispatcher.py:188-193 | the next attempt waits for the scheduled delay and for the flood control's, and for no longer than the longer of the two |
| Outbox.TotalDelayOfEight | app/alerts/dispatcher.py:32-45 | a row that keeps failing is due again 10, 40, 100, 400, 1000, 2200, 4600 and 8200 seconds after its creation |
| Outbox.DelaysNeverDecrease | app/alerts/dispatcher.py:32-45 | the delays never get shorter, and are an hour from the eighth on |
| Outbox.TotalDelayBeyondEight | app/alerts/dispatcher.py:32-45 | the delays of the first n attempts together, in closed form from the eighth on |
| Pipeline.DurableRefinement | app/alerts/service.py:73-93 | after any run, with crashes and rollbacks anywhere, the stored alert state and the alert rows, kinds and keys in order, are the pure policy folded over exactly the committed cycles: no state change without its message and no message without its state change |
| Pipeline.StepRefines | app/alerts/service.py:49-93 | every step of every task keeps that refinement, a suppressed cycle included |
| Pipeline.OthersKeepAlerts | app/persistence/repository.py:95-157 | no step but the storing of a cycle touches the stored state or the kind and key of an alert row |
| Pipeline.DeliveryAccounting | app/telegram/client.py:97-145 | after any run, any one part of a row's message was accepted by Telegram once for each crash, cancellation or failed status write between a successful send and its mark, once for each acceptance that ended no send, its answer lost or another part failed, once more if the row is marked sent and once more while the worker is about to mark it; so a sent row was accepted, and without such losses no row twice |
| PipelineCounts.AcceptancesAccounted | app/telegram/client.py:97-145 | the same read off the steps of the run: the steps at which Telegram accepted a part of the message are as many as those that brought no send to its end and those that interrupted a successful one, and one more if the row is marked sent or about to be |
| PipelineCounts.CrashForgets | app/main.py:108-140 | a crash keeps the tables and forgets everything else: two runs that have led to the same tables go on alike after it |
| PipelineCounts.LoggedWereEvaluated | app/alerts/service.py:49-58 | every committed cycle is one that the run evaluated, with those coins and at that time |
| Pipeline.StepKeepsAccounts | app/alerts/dispatcher.py:162-205 | every step keeps that equation for every row |
| Pipeline.StepKeepsJobs | app/alerts/dispatcher.py:156-205 | while the one worker goes through its batch, its jobs stay unsent rows with the attempts it read, whatever the other tasks do |
| Pipeline.FinalStatusesAbsorb | app/persistence/repository.py:95-130 | a row that is sent or dead is not changed by any step, although no update looks at the status it replaces |
| Pipeline.DiesOfAgeOrRefusal | app/persistence/repository.py:122-157 | a step makes an unsent row dead if and only if it is an expiry and the row is older than its limit, or it records that Telegram refused this row |
| Pipeline.FinalForever | app/persistence/repository.py:95-130 | the same over whole runs |
| PipelineListing.ListingAcknowledgement | app/alerts/dispatcher.py:162-177 | from empty tables, after any run, a recorded event is flagged as sent if and only if its outbox row is marked sent, and no event has two rows |
| PipelineListing.StepAcknowledges | app/persistence/repository.py:182-187 | every step, the startup repair included, keeps flags and sent rows in agreement |
| Pipeline.SentRowsUnchanged | app/persistence/repository.py:95-157 | only the mark of an accepted delivery makes a row sent |
| PipelineBounds.RetryBound | app/alerts/dispatcher.py:136-205 | with the default ages, a forward clock, and polls less than 1000 seconds after their expiry pass, no alert row records more than 8 failed attempts and no listing row more than 30 |
| PipelineLimit.BoundsHoldExactly | app/alerts/dispatcher.py:136-205 | with the default ages, the bounds 8 and 30 hold for every row of every run with a forward clock whose polls come less than a given time after their expiry pass, if and only if that time is at most 1000 seconds |
| PipelineLimit.NinthFailure | app/alerts/dispatcher.py:136-205 | for every longer time, a run in which an alert row, spared by the expiry at 7200, fails for the ninth time at 8200 seconds |
| PipelineLimit.FailsWhenDue | app/alerts/dispatcher.py:186-198 | a row that fails whenever it is due has failed at the summed delays of the schedule, up to the eighth time |
| PipelineErrors.ErrsExactly | app/alerts/service.py:106-117 | in every reachable state between two cycles, evaluating coins ends in the division by zero if and only if the cooldown is zero, compositions are announced, the count is in range, and the stored state is active, without a running debounce, and of other coins |
| PipelineErrors.GoesOnErring | app/alerts/service.py:58-93 | after that, as long as no cycle commits, the same coins fail again in every idle state, at any time and after any restart |
| PipelineErrors.ErrorFreezes | app/alerts/service.py:58-93 | while the market shows just these coins, whatever the other tasks do, no cycle commits, the stored state stays and no alert is announced |
| PipelineErrors.NeverErrsExactly | app/alerts/service.py:114-116 | no cycle of any run ends so if and only if there is a cooldown, or no composition is announced, or no non-empty list of coins is in range |
| PipelineErrors.ChangeErrs | app/alerts/service.py:114-116 | in every other configuration, coins that change once the range is settled fail |
| PipelineBounds.FailuresBounded | app/alerts/dispatcher.py:186-198 | under the same conditions a run never records more than 8 failures of an alert row, nor more than 30 of a listing row |
| PipelineBounds.AttemptsCountFailures | app/persistence/repository.py:105-120 | a row's attempts are exactly the failures the run has recorded of it |
| PipelineBounds.ScheduleRespected | app/alerts/dispatcher.py:188-198 | a row's next attempt is never earlier than its creation plus the delays of all its attempts, and all but the last of these fit into its age limit and the gap |
| PipelineBounds.KeyNeverTaken | app/alerts/service.py:73-93 | with a forward clock, and a debounce of at least a second or no transition alerts, in every reachable state the key about to be stored is free and the cycle commits |
| PipelineBounds.NeverSuppressedExactly | app/alerts/service.py:73-93 | the unique index never rejects a decision, in any run with a forward clock, if and only if there is a debounce, or no transition is announced, or no count is in range |
| PipelineBounds.SuppressionLosesState | app/alerts/service.py:85-90 | whenever it rejects one, there is no debounce, the active range has just been entered, and the state rolled back with the decision differs from the stored one, which stays |
| PipelineBounds.KeptJobsUntouched | app/alerts/dispatcher.py:156-160 | until the next poll the worker only drops jobs from the front of its batch, and the rows of the others stay as they were |
| AlertService.Service.Process | app/alerts/service.py:49-117 | one cycle in place leaves the tables that evaluating and storing, or aborting, leave in the pipeline; its outcome says whether it was stored, suppressed or failed, and it is the division by zero if and only if the cooldown is zero and the cycle recomposes |
| Dispatcher.AlertDispatcher.ExpireNotifications | app/persistence/repository.py:141-157 | row by row, a row is dead afterwards if and only if it was or is overdue and unsent, and nothing but the status of a row changes |
| Dispatcher.AlertDispatcher.Deliver | app/alerts/dispatcher.py:162-205 | one attempt changes its own row according to the answer, a failed status write being recorded as a failure, and flags the listing event only with a recorded acceptance |
| Dispatcher.AlertDispatcher.ProcessDue | app/alerts/dispatcher.py:156-160 | every due row, up to the limit, is attempted exactly once, no other row is touched, exactly the listing events delivered are flagged, and the result says whether there was a row |
| Dispatcher.AlertDispatcher.Iteration | app/alerts/dispatcher.py:136-143 | the pass works on the rows as the expiry left them, and flags accordingly |
| Dispatcher.AlertDispatcher.Drain | app/alerts/dispatcher.py:112-160 | with the clock fixed and no inserts, n due rows take exactly n/100 rounded up non-empty passes, whatever Telegram answers, and then none is due |
| Dispatcher.PollSize | app/persistence/repository.py:131-139 | a poll finds as many distinct rows as are due, up to the limit |
| Dispatcher.PassShrinksDue | app/alerts/dispatcher.py:156-205 | a pass takes exactly the rows it attempted out of the due ones, by whatever answer |
| Dispatcher.IterationShrinksDue | app/alerts/dispatcher.py:136-160 | after an iteration nothing is overdue and exactly the rows the poll did not reach are due |
| Listing.RepairCovers | app/market/listing.py:188-216 | from any tables, however inconsistent, a repair with announcements on leaves every recorded event that is not a delisting flagged or owning exactly one row |
| Listing.SecondRepairIsIdle | app/market/listing.py:188-216 | a second repair has nothing to flag or announce and leaves the tables as they are |
| Listing.RepairsAnyOrder | app/market/listing.py:188-216 | the order in which the events are met does not matter, and the returned number is the flagged plus the announced events |
| Listing.HandlingCovers | app/market/listing.py:114-142 | handling registry events keeps every event that can be announced flagged or owning exactly one row, and flags none |
| ListingEvents.HandlingAnnounces | app/market/listing.py:122-142 | from any tables, whatever the events and wherever the pass ends: old records and rows stay; a new record is unflagged, and silent if and only if its event is a removal; with announcements on, every other new record whose row was not there has exactly one row of its key, a new pending one; and there are no other new rows |
| ListingEvents.ListingsExactly | app/market/listing.py:79-163 | which listing events a reconciliation yields, from the stored table and the fetched list alone: trading for a copy that trades and was stored as prelaunch or not at all, prelaunch for one not stored, delisted for a stored one in no copy; under the exact text of their keys |
| ListingEvents.NewTradingIsAnnounced | app/market/listing.py:114-163 | from the exchange to the outbox: a newly trading instrument is recorded once the reconciliation's events are handled, unflagged if it is new, and with announcements on exactly one new pending row announces it |
| ListingEvents.RepairExactly | app/market/listing.py:188-228 | a repair flags exactly the events, delistings apart, with a row marked sent, adds exactly one pending row for each event without one, and changes nothing else |
| PipelineRuns.HandlingIsRun | app/market/listing.py:122-142 | an undisturbed handling of registry events is a run of the pipeline that records each event before it enqueues its row, and it ends in the tables the tracker in place computes, also where an error ends it |
| Listing.HandlingTwiceAddsNothing | app/market/listing.py:114-142 | handling the same registry events again at any time changes nothing if and only if the first time recorded them all, as it does without stray rows |
| Listing.EventKeyNamesEvent | app/market/listing.py:79-87 | the key of an event determines its category, its symbol and its type, whatever characters the symbol contains, so two events never share a row |
| Listing.HandlingRecords | app/market/listing.py:114-142 | if every listing row belongs to a recorded event, a pass never ends in an error, records exactly the keys of its events besides the old ones, and leaves no stray row |
| Listing.HandlingRecordsExactly | app/market/listing.py:114-142 | from any tables, a pass records exactly the keys of the events up to the first whose row is there although it was never recorded, and it ends in an error exactly if there is one |
| Listing.UnrecordedExactly | app/market/listing.py:122-142 | an event of the list stays unrecorded if and only if the pass ends before it and neither the tables nor the events up to that point have its key |
| Listing.ListingTracker.FindByDedupe | app/persistence/repository.py:173-180 | finds a row of the key if and only if there is one |
| Listing.ListingTracker.Notify | app/market/listing.py:221-228 | adds the one row of the event if announcements are on, and raises instead exactly if the key is taken |
| Listing.ListingTracker.HandleRegistry | app/market/listing.py:114-142 | a first run changes nothing; otherwise tables and error are those of the specification, which stops at a taken key, and exactly the newly recorded keys are returned |
| Listing.ListingTracker.RepairEvent | app/market/listing.py:199-215 | what one repaired event does to the tables |
| Listing.ListingTracker.ReconcileUnsent | app/market/listing.py:188-216 | flags exactly the unflagged events whose row is sent, announces exactly those without a row, one row each, changes nothing else, and counts both |
| RegistryEvents.EventsExactly | app/market/discovery.py:75-125 | an event is among those of a reconciliation if and only if it is warranted: new for a copy that was not stored, a transition from the stored status, which it names, to another one of a copy, a removal with the stored status for an instrument in no copy and not removed before |
| RegistryEvents.RecordsExactly | app/persistence/repository.py:244-295 | what is stored of one instrument afterwards: its last copy with the time it was first seen; without a copy what was stored, marked removed now unless it was before; and nothing else |
| RegistryDiff.EventsAreExactDiff | app/market/discovery.py:68-134 | on a non-empty registry, for any fetched list, replaying the events over the old statuses gives the new ones if and only if there is no stored key whose last copy has the stored status while another copy has a different one |
| RegistryDiff.FetchToldExactly | app/market/discovery.py:75-109 | the same of the fetched part alone, before removals |
| RegistryDiff.AgreeingNeverMislead | app/market/discovery.py:75-109 | lists without repeated identities, or whose copies agree, have no such key |
| RegistryDiff.RepetitionMisleads | app/market/discovery.py:75-109 | every stored instrument has a list of two copies that makes it one |
| RegistryDiff.NoneRedundantExactly | app/market/discovery.py:75-134 | no event of a reconciliation is redundant when replayed if and only if no copy repeats what the last earlier copy with an event has told |
| RegistryDiff.RemovalNeverRedundant | app/market/discovery.py:111-125 | a removal never is |
| RegistryDiff.UniqueNeverRepeats | app/market/discovery.py:75-109 | nor is any event of a list without repeated identities |
| RegistryDiff.SecondReconcileIsSilent | app/market/discovery.py:68-134 | reconciling any list again emits nothing if and only if all copies of one identity have one status |
| RegistryDiff.LostRemovalsComeBack | app/market/discovery.py:127-128 | if a crash loses the second of the two writes, the next run emits the same removals and ends in the same statuses, and it emits nothing else exactly if the copies agree |
| RegistryDiff.CrashLosesFetchEvents | app/market/discovery.py:127-134 | after a crash between the two writes, replaying what the second run returns gives the new statuses if and only if there was nothing new and no change of status to tell, whatever copies the list has |
| RegistryDiff.CrashLosesEvents | app/market/discovery.py:127-134 | after a crash behind both writes and before the events are handled, replaying what the next run returns gives the new statuses if and only if there was nothing to tell at all |
| RegistryDiff.UpsertsStore | app/persistence/repository.py:244-286 | the last copy of every fetched instrument is stored as fetched, with the time it was first seen kept |
| RegistryDiff.UpsertsTouchFetchedOnly | app/persistence/repository.py:244-286 | no other instrument is touched |
| Registry.InstrumentRegistry.ScanFetched | app/market/discovery.py:75-109 | the loop over the fetched list collects its events, its upserts and the identities seen |
| Registry.InstrumentRegistry.ScanStored | app/market/discovery.py:111-125 | the loop over the stored instruments, in any order, collects one removal for each that is gone and not yet marked |
| Registry.InstrumentRegistry.Reconcile | app/market/discovery.py:68-134 | the table after both writes, the events, and whether the registry was empty |
| Registry.InstrumentRegistry.UpsertMany | app/persistence/repository.py:244-286 | the loop stores the list in order |
| Registry.InstrumentRegistry.MarkRemoved | app/persistence/repository.py:288-295 | exactly the given keys that are stored become removed |
| Database.Serializable | app/persistence/database.py:101-140 | after any run the durable table is the committed bodies applied one after another in commit order; a task inside its transaction sees that plus its own writes, a task reading outside one sees that and never part of a body |
| Database.CommitsInOrder | app/persistence/database.py:117-129 | after any run the durable table is what the committing tasks wrote inside their blocks, block after block in the order of the commits, as read off the steps alone: no write of a rolled-back or crashed block, and none lost |
| Database.LastWriteWins | app/persistence/database.py:117-129 | a committed body leaves of every key what its last write of it says, put or erased, and other keys as they were |
| Database.NeverWaitsForItself | app/persistence/database.py:113-140 | no task waits for a lock it holds, and nobody else is inside a guarded block with the holder |
| Database.EveryExitReleases | app/persistence/database.py:117-129 | every way out of a guarded block, by success, error, cancellation or crash, leaves lock and owner free |
| Database.OwnerNeverWaits | app/persistence/database.py:109-140 | a task inside its transaction can execute statements at once, and asking for a second transaction changes nothing |
| Database.CancelledWaitLeavesNothing | app/persistence/database.py:115-140 | a waiting task can be cancelled, and then the connection is as it was |
| Database.TransactionIsRun | app/persistence/database.py:115-129 | whenever the lock is free any task can run a whole block: committed, all of its body is durable, rolled back, nothing is, and the lock is free again |
| Database.NoDeadlock | app/persistence/database.py:101-140 | a waiting task can always take the lock, or its holder has a step that gives it back |
| Database.Database.EnterTransaction | app/persistence/database.py:113-120 | the owner gets an error and nothing changes; otherwise the lock and the owner are taken together, and both given back if the begin fails |
| Database.Database.RunTransaction | app/persistence/database.py:117-129 | whether the begin, any statement of the body or the commit fails, all of the body becomes durable or none of it, and lock and owner are free again either way |
| PipelineTransactions.BlockIsOneStep | app/persistence/database.py:117-129 | whatever other tasks do while a task is inside its block, if it commits its writes are applied to the table as it was when it began, and by any other way out, a crash included, that table is unchanged |
| PipelineTransactions.PersistIsOneStep | app/alerts/service.py:73-93 | the opened-up block of an alert cycle, state first and row second, with other tasks and crashes anywhere, leaves the tables of the pipeline's storing step if it commits and of the aborted one otherwise; a taken key makes the two the same |
| PipelineTransactions.CycleWritesPersist | app/persistence/repository.py:74-93 | the two writes applied one after another are the single storing step |
| PipelineTransactions.MarkIsOneStep | app/alerts/dispatcher.py:164-177 | the opened-up block that acknowledges a delivery, row first and listing flag second, with other tasks and crashes anywhere, leaves the tables of the pipeline's marking step if it commits, and otherwise neither row nor flag has changed |
| PipelineTransactions.MarkWritesAcknowledge | app/persistence/repository.py:95-103 | its writes applied one after another are the single marking step |
| PipelineRuns.IterationIsRun | app/alerts/dispatcher.py:136-205 | from any state with an idle worker, an undisturbed iteration is a run of the pipeline that ends in the rows and flags the dispatcher in place computes |
| PipelineRuns.RepairIsRun | app/market/listing.py:188-216 | an undisturbed startup repair, in any order of the events, is a run of the pipeline that ends in the tables the tracker in place computes |
| RepairTask.RepairCovers | app/market/listing.py:188-216 | from any tables with unique keys, with the repair's list read once and the worker, the market loop, discovery and crashes between any two of its database calls: when a repair has come to the end of its list, with announcements on, every event recorded before is flagged, a delisting, or owns exactly one row, and stays so in every run from there |
| RepairTask.RepairFlags | app/market/listing.py:199-212 | among the same tasks, announcements on or off, an event whose message was delivered before the repair is flagged when it ends |
| RepairTask.ActKeepsCovering | app/market/listing.py:188-228 | each act of the repair or of another task leaves an event settled or ahead of the repair |
| PipelineRuns.CoveredOnceForAll | app/market/listing.py:199-215 | once the row of an event is there, or was enqueued along the run, no repair announces it again, and a late enqueue adds no row |
| SpotCoverage.AnchorExactly | app/market/momentum.py:76-95 | for any interval, gap, tolerance and retention, every history whose prices around the window come with gaps of at most that much has its anchor, through any restarts, outages after the window and prunings, if and only if a condition on these numbers holds |
| SpotCoverage.AnchorAvailable | app/market/momentum.py:76-95 | the design's bound suffices: interval plus gap at most twice the tolerance, interval at most an hour plus the tolerance, truncated retention at least that |
| SpotCoverage.DefaultGapsExactly | app/market/momentum.py:65-95 | with the default interval, tolerance and retention the anchor is certain for gaps below 123 seconds and for no others |
| SpotCoverage.LastOfWindow | app/market/momentum.py:89-95 | the last price of a closed window comes at most a gap before the first second behind it |
| SpotHistory.EveryPriceRepresented | app/market/momentum.py:76-87 | every positive price that arrived has a sample at its time or less than the interval before it, unless that was pruned since |
| SpotHistory.SamplesArrived | app/market/momentum.py:76-87 | every sample is a positive price that arrived at its second, whatever was restarted and pruned |
| SpotHistory.SamplesNeverReplaced | app/persistence/repository.py:452-474 | until it is pruned, the first price stored for a second stays |
| SpotHistory.AnchorMeans | app/persistence/repository.py:475-493 | there is no answer if and only if no sample lies within the truncated tolerance of an hour ago, and otherwise it is the price of the nearest one, the later of two as near |
| SpotHistory.AnchorArrived | app/market/momentum.py:76-95 | so the answer after any run is a positive price that arrived within the tolerance of an hour ago |
| SpotHistory.SamplesSpaced | app/market/momentum.py:76-87 | without a restart any two samples are at least the interval apart, in whatever order prices come |
| SpotHistory.AnchorUnique | app/persistence/repository.py:475-493 | nearest to the target and the later of two equally near determine the anchor |
| SpotHistory.AnchorExists | app/persistence/repository.py:475-493 | there is an anchor as soon as any sample lies in the window |
| SpotHistory.PruneNeverChangesAnswersExactly | app/market/momentum.py:97-99 | pruning changes no present or future answer, for any samples, if and only if the truncated cutoff does not reach into the truncated window |
| SpotHistory.SafePruneKeepsAnchor | app/market/momentum.py:97-99 | a safe pruning leaves the answer of every later query the same |
| SpotHistory.UnsafePruneLosesAnchor | app/market/momentum.py:97-99 | an unsafe one loses the answer of a concrete history |
| SpotHistory.WholeRetentionIsSafe | app/market/momentum.py:97-99 | a truncated retention of an hour plus the tolerance is always safe, and a fractional example is not |
| SpotCoverage.LongIntervalCanLackAnchor | app/market/momentum.py:76-95 | the interval and the gap fitting into the window is not enough for tolerances beyond an hour |
| SpotHistory.SpotHistory.Record | app/market/momentum.py:76-87 | the very price is stored under its second unless it is missing, not positive, too soon or its second is taken, the result says whether it was, and then nothing else changes |
| SpotHistory.SpotHistory.FindAnchor | app/persistence/repository.py:475-493 | walking the samples in any order returns the price of the anchor |
| SpotHistory.SpotHistory.Prune | app/market/momentum.py:97-99 | exactly the samples from the cutoff on stay, and if the cutoff is safe no query from now on is answered differently |
| Aggregation.OrderIndependent | app/market/deduplication.py:75-104 | spot and linear markets listed in any order, each at most once, give the same result |
| Aggregation.NothingLostNothingAdded | app/market/deduplication.py:75-104 | representatives and others together are exactly the qualifying markets, each as often as it was listed |
| Aggregation.RankedAsDocumented | app/market/deduplication.py:31-101 | whatever is listed, the markets of a coin stand by greater increase, and among equal ones USDT linear before USDC linear before other linear before spot quoted in a stablecoin, in either case, before other spot, and then by smaller symbol |
| Aggregation.RepresentativeWins | app/market/deduplication.py:75-101 | each representative is a listed market of its coin beyond the threshold, and no such market of the coin has risen more, or as much and comes first by those rules |
| Aggregation.RepresentativeIsBest | app/market/deduplication.py:87-101 | for unique spot and linear markets it comes strictly first: no other market of the coin could stand before it by those rules |
| Aggregation.FingerprintListsCoins | app/market/deduplication.py:61-72 | the fingerprint lists, in ascending order and once each, exactly the coins with a market beyond the threshold, and the representatives come in that order |
| Aggregation.FingerprintDecidesCoins | app/market/deduplication.py:69-72 | two results have the same fingerprint if and only if the same coins qualify |
| Aggregation.SortedSorts | app/market/deduplication.py:87-94 | the ranking is in order and a permutation |
| Aggregation.InOrderUnique | app/market/deduplication.py:87-94 | where the key decides between any two markets, the ranking is determined by the markets alone |
| Aggregation.GroupByCoin | app/market/deduplication.py:79-83 | the loop groups exactly the qualifying markets by coin, in the order they came |
| Aggregation.AggregateQualifying | app/market/deduplication.py:75-104 | the loops compute the specified result |
| Aggregation.RankGroups | app/market/deduplication.py:85-101 | one representative for each listed coin, in the order of the list |
| Health.VerdictExactly | app/health/monitor.py:200-268 | over any snapshots with a forward clock: unhealthy if and only if some subsystem is critical, healthy if and only if none is down, Telegram works and nothing is queued, and degraded otherwise |
| Health.CriticalExactly | app/health/monitor.py:207-248 | a subsystem counts as critical if and only if it is down, by its own check, and is the database or has been down in every snapshot for at least the grace |
| Health.UnhealthyExactly | app/health/monitor.py:237-265 | over any sequence of snapshots the verdict is unhealthy if and only if the database is bad or some critical subsystem has been bad without a break for at least the grace |
| Health.TracksStreaks | app/health/monitor.py:237-254 | after every snapshot exactly the bad subsystems are tracked, each since the first snapshot of its unbroken streak |
| Health.PersistedExactly | app/health/monitor.py:242-248 | which failures count as critical, in terms of streaks |
| Health.IssuesPartitionBad | app/health/monitor.py:266-268 | critical and pending issues are disjoint and together the bad subsystems |
| Health.HealthMonitor.CollectCritical | app/health/monitor.py:213-230 | the checks one after another collect exactly the bad subsystems |
| Health.HealthMonitor.ForgetRecovered | app/health/monitor.py:237-240 | exactly the recovered subsystems lose their time |
| Health.HealthMonitor.TrackBad | app/health/monitor.py:241-248 | newly bad subsystems start now, the others keep their time, and exactly the outlasted ones are returned, each once |
| Health.HealthMonitor.Classify | app/health/monitor.py:200-268 | the whole report and the new tracker |
| SplitMessage.SplitIsExact | app/telegram/client.py:50-64 | for every text and limit the text is the chunks with nothing but whitespace between and behind them, every chunk fits, every chunk after the first is non-empty and starts with a visible character, and none but the last ends with whitespace; a text within the limit is its only chunk |
| SplitMessage.SplitCutsLate | app/telegram/client.py:55-62 | every chunk but the last is cut at the last newline within the limit of what remained, but for a leading one, or right at the limit if there is none |
| SplitMessage.NothingVisibleLost | app/telegram/client.py:50-64 | the visible characters of the chunks are those of the text, in order |
| SplitMessage.CutAt | app/telegram/client.py:57-59 | the cut is at the last newline of the window after its first character, or at the limit if there is none |
| SplitMessage.Split | app/telegram/client.py:50-64 | the loop ends and returns the chunks of the decomposition |
| Ordering.SortedSet | app/bybit/websocket.py:299-301 | a set of strings has one ascending listing with exactly its members |
| Ordering.BelowExactly | app/market/deduplication.py:72-72 | strings are compared by the first character in which they differ, and a proper prefix comes first |
| Ordering.AscendingUnique | app/market/deduplication.py:72-72 | two ascending lists of the same strings are equal |

## Left out

- Connection plumbing: HTTP and socket input and output, frames that are not answers, heartbeats, backoff
  and the wait between attempts, and the REST client with its retries and pages.
- The age of unanswered requests and of tickers: a step of the protocol may stop the receive loop at any
  moment, which covers both watchdogs and every other reason to leave the loop; when they fire is not stated.
- An exchange that answers a request it never received, or accepts a request in part; every answer, repeated
  ones included, is to a frame it took from the queue of this connection.
- SubscriptionProtocol.ServerAgreement: the set handed to an unsubscribe pass is arbitrary here, so nothing is
  said about the difference `sync_subscriptions` computes from a confirmed set that may change under it.
- Subscription.BybitWebSocketClient.SyncSubscriptions: the filter over the registry is a parameter, both streams are
  alike and one is modelled, and nothing runs in between; interference is the subject of `SubscriptionProtocol`.
- Database: a cancellation that lands inside the begin, commit or rollback statement itself, statements that write
  outside `transaction()`, closing the connection, and SQLite's own durability; commit and rollback are atomic.
- Pipeline: transactions are single steps; `PipelineTransactions` opens up the two that write to more than one table,
  the alert cycle's and the acknowledgement's.
- Pipeline.DeliveryAccounting: which of several chunks was accepted is not told apart; the account is that of any one
  of them.
- Pipeline: exactly-once delivery and a flush on `stop()`, which the program does not provide.
- DedupeKeys.HourlyKeyNamesHour: the calendar text of an hour is replaced by the number of the hour, which it stands
  for one to one.
- AlertMachine.AlertStateMachine.Evaluate: debounce and cooldown are whole seconds and not negative, as truncated; the
  coins come as the sorted unique list the aggregation gives; the legacy `update` and `reset` are not modelled.
- Subscription.BybitWebSocketClient.SendSubscribeOps: nothing runs between its sends and no send is cancelled; both
  are the subject of `SubscriptionProtocol`.
- Subscription.BybitWebSocketClient.SendUnsubscribeOps: the same.
- Subscription.BybitWebSocketClient.Resubscribe: the same, and the wait for the subscription lock.
- Subscription.BybitWebSocketClient.Unsubscribe: the same, and the wait for the subscription lock.
- AlertService.Service.Process: the wake-up of the worker, the message text and logging.
- Dispatcher: the worker's failure counters, its health report and its backoff after an error.
- Dispatcher.AlertDispatcher.Deliver: a failure of the write that records a refusal or a failure; it ends the batch,
  which is `WorkerStops` in `Pipeline`.
- Dispatcher.AlertDispatcher.ProcessDue: an error that ends the batch, for the same reason.
- Dispatcher.AlertDispatcher.Iteration: the same, and the wait for work.
- Dispatcher.AlertDispatcher.Drain: the time of day stands still and nobody inserts, as the property demands; an
  answer is given for each attempt in advance.
- Listing.HandlingCovers: a crash or a failing enqueue between the record of an event and its row, which the
  startup repair is for; `RepairTask.RepairCovers` has it among the other tasks.
- Database.Database.EnterTransaction: the wait for the lock and its cancellation, which are steps of the system.
- Listing: announcements from the news feed, classified by keywords, and the repair without an outbox.
- Registry: fields that no event carries are left out of the instrument.
- The percentage change of a market, one division in decimal arithmetic, and the choice of its reference price by
  category.
- SpotHistory: one market; the SQL query is a loop over its samples; `sample_seconds`, tolerance, retention and
  prices are real numbers, so rounding of floats is not modelled.
- Aggregation: increases are real numbers, upper-casing covers ASCII letters, and `sorted` is a stable insertion
  sort on values.
- Aggregation.OrderIndependent: for spot and linear markets with unique identities; two markets that agree in
  increase, rank and symbol keep their listed order.
- Health: collecting the snapshot, the notes, the persisted copy and the summary text; the two flags of the linear
  stream are one.
- Configuration, logging, the formatter, the price engine, main wiring, scripts and containers: presentational or
  easy.
