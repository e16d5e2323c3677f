# Verified models of the trading system's critical logic

This project models, in Dafny, the parts of the trading system whose correctness is hardest to see by reading
them, and proves what they promise, or exactly when they keep it. `dafny verify dfyconfig.toml` checks
everything; nothing here runs the original programs.

## What is modelled

- **The trading loop** (`TradingLoop`, `TradingSafety`, `TradingLiveness`, `TradingLock`, `TradingRaces`, `TradingBooks`,
  `TradingController`, `BreakerResets`, `TradingIntegration`). A state machine in which any number of loop threads in
  `TradingController.start`, the kill-switch callback, another thread in `stop`, resets, the flag toggles of
  `enable_trading` and `disable_trading`, and the broker interleave at every read and write of a shared variable. A
  theorem about `Play` holds for every interleaving; `Run` is the play of one loop thread alone. `Trace` is what the
  loop threads saw and handed to the executor. The class `Controller` has the methods that change fields without yielding
  to the loop, and `TradingIntegration` the component that registers controllers and switches them all.
- **The checkpointed backfill** (`BackfillResume`, `BackfillRecovery`, `BackfillScript`). The disk is the tick table (a
  multiset, since the table has no unique key) and the progress record. A history is any list of runs; each may finish,
  die or raise after any number of inserts and checkpoints, may resume or start afresh, and has its own validation of
  ticks. What the database driver does with time zones and with statements that return no rows is a parameter.
  `BackfillScript` is the script, proved to leave the disk that the specification says, wherever it dies.
- **The dashboard's WebSocket client** (`SubscriptionClient`, `SubscriptionSafety`, `SubscriptionService`,
  `SubscriptionSockets`, `SubscriptionLedger`, `ChannelMapping`). Every callback is one event; the `await` in `connect`
  splits it in two, so the race between calls is part of the model. The server is the fold of the messages sent over each
  socket. The class `WebSocketService` has the service's fields and methods, all of which keep its agreement with the
  server but the public `unsubscribe`; the ledger follows each subscription to its closure over whole runs.
  `ChannelMapping` is what this repository's server makes of the messages, with its table of channels as a parameter.
- **The walk-forward windows** (`WalkForward`), with the window loop as a loop and its closed-form count.
- **Tick conversion** (`TickParsing`, `TickConversion`, `TickPartition`, with `Sorting`, `Grouping` and `Calendar`): the
  batched converter, the whole-file converter, validation and the split by year.
- **Download bookkeeping** (`DownloadProgress`, `DownloadWatchdog`) and **seeding** (`SeedLoader`).
- **HTTP/1.1 messages** (`HttpMessages`, `HttpServer`, with `Text`), section 3 of RFC 7230.
- **Maximum drawdown** (`Drawdown`).

## What the code does not do

Where a promise fails, the code is modelled as it is, and a lemma says exactly when the promise holds.

- `start` looks at `is_running` once, and `stop` only clears it: a controller stopped and started again while its loop
  sleeps has two loops (`StopThenStartDoublesLoop`), and then two trades can open after a kill (`TwoTradesAfterKill`).
  `OvershootAtMostOneIff` says exactly when the bound is one.
- `stop` says that it does not clear a triggered kill switch, but its check and its disarm are two steps:
  `LatchIsExact` and `TriggerLostInStop`. A reset between an alert and the kill check lets the iteration go on to the
  executor: `ResetRevivesIteration`. A start that fails before the loop leaves the controller marked as running, and no
  start works any more: `FailedStartStrands`, `StrandedStays`, and `AlwaysMannedIff` for the exact condition.
- The comment on the breaker's resets says 00:00 UTC; the code reads local time. `BreakerResets` is about whatever
  clock the code reads.
- A checkpoint is recorded only if the driver gives recorded times a zone and carries out updates through a call that
  fetches rows; otherwise every run starts over and fails after its first batch: `CheckpointRecordedIff`,
  `StartsOverForever`. With checkpoints, one equal to the end of the range makes resuming impossible, and so does an end
  given without a zone: `ResumeSucceedsIff`, `StuckAtEnd`, `MixedResumesReadNothing` and, with a tick lost for good,
  `CrashAtEndLosesTick`.
- The events of the MT5 connector have their prices where the script does not look, and its validation refuses ticks over
  an hour old: with these, a backfill stores nothing (`NestedPricesStoreNothing`, `OldRangesStoreNothing`). With a
  connector that yields prices at the top level and a validation that lets ticks pass, ticks on inner day boundaries are
  stored twice (`YieldRepeatsBoundaries`), and resuming a completed backfill stores everything once more
  (`ResumeAfterCompletionDuplicates`). An insert that fails by returning -1, or a row that fails singly, is not noticed:
  `FinishedRunStoresAllIff`.
- The public `unsubscribe` leaves the server subscribed: `UnsubscribeKeepsSyncIff`. Two subscriptions of one handler to
  one channel share one registration: `AlwaysHonestIff`. Overlapping calls of `connect`, or a close reported late, open
  two sockets: `AlwaysOneLiveIff`, `TwoCallsTwoSockets`, `LateCloseTwoSockets`. After `disconnect` nothing ever reconnects
  by itself: `ReconnectingEndsForGood`. Giving up a channel that the server maps to the same one as another ends both:
  `AlwaysFaithfulIff`, `SharedChannelEndsBoth`.
- Rows at the last timestamp are never tested by the walk-forward windows: `UntestedEnds`.
- The two tick converters disagree about times written with a fraction and about the literals `NaN` and `Infinity`, and
  either can abort on a file that the other converts: `ConvertersAgreeIff`, `SortedTablesAgreeIff`. The tick at the first
  moment of 1970 is dropped under the key `time`: `ZeroIsLostUnderTime`. A missing bid next to an ask too large for a
  double is skipped under the older keys and raises under the newer: `OldKeysMeanTheSameIff`. Prices that are not numbers
  pass the parser and fail validation: `ValidationPassesIff`.
- The watchdog's message claims 600 seconds without growth, but 570 can be enough: `SixHundredIff`, `HungAfter570`. The
  waits for rate limits, resets and timeouts are chosen from the text of the exit code, which has no letters:
  `WaitsAreGenericIff`.
- A request after an empty line is refused, although section 3.5 of RFC 7230 asks servers to ignore that line:
  `LeadingBlankLineIsRefused`. Without a blank line the headers are taken for the body as well: `BodyIsSuffix`.
- An insert that raises in the seeding loop leaves its batch in place, and counts one error more than there are rows:
  `FileConservesRows`.
- A handler that sets its own Content-Length makes the response carry two: `OneLengthIff`.
- With negative equity the one-pass drawdown can miss the largest fall: `OnePassIsMaximumIff`, `NegativeEquityIsMissed`.

## Model

| member | source | states |
|---|---|---|
| TradingSafety.ExecutedActionsAreGated | src/backend/trading_server/src/trading_controller.py:241-331 | In every interleaving of any number of loop threads, each action that a thread hands to the executor ends an iteration of that thread which read the kill switch inactive, the breaker allowing, the feed ready and trading enabled; it is HOLD if the risk manager refused, and passed pre-trade validation if it named a pair |
| TradingLiveness.AlwaysInLoopIff | src/backend/trading_server/src/trading_controller.py:241-404 | Whatever the other threads do, a thread inside the loop stays there if and only if it never finds `is_running` cleared, never finds the kill switch active and raises nothing outside `_execute_action` |
| TradingLiveness.IterationsInOrder | src/backend/trading_server/src/trading_controller.py:241-386 | While it stays, its events come in the order of an iteration: a breaker that halts, a stale feed or disabled trading lead to the next iteration, open gates to the next gate, and `_execute_action`, blocked, swallowing or not, to the report of its profit |
| TradingLiveness.LoopGetsThrough | src/backend/trading_server/src/trading_controller.py:241-386 | And fifteen of its steps that do not wait begin a new iteration; it waits only for the lock with a critical mismatch, and in an alert for its own handler |
| TradingLiveness.ClosedGateOnlySkips | src/backend/trading_server/src/trading_controller.py:254-302 | After a gate is read as closed, the next event of a thread that is not ended is a new iteration, with its second step at the latest |
| TradingSafety.OvershootAtMostInFlight | src/backend/trading_server/src/trading_controller.py:580-592 | With the flag down and nobody raising it, no more trades open than there are loop threads whose executor call had already read the flag as up |
| TradingSafety.OvershootAtMostOneIff | src/backend/trading_server/src/trading_controller.py:580-592 | With the flag down at most one more trade opens in every play if and only if at most one loop thread has an opening action in the executor's hands; with a single loop thread it is always so |
| TradingRaces.StopThenStartDoublesLoop | src/backend/trading_server/src/trading_controller.py:194-206 | A stop and a start on another thread during a loop's sleep lead to two loops that both have an opening action in the executor's hands |
| TradingRaces.TwoTradesAfterKill | src/backend/trading_server/src/trading_controller.py:158-206 | From there a kill can be followed, after its handler has stopped the loops, lowered the flag and closed everything, by two new trades, with no exception, reset or enabling on the way |
| TradingSafety.HandlerAccountsForTrades | src/backend/trading_server/src/trading_controller.py:158-171 | At every point of a play, the open trades are those still to close, those whose close failed and those opened since |
| TradingSafety.KillLeavesOnlyInFlight | src/backend/trading_server/src/trading_controller.py:158-171 | When the handler has gone through its snapshot, what is still open refused to close or opened since, at most one trade for each loop thread that was in flight |
| TradingRaces.HandlerAlone | src/backend/trading_server/src/trading_controller.py:158-171 | Uninterrupted, the handler stops the loop, lowers the flag and leaves exactly the tickets that refuse to close |
| TradingLock.TradesAreConserved | src/backend/trading_server/src/trading_controller.py:158-171 | Over any play what is open is what was open and what a BUY or SELL handed over with the flag up has opened, without what a CLOSE or the handler has closed, and no ticket is issued twice |
| TradingSafety.DisabledLoopExecutesNothing | src/backend/trading_server/src/trading_controller.py:327-331 | While trading is disabled nothing is handed over, but by each loop thread past its first read of the flag one action at most, and then with the flag down |
| TradingSafety.KillSwitchLatches | src/backend/trading_server/src/trading_controller.py:249-252 | A triggered switch stays triggered without a reset and lets through at most one action of each loop thread past its kill check, even if somebody keeps enabling trading |
| TradingSafety.LatchIsExact | src/backend/trading_server/src/trading_controller.py:424-426 | Some step other than a reset can undo a trigger if and only if a `stop`, of a loop thread or another, stands between its check and its disarm |
| TradingLiveness.TriggeredRefusesStart | src/backend/trading_server/src/trading_controller.py:199-206 | Until somebody resets a triggered switch, no start on any thread gets past its check |
| TradingLock.KillMoves | src/backend/trading_server/src/risk/kill_switch.py:465-630 | The switch is triggered from any state but triggered, reset only from triggered, armed by a start unless triggered, and disarmed by a stop that found it not triggered; every change takes the lock, and nothing else starts a handler |
| TradingLock.HandlerHoldsLock | src/backend/trading_server/src/risk/kill_switch.py:504-540 | While a handler runs nobody changes the switch, not even a reset or a `stop` about to disarm it |
| TradingLock.OneHandlerPerTrigger | src/backend/trading_server/src/risk/kill_switch.py:504-507 | A triggered switch that nobody resets never starts a second handler |
| TradingRaces.TriggerLostInStop | src/backend/trading_server/src/trading_controller.py:409-426 | A trigger that arrives after the check in `stop` is wiped out although nobody reset it |
| TradingLock.StoppingAgainDoesNothing | src/backend/trading_server/src/trading_controller.py:407-426 | Stopping what has stopped changes nothing, whoever does it and however often |
| TradingSafety.MismatchStopsIteration | src/backend/trading_server/src/trading_controller.py:173-190 | From the reconciliation that finds a critical mismatch on, unless a `stop` was about to disarm the switch or somebody resets it, the next thing that loop thread does is to read the switch as active |
| TradingLock.AlertRunsHandler | src/backend/trading_server/src/trading_controller.py:173-190 | The thread that found the mismatch runs the handler itself: it does not go on before that handler has ended |
| TradingRaces.ResetRevivesIteration | src/backend/trading_server/src/trading_controller.py:246-252 | After a reset between the alert and the kill check, the iteration that found the mismatch can hand any action to the executor once trading is enabled |
| TradingSafety.FailedStartStrands | src/backend/trading_server/src/trading_controller.py:194-241 | An exception in `start` before the loop leaves the controller marked as running with no loop |
| TradingSafety.StrandedStays | src/backend/trading_server/src/trading_controller.py:194-206 | From there no start on any thread begins a loop until somebody stops the controller or triggers the kill switch |
| TradingSafety.AlwaysMannedIff | src/backend/trading_server/src/trading_controller.py:194-241 | For any number of threads, `is_running` has a thread behind it throughout a play if and only if no exception comes between setting it and the loop on the only thread inside |
| TradingBooks.RecordedProfitTelescopesIff | src/backend/trading_server/src/trading_controller.py:328-337 | With one loop thread, the books balance after every step of a run if and only if the balance moves only between the loop's two reads of it and every window in which it moves is reported; then the initial balance and all recorded profits make up the last balance reported |
| TradingBooks.ErrorsRecordedOnce | src/backend/trading_server/src/trading_controller.py:327-383 | Over any run the breaker is told of each error of the trading part exactly once, by the handler in `_execute_action`, which swallows it, or by the one around it, which ends the loop |
| TradingController.EncodeThenDecode | src/backend/trading_server/src/environments/base_trading_env.py:69-93 | Decoding an encoded pair and offset gives them back, and the code lies in 1 to 3n |
| TradingController.DecodeThenEncode | src/backend/trading_server/src/trading_controller.py:498-504 | Every code in 1 to 3n is the encoding of what it decodes to |
| TradingController.Controller.BuildActionMask | src/backend/trading_server/src/trading_controller.py:466-496 | An entry is masked exactly when nothing is open and it encodes a CLOSE; without connectors everything but HOLD is |
| TradingController.Controller.HandleKillSwitch | src/backend/trading_server/src/trading_controller.py:158-171 | The loop over the snapshot leaves open exactly the trades that the broker did not close whole |
| TradingController.Controller.CheckAndResetCircuitBreaker | src/backend/trading_server/src/trading_controller.py:657-684 | Both resets follow the period rule that the spacing theorems are about, and restart just their own profit and balance |
| BreakerResets.ResetNeverOverdue | src/backend/trading_server/src/trading_controller.py:657-684 | If some tick falls in every reset window, the last reset is never two periods and a window old |
| BreakerResets.ResetSpacing | src/backend/trading_server/src/trading_controller.py:657-684 | Consecutive resets are at least a period and less than two periods and a window apart, in different periods, and never skip two |
| BreakerResets.DailyResetSpacing | src/backend/trading_server/src/trading_controller.py:663-673 | Daily resets are 24 h to 48 h 5 min apart |
| BreakerResets.HourlyResetSpacing | src/backend/trading_server/src/trading_controller.py:675-684 | Hourly resets are 1 h to 2 h 5 min apart |
| BreakerResets.WindowSkippedWhenEarly | src/backend/trading_server/src/trading_controller.py:665-672 | A tick in the next window resets if and only if it comes no earlier in its period than the last reset did |
| BreakerResets.FirstTickInWindowResets | src/backend/trading_server/src/trading_controller.py:663-684 | No reset has happened if and only if no tick fell into a window, and the first tick that does resets |
| TradingController.Account.CloseOrder | src/backend/trading_server/src/models/account.py:87-116 | A ticket goes if and only if its whole lot size was closed; a failed close is swallowed, a partial one changes its lot size, and no other trade is touched |
| TradingIntegration.FlagsFollowSwitch | src/backend/trading_server/src/ai_trading_integration.py:37-170 | Whatever is initialised and switched, in any order, every controller ever created stays registered under one login, and its flag is the switch |
| TradingIntegration.RegisteredIff | src/backend/trading_server/src/ai_trading_integration.py:45-87 | A login has a controller if and only if it was ever initialised with an environment at hand |
| TradingIntegration.AITradingIntegration.InitializeAgentForAccount | src/backend/trading_server/src/ai_trading_integration.py:37-87 | A login without a controller gets one with the switch's value; a login that has one keeps it, and nothing changes |
| TradingIntegration.AITradingIntegration.EnableTrading | src/backend/trading_server/src/ai_trading_integration.py:154-161 | The switch and all registered controllers are on |
| TradingIntegration.AITradingIntegration.DisableTrading | src/backend/trading_server/src/ai_trading_integration.py:163-170 | The switch and all registered controllers are off |
| BackfillRecovery.CrashAndResumeLosesNothing | scripts/backfill_mt5_data.py:101-156 | After any crashes, errors, resumes and restarts, once one run has finished the table holds every valid tick of the range that passes the validation of all runs, and has gained only such as pass that of some run |
| BackfillRecovery.HistorySound | scripts/backfill_mt5_data.py:134-148 | At every crash point, every valid tick earlier than the checkpoint that all runs let through is stored, and nothing foreign is |
| BackfillRecovery.NestedPricesStoreNothing | src/backend/trading_server/src/events/normalizer.py:245-256 | Of events with their prices one level down nothing is ever stored, and a run that is not refused completes all the same |
| BackfillRecovery.OldRangesStoreNothing | src/backend/trading_server/src/events/quality_gates.py:119-128 | With a validation that refuses ticks over an hour old, a range that lies further back is never stored |
| BackfillRecovery.CheckpointNeverRetreats | scripts/backfill_mt5_data.py:285-290 | A resumed run never moves the checkpoint back, however it ends |
| BackfillRecovery.CheckpointIsLastStored | scripts/backfill_mt5_data.py:126-150 | After each checkpoint the table has gained the first so many hundreds of what is read, or all of it, and the record has the time of the last of these ticks |
| BackfillRecovery.CheckpointIsLatest | scripts/backfill_mt5_data.py:134-148 | Of the ticks that a run has stored none is later than its checkpoint, and one is at it |
| BackfillRecovery.ResumeStoresOnce | scripts/backfill_mt5_data.py:101-150 | After a crash at a checkpoint and a resume that finishes, a tick not at the checkpoint is stored as often as the source has it, and once more for an inner day boundary |
| BackfillRecovery.ReadsPricedTicks | scripts/backfill_mt5_data.py:110-120 | A run reads exactly the ticks of its range that have a bid and an ask other than zero and pass its validation |
| BackfillRecovery.FreshStartForgets | scripts/backfill_mt5_data.py:281-296 | Without `--resume` an earlier record makes no difference |
| BackfillRecovery.EarlyCrashLeavesPending | scripts/backfill_mt5_data.py:292-296 | A fresh run that dies before its first checkpoint leaves a pending record that nothing resumes from |
| BackfillRecovery.EndingIsRecorded | scripts/backfill_mt5_data.py:317-338 | Where updates go through, a run that ends is recorded as completed if it succeeded, and otherwise as failed |
| BackfillRecovery.ResumeAfterCompletionDuplicates | src/backend/trading_server/src/infrastructure/backfill/progress_tracker.py:321-352 | Resuming a backfill that has completed stores every tick of the range that passes the validation once more |
| BackfillRecovery.FinishedRunAddsPulled | scripts/backfill_mt5_data.py:110-148 | A finished run with nothing failing adds exactly what it read, also what was there before |
| BackfillRecovery.ResumeSucceedsIff | src/backend/trading_server/src/connectors/mt5_tick_connector.py:429-577 | An undisturbed resume succeeds if and only if its checkpoint lies before the end, both carry a zone or neither does and nothing is left to read, and updates go through; then no tick that all runs let through is missing |
| BackfillRecovery.StuckAtEnd | src/backend/trading_server/src/connectors/mt5_tick_connector.py:429-577 | From a checkpoint at the end no number of resumes stores anything or succeeds |
| BackfillRecovery.CheckpointRecordedIff | src/backend/trading_server/src/infrastructure/backfill/progress_tracker.py:105-148 | A run leaves a checkpoint if and only if the record it works on has one, or updates go through, recorded times carry a zone and it gets past its first insert |
| BackfillRecovery.StartsOverForever | src/backend/trading_server/src/infrastructure/backfill/progress_tracker.py:105-148 | Otherwise every run, resumed or not, reads from the start, stores its first batch again and fails; it succeeds if and only if updates go through and it reads nothing |
| BackfillRecovery.MixedResumesReadNothing | src/backend/trading_server/src/connectors/mt5_tick_connector.py:440-443 | With a zone in the end or in the checkpoint, but not in both, no number of resumes reads anything |
| BackfillRecovery.CrashAtEndLosesTick | scripts/backfill_mt5_data.py:127-137 | A crash after a checkpoint at the end loses a wanted tick that no resumes bring back |
| BackfillRecovery.FinishedRunStoresAllIff | src/backend/trading_server/src/database/database.py:400-513 | A run finishes even when inserts or single rows fail, and stores all it read if and only if none did |
| BackfillRecovery.PassedOverStaysLost | scripts/backfill_mt5_data.py:285-290 | A resumed run leaves what lies before its checkpoint as it is |
| BackfillRecovery.FeedRepeatsBoundaries | src/backend/trading_server/src/connectors/mt5_tick_connector.py:486-534 | The requests return each tick as often as the range does, and once more for every inner day boundary it lies on |
| BackfillRecovery.BoundariesAreDays | src/backend/trading_server/src/connectors/mt5_tick_connector.py:486-490 | The inner boundaries lie whole days after the start, and before the end |
| BackfillRecovery.YieldRepeatsBoundaries | src/backend/trading_server/src/connectors/mt5_tick_connector.py:486-534 | The connector yields a tick that passes its validation that often, and any other never |
| BackfillScript.BackfillTicks | scripts/backfill_mt5_data.py:101-156 | The batching loop, stopped after any number of inserts and checkpoints or by a checkpoint that raises, leaves the disk that the batch specification says |
| BackfillScript.Backfill | scripts/backfill_mt5_data.py:257-338 | The script, from the record that it finds to the status that it leaves, is one run of the specification |
| BackfillScript.TickStore.InsertBatch | src/backend/trading_server/src/database/database.py:400-513 | An insert adds the rows that do not fail and counts them, or reports -1 and adds nothing; a full count means that the whole batch is stored |
| BackfillScript.ProgressTracker.UpdateProgress | src/backend/trading_server/src/infrastructure/backfill/progress_tracker.py:82-178 | The record, if there is one, gets the time as its checkpoint and is in progress, unless the subtraction or the update raises; then nothing changes |
| SubscriptionSafety.ServerAgrees | src/dashboard/src/services/websocket.ts:54-62 | In every reachable state with the socket open, the server serves exactly the channels that have handlers, and no handler set is empty |
| SubscriptionSafety.ServerCovers | src/dashboard/src/services/websocket.ts:186-188 | With the public `unsubscribe` as well, the server serves at least those channels |
| SubscriptionSafety.UnsubscribeKeepsSyncIff | src/dashboard/src/services/websocket.ts:186-188 | The public `unsubscribe` keeps the agreement if and only if the channel has no handlers or no socket is open |
| SubscriptionSafety.ReleaseIsHonestIff | src/dashboard/src/services/websocket.ts:145-159 | A closure, also a stale or repeated one, withdraws just its own subscription if and only if no other live one has the same channel and handler |
| SubscriptionLedger.AlwaysHonestIff | src/dashboard/src/services/websocket.ts:129-159 | Throughout a run handlers are registered for exactly the subscriptions made and not ended, if and only if no closure is called while another live subscription has its channel and handler |
| SubscriptionLedger.MessagesReachLiveSubscriptions | src/dashboard/src/services/websocket.ts:114-127 | In such a run a message reaches exactly the handlers of the live subscriptions to its channel, and none if the channel's name is empty |
| SubscriptionSafety.AttemptsAreNumbered | src/dashboard/src/services/websocket.ts:90-106 | Between successful opens the attempts count 1, 2, 3 and so on, and a closed socket schedules none past the tenth |
| SubscriptionSafety.DelaysGrow | src/dashboard/src/services/websocket.ts:103-111 | Delays never shrink and lie between one and thirty seconds |
| SubscriptionSafety.ReconnectWaitBound | src/dashboard/src/services/websocket.ts:78-112 | Between successful opens closed sockets cause at most 181 seconds of waiting |
| SubscriptionSafety.AttemptsHaveTimers | src/dashboard/src/services/websocket.ts:103-112 | Every attempt scheduled in a run has a timer, pending or fired |
| SubscriptionSockets.CloseSchedulesIff | src/dashboard/src/services/websocket.ts:78-93 | A close schedules one attempt if and only if the token was not rejected, nobody has disconnected and fewer than ten attempts were made |
| SubscriptionSockets.FailureSchedulesIff | src/dashboard/src/services/websocket.ts:94-101 | A constructor that fails schedules one if and only if nobody has disconnected |
| SubscriptionSockets.ReconnectsUntilDisconnect | src/dashboard/src/services/websocket.ts:78-112 | In every run without `disconnect`, each close before the tenth attempt and without a rejected token schedules one |
| SubscriptionSafety.ConnectingNeverSticks | src/dashboard/src/services/websocket.ts:31-76 | In every reachable state with the connecting flag up, some socket has its close still to report, which will lower the flag |
| SubscriptionSafety.ReconnectRestores | src/dashboard/src/services/websocket.ts:54-112 | A client that loses its open socket and whose next connection succeeds is served on all its channels again, with its attempts starting over |
| SubscriptionSafety.DisconnectIsFinal | src/dashboard/src/services/websocket.ts:198-205 | After `disconnect`, with no new connect or subscribe, only calls already waiting for a token can create sockets |
| SubscriptionSafety.LateSocketIff | src/dashboard/src/services/websocket.ts:42-52 | A socket can still appear after `disconnect` if and only if a `connect` was waiting for its token |
| SubscriptionSafety.ReconnectingEndsForGood | src/dashboard/src/services/websocket.ts:198-205 | After `disconnect` no attempt is ever scheduled again, whatever is called |
| SubscriptionSockets.TwoCallsTwoSockets | src/dashboard/src/services/websocket.ts:31-52 | Two calls of `connect` before the first token arrives open two sockets |
| SubscriptionSockets.AlwaysOneLiveIff | src/dashboard/src/services/websocket.ts:31-52 | In every run at most one socket at a time is connecting or open if and only if no token creates a socket while another one is |
| SubscriptionSockets.GuardHolds | src/dashboard/src/services/websocket.ts:31-34 | A client that is open or connecting, with no call waiting, makes no further socket, whichever way `connect` is called and whatever token comes |
| SubscriptionSockets.PromptCallsIff | src/dashboard/src/services/websocket.ts:31-80 | If every token arrives before the next event, one more call leaves at most one socket connecting or open at every moment if and only if no close or error lowers the flag while a socket is connecting |
| SubscriptionSockets.CallGetsThrough | src/dashboard/src/services/websocket.ts:31-52 | A client that is neither open nor connecting makes a socket at the next call, if it has a token getter and gets a token |
| SubscriptionSockets.NothingWithoutGetter | src/dashboard/src/services/websocket.ts:36-40 | Before a token getter is set, nothing ever connects |
| SubscriptionSockets.LateCloseTwoSockets | src/dashboard/src/services/websocket.ts:31-80 | A close that is reported while the next socket connects lowers the flag, and one more call opens a second socket |
| ChannelMapping.Serve | src/backend/api/src/websocket/channels.py:121-215 | The loop of the server over the messages of a session joins the specified channels |
| ChannelMapping.AlwaysFaithfulIff | src/backend/api/src/websocket/channels.py:16-33 | Throughout a session the server has joined the channels behind what the client listens to if and only if the client never gives up one that shares its channel at the server with another it listens to |
| ChannelMapping.DashboardIsServed | src/backend/api/src/websocket/channels.py:121-215 | Then a client in agreement with its messages is served all that it listens to, but for channels unknown to the server |
| ChannelMapping.SharedChannelEndsBoth | src/backend/api/src/websocket/channels.py:16-33 | Of two channels mapped to one, giving up either ends both |
| SubscriptionService.WebSocketService.HandleMessage | src/dashboard/src/services/websocket.ts:114-127 | Each recipient is called once, whatever the others raise |
| SubscriptionService.WebSocketService.ResubscribeAll | src/dashboard/src/services/websocket.ts:179-184 | The loop sends one subscription for every channel, in order, over the current socket if it is open |
| SubscriptionService.WebSocketService.OnOpen | src/dashboard/src/services/websocket.ts:54-62 | The open handler, also of a socket that is no longer current, keeps the agreement with the server: its loop leaves the current open socket subscribed to every channel |
| SubscriptionService.WebSocketService.OnClose | src/dashboard/src/services/websocket.ts:78-93 | A close, rejected token or not, keeps the agreement with the server and schedules no attempt past the tenth |
| SubscriptionService.WebSocketService.Subscribe | src/dashboard/src/services/websocket.ts:129-143 | The handler is registered and the agreement with the server kept, connected or not |
| SubscriptionService.WebSocketService.Release | src/dashboard/src/services/websocket.ts:145-159 | The handler is no longer registered and the agreement with the server kept, whichever of its calls this is |
| SubscriptionService.WebSocketService.ResumeConnect | src/dashboard/src/services/websocket.ts:42-101 | The rest of `connect` keeps the agreement with the server, failing constructor included, and a socket that it creates has been sent nothing |
| SubscriptionService.WebSocketService.Unsubscribe | src/dashboard/src/services/websocket.ts:186-188 | The public `unsubscribe` leaves the agreement with the server standing if and only if the channel had no handlers or no socket is open; the server still serves all that have handlers |
| SubscriptionService.WebSocketService.Disconnect | src/dashboard/src/services/websocket.ts:198-205 | Afterwards there are no handlers and no open socket, and so agreement with the server whatever was before |
| WalkForward.CountIsExact | scripts/walk_forward_validation.py:97-98 | The loop condition holds for exactly the first floor((end-start-train-test)/step)+1 windows |
| WalkForward.LengthCheckIffWindow | scripts/walk_forward_validation.py:75-83 | The check on whole days passes if and only if there is at least one window |
| WalkForward.WalkForwardValidation | scripts/walk_forward_validation.py:53-186 | Each error is returned exactly under its condition, the leak error never; otherwise the windows recorded are those that end with the data and have rows, the first test starting the train days after the earliest timestamp, each next one the step days later, each as many days long as asked |
| WalkForward.WindowsArePlaced | scripts/walk_forward_validation.py:92-121 | Where each window lies and which rows are in it, in days after the earliest timestamp |
| WalkForward.GenerateWindows | scripts/walk_forward_validation.py:92-186 | The window loop records the windows with train and test rows, and fails if and only if there are none |
| WalkForward.RecordedExactly | scripts/walk_forward_validation.py:129-183 | A window is recorded if and only if it is a candidate with train and test rows, and indexes increase |
| WalkForward.TrainPrecedesTest | scripts/walk_forward_validation.py:118-127 | Every train row precedes every test row, so the leak guard cannot fire |
| WalkForward.TrainSetsNest | scripts/walk_forward_validation.py:99-107 | Expanding train sets are nested and contain the rolling ones; no rolling window starts before the data |
| WalkForward.TestCoverage | scripts/walk_forward_validation.py:97-113 | Between the first test start and the last test end a moment is tested once, at least once or at most once as step and test length compare, with the exact condition when there are gaps |
| WalkForward.UntestedEnds | scripts/walk_forward_validation.py:98-113 | Rows before the first test start or from the last test end on, the last timestamp included, are never tested; what is left at the end is shorter than a step |
| WalkForward.TestSetsTile | scripts/walk_forward_validation.py:111-116 | With step equal to test length the test sets laid end to end are the tested part of the table, each row once |
| WalkForward.TrainAbsorbsTest | scripts/walk_forward_validation.py:100-116 | And an expanding train set is the one before it followed by that window's test set |
| WalkForward.ExpandingFailsIff | scripts/walk_forward_validation.py:129-186 | Expanding validation that passes the length check records nothing if and only if no row is ever tested |
| WalkForward.SortChoiceIsImmaterial | scripts/walk_forward_validation.py:68-73 | How the sort orders equal timestamps changes neither the windows nor the rows in them |
| TickParsing.KeptTicksAreSane | scripts/backfill_dukascopy_data.py:259-283 | A kept tick has positive, ordered prices, infinite ones included, but for prices that are not numbers |
| TickParsing.KeptTickIsTheRecords | scripts/backfill_dukascopy_data.py:261-279 | A kept tick has the bid, the ask and the milliseconds found in the record, under the newer key unless falsy, and the symbol asked for |
| TickParsing.NumericRecordKeptIff | scripts/utils/parquet_converter.py:58-80 | A record whose prices are numbers in range, as text or not, is kept, with exactly these, if and only if its moment can be represented and 0 < bid <= ask |
| TickParsing.WholeNumbersRaiseIff | scripts/utils/parquet_converter.py:63-80 | Whole numbers raise what ends the conversion if and only if the moment is beyond the clock, or representable and a price too large for a double |
| TickParsing.BeyondClockIff | scripts/backfill_dukascopy_data.py:268-268 | Beyond the clock lie the years that a 32-bit count from 1900 cannot hold |
| TickParsing.FloatLimitIs | scripts/backfill_dukascopy_data.py:272-273 | Too large for a double are whole numbers from 2 to the 1024 less 2 to the 970 on |
| TickParsing.ZeroIsLostUnderTime | scripts/backfill_dukascopy_data.py:263-265 | A moment is kept under the key `timestamp`, and under the key `time` if and only if it is not zero |
| TickParsing.OldKeysMeanTheSameIff | scripts/backfill_dukascopy_data.py:270-277 | The older price keys parse as the newer ones do, for any values, if and only if it is not the case that the prices are reached, the bid is missing and the ask is too large for a double |
| TickParsing.NewerKeysCount | scripts/backfill_dukascopy_data.py:270-272 | Where a record has both, newer prices count unless falsy |
| TickParsing.ReadersDisagreeIff | scripts/utils/parquet_converter.py:58-80 | The two readers treat a record differently if and only if it has a literal that only the plain one knows and that one does not raise, or, without such a literal, its time has a fraction and the plain one does not skip it |
| TickConversion.ConvertInBatches | scripts/backfill_dukascopy_data.py:285-353 | For any batch size the batches laid end to end are the plain filtered list, all full but the last, kept and skipped make up the processed records, and the outcome, a failing table of one batch included, is that of the unbatched conversion |
| TickConversion.ConvertWholeFile | scripts/utils/parquet_converter.py:81-117 | The plain loop keeps and counts every record, and fails exactly when it keeps none, a record raises, or a kept time fits no table |
| TickConversion.HoldsIff | scripts/backfill_dukascopy_data.py:316-316 | In nanoseconds the times fit that 64 bits hold, but the least number |
| TickConversion.ConvertersAgreeIff | scripts/utils/parquet_converter.py:81-117 | Both converters come to the same outcome if and only if each meets a record that raises or whose time fits no table, or no record is read differently |
| TickConversion.AbortsApart | scripts/utils/parquet_converter.py:54-79 | A file that is JSON proper and aborts the streaming converter aborts the other too, and only a record read differently can abort just one |
| TickConversion.SortedTablesAgreeIff | scripts/backfill_dukascopy_data.py:344-350 | When neither aborts the sorted tables hold the same ticks under that condition only, and then the same column of times, however each sort orders equal times |
| TickPartition.ValidationPassesIff | scripts/utils/parquet_converter.py:119-157 | On a converter's output both validations report nothing but nulls, and pass if and only if every kept price is a number |
| TickPartition.ComplaintsIff | scripts/utils/parquet_converter.py:119-150 | For any table, sorted or not, negative spreads, nulls and disorder are reported exactly if there are any |
| TickPartition.MeanSpreadIff | scripts/utils/parquet_converter.py:142-150 | On finite prices the whole-file converter reports a negative mean spread exactly if the asks come to less than the bids |
| TickPartition.PartitionByYear | scripts/utils/parquet_converter.py:170-180 | There is a partition for exactly the years that occur, each with that year's rows in order |
| TickPartition.PartitionsAreLossless | scripts/backfill_dukascopy_data.py:387-397 | Laid end to end in year order the partitions are the sorted table, and hold every kept tick as often as it was read |
| Calendar.YearIsMonotone | scripts/utils/parquet_converter.py:172-172 | A later moment never has an earlier year, leap years and centuries included |
| Calendar.YearIff | scripts/utils/parquet_converter.py:172-172 | A moment is in a year if and only if it lies between the two new years, counted in days from 1970 on, leap years included |
| DownloadProgress.DoneIffMarked | scripts/backfill_dukascopy_data.py:131-172 | After any run from an empty tracker a year is completed if and only if it was ever marked so; starts and failures never undo it |
| DownloadProgress.LastWriteCounts | scripts/backfill_dukascopy_data.py:131-166 | After any run a key holds what the last event for it wrote, and nothing if there was none |
| DownloadProgress.KeysAreDistinct | scripts/backfill_dukascopy_data.py:144-156 | Different years have different keys, none of them the key of the current download |
| DownloadProgress.RunsUseOwnKeys | scripts/backfill_dukascopy_data.py:131-166 | A tracker that only these operations have written to has no other keys |
| DownloadProgress.ProgressTracker.MarkCompleted | scripts/backfill_dukascopy_data.py:144-154 | The entry of the year is the only change to the record |
| DownloadProgress.ProgressTracker.MarkStarted | scripts/backfill_dukascopy_data.py:131-142 | The entry of the current download is the only change to the record |
| DownloadProgress.ProgressTracker.MarkFailed | scripts/backfill_dukascopy_data.py:156-166 | The entry of the current download is the only change to the record |
| DownloadProgress.ProgressTracker.IsCompleted | scripts/backfill_dukascopy_data.py:168-172 | The answer is whether the year counts as completed |
| DownloadProgress.ProgressTracker.GetCompletedYears | scripts/backfill_dukascopy_data.py:174-189 | The list is sorted and names the years of completed entries; in such a tracker, each once, and exactly the completed ones |
| DownloadWatchdog.Watch | scripts/backfill_dukascopy_data.py:831-887 | The loop ends within 722 passes whatever the process does, each verdict comes with its cause, and the last size is the largest sampled |
| DownloadWatchdog.LargestIsMaximum | scripts/backfill_dukascopy_data.py:858-868 | The size kept is the maximum of all sampled sizes |
| DownloadWatchdog.StalledCountsSightings | scripts/backfill_dukascopy_data.py:858-879 | The passes without progress are those that saw a file since it last grew |
| DownloadWatchdog.HungMeansNoGrowth | scripts/backfill_dukascopy_data.py:864-879 | A process ended as hung was running, and its file had not grown in any sample for at least 600 s since it last grew, or 570 s if it never did |
| DownloadWatchdog.SixHundredIff | scripts/backfill_dukascopy_data.py:835-879 | The 600 s of the message have passed past the twentieth pass, with exact pauses only then; an earlier end comes exactly of a file that was there from the first pass on and never grew |
| DownloadWatchdog.HungAfter570 | scripts/backfill_dukascopy_data.py:835-879 | A download whose empty file never grows is ended after 570 s |
| DownloadWatchdog.WaitsAreGenericIff | scripts/backfill_dukascopy_data.py:924-944 | The special waits for resets and timeouts are never chosen, the one for rate limits if and only if the code's digits contain 429 |
| DownloadWatchdog.PosixExitsAreGeneric | scripts/backfill_dukascopy_data.py:924-944 | No exit code of a POSIX process is read as rate limiting |
| DownloadWatchdog.LongCodesCanBeRateLimit | scripts/backfill_dukascopy_data.py:924-930 | Any code whose digits begin with 429 is, such as minus one as an unsigned 32-bit number |
| SeedLoader.SeedFile | scripts/seed_historical_data.py:252-299 | Every valid row is handed once and in order to an insert that returns, in batches of the given size that grow by one tick after each insert that raises |
| SeedLoader.FileConservesRows | scripts/seed_historical_data.py:252-299 | Inserted, skipped and errors, with the shortfall of successful inserts, make up all rows and one for every insert that raised |
| SeedLoader.WholeBatchesFallShortOfNothing | scripts/seed_historical_data.py:276-281 | Inserts that return nothing or their whole batch leave no shortfall |
| SeedLoader.SeedSymbol | scripts/seed_historical_data.py:352-386 | A file is skipped exactly if its check finds data, fails exactly if its check, its load or its last insert raises, and is otherwise processed with every valid tick handed over; the totals are those of the processed files and conserve their rows |
| HttpMessages.ParseRequest | src/backend/trading_server/src/http_controller.py:199-237 | The loop with its early exit computes the specified parse |
| HttpMessages.ParseInvertsPrint | src/backend/trading_server/src/http_controller.py:199-237 | Parsing a printed request gives back method, target, lower-case fields and the body to the byte, for any white space around values and either line end |
| HttpMessages.LastFieldWins | src/backend/trading_server/src/http_controller.py:228-230 | Of fields with one name, ignoring case, the last one counts |
| Text.LowerIsExact | src/backend/trading_server/src/http_controller.py:228-230 | Lower case changes the 26 capitals, each to its letter, and nothing else |
| Text.UpperIsExact | src/backend/trading_server/src/http_controller.py:188-197 | Upper case changes the 26 small letters, each to its capital, and nothing else |
| HttpServer.TwoWordsAreEnough | src/backend/trading_server/src/http_controller.py:206-217 | A request line needs a method and a target, and no more |
| HttpMessages.BodyIsSuffix | src/backend/trading_server/src/http_controller.py:222-233 | For any data the body is what follows the first blank line, or everything after the request line if there is none |
| HttpServer.ToBytes | src/backend/trading_server/src/http_controller.py:41-64 | The response is printed as a message with the handler's headers, the length of the body if there is one, and the closing header |
| HttpServer.ResponseReadsBack | src/backend/trading_server/src/http_controller.py:41-64 | A printed response reads back with its code, its exact body, `Connection: close` and a Content-Length equal to the body's length; this parser lets them override the handler's own headers |
| HttpServer.OneLengthIff | src/backend/trading_server/src/http_controller.py:45-54 | The response carries exactly one Content-Length if and only if it has a body and the handler set none, or has none and the handler set one |
| HttpServer.OtherHeadersReadBack | src/backend/trading_server/src/http_controller.py:45-47 | Any other header of the handler's reads back with its value |
| HttpServer.RequestReachesHandler | src/backend/trading_server/src/http_controller.py:239-308 | A well-formed request with a known method reaches the handler of its method and target if there is one, and is otherwise not found |
| HttpServer.AnsweredIff | src/backend/trading_server/src/http_controller.py:259-264 | A well-formed request is taken for HTTP if and only if its method is one of the six known |
| HttpServer.LeadingBlankLineIsRefused | src/backend/trading_server/src/http_controller.py:259-273 | A request after an empty line is answered with an error |
| HttpServer.HttpController.HandleRequest | src/backend/trading_server/src/http_controller.py:239-308 | A well-formed request with a known method is handled by the route of its method and target if and only if there is one, with its fields and body; nothing else is handled than what a route matches |
| HttpServer.HttpController.RegisterRoute | src/backend/trading_server/src/http_controller.py:188-197 | The route is added under the upper-case method, and no other changes |
| Drawdown.CalculateMaxDrawdown | scripts/run-backtest.py:264-276 | The loop computes the largest drop from the running peak, and fails on an empty curve |
| Drawdown.OnePassIsMaximum | scripts/run-backtest.py:264-276 | For a curve that never goes negative the result is the largest fall over all pairs of points, and lies in [0, 1] |
| Drawdown.OnePassIsMaximumIff | scripts/run-backtest.py:264-276 | For any curve the result is the largest fall if and only if the fall from the smallest positive value so far to each negative point is matched by some drop from a running peak |
| Drawdown.PeakIsDeepestIff | scripts/run-backtest.py:269-273 | At a point the running peak gives the deepest fall if and only if the equity there is not negative or the peak is the only positive value so far |
| Drawdown.NegativeEquityIsMissed | scripts/run-backtest.py:264-276 | A curve with negative equity whose largest fall the one pass misses |

## Left out

- TradingBooks.RecordedProfitTelescopesIff: is about one loop thread, as two windows can overlap in time and record one
  move twice. The volatility and equity records, which depend on nothing but the snapshot at hand, are not modelled.
- BackfillRecovery.CrashAndResumeLosesNothing: assumes that the connector yields prices at the top level, which
  NestedPricesStoreNothing shows to matter, and that no insert and no row fails, which FinishedRunStoresAllIff shows to
  matter. It says which ticks are stored, not how often; YieldRepeatsBoundaries says how often they are read.
- BackfillRecovery.YieldRepeatsBoundaries: takes the validation's verdict on a tick to stay the same while one run reads,
  although its age limit moves on with the clock; between runs it may change.
- BackfillScript.BackfillTicks: times are whole seconds, as the broker reports them; the collected-tick count in the
  progress record is not kept.
- BackfillScript.Backfill: takes the start and the end to be given both with or both without a zone, and reads of the
  progress record to succeed; what follows the backfill, as without `--skip-ohlcv`, is not modelled.
- SubscriptionService.WebSocketService.HandleMessage: handlers that subscribe or release during the dispatch, and the
  order of a channel's handlers, are not modelled.
- WalkForward.WalkForwardValidation: starts from the table after `sort_values`; the metrics of a window and
  `_aggregate_results`, which are floating-point statistics, are not modelled, nor are missing timestamps.
- TickParsing.KeptTicksAreSane: rounding is not modelled, neither that of times to microseconds nor that of numbers to
  doubles, by which a number close to zero becomes zero; only the overflow at the upper end is.
- DownloadProgress.ProgressTracker.GetCompletedYears: a key in another notation that Python's `int` accepts (a plus
  sign, white space, underscores) is taken to raise; this program never writes one.
- HttpMessages.ParseInvertsPrint: `lower` and `upper` change ASCII letters only.
- HttpServer.ToBytes: text stands for bytes, so header text outside ASCII is not modelled.
- Drawdown.OnePassIsMaximum: over real numbers, without floating-point rounding.
- The trading loop: at most one thread besides the loop threads is in `stop` at a time; the risk manager, the breaker's
  own thresholds, the executor's choice of trade size and the positions compared by reconciliation are choices of the
  environment; broker-side closing inside `KillSwitch.trigger` is not modelled, nor is a `KeyboardInterrupt`, which
  Python raises in the main thread only, while the integration starts its loops in threads of their own.
- The tick table's other writers, OHLCV aggregation after a backfill, and its generated timeframes.
- The progress files on disk, and the live trainers that mirror the controllers in `ai_trading_integration.py`.
- The JSON readers outside the list of records, Parquet files, subprocess output, TLS, sockets, logging, metrics,
  authentication and user interface.
- The verbose path of the download watch, which follows the text that the downloader prints.
- The analysis and migration scripts, whose logic sits in SQL or in regular expressions.
