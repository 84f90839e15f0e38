# Verification of the watch firmware and its image converter

The firmware runs background work in short windows. A manager opens a window (for the user
interface or for background work), ends it early when the system is idle, lets running work
finish in a grace period and then goes to SLEEP. Ten worker threads run the work, each under a
soft and a hard watchdog timer. Messages for the phone are cut into packets and put together
again on the other side, with a ring of messages on each side. The image converter that feeds the
firmware's assets compresses pixels by run lengths, unpacks them and changes row strides.

This project models that behaviour in Dafny and proves what the parts promise. `dafny verify
dfyconfig.toml` checks all of it.

## How it is laid out

- `RuntimeTypes`, `Scheduler`: the window scheduler as a timed step system. A state holds the
  clock, the timers with absolute deadlines, the queues, and for each worker slot a program
  counter, whether it is suspended, its two watchdog timers and its abort flag. Each locked
  region, each timer callback and each point of a thread's loop is one step; any enabled step may
  come next; a suspended thread takes none; time never passes an armed deadline.
- `SchedulerInvariant`, `SchedulerTheorems`: an invariant kept by every step; safety and timing over
  all runs.
- `SchedulerAwake`, `SchedulerEarly`, `SchedulerPasses`, `SchedulerQuiet`: who is suspended when; when
  an active window ends; what one pass of a thread's loop does; which timers are left running.
- `SchedulerLedger`, `SchedulerHooks`, `SchedulerOrder`: conservation of work items and of curfew
  hooks, and the order of both queues.
- `SchedulerLeak`, `SchedulerGrace`, `SchedulerRuns`: what a hard recovery leaves behind, when a grace
  period cannot end early, and runs from start-up into such states.
- `RuntimeManager`: the code's own form, classes whose methods update fields and arrays in
  place. Each method is proved to take the state, seen as a value, where the step system says,
  and so to keep the invariant that the theorems rest on.
- `BleTypes`, `BleFifo`, `BleTx`, `BleRx`, `BleLink`, `BleCut`, `BleSound`, `BleRecovery`: the
  rings, the packet builder, the parser, the two joined over any sequence of enqueued messages,
  packets and MTUs, what happens at the one boundary they do not agree on, and after it. The
  classes `Fifo`, `Builder` and `Parser` are proved against the functions that the theorems are
  about.
- `Rle`, `RleChoice`, `RleTail`, `RleBytes`, `RleExamples`: the encoder on blocks and the decoder of
  the chunk format, which chunks it chooses, which data do not come back, the loops on bytes, and
  two instructive inputs.
- `LvglColors`, `LvglPixels`, `LvglStride`, `LvglImage`: pixel unpacking and strides.
- `Focus`, `FocusSearch`: the focusable objects of the widget tree as a list, and the searches.
- `Notification`: the length-value notification parser.
- `Bytes`, `Arith`: slices that stop at the end, products and remainders.

## Results that differ from what one might expect

- The user queue is empty on every entry into SLEEP, but need not stay empty: `add_user_work`
  checks the state and enqueues in two steps. `QueueStaysEmptyIff` gives the exact condition, that
  no caller stands between the two; `LateSubmissionQueuesInSleep` is a run in which one does.
- A packet that ends exactly on the header of a message with a payload is followed by one that
  repeats the header, and the receiver takes it for payload. Whatever the messages are, a run can be
  continued with the right ones, at every point and in every way without another such packet,
  exactly when no packet of it ends there (`MessagesSafeIff`). If no message's payload is its own
  header over and over, the messages go wrong at once (`MessagesRightIff`); whatever follows, the
  message concerned arrives intact exactly if its payload is of that kind (`CutMessageArrives`). From
  the next packet that is built while no message is being sent, the messages are right again
  (`RightAgain`). At the smallest effective MTU that is exchanged, 20, two messages of 11 bytes and
  of 1 byte are enough (`HeaderAtPacketEndBreaksRoundTrip`).
- At an effective MTU of 5 the drain loop ends exactly when no message with a payload has its
  header still to be sent (`PopulateTxBuffers`, `NeverDrained`); otherwise it sends that header for
  ever. The caller's effective MTU is 0 before the first exchange and then at least
  20 (`ble_manager.c:123-124`, with the ATT minimum of 23), so this is a limit of the builder that its
  caller does not meet. The comment above the builder
  says that it returns false when the ring is empty, which holds from an MTU of 5 on (`PacketFits`).
- The system is idle exactly if both queues are empty, no worker is between its increment and its
  decrement of the active count, and none has ever been killed (`IdleIff`). So after one hard
  recovery, which does occur (`LeakReachable`), it is never idle again, and every later window stays
  open to its limit and then for the whole grace period (`LeakKeepsAwake`).
- A grace period can last its full 700 ms with the system idle and nothing leaked: once the
  background limit has passed since the window start, evaluating an early curfew starts no
  settlement timer (`SettlementInGrace`), so that with the maintenance thread waiting only the grace
  timer is left (`GraceRunsOut`). A handler that outlives its window brings this about
  (`LingeringReachable`).
- A run-length encoding decodes to its input exactly when the input is whole blocks that do not end
  in a long literal, or in one whose last 128 blocks happen to decode to themselves
  (`BytesRoundTripIff`). `LongLiteralIff` says which data are a long literal; fewer than 128 blocks, or
  a last three that are not all equal, are always safe (`HarmlessBytesRoundTrip`). Both outcomes of
  the other case occur: `OverlongBreaksRoundTrip`, `OverlongMayRoundTrip`. The size bound holds for
  all data exactly from a threshold of 2 on (`SizeBoundIff`).
- `data_len` stays the actual length under a change of stride except when the rows of an indexed
  image of width 0 are asked to become narrower (`AdjustKeepsLengthIff`, `LengthLostAtWidthZero`),
  because `data_len` counts no palette there and `adjust_stride` cuts one off.
- A change of stride and the way back give an accepted image back exactly if nothing changed, or if
  the image has rows, is not such a degenerate one, had no stride below the least, and nothing but
  zeros was cut off at a narrower stride that is not 0 (`ThereAndBackIff`). Each exception has an
  example: `StrideLostWithoutRows`, `LengthLostAtWidthZero`, `ShortStrideNotRestored`,
  `PaddingNotRestored`. `to_png` makes such a change and goes back with every image whose stride is
  not the least.

## Model

| member | source | states |
|---|---|---|
| SchedulerInvariant.StepInv | src/managers/runtime_manager.c:63-193 | Every step keeps the invariant on slots, timers, queues, active count and hooks |
| SchedulerInvariant.ReachableInv | src/managers/runtime_manager.c:195-208 | The invariant holds in every state that any run from start-up reaches |
| SchedulerInvariant.WorkerInv | src/runtime_management/worker_pool.c:83-118 | Every point of the worker loop keeps the invariant in every interleaving |
| SchedulerInvariant.HardInv | src/runtime_management/watchdog.c:21-39 | Killing and respawning a worker keeps the invariant although the active count is not decremented |
| SchedulerInvariant.MaintInv | src/managers/runtime_manager.c:167-193 | Every point of the maintenance loop keeps the invariant |
| SchedulerTheorems.NoHandlerInSleep | src/runtime_management/worker_pool.c:92-104 | No worker that may run is about to call a handler while the state is SLEEP |
| SchedulerTheorems.WorkersInSleep | src/runtime_management/worker_pool.c:89-94 | In SLEEP a running worker can only dequeue an item or drop the one it has just dequeued |
| SchedulerTheorems.SleepEntryEmptiesQueue | src/managers/runtime_manager.c:87-112 | Every step into SLEEP leaves the user queue empty, all workers suspended, and the abort flag up in every slot between increment and decrement |
| SchedulerTheorems.AbortRaisedInSleep | src/runtime_management/watchdog.c:62-67 | The flag stays up and the slot suspended for as long as SLEEP lasts |
| SchedulerTheorems.WindowStep | src/managers/runtime_manager.c:103-186 | Without an effective request the state only goes from active to GRACE (grace timer armed for 700 ms from now) or into SLEEP |
| SchedulerTheorems.BoundedWake | src/managers/runtime_manager.c:72-165 | If no later window start takes effect, the state is SLEEP once the window limit and 700 ms have passed (1000 ms for the user interface, 860 ms in the background), in every interleaving and with any leaked count |
| SchedulerTheorems.SleepLasts | src/managers/runtime_manager.c:63-86 | SLEEP lasts until a window start takes effect |
| SchedulerTheorems.TimerDiscipline | src/managers/runtime_manager.c:72-118 | The total timer is armed exactly in active states, for window start plus limit; a settlement timer in an active window ends within it; GRACE has the grace timer armed |
| SchedulerTheorems.GraceRunsItsOwnTimer | src/managers/runtime_manager.c:115-118 | While a grace period lasts, its timer is the one armed at its own entry for 700 ms, whatever timer an earlier period left running |
| SchedulerTheorems.WatchdogBracket | src/runtime_management/watchdog.c:11-54 | A guarded slot has the soft timer armed for start + 30, or the hard timer for start + 40 with its abort flag up; other slots have neither; no slot is held past 40 ms |
| SchedulerTheorems.KilledOnlyAfterAbort | src/runtime_management/watchdog.c:21-39 | The hard watchdog kills exactly 40 ms after the start, and only a slot whose abort flag is up |
| SchedulerTheorems.LateSubmissionQueuesInSleep | src/managers/runtime_manager.c:33-41 | A run from start-up that ends in SLEEP with an item in the queue |
| SchedulerTheorems.QueueStaysEmptyIff | src/managers/runtime_manager.c:33-41 | In SLEEP with an empty queue: the queue stays empty in all continuations exactly when no submission is between its state check and its enqueueing |
| SchedulerTheorems.ExpiryLeavesFewerDue | src/runtime_management/watchdog.c:11-39 | A timer callback takes no time and leaves fewer timers due at this moment |
| SchedulerTheorems.ClockNeverStuck | src/managers/runtime_manager.c:141-165 | From every state the callbacks due can be run until time may go on: no Zeno behaviour of the timers |
| SchedulerAwake.SuspendedIff | src/runtime_management/worker_pool.c:50-81 | After any run from start-up a slot is suspended exactly if the state is SLEEP and the slot has not been killed and started anew since SLEEP was entered |
| SchedulerAwake.AwakeOutsideSleep | src/managers/runtime_manager.c:72-76 | Opening a window wakes all ten workers, and none is suspended in any reachable state outside SLEEP |
| SchedulerEarly.ActiveEndsIff | src/runtime_management/worker_mgmt.c:16-24 | Requests aside, a step ends an active window exactly if it is the total timer, the settlement timer with the system idle, or an evaluation at the limit with the system idle and no settlement timer to run; SLEEP follows if there are neither hooks nor user work, else GRACE |
| SchedulerEarly.EvaluationSettles | src/runtime_management/worker_mgmt.c:49-69 | An evaluation that finds the system idle starts the settlement timer for 10 ms or up to the limit, whichever comes first, and changes nothing else |
| SchedulerEarly.EvaluationDoesNothing | src/runtime_management/worker_mgmt.c:49-60 | It changes nothing in SLEEP, with work left, with a settlement timer to run, or in GRACE past the background limit |
| SchedulerEarly.RestingWindowEnds | src/runtime_management/worker_mgmt.c:16-24 | Over any run without requests and new work, a window in which no thread has anything to do stays open until its settlement timer ends, or else to its limit, and no longer |
| SchedulerEarly.IdleWindowEnds | src/runtime_management/worker_mgmt.c:49-75 | A window that an evaluation leaves like that ends within 10 ms of it, and within its limit, over any such run; without hooks it ends in SLEEP |
| SchedulerEarly.UnevaluatedWindowLasts | src/managers/runtime_manager.c:72-80 | Over any run without requests and evaluations a window lasts exactly to its limit, whatever settlement timer an earlier one left |
| SchedulerPasses.MaintenancePass | src/managers/runtime_manager.c:167-193 | When a maintenance handler has returned and nothing else happens, the thread ends GRACE exactly if both queues are empty and no worker is active, evaluates an early curfew in an active window, and does nothing otherwise; then it waits |
| SchedulerPasses.GraceServesAll | src/managers/runtime_manager.c:167-186 | In GRACE without user work and if nothing else happens, the thread runs every queued item, and SLEEP is entered only then |
| SchedulerPasses.WorkerDispatches | src/runtime_management/worker_pool.c:88-104 | An awake worker takes the oldest item and, if nothing else happens, reaches its handler with the settlement timer stopped, the active count raised and its watchdog started; in SLEEP it drops the item |
| SchedulerPasses.WorkerFinishes | src/runtime_management/worker_pool.c:104-115 | From its handler a worker stops its watchdog, lowers the active count, and evaluates an early curfew exactly if it was the last one active |
| SchedulerQuiet.TimersEndStep | src/managers/runtime_manager.c:87-92 | The end of a window stops its total and settlement timer, the end of GRACE its grace timer, and a SLEEP request all three |
| SchedulerQuiet.RequestedSleepIsSilent | src/managers/runtime_manager.c:87-92 | Over any run after a SLEEP request no timer of a window runs until another window is opened |
| SchedulerLedger.Conservation | src/runtime_management/worker_pool.c:18-117 | Over any run every accepted copy of an item is exactly one of queued, in hand, completed, killed, dropped at the SLEEP check, or purged; the active count is the slots in the bracket plus the hard recoveries |
| SchedulerOrder.UserWorkInOrder | src/runtime_management/worker_pool.c:18-41 | Over any run from start-up the items that workers took or a SLEEP entry purged, and then the queued ones, are the accepted ones in the order of their submission |
| SchedulerOrder.EverySubmissionOnce | src/managers/runtime_manager.c:33-41 | Over any run every submission that passed its state check, and no other, has gone on to the queue exactly once or is about to |
| SchedulerOrder.MaintenanceInOrder | src/managers/runtime_manager.c:43-48 | Over any run the maintenance items served, and then the queued ones, are those put, in order; nothing else leaves that queue |
| SchedulerHooks.HookEffectOfStep | src/managers/runtime_manager.c:103-130 | Of steps other than window starts, maintenance points and system submissions, the one into GRACE posts the pending hooks in order as far as there is room and clears them, and no other touches them |
| SchedulerHooks.WindowEndClearsHooksIff | src/managers/runtime_manager.c:87-130 | The end of a window leaves no hook pending, exactly unless it is a SLEEP request inside an active window with hooks |
| SchedulerHooks.PutAllPrefix | src/managers/runtime_manager.c:120-128 | Posting without waiting keeps exactly the prefix for which the queue has room |
| SchedulerHooks.HooksConservation | src/managers/runtime_manager.c:82-130 | Over any run every copy of a hook given to a window start is exactly one of pending, beyond the fourth, replaced by a later start, and offered at the end of a window; every offer is exactly one of queued, in hand, run, and refused |
| SchedulerHooks.PendingAreTheLatest | src/managers/runtime_manager.c:82-129 | Without a SLEEP request inside an active window with hooks, hooks are pending in active states only and are those of the latest window start |
| SchedulerLeak.RecoveryLeaks | src/runtime_management/watchdog.c:21-39 | A hard recovery leaves the active count above the number of slots in the bracket |
| SchedulerLeak.LeakStays | src/runtime_management/worker_pool.c:97-111 | No step takes that back |
| SchedulerLeak.LeakedWindowStep | src/runtime_management/worker_mgmt.c:16-75 | From then on, requests aside, a window ends only by its total timer, into GRACE, and a grace period only by its grace timer |
| SchedulerLeak.LeakKeepsAwake | src/managers/runtime_manager.c:72-165 | Over any run without a later start or a SLEEP request a window then stays open to its limit, GRACE lasts its full 700 ms, and SLEEP follows: the bound of BoundedWake is reached |
| SchedulerLeak.IdleIff | src/runtime_management/worker_mgmt.c:11-14 | After any run from start-up the system is idle exactly if both queues are empty, no slot is between its increment and its decrement, and no worker has been killed |
| SchedulerRuns.LeakReachable | src/runtime_management/watchdog.c:21-39 | A run from start-up in which a handler that never returns is killed, and that leaks |
| SchedulerGrace.GraceEndsIff | src/managers/runtime_manager.c:151-184 | Requests aside, a step ends GRACE exactly if it is the grace timer, the settlement timer with the system idle, or the maintenance thread behind its last item with no user work |
| SchedulerGrace.SettlementInGrace | src/runtime_management/worker_mgmt.c:61-68 | Evaluating an early curfew in GRACE changes anything only in the first 160 ms after the window start, and then arms the settlement timer for no later than their end |
| SchedulerGrace.LingeringStep | src/runtime_management/worker_mgmt.c:49-75 | From 160 ms after the window start, with the maintenance thread waiting on an empty queue and no settlement timer running, only the grace timer ends GRACE, requests and system work aside |
| SchedulerGrace.GraceRunsOut | src/managers/runtime_manager.c:115-165 | Over any run without them such a grace period lasts to its deadline, and SLEEP follows |
| SchedulerRuns.LingeringReachable | src/runtime_management/worker_mgmt.c:49-75 | A run from start-up into such a grace period with the system idle, nothing leaked and 700 ms to go |
| RuntimeManager.Watchdog.ForceAllCooperativeAbort | src/runtime_management/watchdog.c:62-67 | Raises all ten flags |
| RuntimeManager.WorkerPool.EnqueueUserItem | src/runtime_management/worker_pool.c:18-22 | Appends the item marked as user work exactly if fewer than 16 are queued |
| RuntimeManager.WorkerPool.RecoverStalledRunner | src/runtime_management/worker_pool.c:68-81 | The slot is at the loop top, not suspended, its watchdog stopped; other slots are unchanged |
| RuntimeManager.Runtime.constructor | src/managers/runtime_manager.c:195-208 | Start-up leaves the initial state of the step system, in which the invariant holds |
| RuntimeManager.Runtime.StoreHooks | src/managers/runtime_manager.c:82-85 | The first four of the hooks given are kept, in order |
| RuntimeManager.Runtime.PostHooks | src/managers/runtime_manager.c:120-129 | The loop posts the stored hooks in order, each if there is room, and clears them |
| RuntimeManager.Runtime.EnterGraceLocked | src/managers/runtime_manager.c:115-129 | The state is GRACE, its timer armed for 700 ms, the hooks posted and cleared, and nothing else changes |
| RuntimeManager.Runtime.SetRuntimeStateWithHooks | src/managers/runtime_manager.c:63-101 | The whole new state is that of the step SetState; the invariant is kept |
| RuntimeManager.Runtime.ExecuteCurfewTransitionLocked | src/managers/runtime_manager.c:103-130 | The whole new state is that of the step Curfew |
| RuntimeManager.Runtime.DemoteToCurfew | src/managers/runtime_manager.c:132-139 | Curfew in an active state, nothing otherwise; the invariant is kept |
| RuntimeManager.Runtime.TotalWorkWindowExpiry | src/managers/runtime_manager.c:141-149 | The whole new state is that of the step TotalExpiry; the invariant is kept |
| RuntimeManager.Runtime.GracePeriodExpiry | src/managers/runtime_manager.c:151-165 | The whole new state is that of the step GraceExpiry; the invariant is kept |
| RuntimeManager.Runtime.CurfewSettlementExpiry | src/runtime_management/worker_mgmt.c:16-31 | The whole new state is that of the step SettlementExpiry; the invariant is kept |
| RuntimeManager.Runtime.EvaluateEarlyCurfew | src/runtime_management/worker_mgmt.c:49-75 | The whole new state is that of the step EvaluateEarlyCurfew; the invariant is kept |
| RuntimeManager.Runtime.UserAppSoftExpiry | src/runtime_management/watchdog.c:11-19 | The whole new state is that of the step SoftExpiry; the invariant is kept |
| RuntimeManager.Runtime.UserAppHardExpiry | src/runtime_management/watchdog.c:21-39 | The whole new state is that of the step HardExpiry; the invariant is kept |
| RuntimeManager.Runtime.AddUserWorkCheck | src/managers/runtime_manager.c:37-39 | The submission goes on exactly outside SLEEP; the invariant is kept |
| RuntimeManager.Runtime.AddUserWorkPut | src/managers/runtime_manager.c:40 | The item is enqueued whatever the state is by then, if there is room; the invariant is kept |
| RuntimeManager.Runtime.PoolWorkerStep | src/runtime_management/worker_pool.c:83-118 | One point of the worker loop takes the state where the step system says; of a worker that may run it keeps the invariant |
| RuntimeManager.Runtime.EndGraceLocked | src/managers/runtime_manager.c:175-184 | The whole new state is that of the step LeaveGrace |
| RuntimeManager.Runtime.MaintThreadStep | src/managers/runtime_manager.c:167-193 | One point of the maintenance loop takes the state where the step system says; the invariant is kept |
| BleFifo.AdvanceRead | src/BLE/ble_fifo.c:104-107 | Advancing the read index of a ring that is not empty drops its oldest message |
| BleFifo.AdvanceWrite | src/BLE/ble_fifo.c:109-112 | Storing at the write index of a ring that is not full and advancing it appends |
| BleFifo.Fifo.IsFull | src/BLE/ble_fifo.c:47-50 | True exactly with 19 messages in the ring of 20 slots |
| BleFifo.Fifo.IsEmpty | src/BLE/ble_fifo.c:57-60 | True exactly if no message is in the ring |
| BleFifo.Fifo.Add | src/BLE/ble_fifo.c:71-116 | The queue drops its oldest message if it holds 19 and gets this one at the end, header and payload prefix intact |
| BleFifo.Fifo.GetNext | src/BLE/ble_fifo.c:128-171 | Gives and removes the oldest message, or changes nothing if there is none |
| BleFifo.EveryMessageHasOneFate | src/BLE/ble_fifo.c:71-171 | Over any run of pushes and pops every pushed message is exactly one of delivered, evicted and queued, each in push order; the queue is a suffix of the pushes, of at most 19 |
| BleFifo.SelectAll | src/BLE/ble_fifo.c:104-107 | As long as nothing is evicted the deliveries are the pushes in order |
| BleTx.PacketFits | src/BLE/ble_packet_handler.c:89-148 | A packet that carries anything is within the MTU; from an MTU of 5 on the builder returns false exactly when no message is queued or active |
| BleTx.PacketIsFull | src/BLE/ble_packet_handler.c:89-148 | A packet has room left only if nothing is pending or less than a header is left for the next message |
| BleTx.WholeMessagePacket | src/BLE/ble_packet_handler.c:95-138 | The bytes of a message that fits a packet by itself: flag 0, 0xA5, opcode, application, length, payload |
| BleTx.ContinuationPacket | src/BLE/ble_packet_handler.c:95-138 | The bytes of a packet inside a long payload: flag 1 and the payload from the offset on, up to the MTU |
| BleTx.PacketSends | src/BLE/ble_packet_handler.c:98-147 | Every packet that returns true leaves fewer unsent bytes and messages, except the stuck packet, which leaves everything as it was |
| BleTx.NeverDrained | src/managers/ble_manager.c:149-158 | At an MTU of 5 with a payload ahead the builder returns true for ever |
| BleTx.DrainEmpties | src/managers/ble_manager.c:149-158 | Whenever it ends with an MTU of at least 5, so always from 6 on, draining leaves no message queued or active |
| BleTx.Builder.Reset | src/BLE/ble_packet_handler.c:27-30 | No message is active |
| BleTx.Builder.WriteHeader | src/BLE/ble_packet_handler.c:121-125 | The four header bytes follow what is written already, never split |
| BleTx.Builder.WritePiece | src/BLE/ble_packet_handler.c:110-134 | The due header and as much payload as fits follow what is written already |
| BleTx.Builder.BuildNextPacket | src/BLE/ble_packet_handler.c:89-148 | Buffer prefix, builder state and ring are those of the function BuildPacket, and it returns true exactly if more than the flag was written |
| BleTx.Builder.PopulateTxBuffers | src/managers/ble_manager.c:143-160 | The loop ends unless an MTU of 5 meets a payload ahead, and the packets notified, in order, are those of Drain |
| BleRx.TakePayload | src/BLE/ble_packet_handler.c:317-327 | Payload bytes are appended at the offset; nothing at or past the new offset changes, so nothing past the declared length is written |
| BleRx.ReceiveAllSettles | src/BLE/ble_packet_handler.c:213-346 | Whatever packets arrive, between packets the parser waits with no active message or reads the payload of an active one with offset below its length |
| BleRx.ReceiveOneMore | src/BLE/ble_packet_handler.c:213-346 | Receiving any packets and then one more is receiving them one after the other: parser state and messages carry over |
| BleRx.FlagZeroStartsAfresh | src/BLE/ble_packet_handler.c:224-229 | From a packet with flag 0 on, the messages handed over for it and for all packets after it do not depend on anything received before |
| BleRx.InactiveStartsAfresh | src/BLE/ble_packet_handler.c:230-237 | With no active message every flag is like flag 0, for this packet and all after it |
| BleRx.Parser.Reset | src/BLE/ble_packet_handler.c:20-25 | Waiting, offset 0, no active message |
| BleRx.Parser.WaitForMagic | src/BLE/ble_packet_handler.c:247-268 | One turn in this state: garbage skipped, or a magic that leaves no room for a header ends the packet, or on to the header |
| BleRx.Parser.ReadHeaderBytes | src/BLE/ble_packet_handler.c:271-306 | One turn in this state: three bytes taken, an empty message handed over at once |
| BleRx.Parser.ReadPayloadBytes | src/BLE/ble_packet_handler.c:309-339 | One turn in this state: bytes taken, a complete message handed over |
| BleRx.Parser.RetrievePacket | src/BLE/ble_packet_handler.c:213-346 | The loop terminates on every packet; parser state, messages handed to the BLE_RX ring and the ring itself are those of the function Receive |
| BleRx.PushAllKeepsLatest | src/BLE/ble_fifo.c:71-116 | Of the messages handed over the ring keeps the latest, at most 19, in order |
| BleLink.PieceParsed | src/BLE/ble_packet_handler.c:110-140 | What the parser makes of one piece written by the builder, in every coupled pair of states |
| BleLink.FillParsed | src/BLE/ble_packet_handler.c:98-144 | Within one packet the messages received and those still pending are those that were pending; the parser ends where the builder stands exactly if the packet does not end on a header |
| BleLink.PacketDelivers | src/BLE/ble_packet_handler.c:213-346 | The same for a whole packet with its continuation flag, a deferred header under flag 1 included |
| BleLink.PacketKeepsStepIff | src/BLE/ble_packet_handler.c:89-148 | One packet keeps sender and receiver in step exactly if it does not end on the header of a message with a payload |
| BleLink.RoundTrip | src/BLE/ble_packet_handler.c:89-346 | For any messages and MTUs without such a packet: the messages received and the one being sent are those queued and not evicted, in order; if nothing was evicted, received, being sent and queued together are all that were queued |
| BleCut.GarbledIff | src/BLE/ble_packet_handler.c:119-126 | Any number of headers and then the payload, read as payload, are the message itself exactly if its payload is its header over and over |
| BleCut.LagPacket | src/BLE/ble_packet_handler.c:308-339 | One more packet while the receiver lags behind: still lagging, or the first message handed over stands for the cut one |
| BleCut.CutMessageArrives | src/BLE/ble_packet_handler.c:89-346 | After a packet that ended on a header, whatever is queued and sent with whatever MTUs, the next message handed over has the opcode, application and length of the cut one, and is the cut one exactly if its payload is its header over and over |
| BleCut.CutIsWrong | src/BLE/ble_packet_handler.c:113-126 | After such a packet some next packet makes the messages received differ from those queued and not evicted, unless the cut message is of that kind |
| BleCut.NoCutIsRight | src/BLE/ble_packet_handler.c:89-346 | In a run without such a packet, at every point and whatever packet comes next, the messages received are the first of those queued and not evicted |
| BleCut.MessagesRightIff | src/BLE/ble_packet_handler.c:89-346 | If no message is of that kind, a run hands over the right messages at every point exactly if no packet of it ends on the header of a message with a payload |
| BleSound.Behind | src/BLE/ble_packet_handler.c:247-339 | A receiver up to four bytes behind the stream, with a magic first, does not find the messages of a stream that ends in a suitable one |
| BleSound.CutIsUnsafe | src/BLE/ble_packet_handler.c:89-346 | After a packet that ended on a header, whatever the message, some continuation without another such packet hands over wrong messages |
| BleSound.MessagesSafeIff | src/BLE/ble_packet_handler.c:89-346 | For every run: it can be continued with the right messages, at every point and in every way without such a packet, exactly if no packet of it ends on the header of a message with a payload |
| BleRecovery.RightAgain | src/BLE/ble_packet_handler.c:224-237 | Whatever state the receiver is in: from a packet built while no message is being sent on, and without another such packet, what is handed over and the one being sent are the messages taken from the ring since, in order |
| BleCut.HeaderAtPacketEndBreaksRoundTrip | src/BLE/ble_packet_handler.c:113-126 | Messages with 11 bytes and with the payload 7, sent in two packets at MTU 20: the second arrives with payload 0xA5 |
| Rle.LiteralGood | scripts/lvgl_img_converter/LVGLImage.py:1277-1307 | A literal makes progress; it stops before 127 blocks and before the end only where more than `threshold` equal blocks follow; past 127 blocks it ends the data and is shorter than 127 + threshold |
| Rle.HeadGood | scripts/lvgl_img_converter/LVGLImage.py:1234-1251 | The first chunk stands for the first blocks; a count above 127 belongs to a literal that ends the data |
| Rle.ChunksCover | scripts/lvgl_img_converter/LVGLImage.py:1229-1253 | The chunks cover the input exactly, none is empty, and none but a last literal has a count above 127 (at most 142 at threshold 16) |
| Rle.ChunkDecodes | scripts/lvgl_img_converter/LVGLImage.py:1242-1251 | Decoding undoes any chunk whose count fits in seven bits, whatever follows it |
| RleChoice.RepeatIff | scripts/lvgl_img_converter/LVGLImage.py:1234-1275 | A repeat chunk is chosen exactly where at least `threshold` equal blocks begin, and takes all of them up to 127 |
| RleChoice.LiteralStopsIff | scripts/lvgl_img_converter/LVGLImage.py:1277-1307 | A literal ends one block into the first run of more than threshold + 1 equal blocks, and nowhere else but at 127 blocks and at the end of the data |
| RleChoice.RunBytes | scripts/lvgl_img_converter/LVGLImage.py:1247-1251 | A run of up to 127 blocks is written as its count and one block |
| RleChoice.LiteralBytes | scripts/lvgl_img_converter/LVGLImage.py:1238-1245 | Up to 127 blocks without a long run are written as 0x80 plus their number and the blocks |
| RleTail.LongLiteralIff | scripts/lvgl_img_converter/LVGLImage.py:1277-1307 | A first chunk of more than 127 blocks: exactly data of more than 127 blocks with fewer than `threshold` equal ones in front, nowhere more than threshold + 1 equal in a row, and no change from block 126 on |
| RleTail.OverlongIff | scripts/lvgl_img_converter/LVGLImage.py:1229-1307 | The final literal exceeds 127 blocks exactly if such data follow where some chunk starts |
| RleTail.RoundTripIff | scripts/lvgl_img_converter/LVGLImage.py:1229-1307 | On blocks, decoding returns the input exactly if it does not end in such data, or its last 128 blocks decode to themselves |
| RleTail.HarmlessRoundTrips | scripts/lvgl_img_converter/LVGLImage.py:1229-1307 | Fewer than 128 blocks, or a last three that are not all equal, always come back |
| Rle.LiteralThenRepeat | scripts/lvgl_img_converter/LVGLImage.py:1286-1305 | A literal that stops before 127 blocks and before the end is followed by a repeat chunk of more than `threshold` blocks (or 127) |
| Rle.SizeBound | scripts/lvgl_img_converter/LVGLImage.py:1234-1305 | The output exceeds the input by at most one byte for every 127 blocks begun |
| RleTail.SizeBoundIff | scripts/lvgl_img_converter/LVGLImage.py:1229-1253 | That bound holds for all data exactly from a threshold of 2 on |
| RleTail.TurnAdvancesIff | scripts/lvgl_img_converter/LVGLImage.py:1234-1251 | At any threshold, a turn of the loop makes no progress exactly above 127 and in front of more equal blocks than the threshold |
| RleBytes.GetRepeatCount | scripts/lvgl_img_converter/LVGLImage.py:1255-1275 | The loop counts the leading equal blocks up to 127, and 0 for less than a block |
| RleBytes.GetNonrepeatCount | scripts/lvgl_img_converter/LVGLImage.py:1277-1307 | The loop counts what the block function LiteralCount does, a short last block included |
| RleBytes.RleCompress | scripts/lvgl_img_converter/LVGLImage.py:1229-1253 | Wherever the loop ends it returns the function CompressedAt, for any bytes and any threshold, with OverflowError for a literal of 256 blocks or more; up to a threshold of 127 that is the function Compressed |
| RleBytes.AlwaysHalts | scripts/lvgl_img_converter/LVGLImage.py:1234-1251 | Up to a threshold of 127 the loop always ends, without an exception |
| RleBytes.AlignedCompressed | scripts/lvgl_img_converter/LVGLImage.py:1229-1253 | On whole blocks that is the encoding of the blocks |
| RleBytes.DecodesToWholeBlocks | scripts/lvgl_img_converter/LVGLImage.py:1242-1251 | Whatever decodes, decodes to whole blocks |
| RleBytes.BytesRoundTripIff | scripts/lvgl_img_converter/LVGLImage.py:1229-1307 | For any bytes: decoding gives them back exactly if they are whole blocks that do not end in a long literal, or in one whose last 128 blocks decode to themselves |
| RleBytes.HarmlessBytesRoundTrip | scripts/lvgl_img_converter/LVGLImage.py:1229-1307 | Whole blocks come back if they are fewer than 128 or the last three are not all equal |
| RleBytes.BytesSizeBound | scripts/lvgl_img_converter/LVGLImage.py:1229-1307 | Whole blocks grow by at most one byte for every 127 of them begun |
| RleBytes.Padding | scripts/lvgl_img_converter/LVGLImage.py:511-514 | Fewer zero bytes than a block, filling the data up to whole blocks |
| RleBytes.CompressPadded | scripts/lvgl_img_converter/LVGLImage.py:505-515 | The padded data, which starts with the raw data, is given back under the same exact condition and obeys the size bound |
| RleExamples.OverlongBreaksRoundTrip | scripts/lvgl_img_converter/LVGLImage.py:1302-1305 | 128 one-byte blocks that end in an overlong literal and do not decode to themselves |
| RleExamples.OverlongMayRoundTrip | scripts/lvgl_img_converter/LVGLImage.py:1302-1305 | 128 one-byte blocks that end in an overlong literal and yet do |
| LvglPixels.CellsOfNumber | scripts/lvgl_img_converter/LVGLImage.py:239-263 | The shifts and masks take out of a byte the cells that were packed into it, leftmost in the high bits |
| LvglPixels.UnpackRow | scripts/lvgl_img_converter/LVGLImage.py:239-263 | One packed row unpacks to its pixels, padding bits skipped, and the next row starts at the next byte |
| LvglPixels.UnpackInvertsPack | scripts/lvgl_img_converter/LVGLImage.py:224-263 | Unpacking inverts the row packing of section 7.2 of the PNG specification for every width, any number of rows and any padding bits |
| LvglPixels.PackInvertsUnpack | scripts/lvgl_img_converter/LVGLImage.py:239-263 | Every row of bytes is the packing of the cells it unpacks to |
| LvglPixels.RowBytesIsStride | scripts/lvgl_img_converter/LVGLImage.py:461-463 | The bytes of a packed row are the default stride of its format |
| LvglColors.StrideDefaultIsLeast | scripts/lvgl_img_converter/LVGLImage.py:461-463 | The default stride is the least number of bytes that holds the bits of w pixels |
| LvglColors.StrideAlignedIsLeast | scripts/lvgl_img_converter/LVGLImage.py:448-459 | The aligned stride is the least multiple of the alignment that is not below the default stride |
| LvglColors.ColorTables | scripts/lvgl_img_converter/LVGLImage.py:131-179 | A pixel takes the bits of its channels; exactly the four index formats have a palette, with a color for every index |
| LvglPixels.ValuesStandFor | scripts/lvgl_img_converter/LVGLImage.py:230-257 | An index stands for itself, an alpha value of a few bits for the same share of 255 |
| LvglPixels.ColorsOfRows | scripts/lvgl_img_converter/LVGLImage.py:224-263 | From packed rows unpack_colors returns one value for every pixel, in order, which stands for what was packed |
| LvglPixels.UnpackColors | scripts/lvgl_img_converter/LVGLImage.py:224-263 | The nested loops return the unpacked cells through the format's table; width 0 is a division by zero unless there is no data |
| LvglStride.RestrideAt | scripts/lvgl_img_converter/LVGLImage.py:582-597 | Every kept byte stays in its row and column, every new one is zero |
| LvglStride.WidenNarrowRows | scripts/lvgl_img_converter/LVGLImage.py:582-597 | Rows widened and narrowed again are the same rows |
| LvglStride.NarrowWidenRows | scripts/lvgl_img_converter/LVGLImage.py:582-597 | Rows narrowed and widened again are the same exactly if what was cut off is zero |
| LvglStride.ChangeStride | scripts/lvgl_img_converter/LVGLImage.py:582-597 | The two loops return the function Restride, also where the data runs out |
| LvglImage.RestridedPlanes | scripts/lvgl_img_converter/LVGLImage.py:599-614 | The palette is kept and the rows and the RGB565A8 alpha rows are each changed, the latter to half the stride |
| LvglImage.AcceptedUnpacks | scripts/lvgl_img_converter/LVGLImage.py:731-758 | Behind the palette of an accepted image of a packed format with its default stride unpack_colors finds w times h pixels, and the palette has 4 bytes for every index |
| LvglImage.AdjustRefusesIff | scripts/lvgl_img_converter/LVGLImage.py:556-580 | ParameterError exactly for a negative stride, for neither a stride nor an alignment, or where rows with data would become shorter than their pixels need |
| LvglImage.AdjustKeepsLengthIff | scripts/lvgl_img_converter/LVGLImage.py:549-614 | After any successful adjustment data_len is the actual length exactly unless the rows of an indexed image of width 0 were asked to become narrower |
| LvglImage.WidenThenNarrowIff | scripts/lvgl_img_converter/LVGLImage.py:549-614 | Widening and then narrowing restores the image, alpha plane included, exactly if it has rows, the old stride was not below the least and the image is not indexed with width 0 |
| LvglImage.NarrowThenWidenIff | scripts/lvgl_img_converter/LVGLImage.py:830-888 | Narrowing and then widening restores the image exactly if it has rows, the narrower stride is not 0, the image is not indexed with width 0, and the padding of both planes was zero |
| LvglImage.ThereAndBackIff | scripts/lvgl_img_converter/LVGLImage.py:549-614 | For every accepted image and every adjustment that is not refused: going back to the old stride restores the image under exactly these conditions, or if nothing changed |
| LvglImage.StrideLostWithoutRows | scripts/lvgl_img_converter/LVGLImage.py:553-574 | An accepted image without rows goes from stride 4 to 8 and back and ends at stride 0 |
| LvglImage.LengthLostAtWidthZero | scripts/lvgl_img_converter/LVGLImage.py:599-614 | An indexed image of width 0 whose one byte stays while data_len becomes 0 |
| LvglImage.ShortStrideNotRestored | scripts/lvgl_img_converter/LVGLImage.py:578-580 | An accepted image with a stride below the least, to which there is no way back |
| LvglImage.PaddingNotRestored | scripts/lvgl_img_converter/LVGLImage.py:834-888 | A padding byte 9 that writing a PNG file turns into 0 |
| LvglImage.ImageObject.SetData | scripts/lvgl_img_converter/LVGLImage.py:731-758 | Accepts exactly data of length data_len; a wrong length leaves the new size with the old data, an overflow changes nothing |
| LvglImage.ImageObject.AdjustStride | scripts/lvgl_img_converter/LVGLImage.py:549-614 | The whole new state is that of the function Adjust, unchanged on an error |
| Focus.ListedIff | src/ui/util.c:8-37 | The list holds exactly the descendants that are focusable with no focusable object between |
| Focus.ListedInOrder | src/ui/util.c:18-34 | The list is in preorder |
| FocusSearch.FindFirstFocusableChild | src/ui/util.c:8-37 | The first of the list, or nothing without a current group or with an empty list |
| FocusSearch.FirstChildIff | src/ui/util.c:8-37 | That is the first in preorder of the focusable descendants with no focusable object between; nothing exactly without a current group or without such a descendant |
| FocusSearch.Roof | src/ui/util.c:39-48 | The nearest focusable strict ancestor: none nearer is focusable, and if there is none no ancestor is |
| FocusSearch.FindFirstFocusableParent | src/ui/util.c:39-48 | The loop returns it |
| FocusSearch.Scan | src/ui/util.c:50-89 | The recursion with its in-out parameters is a pass over the list: forward the entry after the origin, backward the one before |
| FocusSearch.FindNextFocusableSibling | src/ui/util.c:91-101 | The next sibling in the sense of NextSibling |
| FocusSearch.FindPrevFocusableSibling | src/ui/util.c:103-113 | The previous sibling in the sense of PrevSibling |
| FocusSearch.Neighbours | src/ui/util.c:91-113 | Next is the successor and previous the predecessor in the list of the roof; both are nothing at the ends and for an object that is not focusable |
| FocusSearch.NextPrevInverse | src/ui/util.c:91-113 | q is next of p exactly if p is previous of q |
| FocusSearch.ParentOfFirstChild | src/ui/util.c:8-48 | The focusable parent of the first focusable child of a focusable object is that object, and every object with that parent is the first child or after it |
| FocusSearch.WalkVisitsAll | src/ui/util.c:8-101 | From the first focusable child, next and next visits every focusable object under the same roof once, in preorder, and stops |
| Notification.ReadsIff | src/BLE/ble_response_handler.c:88-110 | Reading n fields succeeds with these fields and this end index exactly if their length-value encoding stands between |
| Notification.ParsesIff | src/BLE/ble_response_handler.c:152-183 | The parser accepts exactly the payloads that are an application id, four encoded fields and a tail, and reads those fields |
| Notification.EncodedIsReadToEnd | src/BLE/ble_response_handler.c:175-177 | An encoding without tail is read to index == len |
| Notification.ErrorIff | src/BLE/ble_response_handler.c:93-101 | EBADMSG exactly if the payload ends where a field is due, EMSGSIZE exactly if a field claims more than is left |
| Notification.RefusedIff | src/BLE/ble_response_handler.c:152-183 | For a whole payload: EINVAL exactly for fewer than five bytes, otherwise EBADMSG and EMSGSIZE as above for one of the four fields |
| Notification.StoredIsCut | src/BLE/ble_response_handler.c:103-106 | The buffer is terminated and its string is that of the field cut to one byte less than the buffer; without a zero byte in the field that is the cut field itself |
| Notification.ExtractLeanString | src/BLE/ble_response_handler.c:88-110 | One field read from the first len bytes only; on an error neither index nor buffer changes |
| Notification.ParseNotification | src/BLE/ble_response_handler.c:152-183 | Error code, application id, all four buffers and the handlers, also after a failure half way, as functions of the first len bytes and the old contents |
| Notification.EncodedFillsBuffers | src/BLE/ble_response_handler.c:152-183 | Parsing an encoding stores each field, cut to fit, in its buffer |

## Left out

- Thread priorities, stacks, the kernel's message queues, spinlocks and timers themselves: they are
  bounded queues, atomic regions and deadlines here.
- A worker suspending itself inside a locked region, and the lifetime of `arg1` when it points into
  a queued item: both depend on kernel and memory behaviour that the sources do not show.
- `runtime_manager_evaluate_early_curfew` is one step, although its reads and its timer start are
  not under one lock.
- NULL arguments: `-EINVAL` of the two submit functions, NULL messages and buffers, NULL widgets; and
  the rings' refusal of an unknown direction.
- The checks `hdr.len > 256` in ring and parser: the field is one byte, so they never refuse anything.
- Integer widths where nothing can overflow: uptime, ring indices, packet and payload indices.
- BleCut.MessagesRightIff: for runs in which no message's payload is its own header over and over. With
  such a message a cut may stay unseen for a while; BleSound.MessagesSafeIff decides every run.
- BleTx.Builder.PopulateTxBuffers: models a connection that stays up with no enqueueing meanwhile, and no
  notify error; the MTU is constant during one call.
- SchedulerHooks.PendingAreTheLatest: for runs without a SLEEP request inside an active window with
  hooks; the only caller requests SLEEP in GRACE. HooksConservation is for all runs.
- RleBytes.RleCompress: the input on which the loop never ends is shut out; that takes a threshold above
  127 and more equal blocks than the threshold at the start of a turn (RleTail.TurnAdvancesIff).
- RleBytes.BytesSizeBound: for thresholds of at least 2; below it fails (SizeBoundIff).
- Pixel formats of 16 bits and more, palettes, premultiplication, PNG and binary files, LZ4, and
  the RLE file header: per-pixel formulas or foreign code.
- The decoder of the run-length format is not part of the repository; the one here is written from
  the encoder's chunk format.
- Weather and time payloads, the notification ring, screens, input, storage, power and
  advertising: fixed-size or one-line facts, or hardware.
