# Verification of the tilt and collapse sensor firmware

A Dafny 4.11 model of the firmware's hardest parts, proved against the properties its design relies on. The project stands
beside the firmware; `dafny verify dfyconfig.toml` checks all of it.

## What is modelled

**The tasks.** A LoRa session is driven by a one-slot request variable that timer callbacks and radio interrupts overwrite
and a polled function consumes. `LoraSession` is its transition system, one atomic step per callback and per poll, with
one boolean per timer (armed) and for the radio interrupt (enabled). `LoraTransmission` is the code itself, a class whose
methods update the static variables and timers, one field each; `View` is the state of the transition system they stand
for, and each handler is proved to take it along its transition and to keep the invariant (only the composite ones have a
row below). `LoraHistory` adds the history of a run: sessions, attempts, frames, back-off draws, and what happened in each
session; `LoraAnswers` relates the reports to the gateway's answers, `LoraRetries` says how often a session tries, and
`LoraFrameKinds` which frame it sends. `Backoff` and `LoraFrames` are the delay function and
the frame builders. `BleTask` and `SlpTask` are the Bluetooth and
system sleep tasks (the latter from `KEIL-MDK/APP/system_low_power.c`), `SysProc` the event-bit
scheduler with its stop handlers, and `SystemRun` the system of all of them, with the statement that the
measure-and-report cycle is never lost; `SystemCycle` says in which order it goes from task to task. `LowPowerTable` is the
sleep table.

**The byte queue.** `EasyFifo` is the circular buffer as a class that refines a queue; `EasyFifoInterleaving` takes each byte
copy and each index publication as a step of its own, for one writer and one reader.

**The sensor driver.** `FifoFrames` specifies the walk over FIFO frames, `FifoEncoder` and `FifoRoundTrip` the sensor's
encoding and the theorem that the walk inverts it, `FifoHeaderless` the header-less mode, and `FifoExtract` the extraction
loops. `Bma4Transport` is register and feature access over a bus that may fail at any operation; `ChunkedTransfer` says what
chunking does to the data. `FeatureBlock` gives the meaning of the 64 feature bytes and of the setters, and `Bma456` the setters
and getters over the transport. `AuxInterface` is the auxiliary sensor behind it, `OffsetCompensation` the fixed-point offset
calculation.

**The radio.** `AirTime` is the integer air-time calculation.

`MachineInts` and `Quotients` hold the fixed-width integers and facts about division.

## What the proofs found

These are behaviours of the code as it is; each has a lemma in the table.

- A zero-length request to the byte queue copies nearly 64 KiB out of bounds unless the index is zero (`SplitFitsExactly`).
- Cancelling any but the last task loses a slot of the sleep table for good (`StaleSlotIsLost`).
- A CONNECT report does not imply that the gateway answered: a stop request, or a time slice that ends before the first
  failure, gives it too, and nothing else does (`ConnectWithoutAnswerIff`).
- Writing an invalid gateway address can end the measuring cycle until a reset or a requested loss-rate test
  (`InvalidGatewayEndsCycle`, `TokenLostExactly`, `TokenRegainedExactly`).
- A phone that connects while the node waits for a gateway puts the cycle in two places, after which the node can report and
  sleep without measuring (`OnePlaceExactly`, `SleepsWithoutMeasurement`).
- The advertising timer can fire on a task that no longer advertises (`TimeoutOfIdleTask`), though never in a connection.
- Header-less FIFO extraction cannot be resumed: two calls equal one only if the larger of the two requests already
  exhausts the data (`HeaderlessCallsComposeIff`).
- Sample-drop frames are counted by both sensors' passes (`DropsCountedTwice`), also when they are cut off
  (`NothingAfterTheEnd`), and their length is not checked against the data, so that extraction is sure to end only for
  read-outs of up to 65522 bytes (`WalkEndsIff`).
- With an odd chunk length a feature write can lose a byte (`OddChunkingLosesData`) and a read repeats one
  (`ChunkedReadIsExactIff`); the driver's set-up makes the length even.
- A feature access with an invalid length leaves advanced power save off, and a successful one turns it on even if it was off
  (`WriteRegs`).
- An out-of-range any-motion threshold spills into the selection bit (`SelectionStoredIff`).
- Auxiliary writes forget all bus errors but the last (`ReportsLastTurn`, `SuccessIsTrueIff`); auxiliary reads of long buffers wrap their
  eight-bit counter (`BurstsTileIff`).
- Offset compensation of 128 steps works in one direction only (`CompensatedIff`).
- The header mode constants of `KEIL-MDK/sx1262-drive/sx1262.h:86-87` and the packet parameters written at
  `KEIL-MDK/sx1262-drive/sx1262.c:474` take 0 for an explicit header, but the air time counts the 20 header bits for every
  other value; in the firmware's settings it can be one group of symbols short (`HeaderMiscounted`, `FirmwarePacketIsShort`).
- The air-time numerator wraps for very short packets at large spreading factors (`NegativeNumeratorWraps`).

## Model

| member | source | states |
|---|---|---|
| LoraHistory.NeverStuck | KEIL-MDK/APP/lora_transmission.c:614-854 | In every state any run of requests, timer callbacks, radio interrupts and polls can reach: an active session has a request pending or the receive timeout or back-off timer armed, and its time slice running unless a stop is pending; the two timers are never armed together; outside a session no timer is armed and the radio interrupt is off; the sleep entry is RUN while a session is requested and never without one |
| LoraSession.InvStep | KEIL-MDK/APP/lora_transmission.c:229-313 | One step of any kind, taken whenever its timer is armed or its interrupt enabled, keeps the eight parts of the session invariant |
| LoraSession.InvInitial | KEIL-MDK/APP/lora_transmission.c:856-882 | The invariant holds after initialisation |
| LoraSession.InvPoll | KEIL-MDK/APP/lora_transmission.c:826-854 | The same for a poll, whatever the environment answers |
| LoraSession.InvActive | KEIL-MDK/APP/lora_transmission.c:614-694 | Starting an attempt leaves the session waiting for an answer, with its time slice running |
| LoraSession.InvTxSuccess | KEIL-MDK/APP/lora_transmission.c:696-741 | Every outcome of a reception leaves a state of the invariant, also when the answer does not parse |
| LoraSession.InvTxFail | KEIL-MDK/APP/lora_transmission.c:743-765 | A failed attempt ends in a stop request or a back-off that will end |
| LoraSession.InvStop | KEIL-MDK/APP/lora_transmission.c:767-798 | The stop handler leaves nothing armed |
| LoraSession.StopIsSticky | KEIL-MDK/APP/lora_transmission.c:229-313 | A pending STOP survives every callback and every start or stop call; the next poll reports and ends the session |
| LoraSession.FailsNeverWrap | KEIL-MDK/APP/lora_transmission.c:743-765 | The 32-bit failure counter is never near its wrap-around |
| LoraHistory.BoundedSessions | KEIL-MDK/APP/lora_transmission.c:614-798 | Each finished session made at most max(1, tx_max_fail_times) attempts, all with the same frame bytes; one not cut by a reset made at least one, and its report says exactly how the connection status changed |
| LoraHistory.OneReportPerSession | KEIL-MDK/APP/lora_transmission.c:767-798 | A session is closed by exactly one report and by nothing else, and without a session nothing is reported |
| LoraHistory.ReportsEndSessions | KEIL-MDK/APP/lora_transmission.c:767-824 | For a single step: the active flag falls exactly in a step that reports |
| LoraHistory.ReportsTrackConnectivity | KEIL-MDK/APP/lora_transmission.c:696-798 | Over whole runs the status is CONNECT exactly when the latest LINK or DISCON report is LINK, a publish frame is built only then, and outside the loss-rate test the status seen at the request is still the current one |
| LoraAnswers.ConnectWithoutAnswerIff | KEIL-MDK/APP/lora_transmission.c:767-798 | Over whole runs, for a session that began connected and was neither cut by a reset nor a loss-rate test: it reports CONNECT without an answer from the gateway if and only if there was none and a stop was requested in it or its time slice ended before the first failure; with an answer it always reports CONNECT, and otherwise DISCON |
| LoraAnswers.SliceConnectsWithoutAnswer | KEIL-MDK/APP/lora_transmission.c:266-272 | A run in which the time slice of a connected session ends before any failure or answer, and the report is CONNECT |
| LoraAnswers.StopConnectsAfterFailure | KEIL-MDK/APP/lora_transmission.c:239-246 | A run in which an attempt of a connected session failed and a stop request clears the counter: CONNECT again, without an answer |
| LoraAnswers.FramesObeyReceiveRule | KEIL-MDK/APP/lora_transmission.c:294-313 | Over whole runs every frame of every session, finished or in progress, obeys the length rule the receiver applies |
| LoraAnswers.AnswerStep | KEIL-MDK/APP/lora_transmission.c:229-313 | Every step keeps what ties the reports to the answers, failures and stop requests of a session |
| LoraRetries.FailedAttemptIsRetriedIff | KEIL-MDK/APP/lora_transmission.c:743-765 | Over whole runs: the poll that handles the k-th failed attempt of a session leaves the back-off timer armed if k is below tx_max_fail_times and no loss-rate test allows a single shot only, and requests the stop otherwise |
| LoraRetries.SessionUsesItsAttempts | KEIL-MDK/APP/lora_transmission.c:743-763 | Over whole runs: a session that was neither cut nor stopped, got no answer and did not run out of time made exactly max(1, tx_max_fail_times) attempts; in a loss-rate test it ended earlier at the first failure that was allowed a single shot, if there was one |
| LoraRetries.AttemptOutcome | KEIL-MDK/APP/lora_transmission.c:614-694 | Over whole runs: an attempt waits for an answer exactly if the channel was clear and the transmission worked, and is a failed attempt at once otherwise |
| LoraRetries.ReportsOfTests | KEIL-MDK/APP/lora_transmission.c:767-798 | A session that is not cut reports TEST exactly if it belongs to a loss-rate test |
| LoraRetries.TestStatus | KEIL-MDK/APP/lora_transmission.c:826-834 | Over whole runs: a requested loss-rate test waits for the end of the session in progress, then runs, and ends only with a TEST report after which its counters say so |
| LoraFrameKinds.FrameFitsSession | KEIL-MDK/APP/lora_transmission.c:614-660 | Over whole runs on a known product: the frames of a session are TEST frames in a loss-rate test, CONNECT frames while the node is not connected and PUBLISH frames while it is |
| LoraHistory.BackoffOfASession | KEIL-MDK/APP/lora_transmission.c:743-765 | Whenever the back-off timer is armed, its delay is the one that the k-th consecutive failure of this session gives, in closed form, and fits 32 bits for parameters that fit |
| LoraHistory.PowerNeverOverflows | KEIL-MDK/APP/lora_transmission.c:315-347 | At every poll that backs off the power of two is evaluated only to a value within 32 bits, for any number of failures |
| Backoff.DelaysOfASession | KEIL-MDK/APP/lora_transmission.c:315-347 | Over the calls 1, 2, ..., n of a session the delay is the base doubled n - 1 times, plus r, until that first exceeds the ceiling and ceiling + r from then on, whatever the static variables held before; so it never exceeds ceiling + r |
| Backoff.ExponentialFits | KEIL-MDK/APP/lora_transmission.c:315-347 | The power is no longer evaluated once latched, so no value leaves 32 bits if base + upper and 2 ceiling + upper do not |
| LoraFrames.FramesAreWellFormed | KEIL-MDK/APP/lora_transmission.c:294-313 | Every frame built obeys the length rule the receiver applies (4 + 1 + the length byte + 2), starts with its command, and fits the radio packet |
| LoraFrames.AddressFrameLayout | KEIL-MDK/APP/lora_transmission.c:349-377 | The connect and test frames as the gateway reads them, byte by byte: command, length byte, device address, payload length, and a checksum over all that, low byte first |
| LoraFrames.PublishFrames | KEIL-MDK/APP/lora_transmission.c:380-561 | The two publish frames byte by byte: command, length byte, short address, number and ids of the properties, the one-byte property, the four-byte properties with their bytes reversed, and the checksum |
| LoraFrames.TxBuffer.LoadConnCmd | KEIL-MDK/APP/lora_transmission.c:349-377 | The buffer written byte by byte holds the connect frame, whatever it held before |
| LoraFrames.TxBuffer.LoadInclinometerPublishCmd | KEIL-MDK/APP/lora_transmission.c:380-452 | The buffer written byte by byte holds the inclinometer publish frame, whatever it held before |
| LoraFrames.TxBuffer.LoadCollapsePublishCmd | KEIL-MDK/APP/lora_transmission.c:455-561 | The buffer written byte by byte holds the collapse publish frame, whatever it held before |
| LoraFrames.TxBuffer.LoadCommTestCmd | KEIL-MDK/APP/lora_transmission.c:564-596 | The buffer written byte by byte holds the loss-rate test frame, whatever it held before |
| LoraTransmission.LoraTask.LoraRandomDelay | KEIL-MDK/APP/lora_transmission.c:315-347 | The latched back-off, step by step, is the specified next delay |
| LoraTransmission.LoraTask.StatusActive | KEIL-MDK/APP/lora_transmission.c:614-694 | The attempt handler refines its transition, frame included |
| LoraTransmission.LoraTask.TaskOperate | KEIL-MDK/APP/lora_transmission.c:826-854 | One poll of the task, through all its handlers, refines the poll of the transition system and keeps the invariant, so what is proved of whole runs holds of the code |
| SystemRun.TokenConserved | KEIL-MDK/APP/sys_proc.c:33-271 | For the inclinometer in periodic mode with valid gateway addresses every reachable state has a task that holds the measure-and-report cycle (LoRa, collapse, system sleep, or Bluetooth while the node is disconnected), and that task can move |
| SystemRun.TokenLostExactly | KEIL-MDK/APP/sys_proc.c:56-98 | In periodic mode a step loses the cycle if and only if it is a scheduling of the LoRa event with an invalid gateway address while nothing else holds the cycle |
| SystemRun.TokenRegainedExactly | KEIL-MDK/APP/lora_transmission.c:805-834 | Once the cycle is lost, a step brings it back if and only if it is a reset of the LoRa task or the poll at which a requested loss-rate test takes over |
| SystemRun.TokenStaysLost | KEIL-MDK/APP/sys_proc.c:56-98 | So without a reset and a requested test it stays lost over any continuation of the run |
| SystemRun.InvalidGatewayEndsCycle | KEIL-MDK/APP/sys_proc.c:76-81 | One invalid write before the first scheduling is enough: whatever happens afterwards, except those two, nothing holds the cycle again |
| SystemRun.SleepTableFollows | KEIL-MDK/APP/low_power_manage.c:73-92 | The sleep table that the sleep decision looks at is, after every step, the one that the set-state calls of the three tasks make of the registered entries |
| SystemRun.BluetoothNeverLost | KEIL-MDK/APP/sys_proc.c:101-138 | In every configuration and after any run the Bluetooth event is pending or its task busy |
| SystemRun.RunInv | KEIL-MDK/APP/sys_proc.c:33-271 | The invariant of the three tasks together holds after any run of the system |
| SystemRun.SysInvStep | KEIL-MDK/APP/sys_proc.c:101-271 | Every step of scheduler, tasks, stop handlers and environment keeps that invariant |
| SystemRun.SleepsOnlyWithWakeUp | KEIL-MDK/APP/lora_transmission.c:743-765 | Whenever the sleep table allows sleep during an active session, the back-off timer is armed or a request or stop is pending, and the time slice runs or the stop is pending |
| SystemRun.SleepsInSleep | KEIL-MDK/APP/low_power_manage.c:110-124 | Over whole runs: during a sleep of the system task the firmware may sleep, unless LoRa, the collapse task or a Bluetooth connection keeps it awake |
| SystemCycle.ReportIsFollowed | KEIL-MDK/APP/sys_proc.c:194-240 | Which one event follows each LoRa report, for either product and mode |
| SystemCycle.MeasurementIsReported | KEIL-MDK/APP/sys_proc.c:141-191 | A finished measurement leaves LoRa pending for the inclinometer in periodic mode, and for the collapse meter if it was active |
| SystemCycle.SleepIsFollowed | KEIL-MDK/APP/sys_proc.c:255-271 | Over whole runs: a sleep ends exactly at a poll after its timer fired or a stop was requested, and leaves the next measurement pending, or in a loss-rate test the next transmission |
| SystemCycle.StopEndsSleep | KEIL-MDK/APP/sys_proc.c:255-271 | Over whole runs: a stop request ends a sleep at the next poll |
| SystemCycle.StopEndsBluetooth | KEIL-MDK/APP/bluetooth_low_power.c:30-44 | A stop request ends an advertisement and aborts a connection at the next poll |
| SystemCycle.AdvertisementIsFollowed | KEIL-MDK/APP/sys_proc.c:101-138 | What the end of an advertisement leaves pending, and the gateway address then set |
| SystemCycle.GatewayAfterBluetooth | KEIL-MDK/APP/sys_proc.c:101-122 | Over whole runs: besides a write, the gateway address changes exactly when the advertising times out while the node waits for a gateway, to the default bytes, and Bluetooth is then not connected |
| SystemCycle.TimerOnlyAdvertising | KEIL-MDK/APP/bluetooth_low_power.c:130-219 | Over whole runs: the advertising timer is armed neither in a connection nor at rest, and a timeout ends neither a connection nor the disconnecting of one |
| SystemCycle.TimeoutOfIdleTask | KEIL-MDK/APP/bluetooth_low_power.c:168-176 | A run in which the timer fires on a task that no longer advertises: a phone connects and disconnects between two polls |
| SystemCycle.OnePlaceExactly | KEIL-MDK/APP/sys_proc.c:101-271 | In periodic mode a cycle that is in at most one place stays so in a step if and only if that is not a reset or a test that interrupts another task, nor a stopped advertisement while the node waits for a gateway |
| SystemCycle.CycleMoves | KEIL-MDK/APP/sys_proc.c:101-271 | Where a cycle in one place goes: from a measurement to LoRa when it is done and not before, from a sleep to the next measurement, from Bluetooth to LoRa on a timeout |
| SystemCycle.CycleMovesFromLora | KEIL-MDK/APP/sys_proc.c:194-240 | And from LoRa as its report says: LINK to the measurement, CONNECT and TEST to the sleep, DISCON to LoRa, OFFLINE to Bluetooth |
| SystemCycle.MeasuredBetweenSleeps | KEIL-MDK/APP/sys_proc.c:141-271 | In periodic mode, from startup on: between two sleeps that end outside a loss-rate test a measurement is done, if no step put the cycle in two places |
| SystemCycle.SleepsWithoutMeasurement | KEIL-MDK/APP/sys_proc.c:101-122 | Without that condition it fails: a run in which a phone connects now and then, and the node sleeps twice without a measurement in between |
| SysProc.SysProc.SysStartup | KEIL-MDK/APP/sys_proc.c:33-54 | Startup sets the event bits the run begins with |
| SysProc.SysProc.SysTaskSchd | KEIL-MDK/APP/sys_proc.c:56-98 | One scheduler pass serves and clears every event bit and starts the tasks, as the transition says |
| SysProc.SysProc.Serve | KEIL-MDK/APP/sys_proc.c:56-98 | One event bit: cleared, and its task started; the LoRa task only with a valid gateway address |
| SysProc.SysProc.PollLora | KEIL-MDK/APP/lora_transmission.c:826-854 | One poll of the LoRa task followed by its stop handler, if it reports, is one step of the system |
| SysProc.SysProc.PollBle | KEIL-MDK/APP/bluetooth_low_power.c:130-219 | The same for the Bluetooth task |
| SysProc.SysProc.ResetLora | KEIL-MDK/APP/lora_transmission.c:805-824 | A reset of the LoRa task with its stop handler is one step of the system |
| SysProc.ServedInTurn | KEIL-MDK/APP/sys_proc.c:56-98 | Serving the six bits one after the other leaves none set and has the combined effect |
| SysProc.SysProc.BleTaskStopHandler | KEIL-MDK/APP/sys_proc.c:101-138 | The Bluetooth stop handler refines its transition |
| SysProc.SysProc.CollapseTaskStopHandler | KEIL-MDK/APP/sys_proc.c:141-191 | The collapse stop handler refines its transition |
| SysProc.SysProc.LoraTaskStopHandler | KEIL-MDK/APP/sys_proc.c:194-240 | The LoRa stop handler refines its transition for every report |
| SysProc.SysProc.SlpTaskStopHandler | KEIL-MDK/APP/sys_proc.c:255-271 | The sleep stop handler refines its transition, of which `SleepIsFollowed` says what it leaves pending |
| BleTask.OnlyStopHandlerEnds | KEIL-MDK/APP/bluetooth_low_power.c:130-219 | A poll ends the busy state exactly when it runs the stop handler, with one of the two advertising reasons |
| BleTask.BleTask.TaskOperate | KEIL-MDK/APP/bluetooth_low_power.c:130-219 | One poll, with the branch that falls through into the stop branch, ends the busy state exactly when it calls the stop handler, keeps the promises that timed advertising ends and that the timer is not armed in a connection, calls the stop handler with a timeout only for a task that is not connected, and refines its transition |
| LowPowerTable.LpmTable.TaskReg | KEIL-MDK/APP/low_power_manage.c:21-37 | Registration appends the task to the live list, exactly when there is room and the next slot is not stale |
| LowPowerTable.LpmTable.TaskCancelReg | KEIL-MDK/APP/low_power_manage.c:39-71 | Cancellation succeeds exactly when the id is live and removes its first entry |
| LowPowerTable.LpmTable.TaskSetStat | KEIL-MDK/APP/low_power_manage.c:73-92 | A legal state is stored in the first entry with this id, and only there |
| LowPowerTable.LpmTable.TaskQryStat | KEIL-MDK/APP/low_power_manage.c:94-108 | The state of the first entry with this id, or invalid |
| LowPowerTable.LpmTable.IsTaskRun | KEIL-MDK/APP/low_power_manage.c:110-124 | SET exactly when some live entry is RUN |
| LowPowerTable.CancelRemovesFirst | KEIL-MDK/APP/low_power_manage.c:39-71 | The others stay, in order |
| LowPowerTable.CancelKeepsOthers | KEIL-MDK/APP/low_power_manage.c:39-71 | Every other task is still found in the state it had |
| LowPowerTable.SetChangesOneEntry | KEIL-MDK/APP/low_power_manage.c:73-92 | Setting a state changes the first entry with the id and nothing else, and only for stop, run and low-power |
| LowPowerTable.StaleSlotIsLost | KEIL-MDK/APP/low_power_manage.c:25-34 | A slot vacated by cancelling an earlier task keeps its old state and is lost for good: no later run can hold more tasks than its index |
| LowPowerTable.NoStaleSlots | KEIL-MDK/APP/low_power_manage.c:39-71 | A run leaves no stale slot if and only if each of its cancellations took the last task |
| LowPowerTable.RegistrationCapacity | KEIL-MDK/APP/low_power_manage.c:21-37 | Hence "fewer than ten live tasks" suffices to register exactly after such runs |
| LowPowerTable.RegistrationRefusedAfterCancel | KEIL-MDK/APP/low_power_manage.c:21-71 | With two tasks registered and the first cancelled, the next registration is refused |
| EasyFifo.EasyFifo.Write | KEIL-MDK/FUNC/easy_fifo.c:9-40 | Accepted exactly when the queue keeps one slot free, and then appends the request |
| EasyFifo.EasyFifo.Read | KEIL-MDK/FUNC/easy_fifo.c:42-68 | Accepted exactly when that many bytes are queued, and then delivers and removes that prefix; otherwise changes nothing |
| EasyFifo.SplitFitsExactly | KEIL-MDK/FUNC/easy_fifo.c:23-34 | The two copies of a request stay inside the buffer and move all of it if and only if the request has a byte or the index is zero |
| EasyFifoInterleaving.InterleavingDeliversInOrder | KEIL-MDK/FUNC/easy_fifo.c:9-68 | With every byte copy and every index publication of one writer and one reader as separate steps, any interleaving delivers a prefix of the accepted bytes in order, and the rest is what the two indices delimit |
| EasyFifoInterleaving.InterleavingStaysInBounds | KEIL-MDK/FUNC/easy_fifo.c:9-68 | No step of any interleaving touches memory outside the buffer |
| EasyFifoInterleaving.WriteCallAdmission | KEIL-MDK/FUNC/easy_fifo.c:9-20 | A write is accepted exactly when the undelivered bytes leave room, whatever a concurrent read has copied but not published |
| EasyFifoInterleaving.ReadCallAdmission | KEIL-MDK/FUNC/easy_fifo.c:42-50 | A read is accepted exactly when that many accepted bytes are not yet delivered, whatever a concurrent write has copied but not published |
| EasyFifoInterleaving.InvStep | KEIL-MDK/FUNC/easy_fifo.c:9-68 | Every step keeps the correspondence between indices, buffer and byte history |
| FifoRoundTrip.ExtractInvertsEncode | KEIL-MDK/BMA456/bma4.c:3459-3605 | Parsing the encoding of any list of frames, with any tag bits, delivers exactly the samples of the asked sensor in order and the book-keeping of the list, and consumes the data, also when it ends in an over-read marker or a frame of any kind cut off anywhere; a sample-drop frame cut off after its code is still counted and leaves the index where it would have ended |
| FifoRoundTrip.BookkeepingInClosedForm | KEIL-MDK/BMA456/bma4.c:3808-3878 | That book-keeping is the last sensor time, the last skip count and the numbers of dropped frames modulo 256 |
| FifoRoundTrip.FrameRoundTrip | KEIL-MDK/BMA456/bma4.c:3808-3895 | One complete frame of any kind is decoded to its meaning and skipped exactly |
| FifoRoundTrip.NothingAfterTheEnd | KEIL-MDK/BMA456/bma4.c:3530-3570 | A cut-off frame delivers nothing; it ends the data and counts nothing, except for a sample-drop frame that still has its code, which is counted and moves the index past the end |
| FifoEncoder.VectorRoundTrip | KEIL-MDK/BMA456/bma4.c:3576-3605 | The three axes survive their two-byte, left-aligned encoding for every resolution |
| FifoEncoder.ScalingInverts | KEIL-MDK/BMA456/bma4.c:3595-3603 | The truncating division by 16 or 4 undoes the left alignment, also for negative values |
| FifoEncoder.ScalingTruncates | KEIL-MDK/BMA456/bma4.c:3595-3603 | Whatever the unused low bits hold, the sample is rounded toward zero |
| FifoFrames.ExtractionComposes | KEIL-MDK/BMA456/bma4.c:3459-3522 | Extracting n samples and then m gives the samples, counters and final index of extracting n + m at once |
| FifoExtract.HeaderCallsCompose | KEIL-MDK/BMA456/bma4.c:3464-3470 | The same for the calls of the interface, which look at the stored index anew and skip a dummy byte when it is zero |
| FifoFrames.FramingAgrees | KEIL-MDK/BMA456/bma4.c:3650-3769 | The accelerometer and magnetometer passes visit the same headers, count the same and end at the same index when neither is cut short by its request |
| FifoFrames.ExtractBounds | KEIL-MDK/BMA456/bma4.c:3459-3570 | A pass delivers at most what was requested, fewer only at the end of the data, and ends at most 13 bytes past it |
| FifoFrames.Progress | KEIL-MDK/BMA456/bma4.c:3849-3895 | Every frame moves the index forward, so a pass ends, for read-outs of up to 65522 bytes |
| FifoFrames.AlwaysForwardIff | KEIL-MDK/BMA456/bma4.c:3849-3878 | For lengths below 65536: every frame of every read-out of a length moves the 16-bit index forward if and only if the length is at most 65522 |
| FifoFrames.WalkEndsIff | KEIL-MDK/BMA456/bma4.c:3849-3878 | So the walk reaches the end of every read-out of a length if and only if the length is at most 65522; above it some read-out is walked round for ever |
| FifoFrames.PassCountsDrops | KEIL-MDK/BMA456/bma4.c:3849-3878 | A complete pass of either sensor adds the numbers of frames that dropped acceleration and magnetometer data to the two counters, modulo 256 |
| FifoFrames.DropsCountedTwice | KEIL-MDK/BMA456/bma4.c:1980-2011 | So two complete passes over one read-out, for either sensor and in either order, count each dropped frame twice, on both counters |
| FifoExtract.Fifo.ExtractAccelHeaderMode | KEIL-MDK/BMA456/bma4.c:3459-3522 | The loop writes exactly the specified samples to the front of the array, nothing behind them, and leaves the specified counters and resume index |
| FifoExtract.Fifo.ExtractMagHeaderMode | KEIL-MDK/BMA456/bma4.c:3650-3714 | The same for the magnetometer, up to the compensation of the raw bytes |
| FifoExtract.Fifo.UnpackDroppedFrame | KEIL-MDK/BMA456/bma4.c:3849-3878 | A sample-drop frame, with its missing length check |
| FifoExtract.Fifo.UnpackAccFrame | KEIL-MDK/BMA456/bma4.c:3530-3570 | A complete frame stores one sample at its place, an incomplete one none |
| FifoExtract.Fifo.UnpackMagFrame | KEIL-MDK/BMA456/bma4.c:3723-3769 | The same for the magnetometer |
| FifoExtract.Fifo.SkipFrame | KEIL-MDK/BMA456/bma4.c:3471-3515 | A frame without a sample moves the index and the counters as specified |
| FifoExtract.Fifo.AccelFrame | KEIL-MDK/BMA456/bma4.c:3471-3515 | One turn of the accelerometer loop: index, counters and at most one stored sample |
| FifoExtract.Fifo.MagFrame | KEIL-MDK/BMA456/bma4.c:3663-3706 | One turn of the magnetometer loop |
| FifoExtract.Fifo.ExtractAccelHeaderless | KEIL-MDK/BMA456/bma4.c:1946-1966 | The header-less loop writes exactly the specified samples and resume index; with an unsuitable configuration none |
| FifoExtract.Fifo.ExtractAccel | KEIL-MDK/BMA456/bma4.c:1942-1973 | The entry point, in header and header-less mode |
| FifoHeaderless.LayoutByBits | KEIL-MDK/BMA456/bma4.c:1946-1966 | The enable bits name the sensors whose samples the read-out holds |
| FifoHeaderless.UnpackedIsLongestRun | KEIL-MDK/BMA456/bma4.c:3530-3570 | The samples delivered are the longest run before the first reason to stop: limit, incomplete sample, or an empty mark after a sample |
| FifoHeaderless.UnpackedSample | KEIL-MDK/BMA456/bma4.c:3576-3605 | Each is decoded from its own place |
| FifoHeaderless.UnpackedResumesAfterRun | KEIL-MDK/BMA456/bma4.c:1953-1965 | The resume index in closed form |
| FifoHeaderless.RequestIsBounded | KEIL-MDK/BMA456/bma4.c:3406-3436 | No call delivers more than it was asked for, even when its limit is truncated |
| FifoHeaderless.FirstRequestIsLongestRun | KEIL-MDK/BMA456/bma4.c:1946-1966 | The first call stops short of its request only at the end of the data or an empty mark |
| FifoHeaderless.HeaderlessInvertsEncode | KEIL-MDK/BMA456/bma4.c:1946-1966 | A read-out holding a list of samples is delivered in full if and only if no sample after the first looks like the empty mark; else exactly the samples before the first that does |
| FifoHeaderless.LooksEmptyByRawX | KEIL-MDK/BMA456/bma4.c:3442-3452 | In the accelerometer-only layout those are the samples whose raw x is 0x0080 |
| FifoHeaderless.MarkInLastBytes | KEIL-MDK/BMA456/bma4.c:3442-3452 | The mark is not looked for in the last two bytes of the data |
| FifoHeaderless.LimitTruncated | KEIL-MDK/BMA456/bma4.c:3406-3436 | A request whose bytes exceed 16 bits is truncated: 10923 samples of six bytes count as two bytes |
| FifoHeaderless.ResumedRequestIsATotal | KEIL-MDK/BMA456/bma4.c:3406-3436 | A later call treats its request as a total from the beginning: it delivers what one call for that total delivers beyond what was delivered |
| FifoHeaderless.HeaderlessCallsComposeIff | KEIL-MDK/BMA456/bma4.c:3406-3436 | Two calls for n and m samples deliver what one call for n + m delivers if and only if there are no more samples than the larger of n and m |
| FifoHeaderless.HeaderlessResumeFails | KEIL-MDK/BMA456/bma4.c:1946-1966 | A read-out of two samples: two calls for one sample each deliver one, where one call for two delivers both |
| FifoHeaderless.RepeatedRequestDeliversNothing | KEIL-MDK/BMA456/bma4.c:3406-3436 | So repeating a request that was met in full delivers nothing, however much data is left |
| Bma4Transport.Bma4.WriteRegs | KEIL-MDK/BMA456/bma4.c:793-858 | Over a bus that may fail at any operation: success means that the chunked image of the data is stored, the pointer is back, advanced power save is on and no other register changed; without bus errors it succeeds exactly for even lengths within the feature block, and otherwise reports the length error, stores nothing and leaves power save off |
| Bma4Transport.Bma4.ReadRegs | KEIL-MDK/BMA456/bma4.c:946-1009 | The same for reads: success returns the chunked image of the memory and changes nothing but the power mode |
| Bma4Transport.Bma4.WriteChunks | KEIL-MDK/BMA456/bma4.c:817-835 | The chunk loop and the overflow leave the chunked image |
| Bma4Transport.Bma4.ReadChunks | KEIL-MDK/BMA456/bma4.c:970-988 | The chunk loop and the overflow return the chunked image |
| Bma4Transport.Bma4.LeavePowerSave | KEIL-MDK/BMA456/bma4.c:805-814 | Advanced power save is off afterwards on success, and unchanged on failure |
| Bma4Transport.Bma4.EnterPowerSave | KEIL-MDK/BMA456/bma4.c:841-850 | It is on afterwards on success, whether or not it was before |
| Bma4Transport.Bma4.IncrementFeatureConfigAddr | KEIL-MDK/BMA456/bma4.c:917-940 | The pointer moves by half a chunk, modulo its twelve bits |
| Bma4Transport.Bma4.SetFeatureConfigStartAddr | KEIL-MDK/BMA456/bma4.c:903-911 | On success the pointer is where the feature block starts |
| Bma4Transport.Bma4.BusWrite | KEIL-MDK/BMA456/bma4.c:864-879 | Its precondition is the rule that the feature configuration is accessed only with advanced power save off; every call meets it, after any bus errors |
| Bma4Transport.Bma4.BurstRead | KEIL-MDK/BMA456/bma4.c:1015-1043 | A read is refused exactly when it does not fit the static buffer, and strips the dummy byte |
| Bma4Transport.Bma4.SetAdvancePowerSave | KEIL-MDK/BMA456/bma4.c:1338-1356 | Changes one bit of one register, or nothing on failure |
| Bma4Transport.Bma4.GetAdvancePowerSave | KEIL-MDK/BMA456/bma4.c:1362-1378 | The bit, or the value the caller had on failure |
| ChunkedTransfer.ChunkingIsExactIff | KEIL-MDK/BMA456/bma4.c:817-835 | The chunked image equals one uninterrupted burst for all memory contents and data if and only if the chunk length is even or the transfer needs one chunk |
| ChunkedTransfer.EvenChunkingIsExact | KEIL-MDK/BMA456/bma4.c:817-835 | The first half of that |
| ChunkedTransfer.OddChunkingLosesData | KEIL-MDK/BMA456/bma4.c:929-933 | The second half: with an odd chunk length the last byte of the first chunk is overwritten |
| ChunkedTransfer.ChunkedReadIsExactIff | KEIL-MDK/BMA456/bma4.c:970-988 | The chunked read equals one uninterrupted burst for all memory contents if and only if the chunk length is even or the transfer needs one chunk |
| ChunkedTransfer.ReadInvertsWrite | KEIL-MDK/BMA456/bma4.c:946-1009 | What was written in chunks of one even length is read back in chunks of any other |
| FeatureBlock.SetterRefines | KEIL-MDK/BMA456/bma456.c:856-1143 | Each setter, with arguments its fields have room for, replaces in the record the block stands for exactly its own fields |
| FeatureBlock.RunRefines | KEIL-MDK/BMA456/bma456.c:856-1464 | The same over any run of setters |
| FeatureBlock.LastSetWins | KEIL-MDK/BMA456/bma456.c:856-1464 | After any run every field of the record, the shared selection bit, the axes and the feature switches included, has the value last set through one of its own setters, or the initial one, whatever other setters ran since |
| FeatureBlock.SetFeatureRefines | KEIL-MDK/BMA456/bma456.c:1493-1610 | Enabling and disabling features sets their bits alone, any-motion and no-motion sharing one, for every feature mask and every enable value |
| FeatureBlock.FeatureMaskBits | KEIL-MDK/BMA456/bma456.c:1493-1605 | Which bit of the mask switches which feature, and that a feature not named keeps its bit |
| FeatureBlock.MotionSwitchAndAxes | KEIL-MDK/BMA456/bma456.c:1469-1488 | For every block and every mask with any-motion or no-motion: the enable value 0 leaves the axes zero, 1 leaves them as they were, and any other value clears them unless the mask names just one of the two |
| FeatureBlock.SelectionStoredIff | KEIL-MDK/BMA456/bma456.c:973-979 | An out-of-range threshold spills into the selection bit: the selection is stored as given if and only if bit 11 of the threshold is clear or the selection is one |
| FeatureBlock.OnlyTransferredBytesChange | KEIL-MDK/BMA456/bma456.c:1469-1488 | No setter changes a byte outside those it transfers |
| FeatureBlock.ParameterBytes | KEIL-MDK/BMA456/bma456.c:1615-1701 | The 25 step parameters survive their unpacking into bytes and packing back |
| Bma456.Sensor.FeatureEnable | KEIL-MDK/BMA456/bma456.c:823-851 | The feature switch, read-modify-write over the chunked transport: as the other setters, and on success any-motion or no-motion switched off has its axes cleared, switched on its axes kept |
| Bma456.Sensor.SetAnyMotionConfig | KEIL-MDK/BMA456/bma456.c:956-999 | The any-motion configuration setter, read-modify-write over the chunked transport for any even chunk length: refused for another chip; on success the block is the specified one and nothing else in the sensor changed; without bus errors it succeeds |
| Bma456.Sensor.AnyMotionEnableAxis | KEIL-MDK/BMA456/bma456.c:925-951 | The any-motion axes setter, read-modify-write over the chunked transport for any even chunk length: refused for another chip; on success the block is the specified one and nothing else in the sensor changed; without bus errors it succeeds |
| Bma456.Sensor.SetRemapAxes | KEIL-MDK/BMA456/bma456.c:856-889 | The axes remap setter, read-modify-write over the chunked transport for any even chunk length: refused for another chip; on success the block is the specified one and nothing else in the sensor changed; without bus errors it succeeds |
| Bma456.Sensor.StepCounterSetWatermark | KEIL-MDK/BMA456/bma456.c:1072-1110 | The step watermark setter, read-modify-write over the chunked transport for any even chunk length: refused for another chip; on success the block is the specified one and nothing else in the sensor changed; without bus errors it succeeds |
| Bma456.Sensor.ResetSteps | KEIL-MDK/BMA456/bma456.c:1148-1173 | The step-counter reset setter, read-modify-write over the chunked transport for any even chunk length: refused for another chip; on success the block is the specified one and nothing else in the sensor changed; without bus errors it succeeds |
| Bma456.Sensor.StepDetectorEnable | KEIL-MDK/BMA456/bma456.c:1041-1066 | The step detector setter, read-modify-write over the chunked transport for any even chunk length: refused for another chip; on success the block is the specified one and nothing else in the sensor changed; without bus errors it succeeds |
| Bma456.Sensor.StepCounterSetParameter | KEIL-MDK/BMA456/bma456.c:1356-1380 | The step parameters setter, read-modify-write over the chunked transport for any even chunk length: refused for another chip; on success the block is the specified one and nothing else in the sensor changed; without bus errors it succeeds |
| Bma456.Sensor.WakeupSetSensitivity | KEIL-MDK/BMA456/bma456.c:1385-1409 | The wake-up sensitivity setter, read-modify-write over the chunked transport for any even chunk length: refused for another chip; on success the block is the specified one and nothing else in the sensor changed; without bus errors it succeeds |
| Bma456.Sensor.TapSelection | KEIL-MDK/BMA456/bma456.c:1441-1464 | The tap selection setter, read-modify-write over the chunked transport for any even chunk length: refused for another chip; on success the block is the specified one and nothing else in the sensor changed; without bus errors it succeeds |
| Bma456.Sensor.GetAnyMotionConfig | KEIL-MDK/BMA456/bma456.c:1004-1035 | The any-motion configuration getter returns this part of the record the block stands for, and changes nothing but the power mode |
| Bma456.Sensor.GetRemapAxes | KEIL-MDK/BMA456/bma456.c:894-919 | The axes remap getter returns this part of the record the block stands for, and changes nothing but the power mode |
| Bma456.Sensor.StepCounterGetWatermark | KEIL-MDK/BMA456/bma456.c:1116-1143 | The step watermark getter returns this part of the record the block stands for, and changes nothing but the power mode |
| Bma456.Sensor.StepCounterGetParameter | KEIL-MDK/BMA456/bma456.c:1327-1350 | The step parameters getter returns this part of the record the block stands for, and changes nothing but the power mode |
| Bma456.Sensor.WakeupGetSensitivity | KEIL-MDK/BMA456/bma456.c:1414-1435 | The wake-up sensitivity getter returns this part of the record the block stands for, and changes nothing but the power mode |
| AuxInterface.ReadInvertsWrite | KEIL-MDK/BMA456/bma4.c:3034-3088 | Reading back from the address written returns what was written, for up to the whole register file, with addresses modulo 256 |
| AuxInterface.BurstsTileIff | KEIL-MDK/BMA456/bma4.c:4123-4160 | In the eight-bit counter the bursts tile the buffer without wrapping if and only if its length is at most 255, 254, 252 or 248, by burst code |
| AuxInterface.AuxPort.AuxWrite | KEIL-MDK/BMA456/bma4.c:3053-3088 | For any results of the bus the outcome of the loop, with success reported exactly when the last turn succeeds; without errors all data is stored; an empty request is refused |
| AuxInterface.AuxPort.AuxRead | KEIL-MDK/BMA456/bma4.c:4102-4164 | A success is honest for any results of the bus: the buffer holds the registers and nothing behind them changed; without errors it succeeds |
| AuxInterface.AuxPort.ReadBurst | KEIL-MDK/BMA456/bma4.c:4125-4158 | One burst: nothing outside its part of the buffer changes, and on success that part holds the registers |
| AuxInterface.ReportsLastTurn | KEIL-MDK/BMA456/bma4.c:3062-3082 | For any results of the bus and any data the write loop reports success if and only if its last turn succeeds |
| AuxInterface.SuccessIsTrueIff | KEIL-MDK/BMA456/bma4.c:3062-3082 | When success is reported for up to 256 bytes, all of the data is stored, whatever the sensor held and whatever was written, if and only if no turn before the last one failed |
| AuxInterface.EarlyFailureLosesData | KEIL-MDK/BMA456/bma4.c:3062-3082 | After a failed turn before the last one the data is not stored, unless its last byte is what the register held anyway |
| AuxInterface.AllTurnsStoreAll | KEIL-MDK/BMA456/bma4.c:3062-3082 | When no turn fails every byte is stored at its address |
| AuxInterface.FailureIsForgotten | KEIL-MDK/BMA456/bma4.c:3062-3082 | A bus on which the first of two bytes fails: success is reported and the data is not stored |
| OffsetCompensation.CompensatedIff | KEIL-MDK/BMA456/bma4.c:3264-3358 | Half a step is left of a deviation, or nothing where a step is not worth more than one data bit, if and only if the deviation rounded to steps is at most 127, or 128 when the reading is too high |
| OffsetCompensation.PerformFoc | KEIL-MDK/BMA456/bma4.c:2566-2577 | The same of the three offset bytes that come out of the whole calculation, for every range, resolution, reading and accepted expectation, the deviation being from the reading that stands for the expectation on the full scale |
| OffsetCompensation.TargetIsExpected | KEIL-MDK/BMA456/bma4.c:2566-2577 | The target of the driver is the reading that stands for the expected acceleration when the range fills half of the resolution |
| OffsetCompensation.PerfectReading | KEIL-MDK/BMA456/bma4.c:3264-3358 | A reading equal to it gets the offset zero |
| OffsetCompensation.GetBitPos | KEIL-MDK/BMA456/bma4.c:4011-4055 | The halving loop ends, with the bit position resolution - 9 - log2(range) |
| OffsetCompensation.RatioIsPowerOfTwo | KEIL-MDK/BMA456/bma4.c:4027-4045 | The rounded ratio it halves is a power of two for the twelve supported settings |
| OffsetCompensation.Power | KEIL-MDK/BMA456/bma4.c:3976-3986 | The power loop |
| OffsetCompensation.ScaleOffset | KEIL-MDK/BMA456/bma4.c:3291-3319 | The three magnitudes in offset steps |
| OffsetCompensation.NormaliseOffset | KEIL-MDK/BMA456/bma4.c:3264-3286 | The three bytes with the sign of the correction |
| AirTime.TimeOnAirIsExact | KEIL-MDK/sx1262-drive/sx1262.c:761-847 | The result is the duration over the rationals, rounded up to the next whole millisecond: 1000 (air - 1) <= T < 1000 air, where T counts the preamble, 4.25 and 8 symbols and the groups of payload, checksum and header bits, the latter if the header mode is not zero |
| AirTime.NumeratorIsBits | KEIL-MDK/sx1262-drive/sx1262.c:825-827 | The numerator is the number of coded bits: payload, 16 for a checksum, 20 for a header if the header mode is not zero, 8 more, less 4 for each unit of the spreading factor |
| AirTime.HeaderMiscounted | KEIL-MDK/sx1262-drive/sx1262.c:825-827 | Header mode 0 is the explicit one, so the header bits are counted in the wrong mode: the number of symbols is the true one if and only if the last group has room for 20 bits, else one group too small with a header and one too large without |
| AirTime.FirmwarePacketIsShort | KEIL-MDK/sx1262-drive/sx1262.c:761-847 | With the settings of the firmware a packet of 51 bytes takes 54.4 ms and the result is 52 |
| AirTime.BandwidthDoubles | KEIL-MDK/sx1262-drive/sx1262.c:771-815 | The bandwidth codes |
| AirTime.TimeOnAirGrows | KEIL-MDK/sx1262-drive/sx1262.c:761-847 | A longer packet is never shorter on the air |
| AirTime.RemainderTestIsDivisibility | KEIL-MDK/sx1262-drive/sx1262.c:831-839 | The test "remainder below 10000" is exact divisibility by four times the spreading factor |
| AirTime.CeilDivIsLeast | KEIL-MDK/sx1262-drive/sx1262.c:830-839 | The ceiling meant is the least whole number not below the quotient |
| AirTime.PayloadIsCeilingIff | KEIL-MDK/sx1262-drive/sx1262.c:825-839 | So the payload symbols are the true ceiling, with none for a negative numerator, if and only if the numerator is not negative |
| AirTime.TimeOnAirInWholeNumbers | KEIL-MDK/sx1262-drive/sx1262.c:819-846 | No 32-bit or 64-bit step wraps for a non-negative numerator |
| AirTime.NegativeNumeratorWraps | KEIL-MDK/sx1262-drive/sx1262.c:825-828 | For every negative numerator the subtraction wraps, and the payload is given at least 89 million coded groups where it has none |
| AirTime.EmptyPacketForAMonth | KEIL-MDK/sx1262-drive/sx1262.c:825-828 | For instance, an empty packet at the largest spreading factor gets more than three billion milliseconds |
| AirTime.WrapsCanCancel | KEIL-MDK/sx1262-drive/sx1262.c:841-846 | The duration as a whole is then wrapped to 32 bits, which can make it right again: a packet with a negative numerator and the duration of no payload |

## Left out

- Pins, SPI, GPIOTE, the BLE stack, flash, LEDs, the calendar and the timer wrappers: replaced by booleans for armed timers and
  the enabled interrupt, and by the device classes of the sensor.
- Timer durations other than the back-off: the receive timeout taken from the air time, the advertising period and the sleep
  time. A timer may fire at any moment while it is armed, so `SliceConnectsWithoutAnswer` supposes that the polls are late
  by most of the time slice; and the stop request of `StopConnectsAfterFailure` is part of the task's interface but not
  called elsewhere in this firmware.
- Interrupts in the middle of a handler: callbacks and polls are atomic, except in `EasyFifoInterleaving`.
- The collapse task, the loss-rate test and the parsing of received packets: a task that ends by calling its stop handler,
  a status value, and an arbitrary outcome of each reception. The measured values in the frames are parameters.
- `SystemRun.TokenConserved`: says nothing for the collapse-meter version or a trigger mode, where the cycle depends on the
  collapse task.
- `SystemCycle.MeasuredBetweenSleeps`: the condition is sufficient only, since a cycle in two places need not go wrong;
  `OnePlaceExactly` says exactly which steps lead there, and `SleepsWithoutMeasurement` is a run that goes wrong.
- `LoraFrameKinds.FrameFitsSession`: says nothing for a product version the firmware does not know, with which a connected session sends
  whatever the buffer holds.
- `LoraHistory.BackoffOfASession`: the delay is exact, but real time and the accuracy of the floating-point `pow` of small integers are
  not modelled.
- `EasyFifo.EasyFifo.Write`: requires a non-empty request or a zero index, which `SplitFitsExactly` shows to be exactly when the copies
  stay in bounds.
- `EasyFifo.EasyFifo.Read`: the same requirement, for the same reason.
- lora_set_tx_data, channel activity detection, signal strength and address queries: no state of the session.
- `FifoExtract.Fifo.ExtractAccelHeaderMode`: requests of zero samples, which never meet their count and would overrun the caller's array,
  and read-outs of more than 65522 bytes, for which the loop may not end (`WalkEndsIff`), are left out.
- `FifoExtract.Fifo.ExtractMagHeaderMode`: the same requests are left out; the compensation of magnetometer samples is compiled out in
  this build, so a sample is its eight raw bytes.
- Header-less extraction of the magnetometer and the parsing of the sensor-controller frames.
- `FifoExtract.Fifo.ExtractAccel`: requests of zero samples and longer read-outs, for the same reasons, and null-pointer checks are left
  out.
- `Bma4Transport.Bma4.WriteRegs`: buffers are sequences and a burst leaves the pointer register where it is, as the driver's explicit
  increment presumes; the SPI address mask, the delays and FIFO reads from a single register are not modelled, and a bus operation that
  fails has no effect on the sensor.
- Upload of the configuration file and the platform presets of the step counter: loops of the accesses modelled here.
- `AuxInterface.AuxPort.AuxRead`: burst codes above 3, for which the loop never advances, and longer buffers are excluded.
- `OffsetCompensation.PerformFoc`: starts from the averaged reading; the register sequence around it is not modelled.
- `AirTime.TimeOnAirIsExact`: covers the bandwidths whose frequency is a whole number of hertz and a non-negative numerator
  (for a negative one the payload is always wrong, `PayloadIsCeilingIff`, although the duration can wrap back to the right one,
  `WrapsCanCancel`); the numbers of bits and symbols are the code's but for the header mode, also for the spreading factors 5 and 6.
