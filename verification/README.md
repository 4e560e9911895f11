# Verified model of the postal-sorter relay

This project models the protocol logic of the relay platform in Dafny and proves what it
is relied on for. `dafny verify dfyconfig.toml` checks everything.

* **Telegrams** (`telegram*.dfy`). A PLC telegram is a frame of STX, a twelve-byte header,
  a data area described by a list of fields, and ETX. The builder writes frames into a
  buffer, the parser reads them back, the registry finds the definition of a number, and
  two validators judge a buffer. `telegram.dfy` says what a frame means; builder, parser
  and validator are proved against it and against each other.
* **Stream** (`framing.dfy`, `tcp_server.dfy`, `tcp_runs.dfy`, `tcp_log.dfy`). The simulator's TCP server
  cuts a byte stream into frames. The scanner is a loop over a buffer; its specification is
  the one way in which any byte string falls apart into STX-free junk, whole frames and an
  unfinished remainder. Runs consist of connections, arriving chunks and closings of any
  number of sockets, and of what is sent, also by listeners while a chunk is dealt with.
  `tcp_log.dfy` says entry by entry what the telegram log tells of a run.
* **Messages and commands** (`messages.dfy`, `wire*.dfy`, `command_handler.dfy`,
  `command_runs.dfy`). The telegrams the simulator sends and acknowledges with, as values with
  an encoding and a reader; where each of their numbers stands on the wire, byte by byte; and
  runs of channel and sorter together, in which the sorter lives a run of its own.
* **Virtual sorter** (`sorter_*.dfy`, `pid.dfy`). `sorter_state.dfy` gives the effect of
  every operation on the whole state. `sorter_engine.dfy` is the service with its fields
  changed step by step, each method proved to have that effect, and `sorter_replay.dfy`
  proves that a service that has handled a list of events is in the state of their run.
  `sorter_control.dfy` holds a small machine for status, modes and reports that the sorter is
  proved to follow, `sorter_effects.dfy` what happens to an item, by the numbers that come
  out. The other files prove what all runs keep: commands, faults, reconfiguration, resets and
  timers come in any order, random choices are arbitrary, and discharges and confirmations
  may even be called late or repeatedly.
* **Binary records** (`serializer_*.dfy`, `binary_serializer.dfy`). The general codec with
  its eight field types: for each type exactly which values and which bytes survive, what
  any value is stored as and any bytes are read as (`serializer_values.dfy`), and the two laws
  for whole records.
* **Fallback** (`fallback*.dfy`). Hysteresis on health checks, pending records, export to
  CSV files in a directory, and recovery in batches. `fallback_exports.dfy` says record by
  record what an export writes and leaves.
* **Log broadcast** (`comm_log.dfy`, `log_contents.dfy`, `log_runs.dfy`). Increments out of a
  truncated, expiring, newest-first log.

Some promises turn out not to hold as stated. For each there is a lemma with a concrete
input that shows it, and one that says exactly when the code does meet it:

* A reset of a stopped sorter does not clear timers, because stopping a stopped sorter does
  nothing. If an item is still waiting for one, the item totals can go wrong
  (`TrippedSorterIsNotSafeToReset`, `ResetIsSafeExactly`); over a whole run they do exactly
  when a callback finds its item no longer active (`ConservationExactly`).
* Such a reset also makes new inductions without a report, so that listeners take stopped
  inductions for running ones (`ResetAfterTripTellsNobody`, `ToldExactly`).
* The mark of a full chute can be cleared, a new threshold can lie across a count, and an
  overflow can be injected without a threshold; then mark and count disagree
  (`ClearedMarkIsWrong`, `RaisedThresholdIsWrong`, `OverflowWithoutThreshold`,
  `FlagsRightExactly`).
* An injected overflow counts items that never were, and an item whose chute a
  reconfiguration has removed is counted nowhere (`InjectedOverflowDisagrees`,
  `RemovedChuteDisagrees`, `TotalsAgreeExactly`).
* A request to the controller that leaves a setting out makes it undefined. Undefined counts
  rebuild nothing, and an item made then has no chute, so that its discharge telegram cannot
  be told from that of a read failure (`UndefinedSettings`, `AsConfiguredExactly`).
* With more than 65535 chutes an induction can end in an exception
  (`FirstInductionFails`, `NothingCanFailExactly`, `NextInductionFailsExactly`).
* Fallback records are lost in two ways. Those whose ids collide within a millisecond are
  dropped by the export of another kind (`CollidingIdsLoseARecord`). And a second file of
  one kind within a second has the name of the first and replaces it
  (`SameSecondLosesARecord`). Every record is kept if and only if neither ever happens
  (`EveryRecordIsSomewhere`).
* An entry is broadcast twice when a tick finds that the last entry sent is gone from the ten
  newest while an older one that was sent is still there, which takes a clock that falls
  back (`BackwardClockSendsTwice`, `AtMostOnceExactly`, `RepeatingNeedsFallBack`).
* An entry is never broadcast when more than ten are logged between two ticks
  (`ElevenEntriesLoseOne`, `AllSentIffKeptUp`; with any clock, `AllSentExactly`).
* A record with two fields of one name cannot be restored
  (`ShadowedFails`, `ReverseLawNeedsUnshadowedNames`).

One more would be broken by a recovery that takes its time: a health check that fails in
the middle of it is forgotten at its end (`SlowRecoveryForgets`, `MeaningExactly`). As a
recovery waits for nothing, no check can fall into one, and `StatusMeansLatestWindow` is
what holds.

Clocks, random numbers, the success of a file write, and what the runtime makes of a text
used as a number are parameters. An exception is an absent result or a false flag.

## Model

| member | source | states |
|---|---|---|
| `Telegrams.Frame` | packages/telegram/src/builder.ts:27-76 | a frame exists exactly when data type, number, length and every carried value fit their places; its size is the header, the data area and ETX |
| `Telegrams.HeaderOfFrame` | packages/telegram/src/parser.ts:15-32 | every header value and ETX is found again in a built frame, at its place, also when more bytes follow |
| `Telegrams.ModuleIdSurvives` | packages/telegram/src/parser.ts:28 | a module id of at most six characters survives the header exactly when it is NUL-free seven-bit text |
| `Telegrams.ReadFieldsSucceeds` | packages/telegram/src/parser.ts:41-44 | the field loop fails exactly when the fields need more bytes than there are |
| `Telegrams.ReadFieldsKeys` | packages/telegram/src/parser.ts:37-56 | the loop reports exactly the names of the fields of size 1, 2 and 4 |
| `Telegrams.ReadFieldsOfDataBytes` | packages/telegram/src/parser.ts:37-56 | reading a written data area gives back every value, zero where none was given |
| `TelegramBuilder.TelegramBuilder.constructor` | packages/telegram/src/builder.ts:10-12 | a new builder has data type D and module id PSM00 |
| `TelegramBuilder.TelegramBuilder.SetDataType` | packages/telegram/src/builder.ts:14-17 | keeps the first character |
| `TelegramBuilder.TelegramBuilder.SetModuleId` | packages/telegram/src/builder.ts:19-22 | keeps the first six characters |
| `TelegramBuilder.TelegramBuilder.Build` | packages/telegram/src/builder.ts:27-76 | writing header, field loop and ETX into the buffer yields the frame, and fails exactly where no frame exists |
| `TelegramBuilder.WriteHeader` | packages/telegram/src/builder.ts:35-57 | the twelve header bytes, place by place; fails exactly when one of the numbers does not fit |
| `TelegramBuilder.WriteFields` | packages/telegram/src/builder.ts:60-70 | the field loop writes the data area behind the header; fails exactly when a value does not fit |
| `TelegramBuilder.WriteField` | packages/telegram/src/builder.ts:61-69 | one field goes behind what is done and the rest stays blank |
| `TelegramBuilder.QuickBuild` | packages/telegram/src/builder.ts:81-83 | the frame with data type D and the given module id |
| `TelegramParser.ParseData` | packages/telegram/src/parser.ts:37-56 | the loop reads the fields in order, the last field of a name wins, a field beyond the buffer is an error |
| `TelegramParser.ParseOfFrame` | packages/telegram/src/parser.ts:61-83 | parsing undoes building |
| `TelegramParser.RoundTrip` | packages/telegram/src/builder.ts:27-76 | what can be built is parsed back to the same number, length and values; data type and module id survive exactly under stated conditions; absent values read as zero |
| `TelegramParser.AutoParseSucceeds` | packages/telegram/src/parser.ts:88-97 | the exact buffers on which automatic parsing succeeds; the header length need not be that of the definition |
| `TelegramParser.AutoParseReports` | packages/telegram/src/parser.ts:88-97 | number, length and values reported are those in the bytes |
| `TelegramRegistry.TelegramRegistry.constructor` | packages/telegram/src/factory.ts:10-11 | before any use the registry stands for the catalog |
| `TelegramRegistry.TelegramRegistry.Init` | packages/telegram/src/factory.ts:16-27 | initialising fills the map once and changes nothing that a caller can see |
| `TelegramRegistry.TelegramRegistry.AddAll` | packages/telegram/src/factory.ts:19-24 | the loop files every definition under its number |
| `TelegramRegistry.TelegramRegistry.Get` | packages/telegram/src/factory.ts:32-35 | the definition of a number, which carries that number |
| `TelegramRegistry.TelegramRegistry.Register` | packages/telegram/src/factory.ts:73-76 | a definition is filed under its own number and the others stay |
| `TelegramCatalog.CatalogHolds` | packages/telegram/src/telegrams/plc-to-smc.ts:1-206 | all twenty definitions are found under their numbers |
| `TelegramCatalog.CatalogHoldsNothingElse` | packages/telegram/src/factory.ts:16-27 | no other number is registered |
| `WireCatalog.CatalogIsKnown` | packages/telegram/src/factory.ts:16-27 | exactly twenty numbers are registered, each with its name and the size of its data area |
| `TelegramValidator.Validate` | packages/telegram/src/validator.ts:22-82 | each problem is reported exactly when the buffer has it, once and in order; without a given definition nothing is reported exactly for the buffers that `Accepted` describes |
| `TelegramValidator.CheckHeader` | packages/telegram/src/validator.ts:29-53 | start byte, number and length, in this order |
| `TelegramValidator.CheckArea` | packages/telegram/src/validator.ts:55-82 | size, end byte and fields, in this order, behind the problems found so far |
| `TelegramValidator.FirstBeyond` | packages/telegram/src/validator.ts:70-79 | the boundary loop finds the field that crosses the end of the announced data area, exactly when the announced length is too small |
| `TelegramValidator.AcceptedIsParsedWithRightLength` | packages/telegram/src/validator.ts:22-96 | the full check holds exactly when automatic parsing succeeds and the length is that of the definition |
| `TelegramValidator.ParsedButNotAccepted` | packages/telegram/src/validator.ts:48-53 | a buffer that is parsed and passes the quick check but not the full one |
| `TelegramValidator.BuiltIsAccepted` | packages/telegram/src/builder.ts:27-76 | whatever the builder makes for a registered definition passes the full check |
| `Framing.UniqueDecomposition` | apps/plc-simulator/src/tcp-server/tcp-server.service.ts:96-117 | every byte string has exactly one decomposition into junk, frames and remainder |
| `Framing.CutExists` | apps/plc-simulator/src/tcp-server/tcp-server.service.ts:96-117 | and it has one |
| `Framing.EveryByteAccountedFor` | apps/plc-simulator/src/tcp-server/tcp-server.service.ts:96-152 | junk, frames and remainder add up to the whole; the remainder is empty or starts with STX and has at most 65547 bytes |
| `Framing.CutAfterJunk` | apps/plc-simulator/src/tcp-server/tcp-server.service.ts:98-106 | bytes before the first STX are skipped and change nothing else |
| `Framing.CutAfterFrame` | apps/plc-simulator/src/tcp-server/tcp-server.service.ts:111-117 | a complete frame is taken whatever follows it |
| `Framing.TwoDeliveries` | apps/plc-simulator/src/tcp-server/tcp-server.service.ts:94-152 | cutting a string in two deliveries gives the frames and remainder of one delivery |
| `TcpServer.NextFrame` | apps/plc-simulator/src/tcp-server/tcp-server.service.ts:96-117 | one round of the scanner takes the first frame of the decomposition, or finds that there is none and keeps the remainder |
| `TcpServer.TcpServerService.HandleData` | apps/plc-simulator/src/tcp-server/tcp-server.service.ts:93-153 | accepted telegrams, counters, log and residual are those of the decomposition of the residual and the new bytes; what listeners send for each telegram is sent, counted and logged right after it; the other sockets are untouched. What the log then says, direction and all, is stated entry by entry in `TcpLog` |
| `TcpServer.TcpServerService.ReceiveFrames` | apps/plc-simulator/src/tcp-server/tcp-server.service.ts:96-150 | the loop receives every frame of the decomposition in order and leaves the remainder |
| `TcpServer.TcpServerService.ReceiveNext` | apps/plc-simulator/src/tcp-server/tcp-server.service.ts:96-150 | one pass of the loop receives the next frame of the decomposition, or ends with the remainder |
| `TcpServer.TcpServerService.Receive` | apps/plc-simulator/src/tcp-server/tcp-server.service.ts:119-149 | a frame that parses is counted, logged and passed on; any other changes nothing |
| `TcpServer.TcpServerService.CountReception` | apps/plc-simulator/src/tcp-server/tcp-server.service.ts:123-124 | a received telegram adds one telegram and its bytes to the statistics |
| `TcpServer.TcpServerService.Accepted` | apps/plc-simulator/src/tcp-server/tcp-server.service.ts:122-145 | once one more telegram has been received, state and log are those of all telegrams received so far |
| `TcpServer.TcpServerService.Tell` | apps/plc-simulator/src/tcp-server/tcp-server.service.ts:122-146 | statistics first, then the log entry, then the event and what its listeners send |
| `TcpServer.TcpServerService.Emit` | apps/plc-simulator/src/tcp-server/tcp-server.service.ts:141-145 | listeners send one after the other, on this channel or on another one, where it only shows in the log |
| `TcpServer.TcpServerService.SendToChannel` | apps/plc-simulator/src/tcp-server/tcp-server.service.ts:158-192 | without a client nothing happens; else the telegram is sent, counted in the byte counter of both directions, and logged if it can be parsed |
| `TcpServer.TcpServerService.LogSent` | apps/plc-simulator/src/tcp-server/tcp-server.service.ts:172-189 | a frame sent is logged if its header can be read, and not otherwise |
| `TcpServer.TcpServerService.AddLog` | apps/plc-simulator/src/tcp-server/tcp-server.service.ts:203-209 | the newest entry goes first and at most a thousand stay |
| `TcpServer.TcpServerService.HandleConnection` | apps/plc-simulator/src/tcp-server/tcp-server.service.ts:62-76 | a new client has an empty residual |
| `TcpServer.TcpServerService.HandleClose` | apps/plc-simulator/src/tcp-server/tcp-server.service.ts:78-86 | the client and its residual go, every other client stays as often as before |
| `TcpRuns.ChunkIndependence` | apps/plc-simulator/src/tcp-server/tcp-server.service.ts:93-153 | from any state, delivering a stream in any chunks leaves the state of delivering it at once, what listeners send included |
| `TcpRuns.LogIsChunkIndependent` | apps/plc-simulator/src/tcp-server/tcp-server.service.ts:93-209 | nor does the telegram log show in which chunks a stream was delivered |
| `TcpLog.LogHoldsTheNewest` | apps/plc-simulator/src/tcp-server/tcp-server.service.ts:203-207 | in every run the log is the newest thousand of all entries made |
| `TcpLog.ReceivedIsLogged` | apps/plc-simulator/src/tcp-server/tcp-server.service.ts:120-138 | in every run the entries marked RX are the telegrams received, newest first: each with channel name, port and frame, the number in bytes 8 and 9, the name of the definition filed under it and the values parsed from the frame |
| `TcpLog.SentIsLogged` | apps/plc-simulator/src/tcp-server/tcp-server.service.ts:172-189 | in every run the entries marked TX are the frames sent whose header can be read, newest first, with channel, port, number and name, and without parsed values |
| `TcpLog.AnswersStandAbove` | apps/plc-simulator/src/tcp-server/tcp-server.service.ts:127-146 | what listeners send about a telegram stands above its entry and below that of the next one |
| `TcpLog.SentAsAsked` | apps/plc-simulator/src/tcp-server/tcp-server.service.ts:158-169 | in every run a channel has sent what it was asked to send, directly or by listeners told of each telegram in turn, in order, while it had a client, and nothing else |
| `TcpLog.ClientsAreConnected` | apps/plc-simulator/src/tcp-server/tcp-server.service.ts:62-86 | in every run a socket is a client as often as it connected since it last closed |
| `TcpRuns.EverySocketOnItsOwn` | apps/plc-simulator/src/tcp-server/tcp-server.service.ts:62-153 | whatever happens on the channel, a socket gets the telegrams and the residual of its own sessions |
| `TcpRuns.EveryStreamRoundTrips` | apps/plc-simulator/src/tcp-server/tcp-server.service.ts:62-153 | under any interleaving of sockets, sessions and sending, every socket whose sessions carry well-built telegrams, with junk and in any chunks, has all of them received as sent and in order |
| `TcpRuns.CountersAgree` | apps/plc-simulator/src/tcp-server/tcp-server.service.ts:123-167 | in every run the statistics count exactly the telegrams received and those sent, also by listeners in the middle of a delivery, and the shared byte counter is the bytes of both |
| `TcpRuns.ResidualsAreBounded` | apps/plc-simulator/src/tcp-server/tcp-server.service.ts:96-152 | at any time every residual is empty or STX-led and bounded |
| `TcpRuns.WireIsCutAsSent` | apps/plc-simulator/src/tcp-server/tcp-server.service.ts:96-150 | the decomposition of a sent stream gives back what was sent |
| `TcpRuns.StreamRoundTrip` | apps/plc-simulator/src/tcp-server/tcp-server.service.ts:93-153 | telegrams built from registered definitions, with any STX-free junk around them and in any chunks, are received exactly as sent, in order, with nothing left over |
| `TcpRuns.Replay` | apps/plc-simulator/src/tcp-server/tcp-server.service.ts:34-209 | a channel on which a list of events has been handled is in the state of their run, and the service has their log |
| `Messages.EncodableIsBuildable` | packages/telegram/src/builder.ts:81-83 | a message of the simulator can be built exactly when its numbers fit their fields |
| `Messages.RegisteredFrame` | packages/telegram/src/validator.ts:22-82 | a frame of a registered definition passes the full validation and is parsed to what was given |
| `Messages.MessageRoundTrip` | apps/plc-simulator/src/sorter-engine/sorter-engine.service.ts:420-443 | each telegram sent is built with every number under its own field name: it is accepted and read back as the same message |
| `Wire.OnTheWire` | packages/telegram/src/builder.ts:27-76 | every telegram the simulator sends, byte by byte: STX, D, PSM00, number, length, each value at its place, ETX |
| `Wire.CommandsOnTheWire` | packages/telegram/src/parser.ts:37-56 | from which bytes of a received command each of its fields is read |
| `WireCatalog.OthersOnTheWire` | packages/telegram/src/parser.ts:37-56 | from which bytes of a received heartbeat, request or result each of its fields is read |
| `Pid.PidGenerator.constructor` | packages/telegram/src/pid.ts:33-34 | no counter yet |
| `Pid.PidGenerator.Generate` | packages/telegram/src/pid.ts:41-59 | the next PID and the new counters; an unknown induction is refused and changes nothing |
| `Pid.PidGenerator.Reset` | packages/telegram/src/pid.ts:71-78 | both counters of one induction go, or all |
| `Pid.PidGenerator.Resolve` | packages/telegram/src/pid.ts:83-93 | exactly the key that hands out this PID, none for a number no key hands out |
| `Pid.PidGenerator.FindRange` | packages/telegram/src/pid.ts:84-92 | the search finds the range that holds the number, if there is one |
| `Pid.EveryCounterIsItsCount` | packages/telegram/src/pid.ts:41-78 | after any generating and resetting the next PID of a key is the n-th of its cycle, n counting since its reset |
| `Pid.NextIsNth` | packages/telegram/src/pid.ts:51-58 | the n-th PID since reset is the start of the range plus n modulo 15000 |
| `Pid.SamePid` | packages/telegram/src/pid.ts:21-26 | two PIDs are equal exactly when key and place in the cycle are; then at least 15000 lie between them |
| `Pid.RangeIsWhatIsHandedOut` | packages/telegram/src/pid.ts:85-90 | a number lies in the range of a key exactly when that key hands it out |
| `Pid.ResolveInvertsGenerate` | packages/telegram/src/pid.ts:83-93 | the range that holds a PID is that of the key that made it |
| `SorterEngine.SorterEngineService.constructor` | apps/plc-simulator/src/sorter-engine/sorter-engine.service.ts:52-57 | a stopped sorter with the configured inductions and chutes |
| `SorterEngine.SorterEngineService.InitializeState` | apps/plc-simulator/src/sorter-engine/sorter-engine.service.ts:59-74 | inductions and chutes are made anew from the configuration, everything else stays |
| `SorterEngine.SorterEngineService.MakeInductions` | apps/plc-simulator/src/sorter-engine/sorter-engine.service.ts:60-68 | the loop makes stopped inductions numbered from one |
| `SorterEngine.SorterEngineService.MakeChutes` | apps/plc-simulator/src/sorter-engine/sorter-engine.service.ts:70-73 | the loop makes empty chutes numbered from one |
| `SorterEngine.SorterEngineService.Begin` | apps/plc-simulator/src/sorter-engine/sorter-engine.service.ts:76-90 | starting: all inductions run, are reported, and get a timer; a running sorter is left alone |
| `SorterEngine.SorterEngineService.End` | apps/plc-simulator/src/sorter-engine/sorter-engine.service.ts:92-108 | stopping: both kinds of timers are cleared, all inductions stop and are reported; a stopped sorter is left alone, timers included |
| `SorterEngine.SorterEngineService.ResetAll` | apps/plc-simulator/src/sorter-engine/sorter-engine.service.ts:110-126 | a stop, then totals, items, cell counter and PIDs start over |
| `SorterEngine.SorterEngineService.Configure` | apps/plc-simulator/src/sorter-engine/sorter-engine.service.ts:128-146 | every key that is present is taken over, also with the value undefined; new counts rebuild inductions and chutes, around a stop and start if running; a new interval restarts the induction timers |
| `SorterEngine.SorterEngineService.ControlSorter` | apps/plc-simulator/src/sorter-engine/sorter-engine.service.ts:150-157 | request 1 starts, any other stops; the answer repeats the request |
| `SorterEngine.SorterEngineService.ControlInduction` | apps/plc-simulator/src/sorter-engine/sorter-engine.service.ts:159-170 | the induction found takes the status and is reported; an unknown one is answered with reason 1 |
| `SorterEngine.SorterEngineService.ControlMode` | apps/plc-simulator/src/sorter-engine/sorter-engine.service.ts:172-179 | the induction found takes the mode, keyed exactly for request 1 (`SorterControl.StepFollows`), and is reported; the answer repeats the command |
| `SorterEngine.SorterEngineService.ControlReset` | apps/plc-simulator/src/sorter-engine/sorter-engine.service.ts:185-198 | faulty inductions become stopped, an emergency ends, everything is reported |
| `SorterEngine.SorterEngineService.FindInduction` | apps/plc-simulator/src/sorter-engine/sorter-engine.service.ts:160 | the search finds the induction of a number, if there is one |
| `SorterEngine.SorterEngineService.FindChute` | apps/plc-simulator/src/sorter-engine/sorter-engine.service.ts:220 | the search finds the chute of a number, if there is one |
| `SorterEngine.SorterEngineService.InjectFault` | apps/plc-simulator/src/sorter-engine/sorter-engine.service.ts:202-230 | a motor trip, jam or overflow, or an unknown fault that is only counted |
| `SorterEngine.SorterEngineService.JamInduction` | apps/plc-simulator/src/sorter-engine/sorter-engine.service.ts:209-217 | a jam needs a number that is given and not zero |
| `SorterEngine.SorterEngineService.FillChute` | apps/plc-simulator/src/sorter-engine/sorter-engine.service.ts:218-226 | an overflow without number is that of chute one |
| `SorterEngine.SorterEngineService.RemoveFault` | apps/plc-simulator/src/sorter-engine/sorter-engine.service.ts:232-253 | the named fault, or all of them, is cleared |
| `SorterEngine.SorterEngineService.RepairInductions` | apps/plc-simulator/src/sorter-engine/sorter-engine.service.ts:240-245 | every faulty induction is stopped and reported in order |
| `SorterEngine.SorterEngineService.BeginInductionTimers` | apps/plc-simulator/src/sorter-engine/sorter-engine.service.ts:257-266 | one interval for every induction, in order |
| `SorterEngine.SorterEngineService.EndInductionTimers` | apps/plc-simulator/src/sorter-engine/sorter-engine.service.ts:268-273 | every listed interval is cleared |
| `SorterEngine.SorterEngineService.DropPendingTimers` | apps/plc-simulator/src/sorter-engine/sorter-engine.service.ts:275-280 | every listed timeout is cleared |
| `SorterEngine.SorterEngineService.NewItem` | apps/plc-simulator/src/sorter-engine/sorter-engine.service.ts:282-328 | cell, PID and destination of a new item, number by number in `SorterEffects.InductingMakes`; filed and counted before its telegram is built, so a telegram that cannot be built leaves it without event and timer |
| `SorterEngine.SorterEngineService.MakeItem` | apps/plc-simulator/src/sorter-engine/sorter-engine.service.ts:286-328 | an item with cell, PID and destination is filed and counted, then announced |
| `SorterEngine.SorterEngineService.Inject` | apps/plc-simulator/src/sorter-engine/sorter-engine.service.ts:452-457 | the item returned is the one just made |
| `SorterEngine.SorterEngineService.DischargeOne` | apps/plc-simulator/src/sorter-engine/sorter-engine.service.ts:330-376 | an item in transit is discharged once: totals, chute, telegram, event, and a timer for its confirmation |
| `SorterEngine.SorterEngineService.DropInto` | apps/plc-simulator/src/sorter-engine/sorter-engine.service.ts:351-357 | the chute counts the item and overflows at the threshold; a number without a chute counts nowhere |
| `SorterEngine.SorterEngineService.ConfirmOne` | apps/plc-simulator/src/sorter-engine/sorter-engine.service.ts:378-412 | a discharged item is confirmed once and is no longer active |
| `SorterEngine.SorterEngineService.RemoveFromActive` | apps/plc-simulator/src/sorter-engine/sorter-engine.service.ts:411 | the filter keeps every other active item in order |
| `SorterEngine.SorterEngineService.ReportAllInductionStatus` | apps/plc-simulator/src/sorter-engine/sorter-engine.service.ts:445-449 | one report for every induction, in order |
| `SorterEngine.SorterEngineService.RunCallback` | apps/plc-simulator/src/sorter-engine/sorter-engine.service.ts:259-263 | a timer inducts only while sorter and induction run, and discharges or confirms its item |
| `SorterEngine.SorterEngineService.FireTimer` | apps/plc-simulator/src/sorter-engine/sorter-engine.service.ts:324-327 | a live timer calls its callback; a timeout is then spent |
| `SorterReplay.Replay` | apps/plc-simulator/src/sorter-engine/sorter-engine.service.ts:30-495 | a service that has handled a list of events is in the state of their run, so what is proved of runs holds of the service |
| `SorterControl.StepFollows` | apps/plc-simulator/src/sorter-engine/sorter-engine.service.ts:76-253 | whatever happens, the status of the sorter and status and mode of every induction change as a machine says that is written down on its own |
| `SorterControl.SorterIsWhatWasAsked` | apps/plc-simulator/src/sorter-engine/sorter-engine.service.ts:76-253 | in every run the sorter has the status that its starts, stops, resets and faults alone lead to |
| `SorterControl.ModeIsWhatWasAsked` | apps/plc-simulator/src/sorter-engine/sorter-engine.service.ts:172-179 | in every run an induction is keyed exactly when the last mode command to it, since the inductions were made, asked 1 |
| `SorterControl.StepReports` | apps/plc-simulator/src/sorter-engine/sorter-engine.service.ts:420-449 | commands, faults, resets and settings send exactly these status and mode reports, in this order, number by number |
| `SorterEffects.PidRanges` | packages/telegram/src/pid.ts:21-26 | the PIDs of induction n start at n times 100000 plus 1, keyed ones at plus 15001, 15000 each |
| `SorterEffects.InductingMakes` | apps/plc-simulator/src/sorter-engine/sorter-engine.service.ts:282-328 | one new item with the next cell, a PID of the range of its induction and mode, and its destination; counted at this induction only; announced with its own numbers and scheduled |
| `SorterEffects.StepInducts` | apps/plc-simulator/src/sorter-engine/sorter-engine.service.ts:257-266 | an item is made exactly by an injection at a known induction and by a live timer of one that is on while the sorter runs |
| `SorterEffects.NextItemIsKeyed` | apps/plc-simulator/src/sorter-engine/sorter-engine.service.ts:282-290 | in every run the next PID of an induction lies in its keyed range exactly when the last mode command asked 1, else in the automatic one |
| `SorterEffects.CellsGoRound` | apps/plc-simulator/src/sorter-engine/sorter-engine.service.ts:283-285 | in every run the n-th item since the last reset is in cell (n - 1) modulo 65535 plus 1 |
| `SorterEffects.DischargeDoes` | apps/plc-simulator/src/sorter-engine/sorter-engine.service.ts:330-376 | status, totals, the one chute, telegram, event and timer of a discharge, number by number |
| `SorterEffects.ConfirmDoes` | apps/plc-simulator/src/sorter-engine/sorter-engine.service.ts:378-412 | status, total, active items, telegram and event of a confirmation, number by number |
| `SorterEffects.FiringHandles` | apps/plc-simulator/src/sorter-engine/sorter-engine.service.ts:324-376 | a timeout discharges or confirms its own item, a confirmation with chute, round and reading of the discharge |
| `SorterEffects.FiringSpends` | apps/plc-simulator/src/sorter-engine/sorter-engine.service.ts:324-327 | a timeout that has fired is spent, an interval goes on, and no other timer is touched |
| `SorterEffects.NewIntervalRestarts` | apps/plc-simulator/src/sorter-engine/sorter-engine.service.ts:139-143 | a new interval leaves no induction timer of before live |
| `SorterEffects.ErrorsCountFaults` | apps/plc-simulator/src/sorter-engine/sorter-engine.service.ts:229 | in every run the errors counted are the faults injected since the last reset, of any kind |
| `SorterEffects.OverflowDoes` | apps/plc-simulator/src/sorter-engine/sorter-engine.service.ts:218-226 | an injected overflow fills and marks the chute named, or the first, and no other |
| `SorterEffects.ClearingDoes` | apps/plc-simulator/src/sorter-engine/sorter-engine.service.ts:247-252 | clearing takes the marks of all chutes away and no item |
| `SorterEffects.InitializedDoes` | apps/plc-simulator/src/sorter-engine/sorter-engine.service.ts:59-74 | new inductions are stopped and automatic, new chutes empty, all counts zero |
| `SorterEffects.ResetDoes` | apps/plc-simulator/src/sorter-engine/sorter-engine.service.ts:110-126 | after a reset nothing is counted, active or numbered and everything is made anew; what was sent and emitted stays |
| `SorterRuns.InductionTimers` | apps/plc-simulator/src/sorter-engine/sorter-engine.service.ts:257-273 | in every run there is exactly one live timer for each present induction while the sorter runs, and none otherwise |
| `SorterRuns.StopKeepsTimers` | apps/plc-simulator/src/sorter-engine/sorter-engine.service.ts:92-108 | a stop that is not ignored leaves no timer live at all |
| `SorterRuns.AlwaysShaped` | apps/plc-simulator/src/sorter-engine/sorter-engine.service.ts:59-74 | in every run there are at most four inductions, and inductions and chutes are numbered from one |
| `SorterRuns.StepAsConfiguredExactly` | apps/plc-simulator/src/sorter-engine/sorter-engine.service.ts:59-146 | a step leaves as many inductions and chutes as configured exactly when it stores no undefined count without rebuilding |
| `SorterRuns.AsConfiguredExactly` | apps/plc-simulator/src/sorter-engine/sorter-engine.service.ts:59-146 | over a whole run there are as many as configured throughout exactly when every step is such |
| `SorterItems.Conservation` | apps/plc-simulator/src/sorter-engine/sorter-engine.service.ts:282-412 | in every run whose resets are safe: in transit is inducted minus discharged, discharged items are discharged minus confirmed, nothing confirmed is active, unread and recirculated are at most discharged |
| `SorterItems.ConservationExactly` | apps/plc-simulator/src/sorter-engine/sorter-engine.service.ts:110-412 | over a whole run, resets and late calls included, the item totals are in balance throughout if and only if every callback that changes an item finds it active |
| `SorterItems.StepBalancesExactly` | apps/plc-simulator/src/sorter-engine/sorter-engine.service.ts:110-412 | a step keeps the balance exactly when the callback it runs, if any, finds its item active or has nothing to do |
| `SorterItems.StepConserves` | apps/plc-simulator/src/sorter-engine/sorter-engine.service.ts:282-412 | each operation keeps the item totals in balance |
| `SorterItems.ResettingConserves` | apps/plc-simulator/src/sorter-engine/sorter-engine.service.ts:110-126 | a reset keeps the balance and its cause exactly when it is safe |
| `SorterItems.ResetIsSafeExactly` | apps/plc-simulator/src/sorter-engine/sorter-engine.service.ts:92-126 | a reset keeps the balance in every future exactly when the sorter is not stopped or no timer waits for an item |
| `SorterItems.UnsafeResetUnbalances` | apps/plc-simulator/src/sorter-engine/sorter-engine.service.ts:92-126 | after an unsafe reset the next firing of a waiting timer breaks the balance |
| `SorterItems.TripLeavesWaiting` | apps/plc-simulator/src/sorter-engine/sorter-engine.service.ts:202-238 | a motor trip and its clearing stop the sorter and leave discharges and confirmations waiting |
| `SorterItems.TrippedSorterIsNotSafeToReset` | apps/plc-simulator/src/sorter-engine/sorter-engine.service.ts:92-126 | a run after which a reset is not safe |
| `SorterLifecycle.ItemLifecycle` | apps/plc-simulator/src/sorter-engine/sorter-engine.service.ts:323-412 | in every run, with callbacks late or repeated and resets at any time, each item is inducted, discharged and confirmed at most once and in this order, as far as its status says |
| `SorterLifecycle.StepTraces` | apps/plc-simulator/src/sorter-engine/sorter-engine.service.ts:323-412 | each operation emits an event about an item exactly when it moves that item on |
| `SorterPids.ActiveItemsSharePid` | apps/plc-simulator/src/sorter-engine/sorter-engine.service.ts:286 | two active items share a PID exactly when one induction and mode made both whole cycles apart, at least 15000 of its items between them |
| `SorterPids.AlwaysNumbered` | apps/plc-simulator/src/sorter-engine/sorter-engine.service.ts:286 | in every run each item since the last reset carries the PID of its turn |
| `SorterOutput.WellFormedOutput` | apps/plc-simulator/src/sorter-engine/sorter-engine.service.ts:303-443 | in every run each telegram sent can be built, passes the full validation and reads back as meant; the cell counter stays within its field |
| `SorterOutput.FailuresExactly` | apps/plc-simulator/src/sorter-engine/sorter-engine.service.ts:303-319 | an item cannot be announced exactly when its destination exceeds 65535, and no induction fails exactly when that never happens |
| `SorterOutput.NothingFails` | apps/plc-simulator/src/sorter-engine/sorter-engine.service.ts:282-328 | with at most 65535 chutes at any time no induction fails |
| `SorterOutput.FirstInductionFails` | apps/plc-simulator/src/sorter-engine/sorter-engine.service.ts:282-319 | with more than 65535 chutes the very first induction can fail |
| `SorterOutput.NothingCanFailExactly` | apps/plc-simulator/src/sorter-engine/sorter-engine.service.ts:282-328 | as long as no chute count is given, no run has a failure if and only if at most 65535 chutes are configured |
| `SorterOutput.NextInductionFailsExactly` | apps/plc-simulator/src/sorter-engine/sorter-engine.service.ts:282-328 | in every state a run reaches, the next induction can fail exactly when more than 65535 chutes are configured then |
| `SorterTelegrams.TelegramsFollowEvents` | apps/plc-simulator/src/sorter-engine/sorter-engine.service.ts:303-408 | in every run the item telegrams handed to their channels are the emitted events, one for one and in order, on the channel of their stage; a new item is told with its own cell, induction, mode, PID and destination, a discharge with its cell, induction and mode and its chute; a confirmation repeats chute and recirculation of the discharge telegram and reports the status that goes with them, where only an item without destination leaves open whether it was read |
| `SorterTelegrams.StepTellsItems` | apps/plc-simulator/src/sorter-engine/sorter-engine.service.ts:303-408 | each operation sends an item telegram exactly with the event it belongs to |
| `SorterTelegrams.TotalsCountTelegrams` | apps/plc-simulator/src/sorter-engine/sorter-engine.service.ts:330-406 | in every run the totals of discharged, confirmed and recirculated items are the numbers of telegrams handed to their channels that said so since the last reset; for unread items the telegrams are at least as many, and equally many as long as every item has a destination |
| `SorterReports.StatusAlwaysTold` | apps/plc-simulator/src/sorter-engine/sorter-engine.service.ts:76-253 | in every run the sorter status handed to its channel last is the status of the sorter |
| `SorterReports.StepTellsExactly` | apps/plc-simulator/src/sorter-engine/sorter-engine.service.ts:59-253 | a listener who knows the status of every induction still knows it after a step exactly when the step does not make new inductions silently in place of running or faulty ones |
| `SorterReports.ToldExactly` | apps/plc-simulator/src/sorter-engine/sorter-engine.service.ts:59-253 | over a whole run such a listener is right throughout exactly when every step is such |
| `SorterReports.ResetAfterTripTellsNobody` | apps/plc-simulator/src/sorter-engine/sorter-engine.service.ts:110-126 | a run after which every induction is stopped and every one was last reported as running |
| `SorterChutes.StepMarksExactly` | apps/plc-simulator/src/sorter-engine/sorter-engine.service.ts:232-356 | a chute stays marked exactly when full, unless a new threshold lies across its count, an overflow is injected without a threshold, or the mark of a full chute is cleared |
| `SorterChutes.FlagsRightExactly` | apps/plc-simulator/src/sorter-engine/sorter-engine.service.ts:218-356 | over a whole run, injected overflows included, a chute is marked throughout exactly when it is full, if and only if every step keeps it so |
| `SorterTotals.TotalsAlwaysAgree` | apps/plc-simulator/src/sorter-engine/sorter-engine.service.ts:282-376 | without injected overflow and with counts neither reconfigured nor made undefined, across all resets, chute counts sum up to discharged minus unread and induction counts to inducted |
| `SorterTotals.StepAgreesExactly` | apps/plc-simulator/src/sorter-engine/sorter-engine.service.ts:128-376 | sums that agree go on agreeing exactly when the step does not reconfigure counts after something was counted, overwrite a chute count, or discharge to a chute that is gone |
| `SorterTotals.TotalsAgreeExactly` | apps/plc-simulator/src/sorter-engine/sorter-engine.service.ts:128-376 | over a whole run the sums agree throughout exactly when every step is such |
| `SorterTotals.OverflowAgrees` | apps/plc-simulator/src/sorter-engine/sorter-engine.service.ts:218-226 | an injected overflow keeps the sums exactly when the chute held the threshold already |
| `SorterTotals.ConfiguringAgrees` | apps/plc-simulator/src/sorter-engine/sorter-engine.service.ts:128-146 | new counts keep the sums exactly when nothing had been counted |
| `SorterExamples.ClearedMarkIsWrong` | apps/plc-simulator/src/sorter-engine/sorter-engine.service.ts:218-253 | a run that clears the mark of a full chute |
| `SorterExamples.RaisedThresholdIsWrong` | apps/plc-simulator/src/sorter-engine/sorter-engine.service.ts:128-226 | a run that raises the threshold above the count of a marked chute |
| `SorterExamples.OverflowWithoutThreshold` | apps/plc-simulator/src/sorter-engine/sorter-engine.service.ts:128-226 | a run that injects an overflow while the threshold is undefined |
| `SorterExamples.InjectedOverflowDisagrees` | apps/plc-simulator/src/sorter-engine/sorter-engine.service.ts:218-226 | a run whose counts an injected overflow spoils |
| `SorterExamples.RemovedChuteDisagrees` | apps/plc-simulator/src/sorter-engine/sorter-engine.service.ts:110-357 | a run whose counts agree until an item is discharged to a chute that is gone |
| `SorterExamples.UndefinedSettings` | apps/plc-simulator/src/sorter-engine/sorter-engine.service.ts:128-369 | a request that names no setting: more inductions and chutes than configured, an item without chute, and a discharge telegram like that of a read failure |
| `CommandHandler.CommandHandlerService.HandleTelegram` | apps/plc-simulator/src/command-handler/command-handler.service.ts:28-93 | the command is carried out and answered; any other telegram changes nothing and is not answered |
| `CommandHandler.AcknowledgementEchoesRequest` | apps/plc-simulator/src/command-handler/command-handler.service.ts:28-93 | whatever bytes arrive in whatever state, a telegram is acknowledged exactly when it is a command; the acknowledgement passes the full validation and decodes to the identifying fields of the request |
| `CommandHandler.AcknowledgementTellsState` | apps/plc-simulator/src/command-handler/command-handler.service.ts:60-86 | after the acknowledgement the sorter runs exactly when asked; the induction has the reported status, and nothing else of it or of the others has changed, or it is unknown and nothing has; overflow settings and other telegrams change nothing |
| `CommandHandler.ModeCommandTellsState` | apps/plc-simulator/src/command-handler/command-handler.service.ts:74-79 | a known induction is keyed exactly when the request is 1, the last telegram reports mode 1 or 0, everything else stays; an unknown number changes nothing |
| `CommandHandler.ResetCommandTellsState` | apps/plc-simulator/src/command-handler/command-handler.service.ts:88-93 | faulty inductions are stopped, an emergency ends, everything else stays |
| `CommandHandler.CommandsAreShort` | apps/plc-simulator/src/command-handler/command-handler.service.ts:31 | every value of a parsed command fits two bytes |
| `CommandRuns.AcksFollowCommands` | apps/plc-simulator/src/command-handler/command-handler.service.ts:28-93 | in every run of channel and sorter the acknowledgements are those of the commands received, one for each and in order, sent back to where the command came from, well-formed and with its identifying fields |
| `CommandRuns.EveryCommandIsAcknowledged` | apps/plc-simulator/src/command-handler/command-handler.service.ts:28-93 | a client whose sessions carry well-built telegrams in any chunks, whatever others send and whatever else happens to the sorter, gets exactly one acknowledgement for each command it sent, in the order in which it sent them |
| `CommandRuns.SorterLivesARun` | apps/plc-simulator/src/command-handler/command-handler.service.ts:28-93 | whatever arrives in whatever pieces, the sorter is in the state of the run of the commands received and of its own events |
| `CommandRuns.ModeIsAsCommanded` | apps/plc-simulator/src/command-handler/command-handler.service.ts:74-79 | over the wire an induction is keyed, and its next PID lies in the keyed range, exactly when the last mode command received for it asked 1 |
| `CommandRuns.Obey` | apps/plc-simulator/src/command-handler/command-handler.service.ts:28-53 | telegram after telegram handled by the service, with these acknowledgements |
| `BinarySerializer.BinarySerializer.constructor` | packages/protocol/src/serialization/index.ts:25-27 | the serializer keeps the field list |
| `BinarySerializer.BinarySerializer.GetTotalSize` | packages/protocol/src/serialization/index.ts:32-34 | the sum of the field lengths |
| `BinarySerializer.BinarySerializer.Serialize` | packages/protocol/src/serialization/index.ts:39-50 | the loop writes every field at its offset, for any lengths |
| `BinarySerializer.BinarySerializer.WriteField` | packages/protocol/src/serialization/index.ts:67-104 | one field of any type over the buffer, as `SerializerValues` says for every value; throws exactly when a number or position is out of range |
| `BinarySerializer.BinarySerializer.WriteNumber` | packages/protocol/src/serialization/index.ts:69-83 | in range exactly for the type, negative numbers in two's complement |
| `BinarySerializer.BinarySerializer.WriteBcd` | packages/protocol/src/serialization/index.ts:94-102 | two digits a byte, a character that is no digit as zero |
| `BinarySerializer.BinarySerializer.Deserialize` | packages/protocol/src/serialization/index.ts:55-65 | the loop reads every field at its offset, the last field of a name wins |
| `BinarySerializer.BinarySerializer.ReadField` | packages/protocol/src/serialization/index.ts:106-131 | one field of any type; fails exactly when its bytes are not there |
| `BinarySerializer.BinarySerializer.ReadBcd` | packages/protocol/src/serialization/index.ts:122-128 | every nibble shown in decimal |
| `SerializerLaws.FieldRoundTrip` | packages/protocol/src/serialization/index.ts:67-131 | for each of the eight types a value is written and read back unchanged exactly when it fits: in range, trimmed seven-bit text, padded upper-case hex, enough digits |
| `SerializerLaws.FieldReverse` | packages/protocol/src/serialization/index.ts:67-131 | for each type bytes are read and written back unchanged exactly when they are canonical: any number or hex, decimal nibbles, text padded with spaces only |
| `SerializerLaws.BcdRoundTrip` | packages/protocol/src/serialization/index.ts:94-128 | a number survives BCD exactly when it is not negative and has at most two digits a byte |
| `SerializerLaws.HexTextOfBytes` | packages/protocol/src/serialization/index.ts:89-93 | upper-case hex text is what its bytes show |
| `SerializerLaws.UnsignedIsNumber` | packages/protocol/src/serialization/index.ts:108-113 | the fixed-width readers read the big-endian number |
| `SerializerValues.HexIsStored` | packages/protocol/src/serialization/index.ts:89-93 | any value in a hex field: its text with zeros in front, or its first characters, pair by pair up to the first pair that is not hexadecimal, then zeros |
| `SerializerValues.HexTextIsStored` | packages/protocol/src/serialization/index.ts:89-93 | the bytes of an upper-case hex text that is not too long, shown as hex, end in the text, all characters before it zero |
| `SerializerValues.LongHexTextIsStored` | packages/protocol/src/serialization/index.ts:89-93 | of a hex text that is too long the first characters are stored |
| `SerializerValues.HexIsRead` | packages/protocol/src/serialization/index.ts:120-121 | two upper-case hex digits a byte, high nibble first |
| `SerializerValues.TextIsStored` | packages/protocol/src/serialization/index.ts:84-88 | any value in a text field: the low bytes of its first characters, then spaces; spaces only for one that is absent |
| `SerializerValues.TextIsRead` | packages/protocol/src/serialization/index.ts:118-119 | the bytes as seven-bit characters without the blanks around them |
| `SerializerValues.BcdIsStored` | packages/protocol/src/serialization/index.ts:94-102 | any value in a packed decimal: its number with zeros in front, or the first characters of a longer one, two a byte, a minus sign as zero |
| `SerializerValues.BcdIsRead` | packages/protocol/src/serialization/index.ts:122-128 | each nibble is appended in decimal, one above nine with two digits |
| `SerializerValues.NumberIsStored` | packages/protocol/src/serialization/index.ts:69-83 | any value in a number field: the write throws exactly out of the bounds of the type, else the bytes hold the number, a negative one in two's complement; zero for one that is absent |
| `SerializerValues.NumberIsRead` | packages/protocol/src/serialization/index.ts:108-117 | the big-endian number, two's complement for the signed types |
| `SerializerRecords.SerializedIsLayout` | packages/protocol/src/serialization/index.ts:39-50 | writing in place, field after field, lays the fields side by side |
| `SerializerRecords.DeserializedIsDecoded` | packages/protocol/src/serialization/index.ts:55-65 | reading in place reads every field from its own bytes |
| `SerializerRecords.RoundTrip` | packages/protocol/src/serialization/index.ts:39-65 | data comes back exactly when every number is in range and the last field of each name fits; with distinct names exactly when every field fits |
| `SerializerRecords.ReverseLaw` | packages/protocol/src/serialization/index.ts:39-65 | without shadowed names a buffer is restored exactly when it is canonical |
| `SerializerRecords.ShadowedFails` | packages/protocol/src/serialization/index.ts:55-65 | a field with bytes and a later namesake makes some canonical buffer fail |
| `SerializerRecords.ReverseLawNeedsUnshadowedNames` | packages/protocol/src/serialization/index.ts:39-65 | the reverse law holds of a field list exactly when no field with bytes has a later namesake |
| `Fallback.FallbackService.constructor` | apps/central-relay/src/fallback/fallback.service.ts:35-43 | inactive, with nothing pending |
| `Fallback.FallbackService.CheckSimsHealth` | apps/central-relay/src/fallback/fallback.service.ts:86-137 | counters, thresholds, activation, and the start of a recovery with its draining |
| `Fallback.FallbackService.FinishRecovery` | apps/central-relay/src/fallback/fallback.service.ts:135-137 | a settled recovery is inactive with no failures |
| `Fallback.FallbackService.SyncPendingRecords` | apps/central-relay/src/fallback/fallback.service.ts:151-164 | the loop empties the pending records into batches |
| `Fallback.FallbackService.AddPendingRecord` | apps/central-relay/src/fallback/fallback.service.ts:169-184 | a record is kept only while activated; a full file is exported at once |
| `Fallback.FallbackService.Filter` | apps/central-relay/src/fallback/fallback.service.ts:190-192 | the records of one kind or all, in order, as `ExportOfAll` and `ExportOfKind` say without it |
| `Fallback.FallbackService.GenerateCsvFile` | apps/central-relay/src/fallback/fallback.service.ts:189-233 | the chosen records go into a file named by kind and second, which replaces any of that name, and every pending record with one of their ids is dropped; a failed write changes nothing |
| `Fallback.FallbackService.DropPending` | apps/central-relay/src/fallback/fallback.service.ts:224-225 | the filter drops exactly the pending records with one of these ids |
| `FallbackRuns.StatusMeansLatestWindow` | apps/central-relay/src/fallback/fallback.service.ts:86-146 | without a check while a recovery lasts: activated exactly while the latest threshold window seen was three failures rather than five successes; the counters are the trailing run lengths |
| `FallbackRuns.MeaningExactly` | apps/central-relay/src/fallback/fallback.service.ts:86-146 | however slow recoveries are, status and counters mean that throughout if and only if no recovery sees a third failure in a row or ends after a failure |
| `FallbackRuns.SlowRecoveryForgets` | apps/central-relay/src/fallback/fallback.service.ts:108-137 | a run in which a failed check is forgotten |
| `FallbackRuns.PendingOnlyWhenActivated` | apps/central-relay/src/fallback/fallback.service.ts:151-170 | records are pending only while activated |
| `FallbackRuns.RecoveryDrainsInOrder` | apps/central-relay/src/fallback/fallback.service.ts:151-164 | a recovery takes off all pending records in order in as few batches of a hundred as possible |
| `FallbackExports.RecoveryTakesOff` | apps/central-relay/src/fallback/fallback.service.ts:86-164 | the fifth success in a row takes the pending records off, behind what earlier recoveries have taken, in order and a hundred at a time; no other check touches a record |
| `FallbackRuns.ExportConserves` | apps/central-relay/src/fallback/fallback.service.ts:223-225 | an export moves exactly the chosen records if and only if none that stays shares an id with them |
| `FallbackExports.ExportOfAll` | apps/central-relay/src/fallback/fallback.service.ts:189-233 | with something pending and a successful write an export of everything leaves nothing pending, and the file just written, named by the second, holds the pending records in order; otherwise nothing changes |
| `FallbackExports.ExportOfKind` | apps/central-relay/src/fallback/fallback.service.ts:189-233 | an export of one kind writes exactly the pending records of that kind, in order, over a file of the same kind and second, and nothing only if there is none or the write fails |
| `FallbackExports.AddingDoes` | apps/central-relay/src/fallback/fallback.service.ts:169-184 | a record is kept only while activated, with the clock and the number pending before it; the ten thousandth of its kind has them all exported |
| `FallbackRuns.EveryRecordIsSomewhere` | apps/central-relay/src/fallback/fallback.service.ts:151-233 | every accepted record is in exactly one of pending, a file that exists, and the batches taken off by recoveries, if and only if no export met colliding ids and no two files were ever written under one name |
| `FallbackRuns.ExportStep` | apps/central-relay/src/fallback/fallback.service.ts:189-233 | an export that writes a file keeps every record known exactly when no record that stays shares an id with a chosen one and no file has the name; else it loses some |
| `FallbackRuns.AlwaysGenerated` | apps/central-relay/src/fallback/fallback.service.ts:215-219 | in every run the files that exist are those of the names generated, and none is empty |
| `FallbackRuns.AcceptedAreNumbered` | apps/central-relay/src/fallback/fallback.service.ts:172-177 | no two accepted records are the same |
| `FallbackRuns.CollidingIdsLoseARecord` | apps/central-relay/src/fallback/fallback.service.ts:172-225 | a run that loses a record although all files have different names |
| `FallbackRuns.SameSecondLosesARecord` | apps/central-relay/src/fallback/fallback.service.ts:196-225 | two exports of one kind within a second, with a clock that moves on: a record is lost |
| `FallbackRuns.TimelyIdsTellApart` | apps/central-relay/src/fallback/fallback.service.ts:172-177 | if the clock never goes back and has moved on since the last file when a record is added, ids never collide |
| `FallbackRuns.TimelyNamesAreDistinct` | apps/central-relay/src/fallback/fallback.service.ts:196-201 | if files of one kind are written in different seconds, no name is used twice |
| `FallbackRuns.TimelyConserves` | apps/central-relay/src/fallback/fallback.service.ts:151-233 | if besides files of one kind are written in different seconds, every accepted record is somewhere exactly once |
| `FallbackRuns.FewerThanAFileful` | apps/central-relay/src/fallback/fallback.service.ts:179-183 | while files can be written at most 9999 records of a kind are pending |
| `FallbackRuns.Replay` | apps/central-relay/src/fallback/fallback.service.ts:35-233 | a service that has handled a list of events is in the state of their run |
| `CommLog.CommLogService.constructor` | apps/central-relay/src/comm-log/comm-log.service.ts:31-32 | an empty log |
| `CommLog.CommLogService.Log` | apps/central-relay/src/comm-log/comm-log.service.ts:40-87 | the new entry goes first with the next number and the oldest beyond 100000 goes |
| `CommLog.CommLogService.CleanupExpiredLogs` | apps/central-relay/src/comm-log/comm-log.service.ts:187-200 | exactly the entries from the cutoff on stay; the result counts the others |
| `CommLog.LogsGateway.constructor` | apps/central-relay/src/gateway/logs.gateway.ts:27-30 | no client, nothing broadcast |
| `CommLog.LogsGateway.HandleConnection` | apps/central-relay/src/gateway/logs.gateway.ts:40-47 | one client more |
| `CommLog.LogsGateway.HandleDisconnect` | apps/central-relay/src/gateway/logs.gateway.ts:49-52 | one client less |
| `CommLog.LogsGateway.BroadcastNewLogs` | apps/central-relay/src/gateway/logs.gateway.ts:54-72 | a tick sends the entries before the last one sent, newest first, and remembers the newest |
| `CommLog.LogsGateway.NewerThan` | apps/central-relay/src/gateway/logs.gateway.ts:62-66 | the loop collects the entries up to the one with the last number |
| `LogRuns.LogHasNoGap` | apps/central-relay/src/comm-log/comm-log.service.ts:40-200 | with a steady clock the log is always the newest entries without a gap |
| `LogContents.StepLogs` | apps/central-relay/src/comm-log/comm-log.service.ts:40-200 | logging puts the entry with the next number in front and a hundred thousand stay; expiry keeps the entries from the cutoff on, in order; nothing else touches the log |
| `LogContents.LogHoldsWhatWasLogged` | apps/central-relay/src/comm-log/comm-log.service.ts:40-200 | in every run, with any clock and any expiry, the log holds at most a hundred thousand entries, each just as it was logged and under its number, the newest first |
| `LogContents.ClientsAreCounted` | apps/central-relay/src/gateway/logs.gateway.ts:40-52 | in every run the clients are those that came less those that left |
| `LogRuns.TickSendsTheNewest` | apps/central-relay/src/gateway/logs.gateway.ts:54-72 | a tick sends exactly the entries numbered after the last one sent, among the ten newest |
| `LogRuns.AtMostOnce` | apps/central-relay/src/gateway/logs.gateway.ts:54-72 | with a steady clock no entry is broadcast twice, whatever is truncated, expires, connects or ticks |
| `LogRuns.AtMostOnceExactly` | apps/central-relay/src/gateway/logs.gateway.ts:54-72 | with any clock and any expiry, no entry is broadcast twice if and only if no tick finds the last entry sent gone from the ten newest while an older one that was sent is still among them |
| `LogRuns.RepeatingNeedsFallBack` | apps/central-relay/src/comm-log/comm-log.service.ts:187-200 | a tick can find that only after an entry was logged with an earlier time than one before it |
| `LogRuns.AllSentIffKeptUp` | apps/central-relay/src/gateway/logs.gateway.ts:54-72 | everything up to the newest entry broadcast was broadcast if and only if every tick found all that was new among the ten newest still in the log |
| `LogRuns.AllSentExactly` | apps/central-relay/src/gateway/logs.gateway.ts:54-72 | with any clock and any expiry, every number up to that of the last entry broadcast has been broadcast throughout, if and only if every tick finds what lies between that and the newest entry among the ten newest or sent before |
| `LogRuns.ElevenEntriesLoseOne` | apps/central-relay/src/gateway/logs.gateway.ts:54-72 | a run with a steady clock in which an entry is never broadcast |
| `LogRuns.BackwardClockSendsTwice` | apps/central-relay/src/comm-log/comm-log.service.ts:187-200 | a run with a clock that runs backwards in which an entry is broadcast twice |
| `LogRuns.Replay` | apps/central-relay/src/gateway/logs.gateway.ts:27-72 | a log and a gateway that have handled a list of events are in the state of their run |

## Left out

- Sockets, HTTP and WebSocket transport, log output and the text of CSV files: they carry no decision; events, arriving chunks and a write flag stand for them.
- Files: a write that fails does so before the file is opened. Files that an earlier process left in the directory, and the names of years beyond 9999, are not modelled.
- SorterTelegrams.TelegramsFollowEvents: the sorter's telegrams are those it hands to a channel; a channel without a client drops them (`apps/plc-simulator/src/tcp-server/tcp-server.service.ts:160`), which `TcpServer.Send` models but the runs of the sorter do not.
- SorterTelegrams.TotalsCountTelegrams: counts the telegrams handed to a channel, in the same sense.
- SorterReports.StatusAlwaysTold: what is reported is what is handed to a channel, in the same sense; a listener is one whose channel always has a client.
- A recovered batch is counted and sent nowhere (`apps/central-relay/src/fallback/fallback.service.ts:156-158`): the batches are what was taken off the pending records.
- Destroyed sockets: a telegram counts as sent on a channel with a client, and an acknowledgement as sent, whether or not the socket can still be written to. What listeners send is any list of telegrams; that they do not connect or close sockets meanwhile is taken for granted.
- TcpLog.LogHoldsTheNewest: the log is shared by all channels. What is sent on other channels by listeners is part of it; telegrams received on other channels, and what is sent there otherwise, would stand between the entries of this one. The name Unknown(n) of a telegram without definition is a value and not a text.
- Time stamps: a clock reading is a number, and start and activity times are not kept.
- Objects in the sorter: inductions, chutes and items are values in sequences; an item is its place among all items made, an induction its place and the number of times inductions were made anew, so two references to one object are one index.
- Configuration values outside the bounds of `apps/plc-simulator/src/simulation-controller/simulation.dto.ts:5-63`, which its controller checks, and numbers that are not whole. That a setting left out of a request arrives as an undefined one (`tsconfig.base.json:3`, `apps/plc-simulator/src/main.ts:17`) is modelled for the counts and the threshold; an undefined interval, delay or rate only changes when and how often something happens.
- SorterEngine.SorterEngineService.Configure: a setting given as null, which the controller lets through, has no case. It rebuilds nothing; a null chute count would send every item to chute one, and a null threshold would count as reached.
- Not-a-number as a value: where it can occur, after a setting was made undefined, a destination is the constant `NO_NUMBER` and a count is absent; like the original's value they are written as zero and reach no threshold.
- The rates of failures: each random choice is arbitrary, a destination is any number from one to the chute count.
- `SorterEngine.SorterEngineService.DischargeOne`: does not model an exception while its telegram is built, because `WellFormedOutput` proves that the telegram can always be built; the same holds of every other telegram but that of an induction.
- Events of the fallback service and its getters: they repeat what the state says. The failing branch of a recovery cannot be reached, because sending a batch cannot fail.
- Numbers beyond 2^53 - 1, which the original rounds: the record laws are stated for smaller ones.
- BinarySerializer.BinarySerializer.ReadField: a BCD field of length zero, which reads as not-a-number in the original, reads as zero here; the laws ask for at least one byte.
- Characters outside the Basic Multilingual Plane, and blanks that only a reader of more than seven bits could produce.
- What `Number()` makes of a text: a parameter of the serializer.
- The JSON serializer, log filters, paging and statistics, heartbeat, scenarios, profiles and the remaining services: their members would be easy ones.
- The twenty recent entries a client is sent when it connects: they are a slice of the log and not a broadcast.
