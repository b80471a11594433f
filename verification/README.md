# Verification of Xime

Xime is a Python service framework. This project models its self-contained
algorithms and protocols in Dafny and proves what they are for. Code that changes
objects step by step is a class whose methods are proved against functions on
values; the properties of those functions, and of every run of the protocols built
from them, are the lemmas.

| part | files |
|---|---|
| Native log framer and its collector | `LogPatterns`, `FramerSpec`, `FramerTheory`, `NativeFraming`, `RateLimiter`, `NativeCollection` |
| Supervisor: spawn, bury, promote, refuse | `SupervisorSpec`, `Supervisor`, `Promotion`, `PromotionRuns`, `PromotionHope` |
| Modbus model, planner, codec, client | `ModbusModel`, `ReadPlanning`, `ModbusPlanner`, `ModbusCodec`, `ModbusClient` |
| Socket frames, sessions, client | `Bytes`, `SocketProtocol`, `SocketWriter`, `SocketSessions`, `SocketMultiplex`, `SocketCalls`, `SocketDemux` |
| Process topology and shared sockets | `Topology`, `SharedBinding` |
| Cluster command and TLS reload | `ControlCodec`, `ClusterCommand`, `TlsReload`, `TlsMessages`, `TlsHandling`, `TlsWorkers`, `ClusterReload` |
| Module scan and MQTT filters | `ModuleScan`, `TopicFilter` |

`Wrappers` holds the option and result types. Verify everything with
`dafny verify dfyconfig.toml`.

## Where the code and its promises differ

Each of these is kept as the code has it, with the exact condition proved.

- **Two primaries.** `_supervisor.py` argues that a role moves only after the kernel
  has confirmed a death. That is true of the parent's decisions, but a PROMOTE that a
  child did not read before it died stays unread in the link's block
  (`xime/core/link/_link.py`: `attach` at 188-228 clears no marks, `_publish` at
  416-471 sets them, `_drain` at 523-536 serves them) and is read by its next
  incarnation, which has the same index. `StaleOfferMakesTwo` is the run;
  `NeverTwoExactlyWhenPurged` says when no such run exists; under the assumption that
  an offer only reaches the incarnation attached when it was announced,
  `NeverTwoPrimaries` holds of every run.
- **"Always rebuilt".** The respawn pause is a float power: it overflows at the
  1025th death in a row and the exception stops the supervisor (`RespawnDelayRange`,
  `EveryChildIsRebuilt`; `RebuildingEnds` is the run).
- **Until another one takes it.** A process that refuses the role logs that there is no
  primary until another one takes it (`application.py`, 864-870). If nobody else is alive
  when the refusal is read, the parent gives the role up (`RoleIsGivenUpExactlyWhen`), and
  then nobody is asked again, unless a new incarnation finds an old offer
  (`GivenUpIsForever`). `RoleIsHeldAgainExactlyWhen` says from which states the role can
  still be held.
- **Frame size.** `encode_frame` accepts payloads the peer's `read_frame` refuses;
  nothing behind such a frame is read (`FrameRoundTrip`, `OversizeFrameEndsReading`).
- **Backpressure without an end.** When an upload handler finishes, or is cancelled and
  stops, while the read loop waits for room in its queue, the whole connection stops
  for good (`WaitsForeverExactlyWhenStuck`, `AbandonedUploadStopsConnection`). The
  reaper that should free the connection of a slow handler is one way there
  (`ReapedUploadStopsConnection`).
- **A caller nobody wakes.** The client takes a call out of `_pending` before it decodes
  the answer; an answer that does not decode ends the loop and leaves that caller
  waiting (`UnreadableAnswerIsLost`). A call made after the loop has ended is never completed
  either (`NothingIsSettledLater`). `StillWaitingExactlyWhenGone` says who is left
  waiting, and that nobody else is.
- **Rate limit.** A "per second" limit of n lets 2n through within one second, and no
  more (`TwiceTheLimitHappens`, `AtMostTwiceTheLimit`).
- **Scan.** Imports inside module-level blocks are followed but their names are not
  resolved (`InnerImportIsNotResolved`). `InnerImportsMatterExactly` says for which
  modules that makes a difference; for the others a clean verdict covers those names
  too (`CleanSpeaksOfInnerImports`).
- **TLS.** The double read detects a change, not a change undone: with the other files
  at rest `UndoneChangeIsMissed` gives the files that can fool it, and `Reload` itself
  says that a context off the record means just that.

## Model

| member | source | states |
|---|---|---|
| `FramerTheory.ChunkingUnobservable` | xime/observability/_grpc_parser.py:141-181 | for every way of cutting a stream into reads, the callbacks, the framer state and the held marker tail are those of one read of the whole stream |
| `FramerTheory.FeedSplit` | xime/observability/_grpc_parser.py:141-181 | one read of two pieces together is the same as the two reads, drain markers across the cut included |
| `FramerTheory.DriveSplit` | xime/observability/_grpc_parser.py:141-155 | the marker search commutes with a cut anywhere in the data, the longest possible marker prefix being held back |
| `FramerTheory.BytesConserved` | xime/observability/_grpc_parser.py:141-221 | after any reads, what was forwarded or withheld, then the unsent part of the open line and the held tail, is the input without its drain markers: in order, each byte once |
| `FramerTheory.OutputSound` | xime/observability/_grpc_parser.py:183-221 | over any input, a withheld line is complete, within the limit, prefix-matching, from a managed source, informational and only under `quiet`; a record is within the limit and complete |
| `FramerTheory.EmitSound` | xime/observability/_grpc_parser.py:183-198 | of a complete line exactly the suppressible ones are withheld, whole; of any other, exactly the bytes not yet forwarded are forwarded |
| `FramerTheory.PrefixedLineIsWhole` | xime/observability/_grpc_parser.py:132-139 | no byte of a line with a trace prefix leaves before the line is complete |
| `FramerTheory.HoldLongest` | xime/observability/_grpc_parser.py:146-150 | the bytes held back are the longest proper prefix of the marker that the data ends with |
| `FramerTheory.FindLeftmost` | xime/observability/_grpc_parser.py:144-146 | the marker found is the leftmost one |
| `FramerSpec.StepKeepsInv` | xime/observability/_grpc_parser.py:157-181 | in every reachable state the open line and the open record are within the limit, and bytes are forwarded early exactly when the open line cannot be a trace line |
| `FramerSpec.PartIsBytes` | xime/observability/_grpc_parser.py:157-181 | handling a piece of a line at once is not observably different from handling it byte by byte |
| `FramerSpec.RunConcat` | xime/observability/_grpc_parser.py:157-181 | the byte machine on two inputs in turn is the machine on their concatenation |
| `FramerSpec.EarlyForwarding` | xime/observability/_grpc_parser.py:174-181 | bytes forwarded before the end of a line are the only difference early forwarding makes |
| `LogPatterns.ImpossibleIsPermanent` | xime/observability/_grpc_parser.py:132-139 | once `_possible_prefix` is false it stays false however the line grows |
| `LogPatterns.PrefixImpliesPossible` | xime/observability/_grpc_parser.py:11-11 | a line whose head matches `_PREFIX` satisfies `_possible_prefix` at each of its non-empty prefixes |
| `LogPatterns.MatchPrefixExtend` | xime/observability/_grpc_parser.py:11-11 | a match of `_PREFIX` is not changed by what follows it |
| `LogPatterns.PayloadExtend` | xime/observability/_grpc_parser.py:61-70 | the payload of a longer record is the payload of the shorter one and the rest |
| `NativeFraming.NativeFramer.Feed` | xime/observability/_grpc_parser.py:141-155 | the loop over drain markers does to state, tail and callbacks what the byte machine does |
| `NativeFraming.NativeFramer.FeedPlain` | xime/observability/_grpc_parser.py:157-181 | the loop over the lines of a read ends in the state of the byte machine, with the same bytes, records, counters and drains |
| `NativeFraming.NativeFramer.FeedPart` | xime/observability/_grpc_parser.py:158-181 | one piece of a line: state and callbacks afterwards |
| `NativeFraming.NativeFramer.FeedAndDrain` | xime/observability/_grpc_parser.py:144-149 | the bytes up to a marker and the flush it causes |
| `NativeFraming.NativeFramer.HandleLine` | xime/observability/_grpc_parser.py:183-221 | what a complete line does to the open record and which callbacks it makes |
| `NativeFraming.NativeFramer.FlushPartial` | xime/observability/_grpc_parser.py:223-230 | the open line is forwarded and the open record counted as unparsed |
| `NativeFraming.NativeFramer.HoldBack` | xime/observability/_grpc_parser.py:150-153 | the downward loop finds the longest held-back prefix |
| `NativeFraming.NativeFramer.ReadForever` | xime/observability/_grpc_native.py:294-312 | any reads from a fresh framer, up to the one that fails or finds the end, are one read of all their bytes; after them every byte that is no part of a marker has been forwarded or withheld or is still held, in order, and only what may be withheld was; a failed read, or an end that was not asked for, counts as one read error |
| `NativeCollection.NoEventIsUncounted` | xime/observability/_grpc_native.py:256-292 | at every moment of every interleaving of the two threads, events received equal those emitted, rate-limited, filtered, dropped, inactive at dispatch and still under way; the queue keeps its bound |
| `NativeCollection.StepBalances` | xime/observability/_grpc_native.py:393-416 | each step of either thread keeps the balance of the counters |
| `NativeCollection.EmissionIsBounded` | xime/observability/_grpc_native.py:314-359 | while the clock does not run backwards, no second of any run holds more emitted records than twice `rate_limit_per_second` |
| `NativeCollection.NativeCollector.OnRecord` | xime/observability/_grpc_native.py:256-292 | which counter a record moves, and the server it is put down to: the one listener that fits, or none |
| `NativeCollection.NativeCollector.Emit` | xime/observability/_grpc_native.py:314-359 | limiter first, then the logger level, then the handler; one counter moves |
| `NativeCollection.NativeCollector.DispatchAll` | xime/observability/_grpc_native.py:393-416 | the worker loop empties the queue, settling each item by the state at its turn |
| `RateLimiter.AtMostTwiceTheLimit` | xime/observability/_grpc_native.py:314-321 | for any rising arrival times and any closed second, at most twice the limit passes |
| `RateLimiter.TwiceTheLimitHappens` | xime/observability/_grpc_native.py:315-318 | for every limit there are arrivals of which twice the limit passes within half a second: the bound is tight |
| `RateLimiter.AdmitKeeps` | xime/observability/_grpc_native.py:315-321 | records twice the limit apart are more than a second apart, whatever arrives |
| `Promotion.NeverTwoPrimaries` | xime/core/bootstrap/_supervisor.py:949-1336 | in every state of every run in which a new incarnation finds no offer made to its predecessor, at most one live child holds the role, is taking it or has an offer of it to read |
| `PromotionRuns.NeverTwoExactlyWhenPurged` | xime/core/bootstrap/_supervisor.py:1208-1336 | no run ever has two primaries exactly when offers to a dead incarnation are discarded, or there is no channel, or there is one process |
| `PromotionRuns.StaleOfferMakesTwo` | xime/core/link/_link.py:188-228 | with two processes and offers that outlive their addressee, a concrete run ends with two live children claiming the role |
| `Promotion.StepKeeps` | xime/core/bootstrap/_supervisor.py:1208-1336 | every step of parent and children keeps the invariant behind it |
| `Promotion.ReapPrimaryKeeps` | xime/core/bootstrap/_supervisor.py:1306-1311 | the role moves only after the old primary is buried |
| `Promotion.RefusalRead` | xime/core/bootstrap/_supervisor.py:1070-1081 | a refused role is granted again only after the refusal was read |
| `Promotion.RefuseKeeps` | xime/core/bootstrap/application.py:833-873 | a child that fails to take the role gives it up and reports once |
| `PromotionRuns.PromotionsAreBounded` | xime/core/bootstrap/_supervisor.py:1218-1250 | in every run no 60 seconds hold more than three promotions, and the list kept is the recent end of the whole history |
| `SupervisorSpec.GrantKeepsBound` | xime/core/bootstrap/_supervisor.py:1218-1250 | one decision keeps the domino bound and the list in step with the history |
| `SupervisorSpec.PruneIsWindow` | xime/core/bootstrap/_supervisor.py:1221-1222 | pruning drops exactly the promotions that have left the window |
| `PromotionRuns.TrippedStays` | xime/core/bootstrap/_supervisor.py:1219-1235 | once promotions have stopped, no step appoints a primary, sends an offer or starts a child as primary |
| `PromotionRuns.TrippedForever` | xime/core/bootstrap/_supervisor.py:1219-1235 | for the rest of every run no handle names a primary, no mailbox has grown and the guard stays tripped |
| `PromotionRuns.EveryChildIsRebuilt` | xime/core/bootstrap/_supervisor.py:1274-1336 | a buried child is started again, tripped guard or not, exactly when the parent is not stopping and the child has not died more than 1024 times in a row |
| `PromotionRuns.RebuildingEnds` | xime/core/bootstrap/_supervisor.py:1313-1336 | for any number of processes a run leads there: the 1025th death in a row stops the supervisor and the child is not rebuilt |
| `SupervisorSpec.RespawnDelayRange` | xime/core/bootstrap/_supervisor.py:1312-1335 | the pause doubles from 1 to 30 seconds and exists exactly for the first 1024 deaths in a row: `1.0 * 2 ** (lan - 1)` overflows after that, although no limit is meant to exist |
| `PromotionRuns.RunOnceIsNeverAskedAgain` | xime/core/bootstrap/_supervisor.py:949-966 | after RUN_ONCE_DONE is seen, no start and no offer asks for the job again |
| `PromotionHope.RoleIsHeldAgainExactlyWhen` | xime/core/bootstrap/_supervisor.py:1208-1336 | in every state of every run: a live child can still come to hold the role exactly when one claims it, or the parent believes in a process it will start as primary or replace at its death, or a new incarnation will find an old offer, or a refusal will be read while somebody else can be alive |
| `PromotionHope.HopelessForever` | xime/core/bootstrap/_supervisor.py:1208-1336 | once that is false no step makes it true |
| `PromotionHope.GivenUpIsForever` | xime/core/bootstrap/_supervisor.py:1236-1249 | with offers discarded at a new start: once the parent believes in no primary, no run makes any child primary again |
| `PromotionHope.RoleIsGivenUpExactlyWhen` | xime/core/bootstrap/_supervisor.py:1208-1249 | the only steps after which the parent believes in none: burying a primary without a channel or with the guard full, or reading a refusal with the guard full or nobody else alive |
| `SupervisorSpec.FirstLiveIs` | xime/core/bootstrap/_supervisor.py:1236-1245 | the candidate is the first live child in topology order other than the one excluded |
| `Supervision.Supervisor.PromoteSomeone` | xime/core/bootstrap/_supervisor.py:1208-1272 | the new parent state and the message sent |
| `Supervision.Supervisor.PruneList` | xime/core/bootstrap/_supervisor.py:1222-1222 | the comprehension keeps the promotions inside the window |
| `Supervision.Supervisor.FindLive` | xime/core/bootstrap/_supervisor.py:1236-1245 | the search for a live worker |
| `Supervision.Supervisor.Reap` | xime/core/bootstrap/_supervisor.py:1274-1335 | what burying a child does to role, streak and pause; nothing for a child already gone |
| `Supervision.Supervisor.CountDeath` | xime/core/bootstrap/_supervisor.py:1312-1318 | a life of a minute ends a streak; the streak counts this death |
| `Supervision.Supervisor.Spawn` | xime/core/bootstrap/_supervisor.py:949-999 | the handle given to a new child: primary exactly when the parent says so, `run_once` only while not done |
| `Supervision.Supervisor.OnPromoteFailed` | xime/core/bootstrap/_supervisor.py:1070-1081 | a refusal hands the role on, the refuser excluded |
| `Supervision.Supervisor.OnControl` | xime/core/bootstrap/_supervisor.py:1061-1081 | which reports change the parent: the end of the cluster-wide job is noted, a refusal hands the role on, the others change nothing |
| `ReadPlanning.PlanIsMinimal` | xime/adapters/modbus/_planner.py:99-121 | any list of commands that covers every field whole, keeps the size limit and crosses no longer hole is at least as long as the greedy plan |
| `ReadPlanning.CannotReach` | xime/adapters/modbus/_planner.py:107-119 | each of the two reasons for closing a command keeps any admissible command that covers its first field from reaching a later first field |
| `ReadPlanning.PlanIsSafe` | xime/adapters/modbus/_planner.py:99-121 | each command is within the limit, crosses no hole wider than the gap, starts and ends with a field; all fields are covered; addresses increase and are shared by no two commands when no two fields share one |
| `ReadPlanning.GapZeroIsExact` | xime/adapters/modbus/_planner.py:28-31 | with gap 0 a command reads declared addresses only |
| `ModbusPlanner.PlanArea` | xime/adapters/modbus/_planner.py:99-121 | the loop over the fields of one area returns the plan of that area or the first field that fits in no command |
| `ModbusPlanner.PlanReads` | xime/adapters/modbus/_planner.py:73-96 | the loop over areas returns the whole plan or its first error |
| `ModbusPlanner.PlanExists` | xime/adapters/modbus/_planner.py:73-96 | a plan exists exactly when the gap is not negative and every field fits in one command; otherwise the error names a field that does not |
| `ModbusPlanner.PlanIsShortest` | xime/adapters/modbus/_client.py:57-60 | over all four areas, no list of admissible commands that covers the model is shorter than the plan |
| `ModbusPlanner.PlanIsAdmissible` | xime/adapters/modbus/_planner.py:73-144 | each command has 1 to 125 registers or 1 to 2000 bits, no stretch of undeclared addresses longer than the gap, and begins and ends with a declared field |
| `ModbusPlanner.PlanCoversEveryField` | xime/adapters/modbus/_planner.py:59-64 | every field lies whole inside one command of its own area |
| `ModbusPlanner.PlanIsOrdered` | xime/adapters/modbus/_planner.py:80-85 | within an area the commands come in address order and, for non-overlapping fields, share no address |
| `ModbusPlanner.NoGapReadsOnlyDeclared` | xime/adapters/modbus/_planner.py:28-31 | with gap 0 every address read belongs to a declared field |
| `ModbusModel.CheckNoOverlap` | xime/adapters/modbus/_model.py:531-555 | the check on sorted neighbours complains exactly when two fields of one area share an address, and names two that do |
| `ModbusModel.NeighboursDecide` | xime/adapters/modbus/_model.py:544-547 | comparing neighbours of a sorted group decides pairwise disjointness |
| `ModbusModel.GroupByArea` | xime/adapters/modbus/_model.py:540-542 | the grouping loop puts every field under its area, in order |
| `ModbusModel.CheckGroup` | xime/adapters/modbus/_model.py:544-555 | one sorted group: complaint exactly on overlap |
| `ModbusModel.NoOverlapSort` | xime/adapters/modbus/_model.py:545-545 | sorting changes nothing about overlap |
| `ModbusModel.AcceptedFieldIsWellFormed` | xime/adapters/modbus/_model.py:219-263 | an accepted field has a 16-bit address, a positive size, a type that fits its area, its type's own width, and no zero scale |
| `ModbusModel.ModiconNamesOneAddress` | xime/adapters/modbus/_model.py:266-319 | a datasheet number stands for one protocol address of one area only |
| `ModbusCodec.SwapTwice` | xime/adapters/modbus/_codec.py:79-90 | swapping the bytes of each register twice changes nothing |
| `ModbusCodec.IntegerThenWords` | xime/adapters/modbus/_codec.py:63-68 | the registers of an integer type and the integers in its range stand for each other, in either word order |
| `ModbusCodec.WordsThenInteger` | xime/adapters/modbus/_codec.py:71-76 | and back |
| `ModbusCodec.EncodedFillsField` | xime/adapters/modbus/_codec.py:157-205 | an encoded value has exactly as many registers or bits as its field, and only writable areas are encoded unless asked |
| `ModbusCodec.IntegerFieldRoundTrip` | xime/adapters/modbus/_codec.py:97-115 | an encoded integer field decodes to the rounded raw value, scaled back |
| `ModbusCodec.UnscaledIntegerComesBack` | xime/adapters/modbus/_codec.py:157-205 | an unscaled integer is encoded exactly when it is in range, and then comes back unchanged in every byte and word order |
| `ModbusCodec.ScaledIntegerIsNearest` | xime/adapters/modbus/_codec.py:219-245 | a number written to a scaled integer field comes back within half a step of the scale |
| `ModbusCodec.IntegerWriteBack` | xime/adapters/modbus/_codec.py:97-115 | writing back what an integer field was read as leaves its registers as they were, scaled or not |
| `ModbusCodec.BitFieldComesBack` | xime/adapters/modbus/_codec.py:208-216 | a bit or bit list comes back as written |
| `ModbusCodec.BitWriteBack` | xime/adapters/modbus/_codec.py:118-127 | writing back what a bit field was read as leaves its bits as they were |
| `ModbusClient.ModbusClient.Read` | xime/adapters/modbus/_client.py:54-79 | a whole read fails with the planner's error or the first refused command, or gives every field what reading it alone gives; "no read command covered" never happens |
| `ModbusClient.ModbusClient.Fetch` | xime/adapters/modbus/_client.py:67-77 | the command loop stops at the first refused command, and otherwise holds a true copy of every stretch asked for |
| `ModbusClient.ModbusClient.DecodeDevice` | xime/adapters/modbus/_codec.py:252-264 | every field is decoded from a payload that covers it |
| `ModbusClient.SliceFor` | xime/adapters/modbus/_codec.py:267-277 | the slice is what the device holds at the field's addresses; an error means no payload covers it |
| `ModbusClient.ModbusClient.ReadField` | xime/adapters/modbus/_client.py:81-94 | one command and its decoding |
| `ModbusClient.PlannedReadIsFieldReads` | xime/adapters/modbus/_client.py:54-94 | for every model and gap a planned read succeeds exactly when `read_field` would on every field and the device has the addresses read between fields, and it then agrees with them all |
| `ModbusClient.NoGapReadIsFieldReads` | xime/adapters/modbus/_client.py:54-94 | with gap 0 the planned read succeeds exactly when every field can be read on its own |
| `ModbusClient.ModbusClient.Write` | xime/adapters/modbus/_client.py:139-161 | the memory after writing one field, or the error and the memory unchanged |
| `ModbusClient.ModbusClient.WriteDevice` | xime/adapters/modbus/_client.py:163-182 | the loop writes the writable fields that hold a value, in order, up to the first failure |
| `ModbusClient.WriteTouchesOnlyItsFields` | xime/adapters/modbus/_client.py:163-182 | no address outside those fields changes, in failed runs too |
| `ModbusClient.WrittenFieldHolds` | xime/adapters/modbus/_client.py:163-182 | after success each of those fields holds exactly its encoding |
| `ModbusClient.DeviceWriteSucceeds` | xime/adapters/modbus/_client.py:163-182 | the device is written exactly when each of those fields alone could be |
| `ModbusClient.ReadAfterWrite` | xime/adapters/modbus/_client.py:163-182 | a read after it returns the decoded encoding for those and the earlier value for all others |
| `ModbusClient.WrittenValueIsReadBack` | xime/adapters/modbus/_client.py:163-182 | unscaled integers and bits are read back as sent |
| `ModbusClient.ModbusConnection.Read` | xime/adapters/modbus/_runtime.py:74-101 | a read gives exactly `count` values, and fails exactly on a missing address or a count outside the protocol limit |
| `ModbusClient.ModbusConnection.Write` | xime/adapters/modbus/_runtime.py:103-135 | a write changes exactly its stretch, or nothing |
| `SocketProtocol.FrameRoundTrip` | xime/adapters/socket/_protocol.py:69-99 | a packed frame is read back with what follows it exactly when its payload is within the reader's bound; the writer accepts up to 4 GiB, the reader 64 MiB |
| `SocketProtocol.CutFrameIsIncomplete` | xime/adapters/socket/_protocol.py:77-98 | a frame cut short anywhere reads as an incomplete one, never as another |
| `SocketProtocol.ReadIsEncoded` | xime/adapters/socket/_protocol.py:77-99 | whatever is read is the encoding of the frame returned, so no two byte strings read alike |
| `SocketProtocol.WireRoundTrip` | xime/adapters/socket/_protocol.py:69-99 | a concatenation of frames reads back as those frames |
| `SocketProtocol.ReadFrame` | xime/adapters/socket/_protocol.py:77-99 | the reader advances by exactly one frame, or reports the first thing wrong |
| `SocketProtocol.StreamReader.ReadExactly` | xime/adapters/socket/_protocol.py:86-98 | exactly so many bytes or the end of the stream |
| `SocketWriter.WireIsWholeFrames` | xime/adapters/socket/_session.py:55-59 | however senders interleave under the lock, the peer reads exactly the frames written, whole and in order, and of the frame under way nothing until all of it is there; each sender's frames keep their order, none lost or repeated |
| `SocketWriter.OversizeFrameEndsReading` | xime/adapters/socket/_protocol.py:93-96 | one frame over the reader's bound and nothing behind it is ever read |
| `SocketWriter.ConnectionWriter.Send` | xime/adapters/socket/_session.py:55-59 | one frame appended, or nothing when it cannot be packed |
| `SocketMultiplex.MultiplexingIsExact` | xime/adapters/socket/_adapter.py:287-367 | in every run, for every session: what its handler has taken, its queue and what waits for room are, in order, its own chunks and ends since it began, all of them while it is live; the queue keeps its bound |
| `SocketMultiplex.StepKeeps` | xime/adapters/socket/_adapter.py:287-322 | each step of the read loop, the handlers and the reaper keeps that |
| `SocketMultiplex.StuckForever` | xime/adapters/socket/_adapter.py:311-314 | once the read loop waits on a full queue whose handler has finished, never takes, or was cancelled and heeds it, no frame of any session is ever read again |
| `SocketMultiplex.WaitsForeverExactlyWhenStuck` | xime/adapters/socket/_adapter.py:311-314 | a waiting read loop can go on exactly when the queue it waits for has room or a handler that can still take from it |
| `SocketMultiplex.AbandonedUploadStopsConnection` | xime/adapters/socket/_adapter.py:392-419 | for every queue bound, a run in which an upload handler returns without reading its chunks ends there |
| `SocketMultiplex.ReapedUploadStopsConnection` | xime/adapters/socket/_session.py:185-199 | so does, for every queue bound, a run in which the reaper cancels a slow upload handler while the read loop waits for it: the table is empty and the connection lost |
| `SocketSessions.SessionManager.Dispatch` | xime/adapters/socket/_adapter.py:287-322 | what each kind of frame does to sessions, queues and the read loop |
| `SocketSessions.SessionManager.StartStream` | xime/adapters/socket/_adapter.py:324-367 | which starts create a session; a command started as a stream leaves none, and takes away a live one of its id |
| `SocketSessions.SessionManager.Create` | xime/adapters/socket/_session.py:165-168 | a new session takes over its id |
| `SocketSessions.SessionManager.Get` | xime/adapters/socket/_session.py:170-174 | the session of an id, marked active |
| `SocketSessions.SessionManager.Destroy` | xime/adapters/socket/_session.py:176-179 | the entry goes and its handler, unless finished, is cancelled |
| `SocketSessions.SessionManager.Put` | xime/adapters/socket/_adapter.py:311-319 | an item is queued, or the read loop waits |
| `SocketSessions.SessionManager.ReapExpired` | xime/adapters/socket/_session.py:185-199 | exactly the idle sessions are told, if there is room, and dropped |
| `SocketSessions.SessionManager.Reap` | xime/adapters/socket/_session.py:194-199 | one of them |
| `SocketSessions.SessionManager.DestroyAll` | xime/adapters/socket/_session.py:181-183 | every session goes, every unfinished handler is cancelled |
| `SocketDemux.CompletedAtMostOnce` | xime/adapters/socket/_client.py:140-180 | over any run a completed call never changes again |
| `SocketDemux.CompletedByItsOwnFrame` | xime/adapters/socket/_client.py:140-180 | a call is completed only by an answer or error of its own session id, by the end of the read loop, or by its own waiter |
| `SocketDemux.StillWaitingExactlyWhenGone` | xime/adapters/socket/_client.py:159-181 | a call left by its own upload block, registered after the read loop ended, or whose answer did not decode is never completed; when the loop has ended those are exactly the calls still waiting, but for the ones given up |
| `SocketDemux.UnreadableAnswerIsLost` | xime/adapters/socket/_client.py:140-143 | an answer that does not decode ends the loop, fails every other call, and leaves its own caller waiting |
| `SocketDemux.NothingIsSettledLater` | xime/adapters/socket/_client.py:159-181 | nothing completes a call after the read loop has ended |
| `SocketDemux.DownloadsAreExact` | xime/adapters/socket/_client.py:94-116 | each download has taken, and has queued, exactly its session's pieces in order; only chunks before its end or error |
| `SocketDemux.NoOpenDownloadHangs` | xime/adapters/socket/_client.py:173-180 | a download open when the loop ends always has something to take |
| `SocketCalls.SocketClient.HandleFrame` | xime/adapters/socket/_client.py:137-158 | what each kind of frame does to calls and downloads |
| `SocketCalls.SocketClient.Fail` | xime/adapters/socket/_client.py:164-171 | the waiting call fails, otherwise the download is told |
| `SocketCalls.SocketClient.FailAll` | xime/adapters/socket/_client.py:173-180 | every registered call still waiting fails, every download is told |
| `SocketCalls.SocketClient.Command` | xime/adapters/socket/_client.py:78-87 | a fresh id, one registered future |
| `SocketCalls.SocketClient.Download` | xime/adapters/socket/_client.py:94-106 | a fresh id, one empty queue |
| `Topology.ParseTopology` | xime/core/bootstrap/_processes.py:375-403 | accepted exactly when the block can be read and the processes fit together: distinct ids, one primary, compatible addresses |
| `Topology.OneAddressOneSocket` | xime/core/bootstrap/_processes.py:444-491 | any two distinct cells of one address in an accepted topology: different processes, same adapter, same host, both shared |
| `Topology.RejectConflictingEndpoints` | xime/core/bootstrap/_processes.py:444-491 | the grouped check passes exactly when every two blocks agree on every address |
| `Topology.AgreeByAddress` | xime/core/bootstrap/_processes.py:451-491 | looking at each address on its own decides the agreement of all blocks |
| `Topology.GroupByAddress` | xime/core/bootstrap/_processes.py:451-455 | the grouping loop puts every listening cell under its address, in order |
| `Topology.CheckGroup` | xime/core/bootstrap/_processes.py:457-491 | a group passes exactly when all share, with one host and one adapter |
| `Topology.RejectDuplicateEndpointWithinBlock` | xime/core/bootstrap/_processes.py:292-316 | one process passes exactly when its listening cells have different addresses |
| `Topology.RejectDuplicateIds` | xime/core/bootstrap/_processes.py:406-417 | passes exactly on distinct ids |
| `Topology.RequireExactlyOnePrimary` | xime/core/bootstrap/_processes.py:420-441 | passes exactly with one primary, and says whether there is none or several |
| `Topology.RejectUnsharedPortsUnderCount` | xime/core/bootstrap/_processes.py:362-372 | passes exactly when every listening cell is shared |
| `Topology.CopiesOfPrivateAddressClash` | xime/core/bootstrap/_processes.py:362-372 | a private address under `count` would fail the conflict check anyway |
| `Topology.CheckBlocks` | xime/core/bootstrap/_processes.py:400-402 | the three checks together, and which error comes first |
| `Topology.ParseBlock` | xime/core/bootstrap/_processes.py:273-289 | the nested loops read every cell, later keys overriding equal ones, and refuse two cells of one address |
| `Topology.Expand` | xime/core/bootstrap/_processes.py:393-398 | the processes one entry stands for |
| `Topology.BlockCellsDictionary` | xime/core/bootstrap/_processes.py:276-287 | a block has one cell per adapter, and only what listens is shared |
| `Topology.WithInternalEndpoint` | xime/core/bootstrap/_processes.py:494-534 | the result of placing the framework's listener fits together too and differs only by that cell on the primary; refused exactly when the key is taken, the cell is unreadable or the addresses clash |
| `Topology.ParseSingle` | xime/core/bootstrap/_processes.py:556-577 | a `process:` block without the keys of several processes always fits together |
| `SharedBinding.BindShared` | xime/core/bootstrap/_supervisor.py:503-537 | each shared address whose adapter inherits is bound once and no other; on the first address that cannot be had every socket already bound is closed |
| `SharedBinding.BindCell` | xime/core/bootstrap/_supervisor.py:519-525 | when a cell leads to a new socket |
| `SharedBinding.SocketsFor` | xime/core/bootstrap/_supervisor.py:540-552 | a process is handed the sockets of its shared cells, by adapter |
| `SharedBinding.SharersHoldOneSocket` | xime/core/bootstrap/_supervisor.py:503-552 | what `_sockets_for` gives two processes that share an address holds the one socket bound for it, under one adapter and host; different addresses, different sockets |
| `SharedBinding.PrivateCellHasNoSocket` | xime/core/bootstrap/_supervisor.py:549-551 | nothing is handed down for a private cell |
| `ControlCodec.ControlRoundTrip` | xime/core/bootstrap/_control.py:74-88 | a report comes back as packed exactly when index and flag fit a byte; indices 256 apart read alike |
| `ControlCodec.CommandRoundTrip` | xime/core/bootstrap/_control.py:91-119 | a packed command is at most 512 bytes and comes back with its targets in order |
| `ControlCodec.SortedSetFacts` | xime/core/bootstrap/_control.py:100-103 | the targets are unique exactly when sorting and deduplicating loses none |
| `ControlCodec.AckRoundTrip` | xime/core/bootstrap/_control.py:122-133 | a packed acknowledgement is at most 512 bytes and comes back |
| `ControlCodec.AckIsPacked` | xime/core/bootstrap/_control.py:130-133 | whatever is unpacked, the broadcast index apart, is what would be packed again |
| `ClusterCommand.AnswersAreEarned` | xime/core/bootstrap/_cluster.py:269-342 | under any loss, repetition and reordering, answers and silences share out the targets, and each answer is one that this worker gave on running this command |
| `ClusterCommand.AnsweredOrMissing` | xime/core/bootstrap/_cluster.py:307-309 | acknowledged and missing partition the targets |
| `ClusterCommand.StepKeeps` | xime/core/bootstrap/_supervisor.py:1041-1060 | each step of asking, relaying, running, acknowledging and collecting keeps that |
| `ClusterCommand.ClusterMember.Ask` | xime/core/bootstrap/_cluster.py:283-294 | a waiter for the targets and the packed command, or neither |
| `ClusterCommand.ClusterMember.RecordAck` | xime/core/bootstrap/_cluster.py:337-342 | the first answer of each expected worker counts |
| `ClusterCommand.ClusterMember.Collect` | xime/core/bootstrap/_cluster.py:303-311 | what was acknowledged, what is missing, and the waiter gone |
| `ClusterReload.SuccessIsEarnedByEveryTarget` | xime/adapters/web/_tls_reload.py:311-349 | over every run of the channel with workers that answer by their own reload, a reload has succeeded exactly when every target's answer arrived and is one it gave on reloading, with success, the listener asked for |
| `ClusterReload.ReloadSucceedsExactlyWhen` | xime/adapters/web/_tls_reload.py:266-349 | a reload asked for a server id has succeeded exactly when every target's answer has arrived and is the one it gave when its one active listener of that id reloaded or found nothing new and, if no file of that worker ever comes back, from then on served what it had just read |
| `ClusterReload.SuccessCanBeReported` | xime/adapters/web/_tls_reload.py:311-349 | for any workers asked, if the reload of each succeeds there is a run that collects every answer and reports success |
| `TlsHandling.LocalResultMeans` | xime/adapters/web/_tls_reload.py:274-296 | the result of a worker can always be encoded; it is a success exactly when its one active listener of that id reloads or finds nothing new, which then serves what it has just read |
| `TlsHandling.ReplyMeans` | xime/adapters/web/_tls_reload.py:266-271 | the reply of a worker decodes to success exactly when the command names a server whose reload succeeds there |
| `TlsMessages.SuccessIsOwn` | xime/adapters/web/_tls_reload.py:266-271 | a reply decodes to success exactly when it encodes a success of the worker's own reload for a command it could decode |
| `TlsWorkers.TlsWorker.HandleCommand` | xime/adapters/web/_tls_reload.py:266-271 | the object answers by that reply, its reloader of the server named does what `Reloading` says, and no other is touched |
| `TlsWorkers.TlsWorker.ReloadLocal` | xime/adapters/web/_tls_reload.py:274-296 | the object gives that result; the one active listener of that id reloads and no other is touched |
| `TlsMessages.SucceededMeansEveryTarget` | xime/adapters/web/_tls_reload.py:71-80 | `succeeded` holds exactly when every target has a decoded success |
| `TlsMessages.CommandIsItsServer` | xime/adapters/web/_tls_reload.py:220-236 | commands and server ids stand for each other, both ways, in at most 66 bytes |
| `TlsMessages.ResultRoundTrip` | xime/adapters/web/_tls_reload.py:239-263 | a worker's answer comes back as given, in at most 322 bytes; a detail over 64 bytes is cut |
| `TlsMessages.OtherRepliesFail` | xime/adapters/web/_tls_reload.py:246-248 | neither `unhandled` nor `failed:` replies decode as success |
| `TlsReload.ReloadMeans` | xime/adapters/web/_tls_reload.py:164-204 | `reloaded` means both readings agree with the record, and the context in force is built from what is on record exactly unless the schedule fooled the double read; if no file ever comes back, certificate, key and CA were on disk together at every instant between the readings; `unchanged` means equal resolved paths and contents, and nothing else than `reloaded` changes anything |
| `TlsReload.TlsContextReloader.Reload` | xime/adapters/web/_tls_reload.py:164-204 | the object answers and changes by that function |
| `TlsReload.TlsContextReloader.Start` | xime/adapters/web/_tls_reload.py:131-147 | the same for the context loaded at start-up |
| `TlsReload.EqualPassesPin` | xime/adapters/web/_tls_reload.py:108-116 | two equal readings of files that never return to an earlier version pin all of them at every instant between |
| `TlsReload.UndoneChangeIsMissed` | xime/adapters/web/_tls_reload.py:179-183 | while the other files stay as they are, some schedule of reads and loads fools the double read exactly when this file can be replaced, loaded, and put back under the version read before |
| `TlsReload.NotFooled` | xime/adapters/web/_tls_reload.py:166-183 | files never put back under a version read before cannot fool it, whatever the schedule |
| `ModuleScan.Scan` | xime/cli/_module_level.py:344-392 | the scan ends; `scanned` and `unreadable` together are exactly the files reachable by module-level imports, each once, and the findings are those of all files read |
| `ModuleScan.CleanMeansAllReadAndQuiet` | xime/cli/_module_level.py:99-110 | `clean` exactly when every reachable file was read and none has a watched call among what it collects; `inconclusive` exactly when one was not read |
| `ModuleScan.ClosedHolds` | xime/cli/_module_level.py:355-389 | a set with the entry that is closed under imports holds everything reachable |
| `ModuleScan.Pending` | xime/cli/_module_level.py:386-389 | the modules of a file that are in the root and not seen |
| `ModuleScan.InnerImportsMatterExactly` | xime/cli/_module_level.py:131-161 | whatever a module goes on to call, its findings are those of all the names it has bound exactly when its outermost imports and all its module-level imports agree on every name that can lead to a watched one; a module with no import in an inner block is such a module |
| `ModuleScan.SameNamesExactlyWhenSameTable` | xime/cli/_module_level.py:153-161 | two tables read every name alike exactly when they are equal |
| `ModuleScan.FlatBindsAlike` | xime/cli/_module_level.py:131-150 | without imports in inner blocks both tables are equal |
| `ModuleScan.WatchedExtension` | xime/cli/_module_level.py:68-75 | the names that some watched name starts with are the beginnings of the exact names and everything under `random` and `secrets` |
| `ModuleScan.CleanSpeaksOfInnerImports` | xime/cli/_module_level.py:99-110 | where every file read agrees so, `clean` speaks of the names bound in inner blocks as well |
| `ModuleScan.InnerImportIsNotResolved` | xime/cli/_module_level.py:131-150 | an instance where it does not: the same two lines count or not by where the import stands |
| `TopicFilter.IsValidFilter` | xime/adapters/mqtt/_topic.py:49-65 | accepted exactly by the character rule of section 4.7.1 of MQTT Version 5.0 |
| `TopicFilter.LevelsDecide` | xime/adapters/mqtt/_topic.py:58-64 | the rule on levels is the rule on characters |
| `TopicFilter.TopicMatches` | xime/adapters/mqtt/_topic.py:9-46 | what the loop answers for any filter and topic |
| `TopicFilter.AnswersBySection47` | xime/adapters/mqtt/_topic.py:9-46 | for every accepted filter and every topic the answer is that of section 4.7: level by level, a final `#` taking the parent and all below, and no `$` topic for a filter that starts with a wildcard |
| `TopicFilter.PlainFilterMatchesItself` | xime/adapters/mqtt/_topic.py:31-46 | a filter without wildcards matches its own text only |
| `TopicFilter.MultiLevelMatchesParentAndBelow` | xime/adapters/mqtt/_topic.py:31-36 | `parent/#` matches the parent and every topic below it, and nothing else |

## Left out

- RegEx engine: `_PREFIX`, `_STATUS_HEAD` and `_END` are written out as deterministic scanners; `parse_failure` beyond its payload, `address` and `canonical_ip` are not part of this model, so `NativeCollection` takes the parsed local end as given.
- NativeFraming.NativeFramer.Feed: compares bytes, withheld lines, records and drains in order, and counters, records and drains in order; where a counter falls among forwarded bytes is not compared, since a read forwards in larger pieces than the byte machine.
- NativeFraming.NativeFramer.ReadForever: the read that fails closes the descriptor; an exception out of a callback, after which the chunk is forwarded whole, is not modelled, as no callback of the model raises.
- NativeCollection.NativeCollector.DispatchAll: empties one queue as it stands; what arrives, and which listeners start or stop, between two items is in the step system of `NoEventIsUncounted`.
- Byte values: the framer treats a byte as an abstract character; nothing depends on its code.
- Supervision.Supervisor.Reap: the order "queue pumped, then buried" of `_watch` is assumed of the link, so no report of a buried child is still unread; heartbeats, signals, shutdown order, log wording and `_await_run_once` are not modelled, and a watchdog kill is one of the deaths that may happen at any time.
- Promotion.NeverTwoPrimaries: assumes that a child answers each offer once and that a process index fits a byte, which `xime/core/link` enforces with at most 255 slots. `PromotionHope` says what can still happen, not that it will: a child that never answers an offer is not modelled as having to.
- Supervisor checks that need the adapter list (`validate_against_adapters`, sharding and singleton rules) and `prepare_worker`: each is settled by reading one loop.
- ModbusCodec.ScaledIntegerIsNearest: scale and offset are exact reals; binary rounding of Python floats is not modelled, and neither are infinities and NaN.
- ModbusCodec.IntegerWriteBack: the same; with exact arithmetic the raw value is recovered exactly.
- ModbusCodec.IntegerFieldRoundTrip: the same for a field with scale or offset.
- ModbusCodec.EncodedFillsField: the library conversions of floats and text are parameters; integers are big-endian bytes, two to a register. A numeric string given to a numeric field is refused here, where Python's `float` would parse it.
- ModbusClient.ModbusConnection.Read: the device is a partial memory that refuses missing addresses and counts outside sections 6.1 to 6.4, 6.11 and 6.12 of the MODBUS Application Protocol Specification V1.1b3; time-outs, transport errors, unit ids and the wait for a connection are left out.
- ModbusClient.ModbusConnection.Write: the same.
- Device classes: attribute descriptors, inheritance order and generated constructors; a model is a list of fields with distinct names.
- SocketWriter.WireIsWholeFrames: cancellation of a sender inside the lock is not modelled.
- SocketWriter.ConnectionWriter.Send: one send without contention; the lock and `drain()` are the steps of `WireIsWholeFrames`.
- SocketMultiplex.MultiplexingIsExact: handlers, endpoint lookup and decoding are steps that may happen in any order; whether a handler stops at a cancellation or catches it and takes on is a property of the endpoint, and both kinds are covered. A stream start whose envelope is no mapping ends the connection, one of the ways it may close at any time. Command tasks, peer authorisation and the socket file are left out.
- SocketDemux.StillWaitingExactlyWhenGone: a failing send is not modelled; it raises to the caller, whose future nobody awaits.
- Topology.ParseTopology: keys are compared as text, as `str()` gives them; error messages are reduced to their kind. `synthesize_from_flat` and `build_topology` only choose between the parsers modelled.
- SharedBinding.BindShared: address resolution, file permissions and `listen()` are left out; `busy` stands for every way a bind can fail.
- ClusterCommand.AnswersAreEarned: sixteen random bytes are taken not to repeat; the time-out is a step that may happen at any time.
- TlsReload.TlsContextReloader.Reload: a path is resolved and its stat read at one instant, a file's content at one instant, and its digest is taken as the content; `Steady` and `NeverUndone` are conditions on the files, not on the caller. `_select_context` and the TLS handshake are left out.
- ClusterReload.SuccessIsEarnedByEveryTarget: what each worker finds when it handles a command is a parameter of the run; what it then answers is `TlsHandling.Reply`, which the object is proved to follow. A worker that goes away while it reloads sends nothing.
- ModuleScan.InnerImportsMatterExactly: both tables are read off the text, a later import over an earlier one, as `_aliases` does; names that an import binds in a class body are the class's own and are in neither.
- ModuleScan.Scan: statements are reduced to what the two walkers look at; `with` items, `match` cases and handler types are not looked at by the code and not claimed as covered. File names hold no dot but that of their suffix, links are not followed, and sorting the findings for display is left out.
- NativeCollection.NoEventIsUncounted: steps are atomic where the code holds its lock or touches the queue; two counters are split by cause so that the balance can be stated, since `queue_dropped` and `inactive` also count other things.
- Real I/O, asyncio scheduling, DI container, configuration rendering, scaffolding, CORS, OpenAPI, OPC UA and the web server: plumbing around libraries.
