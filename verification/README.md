# Furnace: batches, events and the key/value store

A Dafny model of three parts of Furnace, and proofs about them.

**The batch pipeline.** A tenant app labels calls and links them ("add the result of call `03` to this call's `vaddr`").
`batch_obj.add` compiles that to a columnar message: a flat `type` list, one array per call type, numeric link indices.
The VMI partition runs the message with a value cache and two cursors that only move forward, and the app decodes the
reply columns back into labelled records. The model keeps all three ends as the objects they are (`BatchObject.BatchObj`,
`FurnaceEngine.Furnace`, the frontend's methods) and proves each method against a function. The functions then give
three meanings that are compared: `Execution.RunTo` (cursors and cache), `Execution.DirectTo` (read the reply that the
link names) and `BatchMeaning.MeaningTo` (dictionaries and names only). A fourth, `LinkArithmetic.IntegerTo`, computes
links over the integers, and a fifth, `LinkPlan.PlannedTo`, by a plan that is fixed before the batch runs.

**Events.** The frontend's `eventlist` and `timerlist`, the VMI partition's `events`, and the messages between them are
one state machine (`EventProtocol`), in which traps fire at any time. `EventEndpoints` holds both sides as classes whose
methods take its steps, up to a whole turn of the frontend's loop. `EventHistory` tells from a run alone what fires,
pauses, is masked and is cleared; `EventIds` and `StaleEvents` are about what ids mean to an app.

**The key/value store.** `FacilitiesStore` holds `process_get`, `process_set` and the dispatch of the facilities
partition, with its files and its disk accounting.

| file | what it holds |
|---|---|
| `Wrappers.dfy` | options, results, the size of a subset |
| `Schema.dfy`, `Guest.dfy`, `Columns.dfy` | the message schema as data; guest memory; columnar layout |
| `Execution.dfy`, `Furnace.dfy` | the meanings of a batch; the engine that updates its state in place |
| `Refinement.dfy`, `LinkPlan.dfy` | when cursors and cache are right; where every link leads, aligned or not |
| `Exactness.dfy` | exactly when a link, and a batch, is resolved as documented |
| `Errors.dfy`, `LinkArithmetic.dfy` | what stops a batch and what is left then; fixed width against integers |
| `Calls.dfy` | what each call reads and writes, byte by byte |
| `Operators.dfy` | operators, argument values and refusals by number and by name |
| `BatchSource.dfy`, `BatchMeaning.dfy`, `BatchObj.dfy`, `Frontend.dfy` | compiling, meaning, sending and decoding |
| `Pslist.dfy`, `PslistResult.dfy`, `ProcessList.dfy` | the process-list pipeline, the built-in, the one-call walk |
| `EventProtocol.dfy`, `EventEndpoints.dfy` | events: the protocol, and its two ends |
| `EventHistory.dfy`, `EventIds.dfy`, `StaleEvents.dfy` | what events do over a run; what their ids mean |
| `Facilities.dfy` | the store |

`dafny verify dfyconfig.toml` checks everything.

## Main results

- The process-list pipeline returns, at every length up to 1000 messages and on every guest memory, the name, pid and
  next pointer at each hop (`PslistResult.PslistReturnsTheList`; over the objects, as documented usage,
  `PslistResult.PslistBatch`).
- In terms of guest memory, byte by byte: the records of that pipeline are the text of each name, the four bytes of each
  pid and the eight bytes of each pointer, along the pointers from the head (`PslistResult.PslistRecordsHold`). Every call
  of every batch reads or stores exactly the bytes that its arguments name (`CallMeaning.RunDoes`,
  `CallMeaning.MeaningDoes`).
- A link computes, in integers modulo 2 to the 64 or 32, what its operator number promises, or is refused with error 26
  (`ClientMeaning.CompiledLinkGives`, `ClientMeaning.ItemLinkGives`).
- The cached executor refines direct execution on every aligned batch, with a coherent cache at every step
  (`Refinement.AlignedRefinesDirect`). *Aligned* is what a client can check before sending: at each first link to a
  message, the position that the code searches is the message's rank, no such link goes back behind an earlier one, and
  all links to a message name one result field.
- Every batch, aligned or not, is direct execution of a plan that its types and indices fix before it runs: each link
  reads one field of one reply, or 0 (`LinkPlan.RunFollowsPlan`), and which is told from the batch in closed form
  (`LinkPlan.LinkReadsAtIndex`). So it is known exactly which links do what is documented,
  on all replies that the requests can get: those that by plan read the field they name, or a field or 0 that always holds
  the same, as the status of a pause, the status of READ_STR_PA, the reply to a request with an argument missing, or a
  field that an earlier subtraction lets pass only as 0 (`Exactness.LinkIsRightIff`, `Exactness.BatchIsRightIff`,
  `Exactness.RightBatchIsDirect`). After an aligned prefix, alignment is exact for every field that varies
  (`Exactness.AlignmentIsExact`).
- A labelled program that compiles to an aligned batch computes what its names mean
  (`BatchMeaning.AlignedBatchComputesItsMeaning`, and of the objects `BatchFrontend.RunProgram`).
- The calls that a batch executes do what they would do alone if and only if none of their links points past them
  (`Errors.ExecutedCallsArePrefix`).
- A frontend and the VMI partition agree on the active events throughout a run if and only if no cleanup meets an id that
  is in use again (`EventProtocol.RegistriesAgreeIffNoneReused`); pauses are conserved over every interleaving
  (`EventProtocol.PausesAreConserved`). A message reaches the registration that sent it if and only if its id has not been
  given out since (`StaleEvents.RightCallbackIffNotReused`).
- Over every run, a trap or syscall sends, and pauses the guest, exactly as the call that registered it asked
  (`EventHistory.TrapFires`, `EventHistory.SyscallFires`).
- The store refines a plain map over every history, and its disk accounting is exact up to a stated excess
  (`FacilitiesStore.StoreRefinesMap`, `FacilitiesStore.DiskAccounting`).

## Where the code and its documentation differ

The model follows the code.

- A link is documented to read the call that it names (app_partition/batch_obj.py:107-114). The code searches that call's
  reply column at the linking call's own index, minus the number of reply fields with a larger number
  (vmi_partition_drakvuf/furnace.cpp:468-469, 503-528). The smallest pointer chase already reads elsewhere
  (`Exactness.FollowPointerReadsElsewhere`, `Exactness.FollowPointerShows`).
- `do_batch_pslist_new` of the example app iterates over `o.results()`, but there is no `o` there; the object is `self.o`
  (app_partition/examples/app_pslist_pipeline.py:181). It raises NameError before it takes a record.
  `PslistResult.PslistBatch` is the usage that app_partition/batch_obj.py:24-43 documents, with the object where its own
  `self.o` stands.
- "It is not allowed to reference forward" (vmi_partition_drakvuf/furnace.cpp:415-421): the check compares the cursor and
  not the link, and only ever stops a batch whose first message has a link (`Errors.ForwardCheckIsFirstMessageCheck`).
  Other forward links carry 0 (`Errors.UnansweredLinksCarryZero`).
- A label that is used twice mixes the first message's position with the latest message's fields
  (app_partition/batch_obj.py:126-127); `BatchSource.ReusedLabelIsRightIff` says exactly when that is still right.
- `batch` is documented to check that as many replies come back as went out; the check compares a message with itself
  (app_partition/furnace_frontend.py:528), so an oversized batch is taken for an empty result
  (`BatchFrontend.ClientApisPartOnLongBatches`).
- An event that a timer registers can be forgotten by the frontend in the same tick, because the ids to clean up are
  collected before the timers run (app_partition/furnace_frontend.py:319-345; `EventProtocol.TimerRegistrationCanBeLost`).
- `event_clear` is documented to take an id from `event_register`, but timers and events number their ids independently
  from 0 and events are looked up first (`EventIds.ClearedTimerRunsOn`, `EventIds.FirstClearIsRightIff`).
- An event carries its id only, and the id of a cleared event is given out at once; so a message in flight can reach the
  callback of another registration (`StaleEvents.StaleMessageReachesAnother`).
- The built-in process list never returns on a chain that runs into a loop without the head
  (`ProcessList.LoopIsWalkedForEver`, `ProcessList.LoopingBuiltIn`).
- The one-call walk compares a masked address with an unmasked head, so it never recognises the head of a kernel list
  (app_partition/examples/app_pslist_single.py:123; `ProcessList.HighHeadIsNeverRecognised`).
  `ProcessList.MaskedWalkIsExactIff` says exactly which rings it lists.
- The facilities partition calls `encode` on bytes when it answers a synchronous message
  (facilities_partition/facilities.py:206-207), which raises after the requests of the message have been carried out.
- The store adds characters and subtracts bytes (facilities_partition/facilities.py:381-391). A SET with an illegal key and
  a GET of an absent key are meant to answer VMI_FAILURE but raise: the reply has no `value` field, and a dictionary
  raises KeyError, not IndexError (facilities_partition/facilities.py:336, 356). These are the only requests that do so
  (`FacilitiesStore.DownIffUnanswered`). MAX_DISK_USAGE is 16 MiB, whatever its
  comment says (shared/constants.py:65).

## Model

| member | source | states |
|---|---|---|
| Schema.TagIsInjective | ipc_format/vmi.proto:22-144 | no two calls share a message number, so a reply column holds the replies of one kind of call only |
| Schema.TagIsRegular | ipc_format/vmi.proto:56-131 | the message numbers follow the order of widths and address spaces in vmi.proto |
| GuestMemory.ReadBytes | vmi_partition_drakvuf/furnace.cpp:1564-1567 | a successful read of n bytes is a number below 256 to the n |
| GuestMemory.WriteKeepsTheRest | vmi_partition_drakvuf/furnace.cpp:2468-2476 | a write leaves the mapping, the pauses and all memory outside its addresses |
| GuestMemory.WriteReadsBack | vmi_partition_drakvuf/furnace.cpp:2459-2476 | a write that succeeds reads back as the low bytes of its value, negative values included, unless two of its addresses are the same memory |
| Columns.ColumnAt | app_partition/batch_obj.py:119-121 | item i of a columnar message is found in its type's array at its rank, the number of earlier items of that type |
| Columns.ColumnLength | vmi_partition_drakvuf/furnace.cpp:1559-1570 | every array is as long as its type occurs in the type list |
| Columns.ColumnMember | vmi_partition_drakvuf/furnace.cpp:524-532 | every element of an array is the item of some position with that type and that rank |
| Columns.AppendEncodes | app_partition/batch_obj.py:119-121 | adding to one array and to the type list lays out the sequence with the new item at its end |
| Columns.LayoutIsInjective | app_partition/batch_obj.py:220-230 | a columnar message determines the sequence it lays out, so it can be decoded |
| CallMeaning.ReadBytesIff | vmi_partition_drakvuf/furnace.cpp:1559-1567 | a read returns a number if and only if the bytes at the address, behind the page tables of the process for virtual ones, are those of the number, lowest first; it fails if and only if one of them is not mapped |
| CallMeaning.ReadTextIff | vmi_partition_drakvuf/furnace.cpp:1500-1506 | a read of text returns s if and only if the bytes there are those of s in order, none zero, and then a zero below 2 to the 64; it fails if and only if the text breaks off before any zero |
| CallMeaning.WriteBytesIff | vmi_partition_drakvuf/furnace.cpp:2275-2279 | a write succeeds if and only if all its bytes are mapped; then each RAM cell behind them holds the byte of the last address it is behind, and everything else is as before |
| CallMeaning.StoredBytesAreHeld | vmi_partition_drakvuf/furnace.cpp:2275-2279 | so, where no two of the addresses are the same RAM, byte i of the range holds byte i of the value |
| CallMeaning.CallDoes | vmi_partition_drakvuf/furnace.cpp:2241-2283 | for all arguments, given or missing, and every guest: what each call replies and leaves, by the names of its arguments and with its width in bytes; only a READ_STR_PA whose text breaks off does not reply |
| CallMeaning.RunDoes | vmi_partition_drakvuf/furnace.cpp:3509-3535 | call k of any batch does that to the guest that the calls before it have left, with the arguments that its link gives it |
| CallMeaning.MeaningDoes | app_partition/batch_obj.py:220-243 | likewise by names alone, and its record shows the reply: status, and the result of a read |
| FurnaceEngine.BumpGivesRank | vmi_partition_drakvuf/furnace.cpp:3517-3524 | the count that typecount holds when message i is taken up is its rank among the messages of its type |
| FurnaceEngine.FieldDepth | vmi_partition_drakvuf/furnace.cpp:498-513 | the counter d of the reverse walk is the number of non-empty reply fields with a larger number |
| FurnaceEngine.FieldsAreTypes | vmi_partition_drakvuf/furnace.cpp:453-454 | the fields that ListFields returns are the types that have been replied |
| FurnaceEngine.Furnace.FindType | vmi_partition_drakvuf/furnace.cpp:471-496 | the first search returns the reply type at the linked message and moves the type cursor there, unless the cursor has passed it or there is no such reply; then it returns 0 and the cursor stays |
| FurnaceEngine.Furnace.FindReply | vmi_partition_drakvuf/furnace.cpp:502-610 | the second search finds an element exactly when index minus depth lies between the field cursor and the end of the column, and then that one |
| FurnaceEngine.Furnace.FindElement | vmi_partition_drakvuf/furnace.cpp:523-607 | its inner loop finds position index - d exactly if the field cursor has not passed it and the column reaches it |
| FurnaceEngine.Furnace.ResolveLink | vmi_partition_drakvuf/furnace.cpp:415-622 | the loops over columns, with cache and cursors as fields, give the value, the error and the new cache and cursors that the meaning of a link over the log in call order gives |
| FurnaceEngine.Furnace.ProcessLink | vmi_partition_drakvuf/furnace.cpp:397-739 | process_link turns a request's arguments into those that the meaning of its link gives, and touches only cache and cursors |
| FurnaceEngine.Furnace.ProcessSingle | vmi_partition_drakvuf/furnace.cpp:1525-1572 | a handler takes the engine from the state before the call to the state that the call means; the reply columns lay out the longer log; the error fields are set exactly if an error stopped it |
| FurnaceEngine.Furnace.TakeUp | vmi_partition_drakvuf/furnace.cpp:3512-3533 | the index handed to process_single is in range and selects request i of the batch, and afterwards i + 1 messages have run |
| FurnaceEngine.Furnace.Clear | vmi_partition_drakvuf/furnace.cpp:3496-3501 | whatever an earlier message left, a batch starts from an empty log, an empty cache and cursors at 0 |
| FurnaceEngine.Furnace.Dispatch | vmi_partition_drakvuf/furnace.cpp:3509-3535 | the loop over types and typecount runs the requests in the order they were added, up to the first that stops |
| FurnaceEngine.Furnace.ProcessProtobuf | vmi_partition_drakvuf/furnace.cpp:3482-3541 | the reply message lays out the replies of the batch in call order and names its error; a batch of more than 1000 messages gets an empty reply and leaves the guest alone |
| Refinement.ReplyRank | vmi_partition_drakvuf/furnace.cpp:3512-3533 | while no error is set, reply p stands in its column at the rank that request p has in its own, and reply types are request types plus 1 |
| Refinement.MissLandsIffAligned | vmi_partition_drakvuf/furnace.cpp:468-528 | in a coherent state, the search for an uncached backward link ends on the reply it names if and only if index minus depth is the message's rank and no cursor has passed it |
| Refinement.CursorsAdvance | vmi_partition_drakvuf/furnace.cpp:481-604 | after an aligned miss the cursors stand at the furthest position that any link so far has needed |
| Refinement.CacheAdvances | vmi_partition_drakvuf/furnace.cpp:612-613 | the cache then holds, for every message linked to so far and no other, the field that its links name |
| Refinement.HitIsCached | vmi_partition_drakvuf/furnace.cpp:459-460 | a link to a message linked before is served by the cache with what an uncached read of the reply gives now |
| Refinement.AlignedLinkStep | vmi_partition_drakvuf/furnace.cpp:397-739 | an aligned link gives the same arguments, or the same error, as reading the named reply |
| Refinement.AlignedStepIsCoherent | vmi_partition_drakvuf/furnace.cpp:457-619 | one aligned call keeps the cache exact and the cursors at the last miss |
| Refinement.AlignedRefinesDirect | vmi_partition_drakvuf/furnace.cpp:397-739 | on every aligned batch and every guest the cached executor has, after each message, the replies, the guest memory and the stop of direct execution, and its cache is coherent |
| LinkPlan.SearchFollowsPlan | vmi_partition_drakvuf/furnace.cpp:468-612 | on any replies to the calls of a batch, a search ends where the types and the link alone say, and leaves the cursors there |
| LinkPlan.SearchReadsAtIndex | vmi_partition_drakvuf/furnace.cpp:468-612 | a search reads the reply, of the kind of the message it names, at the linking call's own index minus the depth, if there is one and no search before it has gone to a later message or position; otherwise 0 |
| LinkPlan.PlanIsHistory | vmi_partition_drakvuf/furnace.cpp:481-604 | the type cursor is the furthest earlier message searched for, the field cursor the furthest position found, and each message linked to is planned where its links lead |
| LinkPlan.LinkReadsAtIndex | vmi_partition_drakvuf/furnace.cpp:457-619 | so where every link of every batch leads is told from the batch: the first link to a message searches so, and later ones lead where the first did |
| LinkPlan.LinkFollowsPlan | vmi_partition_drakvuf/furnace.cpp:415-622 | so cache and cursors hold at every message what the plan has for them |
| LinkPlan.RunFollowsPlan | vmi_partition_drakvuf/furnace.cpp:397-739 | every batch, aligned or not, has on every guest and after each message the replies, the guest memory and the stop of a run whose links read fields that were fixed beforehand, without cache, cursors or search |
| LinkPlan.AlignedIffNamed | vmi_partition_drakvuf/furnace.cpp:457-528 | after an aligned prefix, a link to an earlier message reads by plan the field that it names if and only if it is aligned |
| Exactness.RunIsPossible | vmi_partition_drakvuf/furnace.cpp:1525-1572 | the replies of every run are among those that the exactness results range over: each is one that some guest gives to the request, with the argument that its link has by then |
| Exactness.ReplyHasKind | vmi_partition_drakvuf/furnace.cpp:1500-1522 | the fields of a reply, by the request: pausing replies 0, an argument that is neither set nor linked makes status 1 and no result, READ_STR_PA replies status 0 or not at all, text cannot be carried |
| Exactness.PossibleHasKind | vmi_partition_drakvuf/furnace.cpp:698-707 | moreover a field that an earlier link has subtracted from 0 is 0 |
| Exactness.PlainIsGiven | vmi_partition_drakvuf/furnace.cpp:1559-1572 | conversely, whatever the arguments, some guest gives the reply in which each field that varies is 0 |
| Exactness.MarkedIsGiven | vmi_partition_drakvuf/furnace.cpp:1559-1572 | and for each field that varies, some guest gives one in which that field is 1 and no other |
| Exactness.WitnessIsPossible | vmi_partition_drakvuf/furnace.cpp:397-739 | such replies do not stop any link that some replies let pass |
| Exactness.RunResolves | vmi_partition_drakvuf/furnace.cpp:415-622 | the value of a link in a run is that of its planned source |
| Exactness.LinkIsRightIff | vmi_partition_drakvuf/furnace.cpp:457-619 | whatever comes before it, a link to an earlier message is resolved as documented on all replies that the batch can have by then if and only if it reads the field it names, or one that always holds the same as that field, or finds nothing and that field is always 0 |
| Exactness.BatchIsRightIff | vmi_partition_drakvuf/furnace.cpp:397-739 | all links of a batch are resolved as documented if and only if each meets that condition, which depends on the batch only |
| Exactness.RightBatchIsDirect | vmi_partition_drakvuf/furnace.cpp:397-739 | and then the cached executor does on every guest what direct execution does, in replies, guest memory and stop, aligned or not |
| Exactness.AlignmentIsExact | app_partition/batch_obj.py:107-114 | after an aligned prefix that some guest lets run, alignment is sufficient for a link, and necessary too if the field it names is not the same on all guests |
| Exactness.FollowPointerReadsElsewhere | app_partition/batch_obj.py:107-114 | the documented meaning fails on a two-call pointer chase, for all addresses: the second call reads at its own offset, not at the pointer |
| Exactness.FollowPointerShows | app_partition/batch_obj.py:107-114 | there is a guest on which the replies differ |
| Errors.StoppedAt | vmi_partition_drakvuf/furnace.cpp:3525-3529 | a stopped batch stopped at the first call without a reply, and that call changed neither replies nor guest |
| Errors.CursorsBehind | vmi_partition_drakvuf/furnace.cpp:416 | the type cursor is below the message number from message 1 on |
| Errors.ForwardCheckIsFirstMessageCheck | vmi_partition_drakvuf/furnace.cpp:415-421 | error 10 stops a batch if and only if its first message has a link, wherever links point |
| Errors.SearchFault | vmi_partition_drakvuf/furnace.cpp:558-599 | a search never meets a reply of the wrong kind: its only error is 20, on a text field |
| Errors.LegalStopsAreExplained | vmi_partition_drakvuf/furnace.cpp:415-735 | of the link errors 10 to 28, batches with links that resolve to earlier messages, existing fields and arguments meet only 20, 25 and 26, at a call whose link has the reason; nothing else stops them but a READ_STR_PA without a string |
| Errors.HarmlessRunsToTheEnd | vmi_partition_drakvuf/furnace.cpp:3509-3535 | links of numbers into uint64 and int32 arguments that never subtract let a batch run to its end on every guest |
| Errors.PrefixRunsAlone | vmi_partition_drakvuf/furnace.cpp:3504-3534 | while no link among the first i messages points past the first m, those i run as they would in the batch of the first m |
| Errors.PrefixRunsAloneIff | vmi_partition_drakvuf/furnace.cpp:423-432 | messages that ran within a batch run alike on their own if and only if none of their links points past them; otherwise their own batch stops |
| Errors.ExecutedCallsArePrefix | vmi_partition_drakvuf/furnace.cpp:3504-3534 | for every batch the calls executed are a prefix; their replies and guest writes are those of that prefix alone if and only if none of their links points past it |
| Errors.EveryPrefixRunsAloneIff | vmi_partition_drakvuf/furnace.cpp:3504-3534 | for every batch, stopped or not, every prefix of the calls executed runs as it would alone if and only if none of them links to a later message |
| Errors.UnansweredLinksCarryZero | vmi_partition_drakvuf/furnace.cpp:457-620 | a link to a message that is not answered when it is reached is not refused and carries 0, and so does every later link to that message, answered by then or not |
| LinkArithmetic.AddIsExactIffItFits | vmi_partition_drakvuf/furnace.cpp:690-724 | F_ADD into a uint64 adds integers exactly when the sum is below 2 to the 64, and wraps otherwise |
| LinkArithmetic.SubIsRefusedIffNegative | vmi_partition_drakvuf/furnace.cpp:698-707 | F_SUB into a uint64 stops with error 26 exactly when the difference would be negative, and is the difference otherwise |
| LinkArithmetic.Int32AddWrapsAt32Bits | vmi_partition_drakvuf/furnace.cpp:664-728 | F_ADD into an int32 stores the 32-bit two's complement sum: sign extension and truncation cancel |
| LinkArithmetic.Int32AddUsesLowBitsOnly | vmi_partition_drakvuf/furnace.cpp:664-728 | what F_ADD stores in an int32 depends only on the low 32 bits of both operands |
| LinkArithmetic.OperateIsExactIff | vmi_partition_drakvuf/furnace.cpp:690-735 | for each operator, the 64-bit result as it is stored in a field is the integer result exactly under a range condition on the operands |
| LinkArithmetic.CombineIsExactIffItFits | vmi_partition_drakvuf/furnace.cpp:657-735 | for every operator and both argument types, a link computes what unbounded integers would exactly when the operands meet a stated range condition |
| LinkArithmetic.RunIsExactIfAllFit | vmi_partition_drakvuf/furnace.cpp:657-735 | a run in which every link that is reached meets the range condition is the run over the integers |
| LinkArithmetic.AlignedRunIsExactIfAllFit | vmi_partition_drakvuf/furnace.cpp:397-739 | so the cached executor agrees with an interpreter over the integers on aligned batches whose links fit |
| BatchSource.SetArgsInRange | app_partition/batch_obj.py:122-123 | arguments that protobuf accepts are in range, so every built request is well typed |
| ClientMeaning.GivenArgs | app_partition/batch_obj.py:122-123 | an argument of a request holds the value given under its name, and is unset if none is |
| ClientMeaning.OperatorsAre | shared/constants.py:46-51 | the operators are 1, 2 and 3 and no others |
| ClientMeaning.CombineGives | vmi_partition_drakvuf/furnace.cpp:698-735 | into a 64-bit argument, 1 stores current + referenced modulo 2 to the 64, 2 the difference or error 26 if it is negative, 3 the referenced number; into an int32 argument the same modulo 2 to the 32, with a negative current taken as 64 bits in the comparison; a 64-bit value to write is error 25; other arguments stay |
| ClientMeaning.CompiledLinkGives | app_partition/batch_obj.py:107-114 | so does a link that add has compiled, to the call under its label, from the field and into the argument that it names |
| ClientMeaning.ItemLinkGives | app_partition/furnace_frontend.py:494-504 | and a link of an item that prep_batch has accepted, by its numbers |
| ClientMeaning.LinkIntoLinkStops | app_partition/batch_obj.py:150-160 | a link whose target is `link` is accepted by add and always stops the batch, with error 20 or 25 or undefined |
| ClientMeaning.FieldNumberFails | vmi_partition_drakvuf/furnace.cpp:561-600 | a number past the fields of the reply is error 18, but for the first, which is undefined |
| ClientMeaning.ArgNumberFails | vmi_partition_drakvuf/furnace.cpp:634-676 | a number past the arguments is error 25 for `link`, undefined for the next, and error 22 beyond |
| ClientMeaning.SettableIff | app_partition/batch_obj.py:122-123 | an argument is accepted if and only if the call has one of that name, and the value is a uint64 for addresses, an int64 for 64-bit values, and an int32 otherwise |
| ClientMeaning.AddAcceptedIff | app_partition/batch_obj.py:119-160 | add does not raise if and only if all values are accepted, and a link, if all four linkage arguments are there, names an earlier label, a field of the latest call under it, an argument, and operator 1, 2 or 3, on a read or write |
| ClientMeaning.ItemOkIff | app_partition/furnace_frontend.py:484-510 | the same for an item of a batch array, with indices of 32 bits |
| BatchSource.CompiledIsWellTyped | app_partition/batch_obj.py:119-160 | whatever add builds is well typed, so that is no assumption on compiled batches |
| BatchSource.LinksMeanWhatTheySay | app_partition/batch_obj.py:125-160 | with distinct labels a compiled link's numbers name an earlier call, the result field, the argument and the operator that the add named by strings, and there is a link exactly when one was asked for |
| BatchSource.LinkGoesTo | app_partition/batch_obj.py:126-127 | the message that a link goes to is the one under the label |
| BatchSource.CompiledIsLegal | app_partition/batch_obj.py:125-160 | batches built by add with distinct labels and links into arguments meet the conditions of LegalStopsAreExplained |
| BatchSource.ReusedLabelIsRightIff | app_partition/batch_obj.py:125-160 | for all programs: a link goes to the first call under its label; it names the field that was asked for if and only if that call and the latest under the label have as many reply fields, and goes to the latest if and only if there is no other |
| BatchSource.RepeatedLabelsMixUp | app_partition/batch_obj.py:126-127 | a pair of adds for which it does not: the link carries a field number that its message's reply lacks |
| BatchMeaning.CompilationPreservesMeaning | app_partition/batch_obj.py:119-165 | compiling preserves meaning: running the numbers directly yields the records, the guest and the stop that the names mean, for every program with distinct labels |
| BatchMeaning.AlignedBatchComputesItsMeaning | vmi_partition_drakvuf/furnace.cpp:3482-3541 | so does running them with cursors and cache, whenever the compiled batch is aligned and within 1000 messages |
| BatchObject.Decode | app_partition/batch_obj.py:220-243 | results() yields one record per reply, in call order, record i under label i with the fields of reply i, although replies lie in per-type arrays; it raises exactly if there are more replies than labels |
| BatchObject.AppendRequest | app_partition/batch_obj.py:119-121 | the message keeps laying out the requests in the order of the adds |
| BatchObject.DescribesNext | app_partition/batch_obj.py:162-165 | namestack and namemap keep describing the adds, and the requests stay their compilation |
| BatchObject.BatchObj.constructor | app_partition/batch_obj.py:61-68 | establishes the object's invariant |
| BatchObject.BatchObj.Reset | app_partition/batch_obj.py:70-83 | re-establishes the invariant from any state, with no adds |
| BatchObject.BatchObj.SetAll | app_partition/batch_obj.py:122-123 | succeeds exactly if protobuf takes every argument |
| BatchObject.BatchObj.Build | app_partition/batch_obj.py:119-160 | the message that add builds is the compilation of its arguments, and it raises exactly when there is none |
| BatchObject.BatchObj.Add | app_partition/batch_obj.py:85-165 | a normal return extends the program by the compiled request and keeps the invariant (names, order, types, namemap agree; a raw message is the current one); a raise leaves a message behind that no label describes |
| BatchObject.BatchObj.Serialize | app_partition/batch_obj.py:185-192 | SERIALIZED means that raw_out is the current request |
| BatchObject.BatchObj.Parse | app_partition/batch_obj.py:194-211 | reaches RESULTS_PARSED exactly if there are as many replies as adds and no error |
| BatchObject.BatchObj.Results | app_partition/batch_obj.py:213-243 | a raw reply yields the labelled records exactly if every add was answered without error |
| BatchObject.BatchObj.ResultsSize | app_partition/batch_obj.py:175-183 | after a raw reply it is the number of adds, or it raises |
| BatchFrontend.BatchSend | app_partition/furnace_frontend.py:449-467 | what runs is the batch as it is now, never an earlier serialisation, and the reply that comes back is that of its run |
| BatchFrontend.ParsedIffAllRan | app_partition/batch_obj.py:194-211 | parse() accepts a reply exactly when no call stopped the batch and it has at most 1000 messages |
| BatchFrontend.PrepItem | app_partition/furnace_frontend.py:486-508 | an item becomes the request of its call, arguments and link, or raises, exactly on an operator outside ACCEPT_OPR, an index outside uint32, a call that takes no link, or a refused argument |
| BatchFrontend.PrepBatch | app_partition/furnace_frontend.py:471-509 | an array of dicts becomes the message that lays out its requests, or it raises, exactly if an item is refused |
| BatchFrontend.ProcessBatchResults | app_partition/furnace_frontend.py:511-576 | raises exactly on an error, and otherwise collects the records of the replies by label |
| BatchFrontend.Batch | app_partition/furnace_frontend.py:578-591 | batch() succeeds exactly if the batch is not stopped |
| BatchFrontend.DictIsTheRecords | app_partition/furnace_frontend.py:540-576 | under distinct labels the dict of the replies holds each record under its label and nothing else |
| BatchFrontend.SendAndCollect | app_partition/furnace_frontend.py:449-467 | sending and collecting succeed exactly if no call stops the batch and it has at most 1000 messages; the records are those of its run |
| BatchFrontend.BothApis | app_partition/furnace_frontend.py:540-591 | on one guest, for the same calls under the same, distinct labels, results() and batch() leave the same guest; up to 1000 calls one succeeds if and only if the other does, and then the dict is precisely the map of the records; beyond, results() raises and batch() returns an empty dict |
| BatchFrontend.RunProgram | app_partition/batch_obj.py:85-243 | columns out, cursors and cache, columns back: an aligned program under distinct labels yields the records that its names mean, leaves the guest that they mean, and raises exactly where they stop |
| BatchFrontend.SameRequestsIffSameLinks | app_partition/furnace_frontend.py:491-508 | adds and array items with the same calls and arguments are the same requests if and only if their links are |
| BatchFrontend.LinkIsItemsIff | app_partition/batch_obj.py:125-160 | a compiled link is an item's link if and only if the item's indices are those of the call, the result field and the argument that the add names, and the operators are the same |
| BatchFrontend.ClientApisPartOnLongBatches | app_partition/furnace_frontend.py:528-533 | on more than 1000 messages of any kind, batch_send with results() raises, batch() returns an empty dict, and both leave the guest alone |
| Pslist.LabelsDiffer | app_partition/examples/app_pslist_pipeline.py:127-150 | the labels f"{i}1", f"{i}2", f"{i}3" are distinct for all i |
| Pslist.DecimalDenotes | app_partition/examples/app_pslist_pipeline.py:127-150 | the number in a label is the decimal numeral of the hop |
| Pslist.NamesAreDistinct | app_partition/examples/app_pslist_pipeline.py:122-155 | all labels of the program are distinct, at every length |
| Pslist.PslistShape | app_partition/examples/app_pslist_pipeline.py:122-155 | the compiled program has its links where the hops are: each part of hop i goes to the pointer of hop i - 1 |
| Pslist.HopRank | app_partition/examples/app_pslist_pipeline.py:127-154 | each part of hop i has rank i among its kind |
| Pslist.HopDepth | vmi_partition_drakvuf/furnace.cpp:502-513 | at the first part of hop i, one non-empty reply field has a larger number than READ_ADDR_VA_RET |
| Pslist.PslistIsAligned | app_partition/examples/app_pslist_pipeline.py:122-155 | the pipeline is aligned at every length: hop i's lookup lands on READ_ADDR_VA_RET[i - 1], and its other parts hit the cache |
| PslistResult.PointerRecord | app_partition/examples/app_pslist_pipeline.py:146-154 | the pointer record of a hop holds the entry of the next hop |
| PslistResult.PslistMeans | app_partition/examples/app_pslist_pipeline.py:122-155 | by names alone, each hop reads name, pid and next pointer at the entry that many pointers on from the head |
| PslistResult.PslistReturnsTheList | app_partition/examples/app_pslist_pipeline.py:115-158 | at every length up to 1000 messages and on every guest, the pipeline runs to its end, leaves the guest as it was, and yields the name, pid and next pointer found at each hop |
| PslistResult.PslistRecordsHold | app_partition/examples/app_pslist_pipeline.py:115-158 | the records of hop i, under the labels i1, i2 and i3, are the text at the name, the number in the four bytes at the pid and that in the eight bytes of the pointer of a list entry, or status 1 where they cannot be read; entry 0 is the head, and entry i + 1 what the record of pointer i says |
| PslistResult.OnlyUsableCompile | app_partition/examples/app_pslist_pipeline.py:122-154 | from two hops on, the program compiles only if all its addresses and offsets are 64-bit, so PslistReturnsTheList then assumes no more than that the adds return |
| PslistResult.PrepBatchPslistSelf | app_partition/examples/app_pslist_pipeline.py:115-158 | the loop of adds builds exactly that program; from two hops on, no add raises if and only if all addresses and offsets are 64-bit |
| PslistResult.PslistBatch | app_partition/batch_obj.py:24-43 | the documented usage: building, serializing, sending and taking all of results() returns those records and leaves the guest unchanged |
| ProcessList.ProcessProcessList | vmi_partition_drakvuf/furnace.cpp:744-803 | on every guest, after any number of rounds the built-in has returned exactly the entries until the walk first stops, in order, with names, pids and the status of the last pointer read; or it has met the first entry without a readable name; or it has listed as many entries as rounds and goes on |
| ProcessList.ListedAreHeld | vmi_partition_drakvuf/furnace.cpp:773-793 | process i of the built-in has the text at the name of entry i, and as pid the four bytes there as a signed number, or, where they cannot be read, the pid of the process before |
| ProcessList.NameFailsIff | vmi_partition_drakvuf/furnace.cpp:779-784 | a name fails exactly where its text breaks off before a zero |
| ProcessList.WalkEndsIff | vmi_partition_drakvuf/furnace.cpp:773-797 | the walk ends if and only if it stops, at an unreadable pointer or back at the head, within as many entries as the guest has mapped addresses |
| ProcessList.StillRunningIsForEver | vmi_partition_drakvuf/furnace.cpp:773-797 | a walk that still goes on after that many rounds never ends |
| ProcessList.LoopIsWalkedForEver | vmi_partition_drakvuf/furnace.cpp:773-797 | the chain of a certain guest runs into a loop without the head, and the walk along it never stops |
| ProcessList.LoopingBuiltIn | vmi_partition_drakvuf/furnace.cpp:744-803 | there every name is readable, and the built-in itself is still running after any number of rounds, with one process listed in each |
| ProcessList.EntriesAreDistinct | vmi_partition_drakvuf/furnace.cpp:773-797 | the listed entries are distinct: of a ring, every node once |
| ProcessList.BuiltInListsTheHops | vmi_partition_drakvuf/furnace.cpp:776-785 | entry i of the built-in is hop i of the pipeline: the same name and, where the read succeeds, the same pid as a signed number |
| ProcessList.ReadProcess | app_partition/examples/app_pslist_single.py:110-115 | one round of the walk reads what the hop of the pipeline reads, or raises exactly if an address exceeds 64 bits |
| ProcessList.DoPslist | app_partition/examples/app_pslist_single.py:93-130 | the one-call walk stops at the first masked entry that equals the head, or after 101 rounds, and has listed the hops until then; it raises exactly if an address before that exceeds 64 bits |
| ProcessList.MaskedWalkIsExactIff | app_partition/examples/app_pslist_single.py:123-127 | of a ring of any length it makes one round per entry if and only if there are at most 101 entries, the mask keeps the head unless there are exactly 101, and the mask takes no other entry to the head |
| ProcessList.MaskedWalkStopsAtRing | app_partition/examples/app_pslist_single.py:123-127 | so it lists exactly a ring of at most 101 entries if the mask keeps the head and takes no other entry to it |
| ProcessList.HighHeadIsNeverRecognised | app_partition/examples/app_pslist_single.py:123-127 | with a head above 48 bits it always makes 101 rounds, and a ring is listed exactly only if it has 101 entries |
| EventProtocol.TakenIds | vmi_partition_drakvuf/furnace.cpp:3646-3650 | pigeonhole: while the ids below i are taken, there are at least i events, so the search ends |
| EventProtocol.FreeFrom | vmi_partition_drakvuf/furnace.cpp:3646-3650 | the search from i on ends on an id that is free, with all smaller ones taken |
| EventProtocol.FreeIdIsLeast | vmi_partition_drakvuf/furnace.cpp:3643-3655 | add_event gives out the least free id, at most the number of events |
| EventProtocol.StepKeepsBalance | app_partition/furnace_frontend.py:248-283 | every step of either side keeps: outstanding pauses are those of synchronous events in flight or being handled, plus the app's pauses, minus its resumes |
| EventProtocol.PausesAreConserved | app_partition/furnace_frontend.py:248-283 | so does every run, over all interleavings, with callbacks that raise, unknown ids, and the shared message buffer overwritten |
| EventProtocol.GuestRunsWhenAllIsHandled | app_partition/furnace_frontend.py:281-283 | once no event is in flight or being handled and the app's own pauses are resumed, the guest runs |
| EventProtocol.CallKeepsCapacity | vmi_partition_drakvuf/furnace.cpp:2995-3002 | every call keeps the capacity: 200 events, one more with syscall tracing, ids up to 200 |
| EventProtocol.CapacityIsKept | vmi_partition_drakvuf/furnace.cpp:805-859 | in every reachable state there are at most 201 events and no id is above 200, although start_syscall bypasses the cap |
| EventProtocol.StepKeepsActiveRegistered | app_partition/furnace_frontend.py:739-982 | every step keeps that active events of the frontend are registered with the VMI partition |
| EventProtocol.ActiveEventsAreRegistered | app_partition/furnace_frontend.py:739-982 | so they are in every reachable state |
| EventProtocol.CleanupKeepsAgreementIff | app_partition/furnace_frontend.py:342-345 | a cleanup keeps the converse exactly if none of the collected ids is in use again |
| EventProtocol.RegistriesAgreeIffNoneReused | app_partition/furnace_frontend.py:319-345 | a run agrees throughout if and only if no cleanup in it meets a reused id |
| EventProtocol.RegistriesAgree | app_partition/furnace_frontend.py:319-345 | where no timer callback registers an event, the active ids of the frontend are exactly the registered ones, always |
| EventProtocol.TimerRegistrationCanBeLost | app_partition/furnace_frontend.py:319-345 | otherwise they need not be: a run of eight steps from the start ends with an event that is registered and fires, and that the frontend has forgotten |
| EventProtocol.CleanupNeverFails | app_partition/furnace_frontend.py:342-343 | the collected ids are always held, so deleting them raises no KeyError, whatever the callbacks in between |
| EventHistory.RegistrationIff | vmi_partition_drakvuf/furnace.cpp:2991-3121 | over runs: event_register succeeds if and only if fewer than 200 events are held and DRAKVUF takes the trap, start_syscall if and only if the plugin is not owned; success adds one event under the least free id, active on both sides, and failure changes no event |
| EventHistory.EventOrigin | vmi_partition_drakvuf/furnace.cpp:3643-3655 | an event is what the call that gave out its id asked for, and has been held since |
| EventHistory.ActiveIffStarted | vmi_partition_drakvuf/furnace.cpp:3171-3191 | events are on if and only if there has been an events_start that no events_stop has followed |
| EventHistory.TrapFires | vmi_partition_drakvuf/furnace.cpp:244-288 | a trap that fires sends one message under its id, and pauses the guest if and only if its registration asked for that, exactly while events are on; otherwise nothing happens |
| EventHistory.PluginOrigin | vmi_partition_drakvuf/furnace.cpp:805-859 | the plugin is owned under the id that the start_syscall of its owner got, and nothing in between changes that |
| EventHistory.SyscallFires | vmi_partition_drakvuf/furnace.cpp:204-242 | a traced syscall sends one message under that id, and pauses the guest if and only if that start_syscall asked for it, whether events are on or not |
| EventHistory.PausesAreCounted | app_partition/furnace_frontend.py:248-283 | at each step the pause count is the app's pauses minus its resumes, counted in the run, plus the synchronous messages in flight or being handled |
| EventHistory.TimerRunsIff | app_partition/furnace_frontend.py:766-779 | a timer runs until an event_clear of its number that meets no event of that number; the backend callback runs for ever |
| EventHistory.DeleteTakesOutCollected | app_partition/furnace_frontend.py:319-345 | the end of a tick takes out exactly the events that were inactive when collected, all timers that were, and no timer that runs; if a timer was registered in between, the loop ends instead and nothing is taken out |
| EventIds.TimerIsClearedIffNoSuchEvent | app_partition/furnace_frontend.py:869-882 | event_clear reaches a timer exactly if the frontend holds no event of the same number |
| EventIds.TimersAreClearedIffNoClash | app_partition/furnace_frontend.py:869-882 | over every run, clearing a timer always clears it if and only if no event of its number is held at any such call |
| EventIds.NumbersAreDense | app_partition/furnace_frontend.py:766-779 | until something is cleared, the n events of a run have the numbers below n, and the timers those below their count |
| EventIds.FirstClearIsRightIff | app_partition/furnace_frontend.py:869-882 | so the first thing that an app clears, if it is a timer, is cleared if and only if its number is at least the number of events |
| EventIds.ClearedTimerRunsOn | app_partition/furnace_frontend.py:869-882 | a run of three calls in which clearing a timer clears an event, and the timer runs on |
| StaleEvents.OwnersAreTracked | app_partition/furnace_frontend.py:253-279 | over every run the registration behind each event id, each callback and each message in flight is the latest that was given the id, for messages when they were sent |
| StaleEvents.RightCallbackIffNotReused | app_partition/furnace_frontend.py:253-279 | a message that is handled reaches the callback of the registration that sent it if and only if its id has not been given out since it was sent |
| StaleEvents.AllRightIfNoneGivenInFlight | vmi_partition_drakvuf/furnace.cpp:3643-3655 | all messages do if no id is given out while a message under it is in flight |
| StaleEvents.StaleMessageReachesAnother | vmi_partition_drakvuf/furnace.cpp:3643-3655 | a run of seven steps in which the event of a cleared registration reaches the callback of the next one |
| EventEndpoints.Partition.AddEvent | vmi_partition_drakvuf/furnace.cpp:3643-3655 | the loop over taken ids ends and registers the event under the least free one |
| EventEndpoints.Partition.ProcessEventRegister | vmi_partition_drakvuf/furnace.cpp:2991-3121 | takes the registry from state to state as the protocol says, pauses balanced; a refused trap leaves no entry |
| EventEndpoints.Partition.ProcessEventClear | vmi_partition_drakvuf/furnace.cpp:3123-3169 | removes exactly the given event, or fails and changes nothing |
| EventEndpoints.Partition.ProcessStartSyscall | vmi_partition_drakvuf/furnace.cpp:805-859 | registers and owns the syscall event, unless it is owned already |
| EventEndpoints.Partition.ProcessStopSyscall | vmi_partition_drakvuf/furnace.cpp:861-897 | removes the owned syscall event, or fails |
| EventEndpoints.Partition.TrapCallback | vmi_partition_drakvuf/furnace.cpp:244-288 | pauses and sends as the protocol's trap step, and does nothing while events are stopped |
| EventEndpoints.Partition.SyscallCallback | vmi_partition_drakvuf/furnace.cpp:204-242 | the same for the syscall plugin, which events_stop does not mask |
| EventEndpoints.Frontend.EventRegister | app_partition/furnace_frontend.py:739-856 | frontend and VMI partition take one call step together; the id is entered as ACTIVE, or an exception leaves both lists alone |
| EventEndpoints.Frontend.RegisterTimer | app_partition/furnace_frontend.py:766-779 | timers and the backend callback draw fresh ids from their own counter |
| EventEndpoints.Frontend.EventClear | app_partition/furnace_frontend.py:858-896 | clears an event on both sides, or a timer, or raises: exactly when the partition lacks the event, the id is unknown, or it is the backend's |
| EventEndpoints.Frontend.StartSyscall | app_partition/furnace_frontend.py:927-960 | takes the call step; the id is that of the VMI partition |
| EventEndpoints.Frontend.StopSyscall | app_partition/furnace_frontend.py:962-982 | takes the call step; succeeds exactly if the id is held and the plugin is owned |
| EventEndpoints.StretchKeepsLaws | app_partition/furnace_frontend.py:235-347 | whatever world a run leads to, a stretch of steps leads to another in which the laws over runs hold |
| EventEndpoints.Frontend.constructor | app_partition/furnace_frontend.py:70-72 | the objects start where the runs start |
| EventEndpoints.Frontend.RunCallback | app_partition/furnace_frontend.py:279 | the calls of a callback are that many call steps, and leave the loop where it is |
| EventEndpoints.Frontend.HandleEvent | app_partition/furnace_frontend.py:248-283 | the event branch of the loop is the run of steps: receive, the callback's calls, and one resume exactly if the event had paused the guest, whether the callback returns or raises |
| EventEndpoints.Frontend.CollectCleanup | app_partition/furnace_frontend.py:319-325 | the iteration collects each inactive event once and nothing else |
| EventEndpoints.Frontend.DeleteCollected | app_partition/furnace_frontend.py:342-345 | the two deletion loops remove exactly what was collected and never a missing key |
| EventEndpoints.Frontend.RunTimers | app_partition/furnace_frontend.py:327-340 | the iteration over timerlist runs timers that are due, each once and each still active when its turn comes, and in the end all that are due and active; it collects inactive ones; it ends with an exception if and only if the last callback that ran raised or timerlist has grown by then, and none before it raised |
| EventEndpoints.Frontend.EndTick | app_partition/furnace_frontend.py:319-345 | collecting, timers and deleting are the steps that the protocol gives them |
| EventEndpoints.Frontend.Tick | app_partition/furnace_frontend.py:244-347 | one turn of the loop is a stretch of a run, of an event, backend messages, collecting, timers and deleting; so the laws over runs hold of the objects after every turn |
| FacilitiesStore.SizeIsLengthIffAscii | facilities_partition/facilities.py:364-391 | a text has as many bytes as characters if and only if all are ASCII |
| FacilitiesStore.CharIsShortest | facilities_partition/facilities.py:364-391 | each character counts as the fewest UTF-8 bytes that carry it |
| FacilitiesStore.SizesAdd | facilities_partition/facilities.py:364-391 | the size of a text is the sum of those of its parts |
| FacilitiesStore.KeyIsOkIff | facilities_partition/facilities.py:401-406 | a key is refused if and only if it is empty, longer than 16, or has a character that is not allowed, other than a final newline after something |
| FacilitiesStore.BadKeysAreRefused | facilities_partition/facilities.py:326-357 | over histories, exactly for these keys a SET raises and a GET answers failure |
| FacilitiesStore.StoredKeysAreGood | facilities_partition/facilities.py:354-357 | so no stored key has any other character |
| FacilitiesStore.SetRefinesMapUpdate | facilities_partition/facilities.py:341-399 | an accepted SET maps its key to its value and changes no other key; a refused one changes nothing; keys keep distinct ids below io_id, and the files are exactly the ids in storage |
| FacilitiesStore.SetMovesTheBalance | facilities_partition/facilities.py:380-391 | a SET moves the gap between live bytes and disk_usage by its value's bytes minus characters |
| FacilitiesStore.StoreRefinesMap | facilities_partition/facilities.py:315-399 | after every history the store holds what a plain map would |
| FacilitiesStore.GetLooksUpMap | facilities_partition/facilities.py:315-339 | GET answers the last value set under its key, VMI_FAILURE for an illegal key, and raises for an absent one |
| FacilitiesStore.SetAnswersByRoom | facilities_partition/facilities.py:341-399 | over every history, a SET of an illegal key raises, and one of a legal key succeeds, and updates the plain map, exactly if the value fits into the quota beside the live bytes, less the excess |
| FacilitiesStore.DownIffUnanswered | facilities_partition/facilities.py:336-357 | a history ends in an exception of a handler if and only if it has a SET of an illegal key or a GET of a legal key that holds nothing |
| FacilitiesStore.DiskAccounting | facilities_partition/facilities.py:364-391 | over every history, live bytes are disk_usage plus the bytes beyond characters of all successful SETs, and exceed the quota by no more than that |
| FacilitiesStore.UsageIsExactIffAscii | facilities_partition/facilities.py:364-391 | disk_usage is the size of the files if and only if every value set has been ASCII, and then they keep within the quota |
| FacilitiesStore.ServeAllIsAfter | facilities_partition/facilities.py:255-272 | serving a message request by request is the history that these laws are about |
| FacilitiesStore.Facilities.ProcessGet | facilities_partition/facilities.py:315-339 | answers as the value model says, and changes nothing |
| FacilitiesStore.Facilities.ProcessSet | facilities_partition/facilities.py:341-399 | takes storage, counter, usage and files, updated in place, to the state of the value model, and keeps it sound |
| FacilitiesStore.Facilities.RemoveExisting | facilities_partition/facilities.py:381-385 | an overwritten key loses its file, and the usage its bytes |
| FacilitiesStore.Facilities.WriteNew | facilities_partition/facilities.py:387-395 | the new value goes into a file under a fresh id |
| FacilitiesStore.Facilities.Fe2beProcessProtobuf | facilities_partition/facilities.py:249-272 | GETs and SETs spread over two lists are served in the order of the types, up to an exception |

## Left out

- Transport: ZMQ sockets, framing, keys, pollers and logging; channels are sequences with reliable, ordered delivery.
- Protobuf's wire format and reflection: serialising and parsing are inverse, and ListFields is the non-empty fields.
- DRAKVUF, LibVMI and Xen: guest memory is a map behind page tables, with a pause counter. A read that fails is taken to
  leave the result 0, and a write that is partly unmapped is taken to write nothing.
- Calls whose reply or request field is singular (add cannot build them), the translate and ksym calls (they ignore
  links), the raw reads and writes, and the default branch of process_single for unknown types; so a batch consists of
  pauses, resumes, reads of integers, addresses and strings, and integer writes.
- Undefined behaviour of the C++ code (a link index equal to a field count, READ_STR_PA without a string) is one
  outcome, after which nothing is said about the reply.
- Execution.Operate: errors 12 to 16, 19, 21, 23, 24, 27 and 28, for null descriptors and operators outside the enum,
  cannot occur with the messages modelled and have no branch.
- BatchObject.BatchObj.Add: a msgtype that VMIMessage does not know raises before anything changes and is not modelled;
  after an add that raises, the object has no invariant until reset.
- LinkArithmetic.RunIsExactIfAllFit: stated in one direction; call by call the condition is exact, but two runs with
  different arguments can still read equal memory.
- BatchSource.CompileAdd: an index of more than 32 bits, in a batch of more calls than that, raises and is not modelled.
- Exactness.LinkIsRightIff: each reply is one that some guest gives, but not the same guest for all replies; one guest may
  tie some of them together, as when two calls read one address, and so hide a link that is not right.
- StaleEvents.RightCallbackIffNotReused: for apps as in EventProtocol.CapacityIsKept.
- PslistResult.PslistReturnsTheList: the app's 120 hops are any number n with 3 n + 2 messages within the limit, and
  the looked-up offsets must be non-negative 64-bit numbers, which protobuf demands of the adds.
- ProcessList.ProcessProcessList: the bound on the rounds is not in the source; it makes the loop observable where it does
  not end. Failing symbol and offset lookups before the walk are not modelled.
- EventProtocol.CapacityIsKept: for apps that pass stop_syscall the id of start_syscall and never pass that id to
  event_clear; otherwise the partition would remove a trap that does not exist. The registries' agreement assumes the same.
- EventProtocol.RegistriesAgree: one frontend. process_event_clear has no owner, so another one could clear an event under
  an id that it has held before.
- The check that an app's constructor registers at most one backend callback, the contents of an EVENT message beyond
  its id and guest_paused, MEM events (which both sides refuse), and arguments that event_register rejects locally.
- EventEndpoints.Frontend.Tick: callbacks are given by the calls that they make, and which timers are due is given, not
  computed from the clock. Traps fire between the steps of a run, not inside a turn of the object.
- The relay of backend messages by the facilities partition.
- FacilitiesStore.StoreRefinesMap: histories are of the handlers; the exception after a synchronous message, which ends the
  service whatever the message asked for, is not part of them.
- FacilitiesStore.Facilities.ProcessSet: file operations succeed; the bare except around them is not modelled. The
  characters that `\w` matches are a parameter.
- The mock runtime, a second copy of the batch engine with four calls; the syscall inspector; syscalls.cpp; other
  example apps; memory allocation.
