# malloc_hook: a Dafny model of its unwinder, stack pipeline, samplers, trace tools and bootstrap allocator

The project models the parts of malloc_hook in which a fast or concurrent form
has to agree with a simpler one, and proves that it does, or exactly when it does.

| file | component |
|---|---|
| `FdeIndex.dfy` | the FDE interval map, its flattened search table and the lookup by address |
| `CfaProgram.dfy`, `OffsetExtended.dfy` | the call frame instruction interpreter, and the one handler that departs from the standard |
| `RowCache.dfy` | the caches of unwind rows and CIE rules |
| `RowMeaning.dfy` | what a row says of the caller's registers, and its evaluation in place |
| `PipelineModel.dfy`, `PipelineProofs.dfy`, `PipelineTheorems.dfy`, `PipelineResults.dfy`, `Pipeline.dfy` | the asynchronous stack pipeline as a state machine, its invariants, the theorems over all runs, what its results and counters say, and the class with its ring buffer |
| `Registry.dfy` | the registry of module snapshots by generation |
| `MapRegions.dfy`, `Maps.dfy` | re-reading the memory maps in place |
| `JitEntries.dfy`, `JitLists.dfy`, `JitReader.dfy` | the JIT symbol file list over time, what writers do to it, and the reader |
| `Proto.dfy`, `Strip.dfy`, `StripLoops.dfy`, `StripTheorems.dfy`, `Merge.dfy` | the protobuf codec and the trace rewriting scripts |
| `Symbols.dfy`, `SymbolNames.dfy` | symbol lookup with its cache and remap table, and names in the string table |
| `InodeSet.dfy` | the generation-stamped set of buffer inodes |
| `Sampler.dfy` | the sampling schedule, the peak threshold and the sampler thread with its wait loop |
| `SampleGate.dfy` | the gate that skips the mapping pass of a sample |
| `Bootstrap.dfy` | the allocator used before libc's is resolved |
| `PageCache.dfy` | the page cache in front of a memory object |
| `Wrappers.dfy`, `OrderedMap.dfy` | option and result types, ordered-map searches |

Code that changes state in place is a class or a method with loops; each is proved
against a specification function or predicate, and the theorems are about those.
`None` (or `Err`) stands for a failed call or a raised exception.

How the environment enters the models:

- The pipeline's lock regions are atomic steps of any number of submitters, releasers and
  flushers, of Shutdown and of the worker; symbol resolution gives any result.
- The JIT reader meets a target whose memory is a function of time. With sequence locks, the writers
  are assumed to let locks only grow and to change an entry only together with its lock or while it is odd. For
  completeness (`Concurrent`) they insert at the head and unlink an entry only once its lock is odd, and no read fails.
- The sampler thread meets any non-decreasing clock, any samples and callback answers, and a running flag that is
  cleared once, at any moment. mmap answers are
  inputs of the allocator and are assumed to be fresh mappings; zlib is a pair of functions with
  inflate undoing deflate.

Where the code and its documentation differ, the model follows the code:

- Flush is documented as a barrier that includes callbacks. When the worker cannot mark its thread, the wait can
  hold before the callbacks of the failed items (`FlushIsBarrier`, `FlushMissesFailedCallbacks`).
- `_strip_packet` and its caller promise to remove every marker. A compressed stream whose key is not minimally encoded
  is not looked into (`StripIsExactIffExposed`, `HiddenMarkerStays`).
- `BootstrapRealloc` frees the old block only if it holds at least one byte (`Realloc`, `EmptyBlockStays`).
- `Reparse` compares start, end, flags and name but not the file offset, so a region remapped at another offset
  keeps the old one (`EqualsFreshIff`, `StaleOffsetSurvives`).
- `merge_overlay_packets` copies a last packet that is cut short and may append overlays behind it
  (`MergedReadsIff`, `SwallowedOverlay`).
- The handler of DW_CFA_offset_extended (0x05) does not multiply by the data alignment factor, unlike
  section 6.4.2.3 of DWARF 4 (`OffsetExtendedIff`, `OffsetExtendedIsUnfactored`).
- The gate of the mapping pass is said to skip only samples already below the peak. It leaves out gpu bytes, and the
  figure it carries can count a buffer again or miss one (`SkippedLeavesPeakIff`, `CarriedError`, `CarriedIsExactIff`,
  `MissedPeakIff`, `CarriedCountsTwice`).
- The symbol cache is keyed by end addresses, so symbols that share an end can be confused
  (`SearchRightIff`, `MisledByIff`, `OneStartNeverMisleads`, `SharedEndMisleadsIff`); a mark of size zero at the end of a
  function hides it (`MarkAtEndHides`, `GetName`).

## Model

| member | source | states |
|---|---|---|
| `FdeIndex.FirstCoveringIsFirst` | unwindstack/DwarfSection.cpp:753-770 | the linear scan used as reference returns an FDE that covers the address and that no earlier one does, and nothing exactly when none covers it |
| `FdeIndex.InsertFde` | unwindstack/DwarfSection.cpp:640-656 | the interval map stays disjoint, and every address keeps its owner or, if it had none and the new FDE covers it, gets the new FDE |
| `FdeIndex.WalkedAreFdes` | unwindstack/DwarfSection.cpp:776-791 | the walk sees exactly the FDEs in front of the first entry that cannot be read, up to and including one that runs past its own end |
| `FdeIndex.CollectFdes` | unwindstack/DwarfSection.cpp:774-791 | after the walk over the section each address is owned by the first FDE in section order that covers it, overlaps included |
| `FdeIndex.FlattenMap` | unwindstack/DwarfSection.cpp:793-797 | the flat table lists the ends and offsets of the map pieces in rising order, none missing, none added |
| `FdeIndex.LookupIsScan` | unwindstack/DwarfSection.cpp:760-770 | dropping the piece starts loses nothing: binary search plus the re-check of the whole FDE start equals the linear scan at every address |
| `FdeIndex.FdeTable.BuildFdeIndex` | unwindstack/DwarfSection.cpp:774-798 | the table built answers like the scan over the FDEs walked |
| `FdeIndex.FdeTable.GetFdeFromPc` | unwindstack/DwarfSection.cpp:753-770 | returns the first FDE in section order that covers the address, or none, building the index on first use |
| `CfaProgram.StepShape` | unwindstack/DwarfCfa.cpp:42-145 | in a program that only moves forward, only moves change the address, a move changes nothing else, and the row starts at the current address unless a remembered row is put back |
| `CfaProgram.RowContainsPc` | unwindstack/DwarfCfa.cpp:42-145 | the range a computed row claims contains the address asked for and lies inside the FDE |
| `CfaProgram.RowStartsForward` | unwindstack/DwarfCfa.cpp:42-145 | the row starts no earlier than where the program began |
| `CfaProgram.RowAgrees` | unwindstack/DwarfCfa.cpp:42-145 | every address a row claims gets the same rules when the program is interpreted afresh for it |
| `CfaProgram.LaterSameRow` | unwindstack/DwarfCfa.cpp:42-145 | a later address below the end of the row ends in the very same state |
| `CfaProgram.RunIsLongestPrefix` | unwindstack/DwarfCfa.cpp:42-145 | stopping early is exact: the rules are those after the longest prefix that does not pass the address (section 6.4.1 of DWARF 4) |
| `CfaProgram.BalancedKeepsStack` | unwindstack/DwarfCfa.cpp:394-409 | a program with balanced remember and restore leaves the state stack as deep as it was, less what it pops |
| `CfaProgram.RestoreStateUndoes` | unwindstack/DwarfCfa.cpp:394-409 | remember, any balanced program, restore: every register rule and the stack are back |
| `CfaProgram.RestoresUndoProgram` | unwindstack/DwarfCfa.cpp:355-369 | from the rules of the CIE and with no row remembered, any program, remember_state and restore_state included, followed by a restore of every register it sets is back at the rules of the CIE; rows remembered before need only agree on the other registers |
| `OffsetExtended.OffsetExtendedIff` | unwindstack/DwarfCfa.cpp:349-353 | the extended form sets the rule the compact form sets if and only if the operand is sign-extended at the address width and operand * (data alignment - 1) is a multiple of it |
| `OffsetExtended.OffsetExtendedIsUnfactored` | unwindstack/DwarfCfa.cpp:81-92 | with data alignment -8 and operand 2 the compact form means 16 below the CFA and the extended form 2 above it |
| `CfaProgram.OneRuleAtMost` | unwindstack/DwarfCfa.cpp:322-539 | an instruction changes the rule of its own register, of the CFA or of the return address state, and no other |
| `CfaProgram.OwnRuleOnly` | unwindstack/DwarfCfa.cpp:322-539 | what it makes of that rule depends on nothing but that rule and the CIE |
| `CfaProgram.DisjointRulesCommute` | unwindstack/DwarfCfa.cpp:322-539 | instructions with different targets that succeed each alone succeed in either order with the same rules |
| `CfaProgram.CfaInParts` | unwindstack/DwarfCfa.cpp:411-440 | setting the CFA register and offset together equals setting them one after the other in either order (section 6.4.2.2 of DWARF 4) |
| `CfaProgram.DwarfCfa.GetLocationInfo` | unwindstack/DwarfCfa.cpp:42-145 | the interpreter loop over the object state computes the specified row, address and state stack, and fails exactly where the specification does |
| `RowMeaning.InstructionMeans` | unwindstack/DwarfCfa.cpp:349-515 | for every register instruction, callee, memory and CFA: the value its register has in the caller is the one the standard says (saved at an offset factored and sign-extended at the address width, computed, copied, by expression, lost, the same, or as in the CIE); offset_extended as the handler has it |
| `RowMeaning.OthersKeepValue` | unwindstack/DwarfCfa.cpp:349-515 | every other register keeps the value it had |
| `RowMeaning.CfaIsSet` | unwindstack/DwarfCfa.cpp:411-486 | def_cfa, its factored form and def_cfa_expression make the CFA the register plus the offset, or the value of the expression |
| `RowMeaning.CfaIsChanged` | unwindstack/DwarfCfa.cpp:417-499 | the instructions for half of the CFA change its register or its offset and keep the other |
| `RowMeaning.FailsIff` | unwindstack/DwarfCfa.cpp:355-545 | exactly which instructions fail |
| `RowMeaning.NegateTurnsRound` | unwindstack/DwarfCfa.cpp:525-543 | each negation turns the signing state of the return address round, starting from unsigned; two restore it and any rule there was |
| `RowMeaning.RegsInfo.Get` | unwindstack/RegsInfo.h:35-40 | reads what the register held before any was written |
| `RowMeaning.RegsInfo.Save` | unwindstack/RegsInfo.h:42-51 | remembers the value before the register is written |
| `RowMeaning.EvalRegister` | unwindstack/DwarfSection.cpp:424-482 | writes the caller value of one register, read from the registers as they were, or fails exactly when it cannot be had |
| `RowMeaning.EvalAll` | unwindstack/DwarfSection.cpp:534-557 | evaluating the rules one by one, in any order and in place, gives every register the value it has when all are evaluated at once; failure exactly when some rule fails |
| `RowMeaning.Eval` | unwindstack/DwarfSection.cpp:485-574 | the registers become those of the caller: each by its rule, the stack pointer the CFA, the program counter the return address or zero when that is lost; success and the final frame exactly when specified |
| `RowCache.CieCacheTransparent` | unwindstack/DwarfSection.cpp:577-598 | taking the CIE rules from the cache changes no row, and the cache stays sound |
| `RowCache.TransparentIffRowsAgree` | unwindstack/DwarfSection.cpp:40-67 | over every history of lookups the row cache is invisible if and only if any two rows agree wherever one claims an address of the other |
| `RowCache.WellFormedRowsAgree` | unwindstack/DwarfSection.cpp:40-67 | disjoint FDEs whose programs move forward inside them and do not end in restore_state meet that condition |
| `RowCache.WellFormedIsTransparent` | unwindstack/DwarfSection.cpp:40-67 | so on such a section every cached answer has the rules a fresh interpretation gives |
| `RowCache.FactorsAreTheCies` | unwindstack/DwarfSection.cpp:577-598 | a row is computed with the code and data alignment factors of the CIE of the FDE found |
| `RowCache.MissNeverCollides` | unwindstack/DwarfSection.cpp:60-61 | a miss never computes a row whose key is already in the cache |
| `RowCache.RestoringLastIsVisible` | unwindstack/DwarfCfa.cpp:400-409 | a program ending in restore_state makes an earlier lookup change a later answer |
| `RowCache.OverlapIsVisible` | unwindstack/DwarfSection.cpp:40-67 | overlapping FDEs make the cache visible although each is well formed alone |
| `RowCache.OverrunIsVisible` | unwindstack/DwarfSection.cpp:40-67 | a program that moves past its FDE makes the cache visible |
| `RowCache.RememberingCieIsVisible` | unwindstack/DwarfSection.cpp:577-598 | a CIE program that remembers a row makes the cache visible: the row is gone when the CIE rules come from the cache |
| `RowCache.DwarfSection.GetCfaLocationInfo` | unwindstack/DwarfSection.cpp:577-598 | the method updates the CIE cache and computes the row as specified, failures included |
| `RowCache.DwarfSection.StepRow` | unwindstack/DwarfSection.cpp:40-61 | the method answers and updates both caches as specified |
| `RowCache.DwarfSection.StepWellFormed` | unwindstack/DwarfSection.cpp:40-61 | on a well-formed section it answers like a fresh interpretation and keeps both caches sound |
| `PipelineProofs.InvStep` | backtrace/src/AsyncStackPipeline.cpp:340-677 | every step of submitters, releasers, flushers, Shutdown and the worker keeps the whole invariant, marker failure included |
| `PipelineProofs.ReachableInv` | backtrace/src/AsyncStackPipeline.cpp:340-677 | every reachable state satisfies it |
| `PipelineProofs.EraseKeeps` | backtrace/src/AsyncStackPipeline.cpp:413-423 | erasing a finished or dropped id never removes the identity of another id, in particular of a later submission of the same stack |
| `PipelineTheorems.WorkIsConserved` | backtrace/src/AsyncStackPipeline.cpp:363-391 | completed ids, the item in hand and the queue are the accepted ids in order; the counters add up; nothing completes twice |
| `PipelineTheorems.DedupIsBijection` | backtrace/src/AsyncStackPipeline.cpp:356-381 | results and identities have the same ids, and the dedup map relates keys and held, not dropped ids one to one |
| `PipelineTheorems.HeldStackIsDuplicate` | backtrace/src/AsyncStackPipeline.cpp:356-361 | a stack whose result is held is never given a second id |
| `PipelineTheorems.PendingSurvives` | backtrace/src/AsyncStackPipeline.cpp:393-444 | no step erases a pending result; it stays pending until it is recorded |
| `PipelineTheorems.RetentionIsBounded` | backtrace/src/AsyncStackPipeline.cpp:371-381 | at most 3 * capacity + 1 results are held, each FIFO holds at most capacity ids and lists exactly the results it stands for |
| `PipelineTheorems.FlushIsBarrier` | backtrace/src/AsyncStackPipeline.cpp:481-503 | when the wait holds every accepted id is recorded; its callback has returned, exactly once, if and only if the worker is not still issuing failed-marker callbacks |
| `PipelineTheorems.FlushMissesFailedCallbacks` | backtrace/src/AsyncStackPipeline.cpp:561-606 | a reachable state in which the wait holds before the callback of an accepted id |
| `PipelineTheorems.ShutdownDrains` | backtrace/src/AsyncStackPipeline.cpp:513-528 | after the join, on every path, nothing is pending or queued and every callback has returned |
| `PipelineTheorems.StoppedAcceptsNothing` | backtrace/src/AsyncStackPipeline.cpp:351-354 | from then on no step accepts anything |
| `PipelineTheorems.NoLostWakeups` | backtrace/src/AsyncStackPipeline.cpp:539-548 | unless all work is finished, all flushers are awake and a stopping worker is gone, a step of the worker is enabled; a flusher sleeps on a drained pipeline only during failed-marker callbacks |
| `PipelineTheorems.WorkerStepLowersRank` | backtrace/src/AsyncStackPipeline.cpp:530-677 | every step of the worker and every notice delivered lowers a rank of the state |
| `PipelineTheorems.AllWorkEnds` | backtrace/src/AsyncStackPipeline.cpp:530-677 | with no further callers every sequence of worker steps ends within the rank, and where no step is left every accepted id has returned, nobody sleeps and a stopping worker has exited |
| `PipelineResults.ResultsTellTheTruth` | backtrace/src/AsyncStackPipeline.cpp:602-655 | over every run each held result is the stack submitted under its id, Resolved exactly when its own resolution succeeded, Failed when it did not or the worker could not mark itself, Dropped exactly when there was no room, Pending otherwise; failed counts the completed ids not resolved |
| `PipelineResults.DuplicateIff` | backtrace/src/AsyncStackPipeline.cpp:355-372 | a stack is a duplicate exactly when one with its frames and generation is held and not dropped, and gets the id of that one |
| `PipelineResults.CountersTellTheTruth` | backtrace/src/AsyncStackPipeline.cpp:340-400 | over every run the counters are what was answered and the high-water mark the longest the queue was |
| `PipelineModel.NormalizedIs` | backtrace/src/AsyncStackPipeline.cpp:340-350 | the first 256 frames are kept and a stack without a generation gets the current one |
| `Pipeline.AsyncStackPipeline.SubmitStack` | backtrace/src/AsyncStackPipeline.cpp:340-391 | the method on the ring, maps and deques takes the specified step: recursion, stopped, duplicate, dropped or accepted |
| `Pipeline.AsyncStackPipeline.ReleaseResult` | backtrace/src/AsyncStackPipeline.cpp:393-411 | releases exactly a held, not pending id, and takes it out of both FIFOs |
| `Pipeline.AsyncStackPipeline.EraseResultLocked` | backtrace/src/AsyncStackPipeline.cpp:413-423 | erases the id, and its dedup entry only where the entry is its own |
| `Pipeline.AsyncStackPipeline.EvictResultCacheLocked` | backtrace/src/AsyncStackPipeline.cpp:425-436 | evicts from the front until the completed FIFO fits, passing over pending ids |
| `Pipeline.AsyncStackPipeline.EvictDroppedCacheLocked` | backtrace/src/AsyncStackPipeline.cpp:438-444 | evicts from the front until the dropped FIFO fits |
| `Pipeline.AsyncStackPipeline.Enqueue` | backtrace/src/AsyncStackPipeline.cpp:383-387 | the ring holds the queue with the item appended |
| `Pipeline.AsyncStackPipeline.TakeItem` | backtrace/src/AsyncStackPipeline.cpp:539-548 | takes the oldest item of the ring in hand, as the specified step does |
| `Pipeline.AsyncStackPipeline.FailQueued` | backtrace/src/AsyncStackPipeline.cpp:561-606 | fails the item in hand and all queued ones in order, stops the pipeline and counts each once |
| `Pipeline.AsyncStackPipeline.RecordResult` | backtrace/src/AsyncStackPipeline.cpp:642-657 | records the result, lists it and evicts as specified |
| `Pipeline.AsyncStackPipeline.FinishItem` | backtrace/src/AsyncStackPipeline.cpp:662-669 | puts the item out of hand and wakes flushers exactly when nothing is left |
| `Pipeline.AsyncStackPipeline.FlushMayReturn` | backtrace/src/AsyncStackPipeline.cpp:501-502 | the wait condition read from the ring and the counter |
| `Registry.NeverNewer` | backtrace/src/AsyncStackPipeline.cpp:204-225 | whatever is published later, a generation resolves against its own snapshot or, once evicted, against nothing |
| `Registry.RepublishIsIdle` | backtrace/src/AsyncStackPipeline.cpp:175-181 | publishing an equivalent module list makes no new generation |
| `Registry.NewGenerationIff` | backtrace/src/AsyncStackPipeline.cpp:154-181 | a list is a new generation exactly when its length or the range, load bias, name or build id of a module differs |
| `Registry.ModuleRegistry.Same` | backtrace/src/AsyncStackPipeline.cpp:154-168 | lists are equivalent exactly when they agree in everything but the generation |
| `Registry.ModuleRegistry.Publish` | backtrace/src/AsyncStackPipeline.cpp:175-197 | the newest generations, at most the limit, are kept with their own snapshots, and no other |
| `Registry.ModuleRegistry.EvictOldest` | backtrace/src/AsyncStackPipeline.cpp:187-195 | the eviction loop drops exactly the generations past the limit, oldest first |
| `Registry.ModuleRegistry.Resolve` | backtrace/src/AsyncStackPipeline.cpp:204-225 | returns the first module of the requested generation that holds the address, or fails |
| `MapRegions.ReparsedLikeFresh` | unwindstack/Maps.cpp:167-250 | re-reading gives the same regions by start, end, flags and name as a fresh parse |
| `MapRegions.DeviceFlagIff` | unwindstack/Maps.cpp:63-69 | parsing sets the device flag of exactly the maps in /dev/ outside /dev/ashmem/ and changes nothing else |
| `MapRegions.EqualsFreshIff` | unwindstack/Maps.cpp:186-222 | it equals a fresh parse in every field if and only if no region that stayed has a new file offset |
| `MapRegions.StaleOffsetSurvives` | unwindstack/Maps.cpp:186-222 | a file remapped at another offset of the same place keeps its stale offset |
| `Maps.ScanOld` | unwindstack/Maps.cpp:186-222 | the inner search empties exactly the slots of old maps that are gone and finds the counterpart if there is one |
| `Maps.Relink` | unwindstack/Maps.cpp:196-214 | putting an old object in the place of a new one leaves the doubly linked list chained |
| `Maps.MergeSlots` | unwindstack/Maps.cpp:181-232 | the in-place merge leaves in the vector the old object of every region in both lists and the new object of every other new region, linked in order |
| `Maps.SortAndShrink` | unwindstack/Maps.cpp:234-245 | sorting the vector with its empty slots and cutting it leaves the objects in rising order |
| `Maps.MergedRegions` | unwindstack/Maps.cpp:167-250 | the merge gives the specified regions, reuses objects and reports a change exactly when the key sets differ |
| `Maps.UnchangedIff` | unwindstack/Maps.cpp:167-250 | nothing deleted and equal sizes hold if and only if both lists have the same keys |
| `Maps.LocalUpdatableMaps.FindMap` | unwindstack/Maps.cpp:39-57 | binary search returns the map that holds the address, or null exactly when none does |
| `Maps.LocalUpdatableMaps.Reparse` | unwindstack/Maps.cpp:167-250 | success leaves the maps sorted, linked and equal to the specified regions, with every old object reused where its region stayed, and any_changed iff the regions differ; failure leaves them as they were |
| `Maps.LocalUpdatableMaps.Find` | unwindstack/Maps.cpp:142-158 | returns a map that holds the address, re-reading the file exactly when none did, and null exactly when none does afterwards |
| `JitEntries.OneVersion` | unwindstack/GlobalDebugImpl.h:310-313 | equal even locks at two instants mean one version and one symbol file in between |
| `JitEntries.NotTorn` | unwindstack/GlobalDebugImpl.h:234-266 | fields and bytes read at different instants of one life of an entry are the symbol file of that version |
| `JitEntries.TakenIsTheVersion` | unwindstack/GlobalDebugImpl.h:205-222 | a file taken is the file of its version at every instant the version is seen |
| `JitLists.WasBefore` | unwindstack/GlobalDebugImpl.h:205-210 | a live entry behind one that was linked all along was behind it, and live, all along: writers add only at the head |
| `JitLists.WalkGoesOn` | unwindstack/GlobalDebugImpl.h:231-279 | a visit keeps the walk complete while writers insert and unlink: what is present is taken or still ahead, and what is behind an entry taken earlier is taken |
| `JitLists.WalkIsComplete` | unwindstack/GlobalDebugImpl.h:231-236 | stopping at an entry taken before, or at the end, leaves no present entry out |
| `JitLists.WalkNearsEnd` | unwindstack/GlobalDebugImpl.h:231-279 | every visit gets nearer to the end of the list, whatever writers do |
| `JitReaders.JitReader.ReadNextField` | unwindstack/GlobalDebugImpl.h:286-317 | the address and lock returned belonged together: the list linked the entry while it lived with that even lock; on a quiet target it succeeds |
| `JitReaders.JitReader.CheckSeqlock` | unwindstack/GlobalDebugImpl.h:319-338 | success means the entry still has the lock |
| `JitReaders.JitReader.TakeSymfile` | unwindstack/GlobalDebugImpl.h:240-267 | whatever is taken is a whole file of the version, success without failing reads takes a loadable entry, and on a quiet target, with locks or without, exactly the known or loadable entries are taken, with their own files |
| `JitReaders.JitReader.Visit` | unwindstack/GlobalDebugImpl.h:233-279 | the visited entry stayed one live version until its link was read, and the next entry was linked from it and alive |
| `JitReaders.JitReader.ReadNewEntries` | unwindstack/GlobalDebugImpl.h:226-282 | every entry gathered is whole and none is lost; under writers one walk, stopping at an entry taken before, gathers all loadable entries linked from its read of the head to its end, and fails only by a race if the fuel covers the longest list; a first walk of a quiet list takes all that is wanted |
| `JitReaders.JitReader.ReadAllOnce` | unwindstack/GlobalDebugImpl.h:205-222 | entries are replaced only after a pass that brought nothing new, and are then complete for that pass |
| `JitReaders.JitReader.ReadAllEntries` | unwindstack/GlobalDebugImpl.h:189-201 | success under concurrent writers leaves only entries held before or taken during the call, each of which kept one even lock from the read of its address until its file was copied, and all loadable entries linked under one lock since the last pass read the head; it fails only after sixteen races or sixteen growing passes and leaves the old ones; a quiet list, with locks or without, is read successfully and completely, each new entry with its own file |
| `Proto.VarintRoundTrip` | scripts/perfetto_proto.py:50-70 | reading back a written number gives the number and its length, whatever follows |
| `Proto.VarintIsMinimal` | scripts/perfetto_proto.py:50-58 | no encoding that reads as the number is shorter |
| `Proto.VarintDigits` | scripts/perfetto_proto.py:50-58 | each byte is the next seven bits of the number, with the top bit on all but the last |
| `Proto.GuideExamples` | scripts/perfetto_proto.py:97-114 | numbers and keys are written as the encoding guide shows |
| `Proto.OtherWiresFail` | scripts/perfetto_proto.py:91-92 | a field of any other wire type fails |
| `Proto.OtherRootsFail` | scripts/perfetto_proto.py:136-137 | a root that is no packet fails |
| `Proto.EncodeVarint` | scripts/perfetto_proto.py:50-58 | the loop writes the specified bytes and refuses exactly negative numbers |
| `Proto.ReadVarintAt` | scripts/perfetto_proto.py:61-70 | the loop reads the specified number from any offset and fails exactly when the input ends first |
| `Proto.FieldsRoundTrip` | scripts/perfetto_proto.py:73-106 | any list of fields of right widths written and read gives the list |
| `Proto.CopyKeepsMeaning` | scripts/build_perfetto_alloc_track.py:211-219 | re-encoding what was read keeps its meaning for every input that decodes, minimal or not, cut short or not |
| `Proto.NextField` | scripts/perfetto_proto.py:73-94 | one turn of the iterator yields the specified field and advances past it |
| `Proto.IterFields` | scripts/perfetto_proto.py:73-94 | the iterator yields the specified fields, or fails |
| `Proto.NextEntry` | scripts/perfetto_proto.py:130-142 | one turn of the entry iterator yields the specified entry and advances past it |
| `Proto.RootsAreTheInput` | scripts/perfetto_proto.py:130-142 | the root bytes of the entries are the trace, byte for byte |
| `Proto.EntryIsLocal` | scripts/perfetto_proto.py:130-142 | an entry that is not cut short reads the same whatever follows; one that is reaches to the end of the input |
| `Proto.EntriesRoundTrip` | scripts/perfetto_proto.py:130-142 | joined entries, of which only the last may be cut short, read back as themselves |
| `Proto.WrapIsComplete` | scripts/perfetto_proto.py:105-106 | a packet written as field 1 is a whole entry |
| `StripTheorems.StripIsExactIffExposed` | scripts/build_perfetto_alloc_track.py:238-297 | for every readable trace the output reads as the trace without its markers, at every compression depth, and the count is exact, if and only if every packet holding a marker passes the cheap test; markers left plus markers counted always equal the markers there were |
| `StripTheorems.MinimalIsExposed` | scripts/build_perfetto_alloc_track.py:205-208 | when the keys of compressed fields are minimal, the cheap test hides no marker |
| `StripTheorems.CopiesArePlain` | scripts/build_perfetto_alloc_track.py:211-219 | fields written by this codec have minimal keys |
| `StripTheorems.HiddenMarkerStays` | scripts/build_perfetto_alloc_track.py:288-290 | whatever bytes compress a marked stream, behind a key that is not minimal the marker is left in and not counted, unless the packet happens to pass the cheap test |
| `StripTheorems.WhichEventsGo` | scripts/build_perfetto_alloc_track.py:249-255 | an event goes exactly when it is an ftrace event that contains memory_ and not malloc_hook_peak_snapshot |
| `StripTheorems.SnapshotStays` | scripts/build_perfetto_alloc_track.py:249-255 | a peak snapshot stays whatever else it contains |
| `StripTheorems.BundleIsStripped` | scripts/build_perfetto_alloc_track.py:238-297 | for any events, the bytes of a trace with one bundle become those of the trace without the events that go, and their number is returned |
| `StripTheorems.NothingDropped` | scripts/build_perfetto_alloc_track.py:276-297 | a trace with nothing to remove is returned byte for byte |
| `StripTheorems.TwiceIsOnce` | scripts/build_perfetto_alloc_track.py:276-297 | a second pass removes nothing and returns identical bytes, for every input the first accepts |
| `Strip.CleanHasNone` | scripts/build_perfetto_alloc_track.py:244-252 | the reference result holds no marker at any depth |
| `StripLoops.StripBundle` | scripts/build_perfetto_alloc_track.py:244-254 | the event loop keeps and counts as specified |
| `StripLoops.StripOneField` | scripts/build_perfetto_alloc_track.py:242-264 | one packet field is rebuilt as specified, through the nested stream if it holds one |
| `StripLoops.StripOnePacket` | scripts/build_perfetto_alloc_track.py:238-273 | the packet loop computes the specified packet and count, and the original bytes when nothing matched |
| `StripLoops.StripAllocMarkers` | scripts/build_perfetto_alloc_track.py:276-297 | the trace loop computes the specified bytes and total, cheap path included |
| `Merge.TimestampIsFound` | scripts/perfetto_proto.py:145-149 | field 8 behind any other fields is the timestamp found, whatever bytes follow, readable or not |
| `Merge.NoneFoundIff` | scripts/perfetto_proto.py:145-149 | none is found exactly in a packet that can be read to its end and has no varint field 8 |
| `Merge.FirstIsFound` | scripts/perfetto_proto.py:145-149 | of several, minimally encoded or not, it is the first |
| `Merge.ParsePacketTimestamp` | scripts/perfetto_proto.py:145-149 | the loop returns the first timestamp, none exactly when there is none, and a failure when reading fails before one |
| `Merge.SortIsStable` | scripts/perfetto_proto.py:281-281 | overlays are sorted by (timestamp, order), each once, ties in their given order |
| `Merge.SortedByTime` | scripts/perfetto_proto.py:281-281 | the order is by timestamp, then by order number |
| `Merge.MergeInterleaves` | scripts/perfetto_proto.py:282-294 | the result is the originals in order interleaved with the overlays in order, each overlay before the first original at or past its time, or at the end |
| `Merge.MergedInTime` | scripts/perfetto_proto.py:282-294 | a trace in time order stays in time order, each overlay before the originals of its instant |
| `Merge.MergedReadsIff` | scripts/perfetto_proto.py:280-297 | the merged bytes read as that interleaving, originals byte for byte, if and only if the last original is not cut short with overlays behind it |
| `Merge.SwallowedOverlay` | scripts/perfetto_proto.py:294-296 | a packet cut short swallows the overlay behind it, and the merged trace cannot be read |
| `Merge.AppendDue` | scripts/perfetto_proto.py:288-293 | the inner loop appends exactly the overlays due |
| `Merge.AppendAll` | scripts/perfetto_proto.py:294-296 | the last loop appends the overlays left |
| `Merge.MergeOverlayPackets` | scripts/perfetto_proto.py:280-297 | the method computes the specified bytes |
| `Symbols.LinearSearch` | unwindstack/Symbols.cpp:48-84 | the reference: the first symbol that covers the address, with its offset, or none |
| `Symbols.SearchIsLinear` | unwindstack/Symbols.cpp:48-84 | on a sorted table, marks of size zero included where none lies at the end of a sized symbol, the cached search equals the linear search and keeps the cache true |
| `Symbols.AnyLookupsThenLinear` | unwindstack/Symbols.cpp:48-84 | so it does after any sequence of earlier lookups, failed reads among them |
| `Symbols.CacheBounds` | unwindstack/Symbols.cpp:54-64 | the bounds taken from the cached neighbours never exclude the answer |
| `Symbols.SearchRightIff` | unwindstack/Symbols.cpp:48-84 | for every table, in any order, overlapping, after any lookups and failed reads: what is found covers the address at the right offset if and only if the end of the symbol the loop stops at is not taken in the cache by one that starts elsewhere |
| `Symbols.SearchSound` | unwindstack/Symbols.cpp:48-84 | where symbols with one end have one start, aliases included, whatever is found covers the address at the right offset |
| `Symbols.SearchExact` | unwindstack/Symbols.cpp:48-84 | where sized symbols do not overlap and no mark lies at the end of one, whatever is found is what the scan finds |
| `Symbols.MisledByIff` | unwindstack/Symbols.cpp:71-74 | a history of lookups makes one wrong if and only if it has left such an end taken |
| `Symbols.OneStartNeverMisleads` | unwindstack/Symbols.cpp:71-74 | with one start per end no history of lookups leads to a wrong answer |
| `Symbols.SharedEndMisleadsIff` | unwindstack/Symbols.cpp:71-74 | two symbols with one end and different starts are confused by some history if and only if the one that starts earlier comes first |
| `Symbols.MarkAtEndHides` | unwindstack/Symbols.cpp:71-84 | any mark right behind and at the end of a function hides it from the first lookup on |
| `Symbols.BuildRemapTable` | unwindstack/Symbols.cpp:88-117 | of the part of the table that can be read from its start, the remap lists functions only, by strictly rising address, and for every function the earliest at its address |
| `Symbols.RemapFindsFirst` | unwindstack/Symbols.cpp:108-117 | searching through it finds the first covering function of the file, whatever order the file has |
| `Symbols.SymbolFile.BinarySearch` | unwindstack/Symbols.cpp:48-84 | the method answers and fills the cache as specified, direct or remapped |
| `Symbols.SymbolFile.NameOf` | unwindstack/Symbols.cpp:139-157 | the name kept from an earlier lookup, or read from the string table within its bounds and kept; every name kept is the name of its symbol |
| `SymbolNames.NamesAreRead` | unwindstack/Symbols.cpp:145-152 | a function whose name field is where its name was packed into the string table gets that name |
| `Symbols.SymbolFile.GetName` | unwindstack/Symbols.cpp:120-157 | before a remap, in any order and after any lookups: with sized symbols apart, null, undefined and mapping symbols among them, the name and offset of the function that covers the address, or none, if and only if no mark has taken the end of that function in the cache, so always when no mark lies at the end of a sized symbol; with aliases, those of some symbol that covers the address; once a remap was built, the answer for the part read then |
| `InodeSet.FreeMeansAbsent` | backtrace/src/ObservedMemory.cpp:157-172 | a probe that stops at a free slot proves the inode absent |
| `InodeSet.ProbingEnds` | backtrace/src/ObservedMemory.cpp:157-172 | a table not full always ends the probe within its slots |
| `InodeSet.FillKeeps` | backtrace/src/ObservedMemory.cpp:163-167 | filling the first free slot adds the inode, keeps every other findable and counts one more |
| `InodeSet.DmaInodeSet.Reset` | backtrace/src/ObservedMemory.cpp:902-911 | a pass starts with the empty set, generation wrap included |
| `InodeSet.DmaInodeSet.InsertInode` | backtrace/src/ObservedMemory.cpp:149-173 | true exactly on a first sighting, or past the limit; the set gains the inode; the count is its size |
| `InodeSet.FirstSumIsOnce` | backtrace/src/ObservedMemory.cpp:180-231 | the running sum is the sum over the distinct buffers of their first size |
| `InodeSet.NeverTooLittle` | backtrace/src/ObservedMemory.cpp:149-151 | a pass that overflows counts too much, never too little, and one that does not is exact |
| `InodeSet.SecondPassIsRest` | backtrace/src/ObservedMemory.cpp:237-262 | without overflow a second pass adds the buffers the first has not seen, once each |
| `InodeSet.SumBuffers` | backtrace/src/ObservedMemory.cpp:180-262 | a pass that goes on after another adds what the whole sequence sums to beyond the first: each buffer once up to the limit and every sighting after it; overflowed is set exactly when a buffer came after the limit |
| `SampleGate.SkipsIff` | backtrace/src/ObservedMemory.cpp:1002-1012 | the mapping pass is skipped exactly for samples without ion data that are below the peak with the last figure, at most eight in a row |
| `SampleGate.SkippedLeavesPeakIff` | backtrace/src/ObservedMemory.cpp:1002-1012 | a sample whose mapping pass is skipped leaves the peak alone exactly when the gpu bytes, which the gate leaves out, are within what it is short of; then the stored parts and the snapshots stay too |
| `SampleGate.GpuLiftsSkipped` | backtrace/src/ObservedMemory.cpp:1002-1012 | a skipped sample that is a new peak |
| `SampleGate.MapBytesIsMappedOnly` | backtrace/src/ObservedMemory.cpp:237-262 | without overflow the mapping pass counts exactly the buffers that are mapped and have no descriptor |
| `SampleGate.CarriedError` | backtrace/src/ObservedMemory.cpp:1013-1028 | however many samples carry the figure, the dmabuf total is off by the buffers that came to be mapped only since and by those that no longer are, mappings that came or went included |
| `SampleGate.CarriedIsExactIff` | backtrace/src/ObservedMemory.cpp:1013-1028 | with the mappings as they were, it is exact if and only if as many mapped bytes gained a descriptor as lost theirs |
| `SampleGate.MissedPeakIff` | backtrace/src/ObservedMemory.cpp:1002-1028 | the skipped sample hides a new peak exactly when the bytes that came to be mapped only, with the gpu bytes, exceed the shortfall and those that no longer are |
| `SampleGate.CarriedCountsTwice` | backtrace/src/ObservedMemory.cpp:1013-1028 | any buffer seen mapped by a mapping pass and held by a descriptor then is counted twice by a skipped sample |
| `SampleGate.CarriedIsShort` | backtrace/src/ObservedMemory.cpp:1009-1018 | whatever is read, nine samples in a row include a mapping pass |
| `SampleGate.UnskippedIsExact` | backtrace/src/ObservedMemory.cpp:991-1024 | a sample that does not skip the pass has the figure of ion, or every buffer once, and no accounting exactly when there is no buffer |
| `SampleGate.LabelIsKept` | backtrace/src/ObservedMemory.cpp:1025-1036 | once a mapping pass found a buffer, no skipped sample is labelled as without accounting |
| `SampleGate.ReadSelfDmaBytesGated` | backtrace/src/ObservedMemory.cpp:984-1036 | both passes over one inode set return the bytes and source of the specification and update the carried figure; without a cache the mapping pass always runs |
| `Sampler.NextIsFirstSuitable` | backtrace/src/ObservedMemory.cpp:861-900 | the deadline is the first slot of the grid that is due and paid for, and every slot passed over is counted |
| `Sampler.ThrottledIff` | backtrace/src/ObservedMemory.cpp:884-894 | throttled is set exactly when the cadence alone would start too soon |
| `Sampler.GridIsExact` | backtrace/src/ObservedMemory.cpp:1244-1250 | after n samples the deadline is start + (n + skipped) * interval |
| `Sampler.DeadlinesRise` | backtrace/src/ObservedMemory.cpp:1335-1345 | deadlines strictly rise and leave room for the work just done |
| `Sampler.RestsAsLongAsItWorks` | backtrace/src/ObservedMemory.cpp:1335-1366 | each sample starts at least as long after the previous one ended as that one took |
| `Sampler.HalfAtMost` | backtrace/src/ObservedMemory.cpp:1335-1366 | twice the total work never exceeds the time to the start of the next sample |
| `Sampler.ObservedPeakSampler.Wait` | backtrace/src/ObservedMemory.cpp:1356-1365 | the sleeping loop ends at the first clock reading at or past the deadline, or at the first look that sees the stop, having looked at the flag before every reading |
| `Sampler.ObservedPeakSampler.TakeSample` | backtrace/src/ObservedMemory.cpp:1251-1345 | one turn: its begin is the first clock reading of the turn and its end the last, the sample is read right after the first and the callback asked after the second; every counter is that of its specification and the run stays paced |
| `Sampler.ChaseNeverLags` | backtrace/src/ObservedMemory.cpp:1290-1325 | while chasing, the peak never passes the threshold set by the last snapshot |
| `Sampler.LagIsBounded` | backtrace/src/ObservedMemory.cpp:1102-1115 | the peak is at most S + max(64 KiB, min(S/4, step)) for the last snapshot total S, and equal to S for step 0 |
| `Sampler.SnapshotsAreSpaced` | backtrace/src/ObservedMemory.cpp:1102-1115 | consecutive snapshots of a chase are more than max(64 KiB, min(S/4, step)) apart |
| `Sampler.CallsRise` | backtrace/src/ObservedMemory.cpp:1300-1322 | snapshot totals rise strictly and exceed the floor; a one-shot run asks for none after a retained one |
| `Sampler.PeakSample` | backtrace/src/ObservedMemory.cpp:1290-1302 | the stored parts are those of the sample that reached the peak and sum to it |
| `Sampler.PeakIsLargest` | backtrace/src/ObservedMemory.cpp:1288-1302 | the peak is the largest total of a valid sample |
| `Sampler.ObservedPeakSampler.Record` | backtrace/src/ObservedMemory.cpp:1290-1325 | a sample updates peak, parts, threshold and callbacks as specified |
| `Sampler.ObservedPeakSampler.Run` | backtrace/src/ObservedMemory.cpp:1232-1366 | for every non-decreasing clock and every moment of Stop() the thread ends; every turn has the clock readings, sample and callback answer of its moment; another sample is taken if and only if the clock reached the deadline before the stop was seen; samples were paced and took half of the time at most; and it leaves the maximum, the parts of the sample that reached it, the callbacks, deadline, skipped and throttled counts of the specification |
| `Bootstrap.PlacementFits` | src/alloc_hook.cpp:103-134 | header and payload lie inside the mapping and the payload has the requested alignment |
| `Bootstrap.PageAlign` | src/alloc_hook.cpp:82-89 | the least multiple of the page size not below the size; zero exactly for size zero, a size that would overflow or a page size that is no power of two |
| `Bootstrap.MapSizeIff` | src/alloc_hook.cpp:103-125 | a block can be mapped exactly when header, slack and payload rounded up to pages are a size, and no page more is mapped |
| `Bootstrap.UnlinkKeeps` | src/alloc_hook.cpp:147-158 | making one link skip a block leaves the others linked, once each |
| `Bootstrap.BootstrapAllocator.IsBootstrapPointer` | src/alloc_hook.cpp:91-101 | true exactly for the payload of a live block |
| `Bootstrap.BootstrapAllocator.AlignedMalloc` | src/alloc_hook.cpp:103-141 | success exactly when the arguments and the kernel allow it; one new aligned zeroed block in front, the others and their bytes untouched; errors leave everything as it was |
| `Bootstrap.BootstrapAllocator.Free` | src/alloc_hook.cpp:147-162 | unlinks exactly the block and leaves the others and their bytes; ignores any other address |
| `Bootstrap.BootstrapAllocator.Malloc` | src/alloc_hook.cpp:143-145 | the same at the default alignment |
| `Bootstrap.BootstrapAllocator.Calloc` | src/alloc_hook.cpp:164-175 | a zeroed block of count * size bytes exactly when the product is a size and can be mapped; failure on overflow |
| `Bootstrap.BootstrapAllocator.Realloc` | src/alloc_hook.cpp:177-195 | keeps the first min(old, new) bytes of a block that holds something and frees it; an empty block stays live; failure changes nothing; other blocks keep their bytes |
| `Bootstrap.EmptyBlockStays` | src/alloc_hook.cpp:188-193 | growing an empty block leaves both blocks live |
| `PageCache.CachedReadIsDirect` | unwindstack/Memory.cpp:496-536 | a cached read is the direct read, bytes and count, page crossings and unreadable pages included, and keeps the cache true |
| `PageCache.InvisibleAfterAnyReads` | unwindstack/Memory.cpp:496-536 | so after any sequence of earlier reads |
| `PageCache.MemoryCache.InternalCachedRead` | unwindstack/Memory.cpp:496-536 | the method returns the direct read and updates the cache as specified |
| `PageCache.MemoryCache.ReadAt` | unwindstack/MemoryCache.h:41-47 | small or large, a read through the cache is the direct read |
| `PageCache.MemoryCache.Clear` | unwindstack/Memory.cpp:538-541 | afterwards the cache agrees with any memory |

## Left out

- Integer widths: ids, counters, byte totals and microseconds are unbounded except where wrap-around decides something (generation stamps, hash, addresses of rows and symbols, allocation sizes).
- JitReaders.JitReader.ReadNewEntries: `fuel` bounds the entries one walk visits, where the source would follow a cyclic list without end; the clauses about quiet lists and about races ask for fuel for the whole list.
- JitReaders.JitReader.Load: reads a symbol file byte by byte; the ELF or DEX loader behind it is a predicate on the bytes.
- StripLoops.StripAllocMarkers: `depth` is what is left of the interpreter's recursion limit; exhausting it is a failure like any other exception.
- Proto.IterFields: the kinds of exception are not told apart.
- Symbols.BuildRemapTable: reads entry by entry where the source reads in batches.
- Symbols.SymbolFile.NameOf: GetGlobal is not modelled.
- Symbols.SymbolFile.GetName: the clauses about names are for tables whose functions all have a size.
- Bootstrap.PageAlign: power-of-two tests and masks are modelled by what they compute, not bit by bit.
- InodeSet.SumBuffers: reading /proc and parsing its lines is an input list of buffers.
- SampleGate.ReadSelfDmaBytesGated: the gpu reading, with its own gate, and the times of the passes are left out; a pass that cannot open its file is an empty list.
- SampleGate.CarriedError: a pass past the limit of the inode set overcounts by itself (`NeverTooLittle`), so neither pass may overflow; and a mapped buffer keeps its size.
- Symbols.SharedEndMisleadsIff: tables of two symbols; which history reaches which symbol of a longer table depends on every bisection, so `MisledByIff` gives the condition for a history.
- RowCache.DwarfSection.StepRow: one architecture per section.
- RowMeaning.Eval: the value of an expression (DwarfOp) is an input, dex pcs are left out, and there are at most 64 registers, as RegsInfo demands.
- Maps.LocalUpdatableMaps.Reparse: file parsing is an input list of lines, and a parse that fails half way is only a failure.
- CIE and FDE header parsing, address encodings and ELF loading: foreign formats; entries are given as values.
- GetResult, statistics formatting and the sampler's sums of read and snapshot times: short lookups and sums.
- Page, symbol and pipeline locks as such: each critical section is one step.
- PointerData, malloc_debug, ObserveOnlyProbe, report scripts, /proc, sysfs and ioctl reading: input and output, or code whose properties rest on facts outside it.
