# Verified model of the PIM device, its memory controller and the Miranda issue engine

This project models three connected parts of sst-pim in Dafny and proves what they do over
whole runs.

**The device.** A host writes INIT, eight parameters and RUN to a memory-mapped function slot
and polls it until DONE. Behind slot F1 is a copy engine, behind U5 a scalar-vector multiplier.
Both move up to 64 words a turn through one shared buffer, with synchronous SRAM accesses or
DRAM requests answered after any delay. `DmaSpec` is the step relation (clock, answer, host
write, host read); a step the program would end with a failed assertion or a fatal error is
`None`. `Device` is the same thing as objects with mutable fields, each method proved to make
exactly the `DmaSpec` step. `DmaProof` holds the invariant of a running transfer and
the memory it is heading for (`Target`); `DmaRun` shows that every step keeps that target except
for what the host and others write, so a run is a list of memory operations with each call as
one step; `DmaProgress` counts clocks and requests and proves that every running call becomes
DONE; `Driver` adds the host library as a second party, `DriverProgress` proves that it gets
through its whole list of calls, and `Revpim` is that library as code against the `Device`
objects. `Transfer` relates the chunk-by-chunk transfer to the whole-range one, exactly.
`HostAccess` says what the device is to its host, by address and value, and what it stops on, and
`CallMeaning` what a call's parameters mean to the bytes of the memories.

**The controller.** `CtlSpec` holds events in local addresses until the backend answers them;
`CtlProof` and `CtlRun` show it refines a byte memory keyed by global address, linearised at
completion; `CtlEvents` follows each kind of event from its arrival to its answer; `Region` has
the interleaved translation and the clamping of a region to the memory;
`Controller` is the class; `Bridge` shows that one request of the device, sent through the
controller, is answered as the device model's flat DRAM answers it, and `Machine` runs device and
controller together, among other events, and shows that every run is one of the device over that
flat DRAM. `Delay` is the backend's delay queue.

**The issue engine.** `IssueSpec` is an out-of-order window with dependencies, fences and
limits; `IssueProof` and `FenceProof` prove what every run keeps, `FenceExact` that what is asked
of generators is needed, and `IssueExact` exactly what a cycle issues; `RequestQueue` and
`IssueEngine` are the growable queue and the engine as classes. `PageTable` and `Mailbox` are the
page map and the two-thread mailbox that feeds the engine.

## Assumptions

These are what the code asks of its surroundings, stated as preconditions.

- Only slots F1 and U5 exist, at most one function runs at a time, and a running slot is not
  written (`DmaRun.LegalCommand`).
- A call moves a positive multiple of eight bytes; its ranges lie inside the memories, an SRAM
  range inside one 1 KiB window, and no copy end is in the function page (`DmaProof.LegalCall`).
  A byte count of zero is shown to hang (`DmaProgress.HungStaysHung`).
- While a function runs, others access memory only outside its ranges (`DmaRun.Legal`).
- A DRAM answer comes after the issuing call has returned. The device's event numbers differ from
  the link's (`Machine` takes even ones for the device and odd ones for the link); among the link's
  events a number in use keeps the event it has, as `std::map::insert` does.
- Termination asks for fairness: the clock and the host get their turns for ever, every
  outstanding request is answered at some time, and polls come at unbounded moments
  (`DmaProgress.FairRun`, `DriverProgress.FairWorld`, `Revpim.Moments`).
- What the link sends to `Machine` has its line on one side of the memory-mapped range, and flushes
  only lines outside it (`Machine.LinkEvent`); the controller checks the rest when built for
  debugging (`CtlProof.WellPlaced`).
- Addresses do not wrap around 64 bits. Slot commands are compared modulo 2^32, as the cast to a
  32-bit enumeration does, and multiplication wraps modulo 2^64.
- The backend's self-test is over. The response to a memory request is of the request's kind.
- The fence guarantee asks generators for duplicate-free dependencies on older, incomplete,
  non-fence requests, and for non-zero limits. `FenceProof` shows a run without the former in which
  it fails and exactly which queues let it fail, and `FenceExact` that generators need the former.

Where a comment and the code differ, the code is followed: the SRAM write path is commented as
eight entries and has 128 (sstcomp/PIMBackend/tclpim.cc:107), and the translation is commented as
needing a step divisible by the chunk size (sstcomp/PIMBackend/memoryControllerKG.cc:1028), which
the proofs do not need.

## Model

| member | source | states |
|---|---|---|
| Driver.CompletedCallsFold | test/pim/rev-test-src/revpim.h:29-74 | any completed list of init/run/finish calls on F1 and U5 with harmless overlaps, under any delays and any traffic outside the ranges used, leaves DRAM and SRAM as the pure whole-range copies and multiplications folded in order leave them, with the traffic on top |
| Driver.TurnsSimulated | sstcomp/PIMBackend/tclpim.cc:137-176 | at every moment of every interleaving of host, clock, answers and traffic nothing fails, memory is the logged operations replayed, and the calls in the log are the driver's, each once and in order |
| Driver.HostWriteTurn | test/pim/rev-test-src/revpim.h:29-59 | each of the driver's ten writes is legal for the slot as it then is, and exactly the tenth starts the call |
| Driver.HostPollTurn | test/pim/rev-test-src/revpim.h:61-74 | a poll never finds an unused slot, changes nothing at the device, and moves the driver on to its next call if and only if it finds DONE |
| Driver.EnvTurn | sstcomp/PIMBackend/tclpim.cc:35-47 | what the environment does keeps driver and slots in step, begins no call, and changes a slot only from RUNNING to DONE |
| Driver.SlotFollows | sstcomp/PIMBackend/tclpim.cc:137-176 | the slot takes INIT, the eight parameters in order, then RUN |
| Driver.InitialWorld | sstcomp/PIMBackend/tclpim.cc:14-28 | a device as constructed satisfies the invariant |
| DriverProgress.DriverFinishes | test/pim/rev-test-src/revpim.h:61-74 | in every fair interleaving of host, clock, answers and traffic the driver finishes all of its calls: every polling loop ends |
| DriverProgress.PollingEnds | test/pim/rev-test-src/revpim.h:61-74 | a driver that polls is at some time past that call |
| DriverProgress.FairCallsFold | test/pim/rev-test-src/revpim.h:29-74 | so total correctness: every fair interleaving comes to a moment with all calls finished and memory the fold of the whole transfers, clear traffic on top |
| Revpim.Init | test/pim/rev-test-src/revpim.h:29-45 | init leaves the slot ready with exactly its eight parameters and changes nothing else |
| Revpim.Start | test/pim/rev-test-src/revpim.h:55-59 | run on a ready, legal slot starts it, and the device then owes exactly that transfer |
| Revpim.PollUntilDone | test/pim/rev-test-src/revpim.h:61-74 | finish on a slot that was started returns, in every fair run and whatever the moments of its polls, at the first poll that finds DONE; it asserts exactly on an unused slot; memory is then the replay of all the device was told, the running call included |
| Revpim.PollingEndsIff | test/pim/rev-test-src/revpim.h:61-74 | polling a slot ever finds DONE if and only if it was running or DONE to begin with |
| CallMeaning.CopyMeans | sstcomp/PIMBackend/tclpim_functions.cc:14-42 | F1 puts the params[2] bytes from params[1] on to params[0], each in scratchpad or DRAM by its first address, and changes nothing else |
| CallMeaning.MultiplyMeans | sstcomp/PIMBackend/userpim_functions.cc:14-60 | U5 makes each DRAM word from params[0] on params[2] times the word from params[1] on, modulo 2^64 |
| CallMeaning.MultiplyLeaves | sstcomp/PIMBackend/userpim_functions.cc:14-60 | and leaves every other byte of both memories |
| CallMeaning.LegalIff | sstcomp/PIMBackend/tclpim_functions.cc:18-42 | which calls the end-to-end results are about, in terms of parameters and memory sizes |
| HostAccess.HostWriteGoes | sstcomp/PIMBackend/tclpim.cc:101-134 | where a host write goes by its address and length: DRAM, the repeating kilobyte, slot 1 or 13, nowhere, or failure |
| HostAccess.HostReadGoes | sstcomp/PIMBackend/tclpim.cc:72-98 | where a host read looks, and which fail |
| HostAccess.WrittenIsRead | sstcomp/PIMBackend/tclpim.cc:72-134 | a read finds what a write to the same place has put there |
| HostAccess.StatusIff | sstcomp/PIMBackend/tclpim.cc:183-186 | a read of a slot gives 0, 1, 2, 3 or 4 if and only if it is INVALID, INITIALIZING, READY, RUNNING or DONE |
| HostAccess.SlotAcceptsIff | sstcomp/PIMBackend/tclpim.cc:137-176 | the words a slot accepts, however many, are exactly those that repeat INIT, eight parameters, RUN and one more, the commands compared modulo 2^32 |
| HostAccess.StartFailsIff | sstcomp/PIMBackend/tclpim_functions.cc:18-42 | a call is refused exactly for a misaligned count or a copy end in the function page; a zero count changes nothing |
| HostAccess.ClockFailsIff | sstcomp/PIMBackend/tclpim_functions.cc:44-86 | an engine's clock fails exactly when it accesses outside scratchpad or DRAM |
| HostAccess.AnswerFailsIff | sstcomp/PIMBackend/tclpim_functions.cc:88-98 | an answer fails exactly if it is unknown, outside the memory, or a read of another length than the buffer |
| HostAccess.FinishEndsCycle | sstcomp/PIMBackend/tclpim.cc:35-47 | a slot that finishes ends the cycle, the later engine not being clocked |
| DmaRun.RunSimulated | sstcomp/PIMBackend/tclpim_functions.cc:44-105 | no legal run fails, and the memory a running call is heading for is the logged operations replayed |
| DmaRun.QuietRunIsReplay | sstcomp/PIMBackend/tclpim_functions.cc:44-105 | between quiet moments actual memory is the replay, so no state of one call reaches the next |
| DmaRun.StepSimulated | sstcomp/PIMBackend/tclpim.cc:35-47 | every step keeps the device invariant and acts on the abstract memory as its one operation |
| DmaRun.CopyCall | sstcomp/PIMBackend/tclpim_functions.cc:18-86 | in any run with one call, a copy whose overlap is safe, and with other writes clear of its ranges before, during and after, the destination ends equal to the original source, for every source and destination memory |
| DmaRun.MultiplyCall | sstcomp/PIMBackend/userpim_functions.cc:14-83 | likewise a multiplication whose overlap is harmless leaves each destination word equal to scalar times source word modulo 2^64 |
| DmaRun.CallFrame | sstcomp/PIMBackend/tclpim_functions.cc:64-77 | in any run with one call, whatever its overlap, a range outside the destination that nobody else writes is unchanged |
| DmaRun.RequestHeld | sstcomp/PIMBackend/PIMBackend.cc:176-199 | an outstanding request keeps its address and payload through any clocks and host accesses |
| DmaRun.BufferAtIssueLands | sstcomp/PIMBackend/tclpim_functions.cc:46-51 | what lands in DRAM is the buffer as it stood at issue, although later clocks resize it |
| DmaProof.ClockEngaged | sstcomp/PIMBackend/tclpim_functions.cc:44-86 | every clock of a running engine succeeds and keeps pointers, counter, buffer and request consistent and the target unchanged; the finishing clock leaves the target in memory |
| DmaProof.AnswerRead | sstcomp/PIMBackend/tclpim_functions.cc:88-98 | at a read response buffer and response are equally long, and the transformed chunk in the buffer keeps the target |
| DmaProof.AnswerWrite | sstcomp/PIMBackend/tclpim_functions.cc:100-105 | a write response lands its chunk, keeps the target, and goes on to READ or DONE by the counter |
| DmaProof.StartEngages | sstcomp/PIMBackend/tclpim_functions.cc:18-42 | a legal call starts its engine with the whole transfer as target |
| DmaProof.OthersSlidePast | sstcomp/PIMBackend/PIMBackend.cc:176-199 | a foreign write clear of both ranges moves the target by just that write, at every stage |
| DmaProgress.RunCosts | sstcomp/PIMBackend/tclpim_functions.cc:46-86 | between quiet moments the calls have taken exactly 2*ceil(w/64)+1 non-waiting clocks each, ceil(w/64) reads for each with a DRAM source and ceil(w/64) writes for each with a DRAM destination, reads and writes counted apart, all answered |
| DmaProgress.RunBalanced | sstcomp/PIMBackend/tclpim_functions.cc:46-86 | the same books, clocks, reads and writes, at every moment of every run |
| DmaProgress.AtMostOneOutstanding | sstcomp/PIMBackend/PIMBackend.cc:196-197 | never more than one request outstanding, and always exactly those with a registered completion |
| DmaProgress.RankFalls | sstcomp/PIMBackend/tclpim_functions.cc:44-105 | every non-waiting clock and every answer lowers the rank by one, and nothing else changes it |
| DmaProgress.RankZeroIffDone | sstcomp/PIMBackend/tclpim.cc:35-47 | the rank is zero exactly when no slot is running |
| DmaProgress.FairRunsFinish | sstcomp/PIMBackend/tclpim.cc:35-47 | if the clock goes on and every request is answered, every running slot becomes DONE, and is running until then |
| DmaProgress.ZeroBytesHang | sstcomp/PIMBackend/tclpim_functions.cc:19-21 | RUN with a byte count of zero leaves the slot running and its engine idle |
| DmaProgress.HungStaysHung | sstcomp/PIMBackend/tclpim.cc:35-47 | and it stays so through any clocks, answers and memory traffic |
| Transfer.CopyIsMemmoveIff | sstcomp/PIMBackend/tclpim_functions.cc:46-76 | the chunked copy equals memmove on every memory if and only if dst <= src, dst >= src+n, n <= 512, or the memories differ |
| Transfer.MultiplyIsWholeIff | sstcomp/PIMBackend/userpim_functions.cc:31-83 | for each scalar, the chunked multiplication is the whole one on every memory if and only if the overlap is safe or the scalar is a multiple of 256 to the number of overlapping bytes, at most eight (so zero, or a short overlap of the last word) |
| Transfer.ChunkedIsWholeIff | sstcomp/PIMBackend/tclpim_functions.cc:46-76 | both in one: for any transfer, chunk by chunk is as good as all at once, on every memory of the sizes given, if and only if the overlap is harmless |
| Transfer.HarmlessChunkedIsWhole | sstcomp/PIMBackend/userpim_functions.cc:31-83 | one direction of that, by induction over the chunks |
| Transfer.ChunkedCommutes | sstcomp/PIMBackend/tclpim_functions.cc:46-76 | writes clear of both ranges commute with the transfer |
| Transfer.MultiplyResult | sstcomp/PIMBackend/userpim_functions.cc:43-60 | word by word, the multiplication's result |
| Bytes.WordCodec | sstcomp/PIMBackend/userpim_functions.cc:49-58 | little-endian assembly and disassembly of a word are inverse |
| Bytes.ScaleWords | sstcomp/PIMBackend/userpim_functions.cc:48-59 | scaling a chunk multiplies each of its words modulo 2^64 |
| Bytes.OneAmongZeros | sstcomp/PIMBackend/userpim_functions.cc:49-58 | the j-th byte of a word counts 256 to the j: the order is little-endian |
| Decoder.SegmentsArePartition | sstcomp/PIMBackend/PIMDecoder.cc:13-20 | first match through the overlapping segments amounts to a partition of the addresses |
| Decoder.PimDecoder.DecodeAddr | sstcomp/PIMBackend/PIMDecoder.cc:22-33 | the search loop computes that partition |
| Device.FuncState.Command | sstcomp/PIMBackend/tclpim.cc:137-176 | the slot object's write makes the specified transition and says whether it started the function |
| Device.MemCopy.Start | sstcomp/PIMBackend/tclpim_functions.cc:18-42 | parameter capture, decode checks and the zero and misaligned counts |
| Device.MemCopy.Clock | sstcomp/PIMBackend/tclpim_functions.cc:44-86 | the copy engine's clock makes the specified step on engine, buffer, SRAM and requests |
| Device.MemCopy.ReadCompleted | sstcomp/PIMBackend/tclpim_functions.cc:90-97 | the read callback's loop leaves the response in the buffer |
| Device.MulVecByScalar.Start | sstcomp/PIMBackend/userpim_functions.cc:14-29 | parameter capture of the multiplier |
| Device.MulVecByScalar.Clock | sstcomp/PIMBackend/userpim_functions.cc:31-83 | the multiplier's clock makes the specified step |
| Device.MulVecByScalar.ReadCompleted | sstcomp/PIMBackend/userpim_functions.cc:43-60 | the read callback's byte loops leave the scaled response in the buffer |
| Device.Tclpim.ReadSram | sstcomp/PIMBackend/tclpim.cc:74-84 | the byte loop through the word array reads the window's bytes |
| Device.Tclpim.WriteSram | sstcomp/PIMBackend/tclpim.cc:101-117 | the byte loop through the word array writes exactly the window's bytes |
| Device.PimBackend.Clock | sstcomp/PIMBackend/tclpim.cc:35-47 | clocks running slots in order and ends the cycle at one that finishes |
| Device.PimBackend.IssueDRAMRequest | sstcomp/PIMBackend/PIMBackend.cc:176-199 | registers a completion and a request carrying a copy of the buffer |
| Device.PimBackend.HandlePIMCompletion | sstcomp/PIMBackend/PIMBackend.cc:222-235 | finds, runs and forgets the completion |
| Device.PimBackend.HandleAnswer | sstcomp/PIMBackend/memoryControllerKG.cc:838-900 | an answered request moves its data then and reaches its callback |
| Device.PimBackend.HandleWrite | sstcomp/PIMBackend/PIMBackend.cc:248-259 | host writes reach DRAM, SRAM or a slot, and memory-mapped ones of other than eight bytes are dropped |
| Device.PimBackend.HandleRead | sstcomp/PIMBackend/PIMBackend.cc:238-246 | host reads see DRAM, SRAM or a slot's state |
| CtlRun.CtlRefinesFlat | sstcomp/PIMBackend/memoryControllerKG.cc:520-901 | every run of the controller is a run of a flat memory keyed by global address, with the same device accesses and the same replies, except that the reply to a memory-mapped write has its address translated once more |
| CtlRun.RepliesKeptIff | sstcomp/PIMBackend/memoryControllerKG.cc:843-882 | reaction by reaction the controller does exactly what the flat memory does if and only if no memory-mapped write's reply is moved by the second translation |
| CtlProof.MmioReplyIff | sstcomp/PIMBackend/memoryControllerKG.cc:843-882 | the device gets a memory-mapped write at its own address, and the reply carries that address if and only if the region starts at zero and has no gaps or the address is in its first chunk |
| CtlRun.MmioReplyMoved | sstcomp/PIMBackend/memoryControllerKG.cc:843-882 | a run in which it does not: INIT written to function slot 1 of a region with gaps is answered from 0x1c000008 |
| CtlRun.ReadReturnsLatest | sstcomp/PIMBackend/memoryControllerKG.cc:853-875 | a read answered at any moment of any run goes back to its side under its own number and addresses, and its i-th byte is that of the latest completed store the arrivals asked for, at its address or, cacheable, its line's base |
| CtlRun.StoreHoldsLatest | sstcomp/PIMBackend/memoryControllerKG.cc:960-984 | at any moment every owned byte of the store is, at its local address, that of the latest completed store, the stores being told from arrivals and completions alone |
| CtlRun.RunBooked | sstcomp/PIMBackend/memoryControllerKG.cc:646-709 | what the flat memory writes and holds in a run is what its arrivals asked for, the write-backs of flushes included |
| CtlEvents.WriteLands | sstcomp/PIMBackend/memoryControllerKG.cc:838-897 | an arriving write, once completed, has landed at its address, a write-back at its line's base or, noncacheable, its address, and no other byte changed; the write is answered, the write-back not |
| CtlEvents.ReadAnswered | sstcomp/PIMBackend/memoryControllerKG.cc:853-897 | an arriving read, once completed, is answered with the store's bytes at its line's base or, noncacheable, its address |
| CtlEvents.FlushLands | sstcomp/PIMBackend/memoryControllerKG.cc:674-705 | a flush with data, once both its halves are completed, has written its payload to its line and is answered |
| CtlEvents.FlushAnswered | sstcomp/PIMBackend/memoryControllerKG.cc:674-705 | a flush without data is only answered |
| CtlEvents.MmioWritten | sstcomp/PIMBackend/memoryControllerKG.cc:838-848 | a memory-mapped write reaches the device as it arrived, and not the store |
| CtlEvents.MmioRead | sstcomp/PIMBackend/memoryControllerKG.cc:861-872 | a memory-mapped read asks the device at its own address, and its answer carries what the device gave |
| CtlEvents.RefusedIff | sstcomp/PIMBackend/PIMMemController.cc:46-58 | which events are refused, exactly; clean evictions are taken and leave nothing |
| CtlEvents.AnswerFailsIff | sstcomp/PIMBackend/memoryControllerKG.cc:797-808 | which answers fail, exactly |
| CtlRun.FlatMemIsLatest | sstcomp/PIMBackend/memoryControllerKG.cc:838-851 | the flat memory is the latest-write function of the completion log |
| CtlProof.ReceiveSimulated | sstcomp/PIMBackend/memoryControllerKG.cc:646-709 | a received event, translated and held, is held at its own global address, a flush with data as two |
| CtlProof.RespondSimulated | sstcomp/PIMBackend/memoryControllerKG.cc:797-901 | an answer does what the flat memory does; only the reply to a memory-mapped write has its address translated once more |
| CtlProof.WriteOverlays | sstcomp/PIMBackend/memoryControllerKG.cc:960-984 | writing a chunk's local image overlays exactly its global bytes |
| CtlProof.ReadSlices | sstcomp/PIMBackend/memoryControllerKG.cc:986-1000 | reading a chunk's local image yields exactly its global bytes |
| Bridge.RequestAccepted | sstcomp/PIMBackend/memoryControllerKG.cc:503-514 | the device's request is accepted and held at its own address |
| Bridge.WriteAnswered | sstcomp/PIMBackend/memoryControllerKG.cc:895-897 | its answered write puts the payload into DRAM as the device sees it, and the device is told |
| Bridge.ReadAnswered | sstcomp/PIMBackend/memoryControllerKG.cc:895-897 | its answered read brings the device the bytes DRAM holds at that moment |
| Machine.MachineRefines | sstcomp/PIMBackend/PIMBackend.cc:176-235 | every run of device and controller together, among any other held events and in any order of answers, is a legal run of the device over a flat DRAM, which the controller's memory mirrors throughout |
| Machine.MachineStepSimulated | sstcomp/PIMBackend/memoryControllerKG.cc:797-901 | each step of the two, sending and answering included, is at most one legal step of that device |
| Machine.StoreAfterCalls | sstcomp/PIMBackend/memoryControllerKG.cc:960-984 | between quiet moments each owned byte of the backing store, at its local address, is what the whole calls and the completed writes make of DRAM, in the order in which they started and completed |
| Machine.LinkReadAnswered | sstcomp/PIMBackend/memoryControllerKG.cc:860-875 | a read from the link, of memory, scratchpad or slot, returns under its own address what the device over the flat DRAM would give |
| Machine.MachineStarts | sstcomp/PIMBackend/tclpim.cc:14-28 | a device as constructed over a controller that holds nothing is such a machine |
| Controller.MemController.HandleEvent | sstcomp/PIMBackend/PIMMemController.cc:46-58 | the object's event handler, marking included, makes the specified step |
| Controller.MemController.HandleMemResponse | sstcomp/PIMBackend/memoryControllerKG.cc:797-901 | the object's response handler makes the specified step and reaction |
| Controller.MemController.AdjustRegionToMemSize | sstcomp/PIMBackend/memoryControllerKG.cc:1103-1155 | the clamping code computes the region that the `Region` rows below characterise |
| Region.GlobalOfLocal | sstcomp/PIMBackend/memoryControllerKG.cc:1029-1073 | global undoes local on owned addresses |
| Region.LocalOfGlobal | sstcomp/PIMBackend/memoryControllerKG.cc:1029-1073 | local undoes global on every local address below the extent, and global lands on an owned address there |
| Region.DenseRange | sstcomp/PIMBackend/memoryControllerKG.cc:1029-1050 | the owned addresses translate onto exactly the local addresses below the extent |
| Region.OrderKept | sstcomp/PIMBackend/memoryControllerKG.cc:1029-1050 | translation keeps the order of owned addresses |
| Region.ChunkKept | sstcomp/PIMBackend/memoryControllerKG.cc:1029-1050 | consecutive bytes of a chunk stay consecutive |
| Region.GlobalAgainIff | sstcomp/PIMBackend/memoryControllerKG.cc:1052-1073 | one more translation to global gives an address back if and only if the region starts at zero and has no gaps or the address is in its first chunk |
| Region.TwiceGlobalIff | sstcomp/PIMBackend/memoryControllerKG.cc:843-882 | translating to global twice gives back every owned address if and only if the region starts at zero and has no gaps or just one chunk |
| Region.AdjustedFitsIff | sstcomp/PIMBackend/memoryControllerKG.cc:1103-1150 | after clamping every owned address translates below the memory size if and only if the region was shrunk or its extent fitted already |
| Region.ShrunkIsLargest | sstcomp/PIMBackend/memoryControllerKG.cc:1132-1150 | a shrunk region is the largest that fits: a contiguous one fills the memory, an interleaved one lacks less than a chunk of it and is a whole number of steps |
| Region.AdjustChangesIff | sstcomp/PIMBackend/memoryControllerKG.cc:1109-1150 | clamping moves the end only, never up, and leaves the region as it is if and only if what is counted of it fits |
| Region.AtMostOneChunkOver | sstcomp/PIMBackend/memoryControllerKG.cc:1113-1117 | an unshrunk region exceeds the memory by at most one chunk |
| Region.PartialStepOverruns | sstcomp/PIMBackend/memoryControllerKG.cc:1113-1117 | a region in which it does |
| Region.AdjustIdempotent | sstcomp/PIMBackend/memoryControllerKG.cc:1103-1150 | clamping twice is clamping once |
| Region.ExtentReached | sstcomp/PIMBackend/memoryControllerKG.cc:1029-1050 | the extent bound is tight |
| Delay.DelayKeepsOrder | sstcomp/PIMBackend/PIMBackend.cc:116-133 | wake-ups always equal queued requests, no wake-up finds the queue empty, and requests are accepted in arrival order, each once, whatever is refused |
| Delay.DelayBuffer.HandleNextRequest | sstcomp/PIMBackend/PIMBackend.cc:116-122 | a wake-up offers the front request, and keeps it if refused |
| IssueProof.RunKeeps | sstcomp/AppGen/mirandaCPU_kg.cc:576-709 | over any run every request is in exactly one of pending, in flight, completed, retired; none issues twice; counters equal requests in flight per kind and stay within limits; nothing passes a queued fence |
| IssueProof.CycleKeeps | sstcomp/AppGen/mirandaCPU_kg.cc:582-709 | one clock keeps all of that |
| IssueProof.RespondKeeps | sstcomp/AppGen/mirandaCPU_kg.cc:288-365 | one response keeps all of that |
| IssueProof.IssuedAfterDependencies | sstcomp/AppGen/mirandaCPU_kg.cc:637-682 | whatever a cycle issues, all it was made dependent on, duplicates included, had completed before |
| IssueProof.HaltMeansAllAnswered | sstcomp/AppGen/mirandaCPU_kg.cc:511-546 | when a finished generator's clock halts, nothing is in flight, and the completed and retired requests are exactly those ever made |
| IssueProof.HaltsIff | sstcomp/AppGen/mirandaCPU_kg.cc:511-546 | the clock halts if and only if the generator has finished and every request it ever made has completed, or was a fence and has retired |
| IssueExact.CycleIssues | sstcomp/AppGen/mirandaCPU_kg.cc:591-707 | exactly what a cycle issues, in order: the queued requests without dependencies that lie in the window, behind no fence and no read or write without a slot, have a slot of their kind left by those going before them, and are within the cycle's limit |
| IssueExact.MarksUnique | sstcomp/AppGen/mirandaCPU_kg.cc:591-707 | that statement fixes the set of requests |
| IssueExact.GeneratesIff | sstcomp/AppGen/mirandaCPU_kg.cc:582-589 | exactly when the generator is heard, and what it makes is queued last, in order and consecutively numbered |
| IssueExact.AnswerFrees | sstcomp/AppGen/mirandaCPU_kg.cc:288-341 | an unknown answer is fatal; any other frees its request's slot and takes one occurrence of it from every queued request's dependencies, and nothing else |
| IssueProof.LimitsKept | sstcomp/AppGen/mirandaCPU_kg.cc:637-663 | for reads, writes and custom requests each, the counter is the number in flight and stays within its own limit |
| IssueProof.CountersSum | sstcomp/AppGen/mirandaCPU_kg.cc:484-495 | the per-kind counters sum to the number of requests in flight |
| FenceProof.FenceOrders | sstcomp/AppGen/mirandaCPU_kg.cc:614-636 | when a fence retires, every older request is done, nothing is in flight, nothing issues in that cycle, and nothing younger has issued |
| FenceProof.GoodRunKeeps | sstcomp/AppGen/mirandaCPU_kg.cc:311-336 | good generators keep every state of every run such that this applies |
| FenceProof.OldestKeepsBusy | sstcomp/AppGen/mirandaCPU_kg.cc:591-707 | if the oldest queued request cannot issue, something is in flight, so a fence behind it stalls |
| FenceProof.RetirementOrderlyIff | sstcomp/AppGen/mirandaCPU_kg.cc:614-636 | with no assumption on dependencies or limits, a cycle retires a fence out of turn if and only if, in the filled queue and with nothing in flight, the loop gets past one or more blocked requests to a fence; and retires one in turn if and only if a fence heads the queue then |
| FenceProof.StuckIsReached | sstcomp/AppGen/mirandaGenerator_kg.h:46-55 | a run with a duplicated dependency leaves a read waiting for ever |
| FenceProof.DuplicateDependencyBreaksFence | sstcomp/AppGen/mirandaCPU_kg.cc:614-636 | after which the next fence retires although the older read never issued |
| FenceExact.GoodMadeIff | sstcomp/AppGen/mirandaCPU_kg.cc:591-709 | what the fence guarantee asks of a generator is exact: given a good queue and non-zero limits, a request handed over before a fence never leads to a retirement out of turn, in any order of clocks and answers, if and only if its dependencies are duplicate-free and each on an incomplete non-fence request, or the window looks at the head only |
| FenceExact.StalledEndsBadly | sstcomp/AppGen/mirandaGenerator_kg.h:46-55 | from any request with such a bad dependency there is a run, of clocks and answers only, that ends in a fence retiring past it |
| RequestQueue.MirandaRequestQueue.Erase | sstcomp/AppGen/mirandaGenerator_kg.h:106-136 | erasing an ascending index list removes exactly those entries |
| RequestQueue.MirandaRequestQueue.PushBack | sstcomp/AppGen/mirandaGenerator_kg.h:138-145 | appends, growing the array when full |
| RequestQueue.MirandaRequestQueue.Resize | sstcomp/AppGen/mirandaGenerator_kg.h:85-98 | reallocation to any size that holds what is queued keeps the contents |
| RequestQueue.KeptAt | sstcomp/AppGen/mirandaGenerator_kg.h:117-130 | each survivor moves down by the number of erased entries before it, and nothing else survives |
| IssueEngine.GeneratorRequest.SatisfyDependency | sstcomp/AppGen/mirandaGenerator_kg.h:46-55 | removes the first matching dependency only |
| IssueEngine.RequestGenCpu.ClockTick | sstcomp/AppGen/mirandaCPU_kg.cc:498-719 | the engine object's clock halts if and only if the generator has finished and every request has completed or retired, and otherwise makes the specified cycle, deferred erasure and all |
| IssueEngine.RequestGenCpu.HandleEvent | sstcomp/AppGen/mirandaCPU_kg.cc:288-341 | the engine object's response handler makes the specified step |
| IssueEngine.KeptDrops | sstcomp/AppGen/mirandaCPU_kg.cc:653-709 | erasing the recorded indices at the end equals dropping each request as it issues |
| PageTable.ShufflePermutes | sstcomp/AppGen/mirandaMemMgr_kg.h:85-105 | for every stream of random numbers the swaps permute the page starts |
| PageTable.TranslateInjective | sstcomp/AppGen/mirandaMemMgr_kg.h:125-169 | no two addresses map to one |
| PageTable.TranslateSurjective | sstcomp/AppGen/mirandaMemMgr_kg.h:125-169 | every physical address is reached |
| PageTable.TranslateInside | sstcomp/AppGen/mirandaMemMgr_kg.h:125-169 | the image is inside the address space and keeps the page offset |
| PageTable.TranslateAt | sstcomp/AppGen/mirandaMemMgr_kg.h:139-143 | offset o of page q goes to offset o of the page the table holds at q |
| PageTable.LinearIsIdentity | sstcomp/AppGen/mirandaMemMgr_kg.h:55-71 | the linear table maps every address to itself |
| PageTable.PairExchanges | sstcomp/AppGen/mirandaMemMgr_kg.h:85-94 | one pair of random numbers exchanges the images of the two pages they select, and no other |
| PageTable.ShuffleConcat | sstcomp/AppGen/mirandaMemMgr_kg.h:85-105 | and the pairs act one after the other |
| PageTable.MemoryManager.constructor | sstcomp/AppGen/mirandaMemMgr_kg.h:50-120 | the table built is the linear one, or its shuffle by the numbers drawn, and in either case a permutation |
| PageTable.MemoryManager.MapAddress | sstcomp/AppGen/mirandaMemMgr_kg.h:125-169 | an address below the limit goes to its page's entry plus its offset, so over a linear table to itself; the rest are refused |
| Mailbox.MailboxSafe | sstcomp/AppGen/app.cc:32-46 | under every schedule the slot holds at most one event, what is consumed is a prefix of what is sent, and the two threads never both sleep |
| Mailbox.MailboxLive | sstcomp/AppGen/appTransactor.cc:30-60 | until DONE is consumed some thread can move; after it the consumer has everything and never waits again |
| Mailbox.MailboxTerminates | sstcomp/AppGen/app.cc:26-46 | without spurious wake-ups every schedule is bounded, and one that cannot go on has delivered the whole script |

## Left out

- Framework code (components, links, parameters, statistics, output) and the backend convertor,
  timing models and memory types: the environment answers each accepted request once, later, in
  any order.
- The device's engines take their parent as an argument instead of holding a pointer to it, and a
  completion callback is a value naming the engine and the next state instead of a closure.
- Device.Memory: the object the device talks to is a flat memory with outstanding requests, not
  the controller object; that the two amount to the same is proved on the step relations
  (`Machine`), where device and link events carry different numbers.
- Machine: the host's accesses are events of the link; that it keeps to the driver's protocol is
  proved over the flat DRAM (`Driver`) and is a condition on those events here.
- The scratchpad is an array of bytes, the program's view of its words on a little-endian host.
- The response command table and the region's membership test belong to the framework and are
  modelled as `CtlSpec.ResponseTo` and `Region.Owns`.
- CtlSpec.Receive: an address below the region, which would wrap around, is a failure; remote
  events, custom commands, listeners and a controller without a backing store are not modelled.
- Revpim.PollUntilDone: not called on a slot that has taken INIT but not RUN, on which the loop does
  not end; `Revpim.PollingEndsIff` says exactly when it does.
- RequestQueue.MirandaRequestQueue.Resize: not called with a size below what is queued, for which
  the copying loop writes past the end of the new array.
- Mailbox: the two threads are a state machine over their critical sections, not code; the load
  queue and the receiving side's timeout count are environment timing.
- IssueSpec: generation is modelled with and without the application link, but memory requests are
  not split over cache lines, which is asserted off with it; data bytes and issue times are not
  carried.
- Delay: the backend's answer to each offered request is an input.
- PageTable: only the first sharer, which builds the table, is modelled.
- Statistics, latencies, the single-stream generator, unused types and configuration files: they
  would add only easy members.
