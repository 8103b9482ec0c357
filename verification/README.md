# Verified models of the compatibility runtime

This project models the parts of the 32-bit compatibility runtime whose correctness is an argument
over whole runs or whole memories rather than over one function, and proves that argument in
Dafny. `dafny verify dfyconfig.toml` checks everything.

| files | what they model |
|---|---|
| `HeapModel.dfy`, `GuestHeap.dfy` | The guest heap: a boundary-tag allocator over one 32-bit region. Memory is a map of words; which stretches of it are blocks, and which lists thread through them, is ghost state that the invariant ties to the words. |
| `FileTable.dfy` | Guest `FILE` handles: round-robin slots whose handles rotate through three generations. |
| `Semaphores.dfy` | Generation-tagged semaphores, with the threads that wait on them. |
| `MutexRegistry.dfy` | The registry of host mutexes, its index cache and its free list. |
| `ConditionGate.dfy` | The gate in front of condition variables that keeps signals from getting lost. |
| `GuestSort.dfy` | `qsort` on guest memory: an in-place heapsort with a comparator that runs in the guest. |
| `ArbGuard.dfy`, `ArbMachine.dfy`, `ArbUsage.dfy`, `ArbMeaning.dfy`, `Text.dfy` | The rewriter that guards RSQ and RCP in ARB assembly programs, what those programs do, what they take of the implementation's limits, and which of them load. |
| `DeferredGraphs.dfy` | The queue of deferred audio graph work, its worker, drains and parameter writes. |
| `GraphPool.dfy` | The pool of audio graphs opened in advance. |
| `SaveConverter.dfy` | Conversion of profiles between the Windows and Mac record layouts. |
| `Pixels.dfy`, `RectangleFill.dfy` | Packing and unpacking pixels through channel masks; filling rectangles. |
| `SteamReplacement.dfy` | Replacing a Steam bundle, with failures and stops at every step. |
| `Bytes.dfy`, `Options.dfy` | Bytes and optional values. |

Code that updates state in place is a class whose methods are proved against specification
functions on values; what the source promises is proved about those functions. Threads are atomic
steps between lock operations: the state machines' step functions use the same specification
functions that the class methods are proved to compute. Data recorded only for the statements
(histories, epochs, where a block is) is ghost or marked as history.

Results that differ from what the source's comments say, or that hold only under a condition:

* A closed `FILE` handle is rejected until F + 2 * (1025 - P) + 1 opens after the close, P being the most
  files open at once and F the free slots between the cursor and its own (`ClosedStaysRejected`). The
  comment promises 3,072 opens. That holds exactly when no more than one file is ever open from the close on
  and the closed file was the last one opened (`DocumentedDistance`). Otherwise some run takes fewer: 3,070 past a
  second open file (`ReissuePastHeld`), 2,049 when others were opened since (`ReissuedAfter2049Opens`), three in a
  full table (`FullTableReissuesAtOnce`). From one issue to the next it is 3 * (1025 - P) opens.
* A rewritten ARB program loads exactly when the original does, has no OPTION behind its header, the first line
  and the OPTION lines right after it, and leaves room within the implementation's limits for two more instructions
  for each RSQ, six for each RCP, a temporary and a parameter (`LoadsWhen`). A comment, a blank line or a tab
  after the word ends the header, and the declarations then come before the OPTION, which both grammars forbid
  (`OptionBehindComment`); a program that fills a limit no longer loads (`FullProgram`). `MeaningPreserved` holds
  exactly for the others.
* A converted profile whose plants come in eighteens can fit both layouts and is then refused on the
  way back (`ReturnRefused` gives one); `RoundTrip` says exactly when, in terms of the original.
* Deferred audio work that is done at once because memory ran out can overtake queued work on its graph:
  `InlineOrder` and `InlineInRun` say exactly when, `InlineOvertakes` gives a run. A call that finds none of its
  graph's work left is safe (`InlineKeepsOrder`).
* A semaphore handle is accepted again when the slot's 32,768th next semaphore is live (`StaleHandleReturns` gives
  the run, from any reachable state whose table is not full), and a sleeping waiter
  could be granted a later semaphore's permit only after a multiple of 2,147,483,648 creations in its slot.
* Pixels come back through one channel, for every pixel, exactly when the channel's mask is a single run of bits.
* A heap request of up to 2^32 - 32 bytes fails exactly when neither a free block nor the rest of the region has room for it and 16 bytes, and
  what is freed can be had again (`AllocationServes`, `Deallocate`).
* The heap's saturating subtractions never saturate, and the cap on list walks never cuts one short.

## Model

| member | source | states |
|---|---|---|
| HeapModel.BinMonotone | native/src/compat_runtime.c:1965-1978 | a larger capacity is never in an earlier bin, so a search upwards from the request's bin misses nothing |
| HeapModel.BinBounds | native/src/compat_runtime.c:1965-1978 | each multiple of 16 is in the one bin between whose ends it lies: every 16 bytes up to 512, then at each doubling, the last bin taking the rest |
| HeapModel.EveryByteInOneBlock | native/src/compat_runtime.c:108-168 | every byte below the cursor is in exactly one block |
| HeapModel.LivePayloadsDisjoint | native/src/compat_runtime.c:2255-2297 | two live pointers never share a payload byte |
| HeapModel.VerdictIsRight | native/src/compat_runtime.c:2040-2068 | for the payload of any block, the header test says sound exactly when it is live, else already free |
| HeapModel.FreeIsListed | native/src/compat_runtime.c:2105-2116 | every free block is on the list of the bin of its capacity |
| HeapModel.ListIsShort | native/src/compat_runtime.c:2127-2129 | a list has no more blocks than there are idle blocks, the quantity the walk's cap is kept above |
| HeapModel.LastIsLive | native/src/compat_runtime.c:2143-2194 | a heap whose cursor is not at the base ends with a live block |
| HeapModel.NothingLiveMeansEmpty | native/src/compat_runtime.c:2304-2349 | with no live block there is no block, the cursor is at the base and all bins are empty |
| HeapModel.CopiedBytes | native/src/compat_runtime.c:2543-2544 | the copy of a moved payload carries exactly its first n bytes and changes nothing else |
| HeapModel.WordBytes | native/src/compat_runtime.c:2543-2544 | a word is the sum of its four bytes, the lowest first |
| HeapModel.RequestedFits | native/src/compat_runtime.c:2002-2003 | requested bytes never exceed live capacity |
| HeapModel.SiteMoves | native/src/compat_runtime.c:1980-2038 | a site's live bytes stay the sum over its live blocks when a block is added, removed or resized |
| Allocator.BinForCapacity | native/src/compat_runtime.c:1965-1978 | the shifting loop finds the bin that the bounds define |
| Allocator.AllocationAddsOnlyItself | native/src/compat_runtime.c:2255-2297 | an allocation adds one live block with room for the request and ends no other's life |
| Allocator.ReleaseForgetsOnlyItself | native/src/compat_runtime.c:2304-2349 | coalescing and retracting the cursor end the life of the freed block and of no other |
| Allocator.GuestHeap.InsertFree | native/src/compat_runtime.c:2105-2116 | a block with no free neighbour goes on its bin's list with a footer; the invariant holds and payloads are untouched |
| Allocator.GuestHeap.RemoveFree | native/src/compat_runtime.c:2118-2141 | succeeds exactly for a free block: what only looks like one inside a payload is refused |
| Allocator.GuestHeap.Preceding | native/src/compat_runtime.c:2162-2174 | the footer test finds the free block that ends at a header whenever there is one |
| Allocator.GuestHeap.MergeBackward | native/src/compat_runtime.c:2162-2183 | fuses with the free block before, and only with a real one |
| Allocator.GuestHeap.Coalesce | native/src/compat_runtime.c:2143-2194 | the block becomes one with its free neighbours, or goes back to the bump region when it reaches the cursor |
| Allocator.GuestHeap.FindFit | native/src/compat_runtime.c:2196-2234 | the first block that fits, and none exactly when no free block is large enough |
| Allocator.GuestHeap.TakeFree | native/src/compat_runtime.c:2196-2253 | answers 0 exactly when no free block is large enough; else the first fit, split when the rest can hold a block |
| Allocator.GuestHeap.AllocateAt | native/src/compat_runtime.c:2255-2297 | granted exactly when the size is at most 2^32 - 32 and some free block, or the rest of the region, has room for it and 16 bytes; then one new live block at most 79 bytes larger, for that call site, every live payload unchanged, cleared if asked |
| Allocator.AllocationServes | native/src/compat_runtime.c:1958-1963 | rounding to 16 never turns down a request for which there is room, and never gives away 80 bytes more |
| Allocator.GuestHeap.Deallocate | native/src/compat_runtime.c:2304-2349 | a live block is released, its header remembered, and a request as large as the block can then be granted; null, blocks that are not live, stray pointers and pointers freed before change only counters; the heap invariant holds |
| Allocator.GuestHeap.MarkFreed | native/src/compat_runtime.c:2330-2338 | the header says freed, and each word of the payload is overwritten with 0xdddddddd exactly when that is asked for |
| Allocator.GuestHeap.StrayIsRefused | native/src/compat_runtime.c:2040-2052 | null, misaligned pointers and pointers outside the heap may always be freed, and are refused |
| Allocator.GuestHeap.OnlyMimicsExcluded | native/src/compat_runtime.c:2040-2068 | the only pointers excluded from free are those in front of which every word the source tests looks like a live header |
| Allocator.GuestHeap.FreedIsRefused | native/src/compat_runtime.c:2040-2068 | a pointer once freed is refused, wherever its block has been merged, until its header's bytes are handed out again |
| HeapModel.RefusingFreed | native/src/compat_runtime.c:2333-2343 | freeing a block, poisoned or not, keeps the tags of every header freed before and adds its own |
| Allocator.GuestHeap.ResizeInPlace | native/src/compat_runtime.c:2478-2502 | the block keeps its place, its new size is booked, nothing else changes |
| Allocator.GuestHeap.GrowAtTop | native/src/compat_runtime.c:2503-2537 | the last block grows into the bump region, all payloads unchanged |
| Allocator.GuestHeap.ReallocateByMove | native/src/compat_runtime.c:2541-2549 | a new block with the first min(old, new) bytes, the old one released, all other live payloads unchanged |
| Allocator.GuestHeap.Reallocate | native/src/compat_runtime.c:2452-2550 | in place while the block has room for the new size and 16 bytes, or the region does behind the last block; else moved exactly when such a request can be granted; the contents carried over, every other live block untouched; freed headers are forgotten only under blocks handed out |
| Allocator.ReallocationServes | native/src/compat_runtime.c:2452-2550 | the same in bytes: which path is taken depends on the new size plus 16 against the block, the region and the free blocks |
| Allocator.GuestHeap.GuestWrite | native/src/compat_runtime.c:2143-2194 | whatever the guest writes inside a live payload, forged headers and footers included, keeps the heap invariant |
| Allocator.GuestHeap.Conservation | native/src/compat_runtime.c:1995-2038 | live + reusable capacity + 16 per block is cursor - base, and each site's bytes are its live blocks' sum |
| Allocator.GuestHeap.AllFreedMeansReset | native/src/compat_runtime.c:2304-2349 | once nothing is live the cursor, the bins and all live counters are back at the start |
| FileTable.GuestFiles.OpenFile | native/src/compat_runtime.c:477-508 | takes the first free slot from the cursor on and issues its next generation; a full table closes the file |
| FileTable.GuestFiles.CloseFile | native/src/compat_runtime.c:529-550 | frees the slot of a current handle, leaves everything alone for any other |
| FileTable.OpenGrants | native/src/compat_runtime.c:477-508 | a new handle meant nothing before and its file now, and no other handle's meaning changes |
| FileTable.CloseRevokes | native/src/compat_runtime.c:529-550 | a closed handle means nothing, every other means what it did, one file fewer is open |
| FileTable.MeaningsFromEmpty | native/src/compat_runtime.c:443-550 | after any run from the empty table a number means what it does in a simple map of open handles: the standard three always, an open handle its own file, anything else nothing |
| FileTable.OpensUnlessFull | native/src/compat_runtime.c:477-508 | an open is granted exactly when there is a file and fewer than 1,024 are open |
| FileTable.HandleValues | native/src/compat_runtime.c:486-498 | handles are multiples of 16, distinct for distinct slots and generations, above the standard ones and below the Cg range |
| FileTable.StaleStaysRejected | native/src/compat_runtime.c:443-459 | a handle that means nothing is rejected through any run that does not issue it again |
| FileTable.StaleHandleDistance | native/src/compat_runtime.c:486-498 | two issues of one handle are at least 3 * (1025 - P) opens apart, P being the most files open at once after the first |
| FileTable.ClosedHandleDistance | native/src/compat_runtime.c:486-498 | from the close a handle is issued again only after F + 2 * (1025 - P) + 1 opens, F being the slots free ahead of its own |
| FileTable.ClosedStaysRejected | native/src/compat_runtime.c:486-498 | any run with fewer opens leaves the closed handle without a meaning |
| FileTable.EarliestReissue | native/src/compat_runtime.c:481-501 | in an otherwise empty table a run with one file open at a time brings it back at exactly that open |
| FileTable.ReissuePastHeld | native/src/compat_runtime.c:481-501 | holding one file open, a run brings the last file opened back at the 3,070th open |
| FileTable.DocumentedDistance | native/src/compat_runtime.c:486-489 | whatever is open at the close, every run within a peak of P files takes the documented 3,072 opens exactly when P is one and the closed file was the last one opened |
| FileTable.ReissuedAfter2049Opens | native/src/compat_runtime.c:486-489 | a run from the empty table after which 2,049 opens bring a closed handle back |
| FileTable.FullTableReissuesAtOnce | native/src/compat_runtime.c:443-459 | with every other slot taken the handle comes back after exactly three opens |
| Semaphores.SemaphoreTable.Create | native/src/compat_runtime.c:220-258 | fails exactly when every slot is live; else the handle leads to the lowest free slot, now live with the given permits and limit, and no other slot changes |
| Semaphores.SemaphoreTable.Delete | native/src/compat_runtime.c:5577-5587 | a current handle's slot becomes free with the next generation, a stale one changes nothing |
| Semaphores.SemaphoreTable.Signal | native/src/compat_runtime.c:5588-5596 | a permit more, unless there are as many as allowed already |
| Semaphores.SemaphoreTable.WaitTurn | native/src/compat_runtime.c:5606-5616 | one turn of the wait: refused exactly when the slot is free or of another generation, to sleep exactly when it is the waiter's and has no permit, else one permit taken |
| Semaphores.ChosenIsFree | native/src/compat_runtime.c:223-238 | the table is full exactly when every slot is live; else the slot chosen is free |
| Semaphores.RunKeeps | native/src/compat_runtime.c:5569-5617 | every interleaving of creations, deletions, signals and waits keeps the invariant below |
| Semaphores.PermitsConserved | native/src/compat_runtime.c:5588-5616 | initial + accepted signals = granted waits + count, 0 <= count <= maximum, and a generation is odd exactly while its slot is live |
| Semaphores.HandleIsGood | native/src/compat_runtime.c:197-218 | a handle is accepted exactly while a semaphore a multiple of 32,768 creations later is live in its slot |
| Semaphores.StaleHandleReturns | native/src/compat_runtime.c:197-258 | after n creations and deletions in its slot, the first its own, a handle is good for the next semaphore created exactly when n is a multiple of 32,768 |
| Semaphores.WaiterTakesItsOwn | native/src/compat_runtime.c:5601-5614 | a wait is granted only by the semaphore it began on, short of 2,147,483,648 creations in its slot |
| Semaphores.RefusedOnlyWhenGone | native/src/compat_runtime.c:5606-5616 | in any reachable state a turn that ends a wait takes a permit, or finds the semaphore deleted: its slot free or held by a later one |
| Semaphores.TurnDecides | native/src/compat_runtime.c:5606-5616 | an awake waiter gives up, sleeps or takes a permit exactly as its semaphore is gone, empty or not |
| Semaphores.WaitBegins | native/src/compat_runtime.c:5597-5609 | a stale handle and a poll of an empty semaphore change nothing, a permit is taken at once, else the thread sleeps on what it found |
| Semaphores.SomeoneIsAwake | native/src/compat_runtime.c:5592-5609 | while a thread sleeps and there are permits, another waiter of that semaphore is awake |
| MutexRegistry.Mutexes.HostMutex | native/src/compat_runtime.c:822-866 | a bound address has its mutex; else, if asked and the host plays along, the mutex recycled last or a new one is bound, whatever the index cache holds |
| MutexRegistry.Mutexes.InitializeMutex | native/src/compat_runtime.c:872-886 | keeps the binding of a known address, binds an unknown one |
| MutexRegistry.Mutexes.DestroyMutex | native/src/compat_runtime.c:888-906 | a bound address is unbound and its mutex is next to be recycled, if the host lets it go; no other binding changes |
| MutexRegistry.Mutexes.CreateMutex | native/src/compat_runtime.c:704-721 | recycles the first free mutex, else asks the host; one that cannot be initialised is given up |
| MutexRegistry.RemovedBindings | native/src/compat_runtime.c:894-898 | moving the last entry into the hole removes one binding from the map and no other |
| MutexRegistry.RunKeeps | native/src/compat_runtime.c:704-728 | after any mix of operations no mutex is bound twice, free twice, or bound and free |
| MutexRegistry.BindingLasts | native/src/compat_runtime.c:822-866 | an address keeps its mutex until it is destroyed |
| MutexRegistry.StaysUnbound | native/src/compat_runtime.c:888-906 | a destroyed address stays unbound until its mutex is asked for again |
| MutexRegistry.DestroyedIsRecycled | native/src/compat_runtime.c:704-728 | a mutex let go is the one the next address gets |
| ConditionGate.Gate.Arrive | native/src/compat_runtime.c:1012-1018 | takes the token if there is one, else is counted |
| ConditionGate.Gate.Wake | native/src/compat_runtime.c:1052-1060 | leaves the token exactly when nobody is counted, else signals |
| ConditionGate.RunKeeps | native/src/compat_runtime.c:985-1062 | every interleaving of locking, waiting, waking, timeouts and spurious wake-ups keeps the invariant |
| ConditionGate.WaitersCounted | native/src/compat_runtime.c:1018-1037 | the count is the number of threads between being counted and leaving; never a token beside a waiter; one thread in the gate |
| ConditionGate.ReturnsHoldingMutex | native/src/compat_runtime.c:1012-1040 | every way out of a wait returns with the guest's mutex held as often as on entry |
| ConditionGate.GateNeverWaits | native/src/compat_runtime.c:1012-1039 | the holder of the gate's lock can always go on, and no thread gets a mutex while it holds that lock |
| ConditionGate.GetsOn | native/src/compat_runtime.c:1012-1062 | in any reachable state a thread inside a call goes on unless it sleeps, another holds the gate, or another holds its mutex when its wait is over |
| ConditionGate.CallsBegin | native/src/compat_runtime.c:1012-1052 | a wait begins for a thread that holds its mutex, whose depth is remembered, a wake for any |
| ConditionGate.WokenReturns | native/src/compat_runtime.c:1037-1040 | a woken waiter that finds gate and mutex free is back three steps later, its mutex as it was and the count one less |
| ConditionGate.WakeIsNotLost | native/src/compat_runtime.c:1043-1062 | a wake leaves the token exactly when nobody is counted; else a waiter is awake, a sleeping one is woken if any sleeps, and all of them by a broadcast |
| ConditionGate.TokenMakesNextWaitReturn | native/src/compat_runtime.c:1012-1017 | a token stays until a thread comes to wait, and that one returns without sleeping, its mutex held throughout |
| GuestSort.Swap | native/src/compat_runtime.c:3356-3368 | swapping in 256-byte chunks exchanges the two stretches whole, for every width |
| GuestSort.ElementsSwapped | native/src/compat_runtime.c:3356-3368 | exchanging the bytes of two elements exchanges those two elements and nothing else |
| GuestSort.RootIsLargest | native/src/compat_runtime.c:3401-3402 | the root of a heap is no smaller than any element |
| GuestSort.BuildHeap | native/src/compat_runtime.c:3380-3400 | a rearrangement, in heap order when the comparator is an order |
| GuestSort.Sort | native/src/compat_runtime.c:3376-3420 | ends with a permutation for any comparator, even an inconsistent or stateful one, touching no other byte and handing it addresses of the array's elements only; when it answers by a total preorder on the elements, it never says of two elements that the one at the lower address comes later |
| ArbGuard.Recognised | native/src/arb_program_guard.c:17-53 | exactly the lines of the printed shape are recognised, with exactly their parts |
| ArbGuard.ParseUnary | native/src/arb_program_guard.c:17-53 | the cursor loops find that statement's destination and operand |
| ArbGuard.RewrittenFits | native/src/arb_program_guard.c:93-95 | rewriting adds at most 512 characters for each guarded instruction |
| ArbGuard.HeaderHoldsNone | native/src/arb_program_guard.c:73-132 | counting from the first line and rewriting from after the header see the same instructions |
| ArbGuard.DeclarationsPlaced | native/src/arb_program_guard.c:107-132 | the declarations stand exactly between the OPTION lines right after the first line, however many, and the rest |
| ArbGuard.EveryProgramGuarded | native/src/arb_program_guard.c:8-15 | a vertex or fragment program with an RSQ or RCP on any line is rewritten |
| ArbGuard.OutputFits | native/src/arb_program_guard.c:96-102 | the output and its terminator always fit the buffer that is allocated |
| ArbGuard.Guard | native/src/arb_program_guard.c:55-205 | the two passes produce the rewritten program unless memory or size_t is too small; no overflow exit of the writing pass is reachable; the counts reported are the expansions written |
| ArbGuard.SmallEnough | native/src/arb_program_guard.c:96-100 | no source below 8 PiB is too large for the size computation |
| ArbMachine.ParameterDeclares | native/src/arb_program_guard.c:62-64 | the declared constants denote 1e-20, -2, 1 and 0 |
| ArbMachine.RsqRuns | native/src/arb_program_guard.c:156-171 | the RSQ expansion reads the operand once and writes the destination once, with RSQ of the operand kept at 1e-20 or more |
| ArbMachine.RcpRuns | native/src/arb_program_guard.c:177-191 | the same for RCP, with the sign of the operand restored |
| ArbMachine.GuardedRuns | native/src/arb_program_guard.c:107-199 | on any machine and state running the rewritten text makes the same accesses in the same order, with the values of the clamped run |
| ArbMeaning.RewrittenOptions | native/src/arb_program_guard.c:132-199 | options follow the declarations in the output exactly when they follow the header in the source |
| ArbUsage.RsqUses | native/src/arb_program_guard.c:156-171 | the RSQ expansion counts as three instructions and binds what its operand binds |
| ArbUsage.RcpUses | native/src/arb_program_guard.c:177-191 | the RCP expansion counts as seven |
| ArbMeaning.RewrittenTakes | native/src/arb_program_guard.c:129-199 | the output takes two more instructions for each RSQ, six for each RCP, one temporary and one parameter |
| ArbMeaning.OrderedWhen | native/src/arb_program_guard.c:107-132 | the output's options come first exactly when the source's do and none is behind the header |
| ArbMeaning.LoadsWhen | native/src/arb_program_guard.c:107-199 | with one statement to a line and none of the rewriter's names, the output loads exactly when the source does, has no OPTION behind the header and leaves room for what is added |
| ArbMeaning.OptionsInFront | native/src/arb_program_guard.c:107-132 | a program that loads, whose options are all on OPTION lines right after its first line, still loads rewritten where there is room for what is added |
| ArbMeaning.FullProgram | native/src/arb_program_guard.c:129-199 | a program that loads and uses every instruction or temporary allowed does not load once rewritten |
| ArbMeaning.GuardedSimulates | native/src/arb_program_guard.c:107-199 | the rewritten program means the clamped run of the original where it loads, and nothing where it does not |
| ArbMeaning.MeaningPreserved | native/src/arb_program_guard.c:107-199 | when no RSQ or RCP operand is smaller than 1e-20 the rewritten program means what the original does exactly when the original, if it loads, has no OPTION behind its header and room for what is added |
| ArbMeaning.OptionBehindComment | native/src/arb_program_guard.c:110-125 | a program with a comment before its OPTION that loads, and rewritten does not, whatever the limits |
| ArbMachine.SmallOperands | native/src/arb_program_guard.c:156-195 | run on a smaller operand, an expansion writes the value at 1e-20, for RCP with the operand's sign, zero counting as positive |
| DeferredGraphs.Queue.Append | native/src/audio_bridge.c:1557-1568 | the linked queue gains the work at its end |
| DeferredGraphs.Queue.Take | native/src/audio_bridge.c:1466-1476 | the oldest work leaves the queue and is in progress |
| DeferredGraphs.Queue.GraphHasWork | native/src/audio_bridge.c:1518-1532 | true exactly when matching work is in progress or queued |
| DeferredGraphs.Queue.DecideWrite | native/src/audio_bridge.c:1963-1989 | dropped exactly when an uninitialize, close or dispose of its graph is unfinished; ahead exactly when nothing is left on its graph; else appended, or to wait when memory is short |
| DeferredGraphs.StepKeeps | native/src/audio_bridge.c:1461-1568 | every atomic step of a guest thread or the worker keeps the invariant that the results below rest on |
| DeferredGraphs.InOrder | native/src/audio_bridge.c:1461-1506 | queued work takes effect in the order it was enqueued, each once; outstanding is the queue and the one in progress |
| DeferredGraphs.NothingOvertaken | native/src/audio_bridge.c:1534-1542 | a drain returns, and a parameter write is made, only after all matching work enqueued before the call has taken effect |
| DeferredGraphs.DroppedForTeardown | native/src/audio_bridge.c:1964-1968 | in the state in which a write is dropped a teardown of its graph is queued or in progress |
| DeferredGraphs.WriteDecided | native/src/audio_bridge.c:1963-1989 | the step of a write: with a teardown unfinished it is dropped and nothing is enqueued, else enqueued, waiting or going ahead by what is left and by memory |
| DeferredGraphs.NoWriteBehindTeardown | native/src/audio_bridge.c:1964-1968 | in no run is a write queued behind an unfinished teardown of its graph |
| DeferredGraphs.DrainCompletes | native/src/audio_bridge.c:1534-1542 | from call to return of a drain: all matching work enqueued before the call has taken effect |
| DeferredGraphs.WriteCompletes | native/src/audio_bridge.c:1963-1989 | from call to effect of a write: all work on its graph enqueued before the call has taken effect |
| DeferredGraphs.WaitsForNothingElse | native/src/audio_bridge.c:1534-1542 | with no matching work left a drain returns within two steps of its own, whatever else is outstanding |
| DeferredGraphs.DrainsReturn | native/src/audio_bridge.c:1534-1542 | from any reachable state, once the worker has had its turns, everything enqueued has taken effect and the next step of every drain returns, of every write makes it |
| DeferredGraphs.InlineOrder | native/src/audio_bridge.c:1599-1609 | work done at once keeps its graph's order exactly when none of that graph's work is left |
| DeferredGraphs.InlineInRun | native/src/audio_bridge.c:1599-1609 | the same for every such effect of every run: it overtakes nothing enqueued before its call exactly when none of that graph's work from before the call is left |
| DeferredGraphs.InlineKeepsOrder | native/src/audio_bridge.c:1599-1609 | a call that finds none of its graph's work queued or in progress overtakes nothing enqueued before it, whatever happens before its effect |
| DeferredGraphs.InlineOvertakes | native/src/audio_bridge.c:1599-1609 | a run in which a disposal done at once overtakes a queued start |
| DeferredGraphs.WithoutWorker | native/src/audio_bridge.c:1544-1555 | without a worker nothing is ever queued, so nothing can be overtaken |
| GraphPool.SameMeansAlike | native/src/audio_bridge.c:1779-1791 | two topologies match exactly when graphs built from them are alike |
| GraphPool.BuildPooled | native/src/audio_bridge.c:1795-1818 | a graph of exactly the topology, or none when the host fails or numbers a node otherwise |
| GraphPool.GraphPool.Take | native/src/audio_bridge.c:1865-1899 | hands out, misses or replaces the template as the specification says, and asks for the missing refills |
| GraphPool.GraphPool.FinishRefill | native/src/audio_bridge.c:1842-1850 | pools the graph if the template it was built from still stands, else gives it back for disposal |
| GraphPool.RunKeeps | native/src/audio_bridge.c:1820-1899 | pool and pending refills never exceed four, pooled graphs match the template, each graph is pooled, handed out, disposed of or in hand exactly once |
| GraphPool.HandsOutWhatIsWanted | native/src/audio_bridge.c:1865-1899 | in any reachable state a graph handed out has exactly the requested topology and leaves the pool for good |
| GraphPool.ServedWhen | native/src/audio_bridge.c:1865-1880 | a request is served exactly when it can be pooled, the template is of its shape and the pool is not empty |
| GraphPool.PoolFills | native/src/audio_bridge.c:1820-1899 | from any reachable state with no refill in hand, a request and the worker's turns leave four graphs of the template in the pool |
| GraphPool.UnmatchedIsReplaced | native/src/audio_bridge.c:1882-1895 | a template nothing has matched is replaced by the first request that does not match it |
| GraphPool.MatchEstablishes | native/src/audio_bridge.c:1873-1875 | a matching request establishes the template and forgets the misses |
| GraphPool.TemplateFollows | native/src/audio_bridge.c:1882-1895 | in any reachable state an established template changes exactly at the first request that is the third mismatch in a row, to that request's topology, whatever refills run in between |
| SaveConverter.ThereAndBack | native/src/pvz_save.c:43-54 | a Windows record survives the trip to Mac and back exactly when its Windows-only fields are zero |
| SaveConverter.ToMacCuts | native/src/pvz_save.c:43-54 | a Mac record is the Windows record with the seven omitted words cut out in place |
| SaveConverter.ToWindowsPads | native/src/pvz_save.c:43-54 | a Windows record is the Mac record with seven zero words put in |
| SaveConverter.RecordsThereAndBack | native/src/pvz_save.c:44-55 | so does a run of records |
| SaveConverter.ReadAs | native/src/pvz_save.c:19-35 | a file is read as a layout exactly when it has version 12 and that layout, and not the other too unless there are no plants |
| SaveConverter.ConvertedRecords | native/src/pvz_save.c:36-59 | header and tail are kept, and record i of the result is record i cut down or padded |
| SaveConverter.NotRepresentable | native/src/pvz_save.c:46-51 | a Windows profile is turned down for Mac exactly when a record uses an omitted word |
| SaveConverter.MacConverts | native/src/pvz_save.c:36-59 | a Mac profile is never turned down |
| SaveConverter.RoundTrip | native/src/pvz_save.c:28-59 | the return trip of a converted profile gives the original byte for byte, or is refused exactly when, from Windows, the original has a tail 116 bytes a plant past its header too, from Mac, one byte of its plants exceeds the entries in its tail by seven for every eighteen plants |
| SaveConverter.BothLayouts | native/src/pvz_save.c:19-26 | only files whose plants come in eighteens can fit both layouts |
| SaveConverter.RoundTripAccepted | native/src/pvz_save.c:28-59 | for every other number of plants the return trip gives the original |
| SaveConverter.ReturnRefused | native/src/pvz_save.c:33-34 | a profile that converts and whose result is refused |
| SaveConverter.Convert | native/src/pvz_save.c:28-59 | the loops produce the file with its records cut down or padded, the file itself when it has the layout already, or nothing where the source answers nothing or memory cannot be had |
| Pixels.MaskFields | native/src/chuzzle.inc:68-77 | shift and loss of the mask's lowest run of bits |
| Pixels.FieldsUnique | native/src/chuzzle.inc:68-77 | a mask has one such run |
| Pixels.ChannelRoundTrip | native/src/chuzzle.inc:132-145 | unpacking and packing give every pixel back under the mask exactly when the mask is one run |
| Pixels.WidenedLow | native/src/chuzzle.inc:139-143 | the low bits of a widened channel repeat its high bits |
| Pixels.FullScale | native/src/chuzzle.inc:139-143 | full intensity widens to 255, for channels of four bits or more |
| Pixels.PackedBits | native/src/chuzzle.inc:666-670 | a packed channel has the value's high bits where its mask is and nothing elsewhere |
| Pixels.PixelRoundTrip | native/src/chuzzle.inc:659-672 | for masks of one to eight bits each, packing what was unpacked gives the pixel restricted to the masks |
| Pixels.ColourKept | native/src/chuzzle.inc:132-145 | with disjoint masks, unpacking what was packed keeps each channel's high bits and moves it by less than 2 to the power of its loss |
| Pixels.UnpackPixel | native/src/chuzzle.inc:132-145 | the loop computes each channel, 255 for a missing alpha and 0 for a missing colour |
| Pixels.MapRgba | native/src/chuzzle.inc:659-672 | the loop packs all four channels |
| RectangleFill.Clipped | native/src/chuzzle.inc:684-698 | the clipped rectangle holds exactly the surface's pixels that the rectangle asks for |
| RectangleFill.FillsWhen | native/src/chuzzle.inc:680-699 | something is filled exactly when the surface has pixels of one to four bytes and the rectangle, or without one the whole surface, holds some |
| RectangleFill.PaintedPixel | native/src/chuzzle.inc:700-708 | the bytes at pixels + row * pitch + column * bytes are the colour's, the lowest first |
| RectangleFill.OtherPixel | native/src/chuzzle.inc:700-708 | where rows lie apart every other pixel of the surface keeps its bytes |
| RectangleFill.Fill | native/src/chuzzle.inc:676-709 | no byte outside the rectangle's rows changes and each byte in them is what the last row over it wrote; where rows lie apart, exactly the pixels of the clipped rectangle get the colour |
| SteamReplacement.Disk.Run | PopSiliconInstaller/Sources/SteamReplacementRunner.swift:21-82 | a run starts exactly without leftovers and without a backup of anything but a replaced bundle, takes the disk through exactly the specified states, and succeeds exactly when each step does |
| SteamReplacement.EveryStepSafe | PopSiliconInstaller/Sources/SteamReplacementRunner.swift:50-71 | in every state of a run, whatever fails, the original, the backup and the previous install are kept |
| SteamReplacement.OriginalSurvives | PopSiliconInstaller/Sources/SteamReplacementRunner.swift:21-71 | over any runs, each cut short anywhere, Valve's bundle is at the target or in the backup and a backup is never overwritten |
| SteamReplacement.InstallSurvives | PopSiliconInstaller/Sources/SteamReplacementRunner.swift:50-64 | once there is a replacement there always is one, in place or set aside |
| SteamReplacement.LeftoversStay | PopSiliconInstaller/Sources/SteamReplacementRunner.swift:27-38 | later runs never touch what a run that was cut short has left |
| SteamReplacement.SuccessReplaces | PopSiliconInstaller/Sources/SteamReplacementRunner.swift:54-64 | a successful run puts the new install in place and, the first time, the original in the backup |
| SteamReplacement.FailureRollsBack | PopSiliconInstaller/Sources/SteamReplacementRunner.swift:57-66 | a failed run leaves the disk as it was exactly when nothing is left of the build and what was set aside could be moved back |

## Left out

- Allocator.GuestHeap.Deallocate: does not model freeing a pointer into a payload whose words the guest made look like a live header; the code cannot tell it from a block (`OnlyMimicsExcluded` says which these are). Null, stray pointers, blocks and pointers freed before are all modelled.
- Allocator.GuestHeap.Reallocate: does not model another thread freeing or writing the block between its lock regions, which is a race in the guest too.
- Allocator.GuestHeap.AllocateAt: does not model cumulative and peak statistics (call counts, high water, reuse and failure counts), which nothing reads back.
- Allocator.GuestHeap.FindFit: does not model the repair of corrupt list entries; the invariant shows there are none unless the guest writes past a payload.
- FileTable.GuestFiles.OpenFile: does not model the host file itself or the statistics other than the active count and exhaustions.
- MutexRegistry.Mutexes.HostMutex: does not model the lock itself; its operations are the atomic steps that the table's lock makes them.
- ConditionGate.RunKeeps: does not model conditions without a gate, which are the host's own, nor the size of the 32-bit waiter count.
- GuestSort.Sort: does not model a comparator that writes to the array it is sorting.
- ArbGuard.Guard: does not model lines whose length comes near the range of a C int, where the printf precision would be cut off, nor a null source.
- ArbMeaning.LoadsWhen: of what keeps a program from loading only the order of its options and the limits on instructions, ALU instructions, temporaries and parameters are modelled; texture indirections, attributes and address registers are not, as the added lines use none, nor are other errors in the text; instructions are counted by lines, so it asks for one statement to a line, and for none of the rewriter's names, which would be declared twice. The limits are those left by the program's options, which rewriting keeps.
- ArbMeaning.GuardedSimulates: does not model floating-point rounding, lines with several statements, statements split over lines, what follows END, or programs that use the rewriter's own names; instructions spelled otherwise (RSQ_SAT) pass through unguarded, as in the code.
- DeferredGraphs.NothingOvertaken: says nothing about work enqueued after the call began; what the graph operations themselves do is opaque.
- GraphPool.RunKeeps: takes one refill at a time, as the single worker does; recording a guest graph's topology while it is built is not modelled.
- Pixels.ChannelRoundTrip: does not model masks whose lowest run is longer than eight bits, for which the code's shifts are undefined in C.
- RectangleFill.Fill: does not model filling outside the memory; only the rows of the clipped rectangle have to be in it.
- SteamReplacement.Disk.Run: does not model what is inside a bundle; building, patching Info.plist and signing succeed or fail as a whole.
- The profile-name test in native/src/pvz_save.c and the SHADOW target rewrite in native/src/arb_program_guard.c are single scans without a partner property.
- Reuse switched off in the heap (LP32_GUEST_HEAP_REUSE=0), where freed blocks are abandoned.
- Files closed through the standard stream structures, and reading or writing through any handle.
- Mode switching, bridge thunks, machine-code emission, signal handling, import dispatch, CoreAudio, OpenGL and Cocoa calls: hardware and foreign code.
- Mach-O loading, Steam unwrapping, cloud storage, formatting and scanning of numbers, tracing and profiling.
