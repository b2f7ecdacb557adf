# Hyperlight sandbox memory and call machinery, verified

A Dafny model of the part of Hyperlight that lays out a sandbox's memory, builds its page
tables, loads the guest, passes messages between host and guest and drives the thread that
runs the vCPU, with proofs about it. `dafny verify dfyconfig.toml` checks the whole project.

| file | models |
|---|---|
| `Bytes.dfy`, `Bits.dfy` | little-endian words, writes into memory, bitwise operators defined bit by bit |
| `IoStack.dfy` | the byte format of the input and output buffers and the stack of messages it stands for |
| `SharedMemory.dfy`, `GuestIo.dfy` | the host's and the guest's push and pop on those buffers, in place on one byte array |
| `CallProtocol.dfy` | a guest call with any host calls, reads and log messages inside it |
| `Regions.dfy` | the region builder, the binary search and the first-match scan |
| `Layout.dfy`, `Peb.dfy` | the memory layout, its regions, the process environment block (PEB) |
| `PageTables.dfy`, `Partition.dfy` | the page tables written to memory, the processor's 4-level walk, and whether the tables fit |
| `Elf.dfy` | the ELF loader and its relocations |
| `Boot.dfy` | loading, PEB and page tables together, into one memory |
| `Snapshots.dfy` | the stack of memory snapshots |
| `VCpu.dfy` | the vCPU run loop and access violations |
| `Handler.dfy`, `HandlerRuns.dfy` | the protocol between a caller and the hypervisor handler thread, over all interleavings, and what whole runs tell the caller |

## How to read it

A buffer is compared with `IoStack.Image`, which fixes every byte, so "the buffer holds
this stack" leaves no byte open. The page walk (`PageTables.Walk`) is written from section
4.5 of the Intel SDM, volume 3A, and knows nothing of the code that wrote the tables. The
handler protocol is a set of atomic steps; a run is any sequence of enabled ones.

`Outcome.Panic` stands for Rust panics, including arithmetic overflow (a build with
overflow checks). Sizes are bounded so that sums stay within a `usize`
(`Layout.Bounded`), and buffers have at least the 8 bytes of their stack pointer.
Whether a lock can be taken, when a timeout fires, how a guest run ends, the random
cookie and seed, and the exits of the vCPU are parameters or free choices. The FlatBuffer
decoder is any partial function that depends only on the size-prefixed message.

## What turned out different from the documentation

- Page-table entries of code, stack, heap and guard pages carry the user bit, and
  `docs/paging-development-notes.md` concludes that user code can access them. The upper
  three levels never set that bit, so no page is accessible from user mode
  (`PageTables.WalkIsIntended`). The same notes say the upper entries are only present;
  the code also makes them writable.
- The host exception section is read-only in the page tables and writable in the region
  flags (`Partition.OneAddress`, `VCpu.FaultsByOffset`), so only the processor stops a write to it.
- The page-table estimate does not count the kernel stack. The tables stay out of the
  guest's code exactly when the rounded kernel stack is at most
  `Partition.KernelStackRoom`, which is never below 2 MiB - 20 KiB
  (`Partition.TablesFitIff`, `Partition.RoomAtLeast`). `Partition.LargeKernelStackOverruns`
  is an accepted configuration with a 64 MiB kernel stack where they do not.
- `terminate_execution` returning Ok means that the timed-out call was cancelled exactly
  when `run_cancelled` was false when the call was sent (`Handler.TrustworthyIffFlagClear`);
  a flag left over from an earlier cancelled action can be mistaken for this one's.
- A call gets the response to its own action exactly when none was outstanding
  (`Handler.OwnResponseIff`). A timed-out call that gives up on cancelling leaves one
  unread, and the next call gets it (`Handler.AbandonedCallMisleadsNext`); from every
  synchronised state there is a run in which this happens (`Handler.AbandonedCallIsReachable`).
- "Execution finished while trying to cancel it", after which the caller is told it can
  safely read the result, is reported exactly when the action is over or has not even
  begun (`Handler.FinishedReportIff`); in the run of `Handler.AbandonedCallIsReachable` the
  action is still in the queue.
- The loader takes a relocation's virtual address for its place in the image. The images
  it makes of a binary with a relative relocation at two addresses are both what the
  System V AMD64 psABI asks for exactly when the binary is linked at base zero
  (`Elf.AbiExactlyAtBaseZero`, `Elf.LinkedHighIsMisplaced`).
- Popping the only snapshot discards it and then fails (`Snapshots.PopUndoes`).
- The layout diagram gives the PEB 0x98 bytes; `repr(C)` makes it 0xB8.

## Model

| member | source | states |
|---|---|---|
| `Bits.PageUpRounds` | src/hyperlight_host/src/mem/layout.rs:1258-1260 | adding the page size less one and masking the low bits, done bit by bit, gives the least multiple of the page size not below the value |
| `Bits.OrDisjoint` | src/hyperlight_host/src/mem/mgr.rs:193-232 | a bitwise or of words that share no bit is their sum, in either order |
| `Bytes.FromLESnoc` | src/hyperlight_host/src/mem/shared_mem.rs:63-75 | a byte behind the others is worth the next power of 256: words are read least significant byte first |
| `IoStack.PushImage` | src/hyperlight_host/src/mem/shared_mem.rs:810-824 | the three writes of a push turn the image of a stack into the image of the stack with the message on top |
| `IoStack.PopImage` | src/hyperlight_host/src/mem/shared_mem.rs:880-885 | the two writes of a pop turn the image of a stack into the image of the stack below its top |
| `IoStack.TopElement` | src/hyperlight_host/src/mem/shared_mem.rs:851-872 | the word below the stack pointer of an image is the offset of the top message and the message lies there |
| `IoStack.StackPointer` | src/hyperlight_host/src/mem/shared_mem.rs:788-824 | the stack pointer is 8 plus, for every message, its length and 8, and never exceeds the buffer |
| `IoStack.FreeBytesAreZero` | src/hyperlight_host/src/mem/shared_mem.rs:883-885 | every byte from the stack pointer to the end of the buffer is zero |
| `IoStack.FitsIff` | src/hyperlight_host/src/mem/shared_mem.rs:799-808 | there is room for a message exactly when the lengths of all messages, 8 for each and 8 for the pointer fit the buffer |
| `IoStack.SizePrefixedIff` | src/hyperlight_host/src/mem/shared_mem.rs:860-872 | a message is size-prefixed exactly when it is four little-endian bytes of length and that many bytes |
| `IoStack.FollowImage` | src/hyperlight_host/src/mem/shared_mem.rs:851-859 | following the back pointers down from the stack pointer recovers exactly the stack: the chain is well formed |
| `IoStack.HoldsUnique` | src/hyperlight_host/src/mem/shared_mem.rs:779-888 | a buffer represents at most one stack |
| `IoStack.RunRefines` | src/hyperlight_host/src/mem/shared_mem.rs:782-888 | over every sequence of pushes and pops, failing ones included, the bytes stay the image of the abstract LIFO stack |
| `IoStack.FreshBuffer` | src/hyperlight_host/src/mem/layout.rs:1242-1252 | a zeroed buffer with stack pointer 8 is the image of the empty stack |
| `IoStack.PushPopRestores` | src/hyperlight_host/src/mem/shared_mem.rs:799-887 | a push with room and the pop after it restore the buffer byte for byte |
| `IoStack.PushCommitsLast` | src/hyperlight_host/src/mem/shared_mem.rs:810-824 | after any proper part of the writes of a push, readers still find exactly the old stack |
| `IoStack.PopCommitsFirst` | src/hyperlight_host/src/mem/shared_mem.rs:880-885 | after the first write of a pop, readers find exactly the smaller stack |
| `SharedMem.SharedMemory.CopyFromSlice` | src/hyperlight_host/src/mem/shared_mem.rs:745-760 | succeeds exactly within bounds, and then replaces exactly those bytes; otherwise nothing changes |
| `SharedMem.SharedMemory.CopyToSlice` | src/hyperlight_host/src/mem/shared_mem.rs:726-741 | returns exactly the bytes asked for, or nothing out of bounds |
| `SharedMem.SharedMemory.Fill` | src/hyperlight_host/src/mem/shared_mem.rs:764-777 | succeeds exactly within bounds, and then sets exactly those bytes |
| `SharedMem.SharedMemory.WriteU64At` | src/hyperlight_host/src/mem/shared_mem.rs:63-75 | writes the eight little-endian bytes exactly when they fit |
| `SharedMem.SharedMemory.ReadU64At` | src/hyperlight_host/src/mem/shared_mem.rs:693-707 | reads the little-endian word exactly when it is in bounds |
| `SharedMem.SharedMemory.PushBuffer` | src/hyperlight_host/src/mem/shared_mem.rs:782-826 | on any contents nothing outside the buffer changes and a failure changes nothing; on the image of a stack it succeeds exactly when there is room and leaves the image of the larger stack |
| `SharedMem.SharedMemory.TryPopBufferInto` | src/hyperlight_host/src/mem/shared_mem.rs:832-888 | on any contents nothing outside the buffer changes and an error changes nothing; with a back pointer not above the stack pointer it panics exactly on an oversized size prefix, with one above it never succeeds; on the image of a stack it returns the decoded top message and leaves the image of the rest, fails on the empty stack and on an undecodable message |
| `SharedMem.OversizedIff` | src/hyperlight_host/src/mem/shared_mem.rs:860-872 | a size prefix is too large exactly from 0xFFFF_FFFC on |
| `GuestIo.PushSharedOutputData` | src/hyperlight_guest/src/shared_output_data.rs:27-86 | meets the contract of the host's push; an empty buffer is an error, one shorter than its stack pointer a panic |
| `GuestIo.TryPopSharedInputDataInto` | src/hyperlight_guest/src/shared_input_data.rs:28-90 | meets the contract of the host's pop although it hands the decoder the rest of the buffer; panics only on a back pointer above the stack pointer, and never succeeds on one |
| `CallProtocol.HostPush` | src/hyperlight_host/src/mem/mgr.rs:604-632 | the host's writes of calls and return values push on the input stack and leave the output stack alone |
| `CallProtocol.HostTake` | src/hyperlight_host/src/mem/mgr.rs:593-600 | the host's readers of calls, results and log data get the top of the output stack and leave the input stack alone |
| `CallProtocol.GuestPush` | src/hyperlight_guest/src/host_function_call.rs:149-153 | the guest's push on the output stack leaves the input stack alone |
| `CallProtocol.GuestPop` | src/hyperlight_guest/src/host_function_call.rs:42-53 | the guest's read gets the top of the input stack and leaves the output stack alone |
| `Bytes.KeepsWindow` | src/hyperlight_host/src/mem/layout.rs:366-377 | an operation confined to one buffer leaves every byte of the other as it was |
| `CallProtocol.DoOp` | src/hyperlight_host/src/sandbox/outb.rs:113-135 | a host call gives the host the request and leaves the response on the input stack, or ends the run when the host function fails or its response does not fit; a request that does not fit is refused and nothing changes; a log record reaches the host; a read gets the newest unread value; the output stack is unchanged by each |
| `CallProtocol.RunGuest` | src/hyperlight_guest/src/guest_function_call.rs:92-96 | any sequence of guest operations on the bytes behaves as on the two abstract stacks, past refused requests and up to the first operation that panics or fails on the host's side |
| `CallProtocol.CallFunctionOnGuest` | src/hyperlight_host/src/func/guest_dispatch.rs:36-104 | the guest takes the call the host wrote, the host gets the result the guest wrote, and if all return values were read not one byte of memory differs afterwards; a call or result that does not fit, a guest function that fails, an overwritten stack guard, and what both stacks then hold, are covered |
| `CallProtocol.MatchedRead` | src/hyperlight_guest/src/host_function_call.rs:135-158 | in every completed sequence of operations a read returns the response of the host call it is bracketed with, whatever lies below, however many values were left unread before and however many requests were refused in between |
| `CallProtocol.HostGetsWhatWasWritten` | src/hyperlight_host/src/mem/mgr.rs:593-650 | the host gets every log record and exactly the requests that fit, each as the guest wrote it |
| `CallProtocol.BalancedKeepsInput` | src/hyperlight_guest/src/host_function_call.rs:42-158 | operations that read all their return values leave the input stack as they found it |
| `CallProtocol.CompletesIff` | src/hyperlight_guest/src/host_function_call.rs:42-158 | a sequence of operations completes exactly when each finds room for what it writes and something to read, after those before it |
| `CallProtocol.FirstFailure` | src/hyperlight_guest/src/host_function_call.rs:135-158 | one that does not stops at its first operation that cannot be done, with the input stack of that point, and the host has seen its request if it was one |
| `CallProtocol.SameStacksSameBytes` | src/hyperlight_host/src/mem/shared_mem.rs:782-888 | memories with the same stacks and nothing else changed are equal byte for byte |
| `CallProtocol.RunMixed` | src/hyperlight_host/src/mem/shared_mem.rs:782-888 | over any mix of host and guest operations on both buffers, operations on one leave every byte outside it alone whatever it holds, and each stack ends as its own operations alone make it |
| `Regions.MemoryRegionVecBuilder.Push` | src/hyperlight_host/src/mem/memory_region.rs:172-200 | appends a region that starts where the last one ends, host range shifted by the same constant, and keeps the list contiguous, in whole pages if the size is |
| `Regions.MemoryRegionVecBuilder.PushPageAligned` | src/hyperlight_host/src/mem/memory_region.rs:206-214 | the same with the size rounded up to whole pages; returns the size of all regions so far |
| `Regions.BinarySearch` | src/hyperlight_host/src/mem/mgr.rs:243-264 | on every tiled list, empty regions included, finds a region exactly when the first-match scan does, and the same one |
| `Regions.FindFrom` | src/hyperlight_host/src/hypervisor/mod.rs:156-159 | the first region containing the address, or none when no region does |
| `Regions.Covered` | src/hyperlight_host/src/mem/memory_region.rs:216-220 | exactly the addresses from the base to the end of the last region lie in a region |
| `Regions.OnlyMatch` | src/hyperlight_host/src/mem/memory_region.rs:172-200 | no address lies in two regions |
| `Regions.SameRegionInPage` | src/hyperlight_host/src/mem/mgr.rs:243-264 | every address of a page lies in the region of the page's first address |
| `Layout.EstimateCovers` | src/hyperlight_host/src/mem/layout.rs:712-750 | the estimate is four pages and one for each table; the tables map the base, every counted byte and the largest tables, and reach less than one table and ten pages further |
| `Layout.BuiltIsChained` | src/hyperlight_host/src/mem/layout.rs:321-431 | for all bounded sizes, zero included, every section starts page-aligned exactly where the one before it, rounded to pages, ends |
| `Layout.MemorySize` | src/hyperlight_host/src/mem/layout.rs:755-771 | guest memory is the estimate, the counted sections, the rounded kernel stack, three guard pages and the boot stack, within the maximum |
| `Layout.AcceptedIff` | src/hyperlight_host/src/mem/layout.rs:755-771 | a configuration is accepted exactly when all its parts and the 2 MiB below them fit in 1 GiB |
| `Layout.GetMemoryRegions` | src/hyperlight_host/src/mem/layout.rs:775-1064 | for every layout all offset checks pass exactly when the memory size is accepted, and the sixteen regions built from sizes are those the offsets describe, tiling guest memory |
| `Layout.RegionByOffset` | src/hyperlight_host/src/mem/layout.rs:775-1064 | the region of each offset has the type of the section there; all are readable, all but the guard pages and the host function definitions writable, only the code and an executable heap executable; behind guest memory there is none |
| `PageTables.FlagsValue` | src/hyperlight_host/src/mem/mgr.rs:195-231 | the flags or-ed together for each region type are the sum of its present, writable, user and no-execute bits |
| `PageTables.PteSum` | src/hyperlight_host/src/mem/mgr.rs:188-235 | an entry is its page's own address plus the flags of the page's region, without flags below 2 MiB or outside every region |
| `PageTables.PageTableEntry` | src/hyperlight_host/src/mem/mgr.rs:192-233 | the entry computed with the binary search is the one the first-match scan gives |
| `PageTables.WriteTables` | src/hyperlight_host/src/mem/mgr.rs:155-238 | succeeds exactly when memory has room for the tables; then every entry of every filled table reads back as intended and no byte behind the last table changed |
| `PageTables.WalkIsIntended` | src/hyperlight_host/src/mem/mgr.rs:155-238 | walking the written bytes maps every address below the filled tables to itself with the flags of its region when it lies in guest memory, to nothing otherwise, and never for user mode |
| `Partition.TablesFitIff` | src/hyperlight_host/src/mem/layout.rs:712-750 | the tables end before the guest's code exactly when the rounded kernel stack is at most a bound computed from the other sizes |
| `Partition.RoomAtLeast` | src/hyperlight_host/src/mem/layout.rs:712-750 | that bound is at least 2 MiB - 20 KiB for every accepted configuration |
| `Partition.TablesFitMemory` | src/hyperlight_host/src/mem/mgr.rs:182-188 | between 1 and 512 tables are filled, they fit in memory, and they cover all of it |
| `Partition.LargeKernelStackOverruns` | src/hyperlight_host/src/mem/layout.rs:712-771 | a configuration with a 64 MiB kernel stack is accepted although its tables run into the guest's code |
| `Partition.OneEntry` | src/hyperlight_host/src/mem/mgr.rs:188-235 | each entry, bit by bit and offset by offset: present in guest memory only, its own page, writable outside the two host sections, user for code, heap, user stack and guards, bit 63 clear exactly in the code and an executable heap |
| `Partition.OneAddress` | src/hyperlight_host/src/mem/mgr.rs:188-235 | the intended translation in terms of offsets: identity, never user, writable and executable exactly there |
| `Partition.SetUpHypervisorPartition` | src/hyperlight_host/src/hypervisor/hypervisor_handler.rs:781-792 | for every accepted layout all checks and writes succeed, every entry of the written bytes has the bits of its offset, every address walks as intended, the stack pointer is 0x28 below the end of the user stack, and code and everything behind it keep their bytes when the kernel stack is within its room; without the lock nothing changes |
| `PebWriter.LayoutInside` | src/hyperlight_host/src/mem/layout.rs:321-431 | every section of an accepted layout fits between its offset and the next, inside guest memory |
| `PebWriter.Write` | src/hyperlight_host/src/mem/layout.rs:1072-1255 | refuses a foreign guest offset before writing; otherwise the seed, the run mode, each configured size, each section's address and the stacks of the forward layout read back from their words, other PEB words keep their values, zeroed buffers become empty stacks, and nothing else changes |
| `PebWriter.FieldsReadBack` | src/hyperlight_host/src/mem/layout.rs:1100-1238 | what the guest reads at each offset of the PEB, in terms of the layout and the configuration |
| `PebWriter.BuffersAreFaithful` | src/hyperlight_host/src/mem/layout.rs:1154-1187 | the input, output, panic and heap buffers the PEB announces have their configured sizes, start at and lie within the region of their own type |
| `PebWriter.HostBuffersAreFaithful` | src/hyperlight_host/src/mem/layout.rs:1108-1134 | so do the host function definitions and the guest error buffer, and the host exception size fits its region |
| `PebWriter.StacksAreFaithful` | src/hyperlight_host/src/mem/layout.rs:1189-1238 | the four stack addresses counted back from the end of memory are the start and end of the user stack and the ends of the kernel and boot stacks of the forward layout |
| `PebWriter.BuffersAreApart` | src/hyperlight_host/src/mem/layout.rs:366-377 | in every accepted layout the two buffers lie in memory and do not overlap |
| `Elf.SegmentRange` | src/hyperlight_host/src/mem/elf.rs:54-70 | every loadable segment lies between the base address and the computed image size |
| `Elf.ImageIsTight` | src/hyperlight_host/src/mem/elf.rs:54-70 | the base address and the image size are those of the lowest and the highest loadable segment |
| `Elf.FateIff` | src/hyperlight_host/src/mem/elf.rs:71-109 | with segments that fit, loading succeeds exactly when every relocation applies; at the first that does not it fails if the relocation is unsupported or lacks its addend, and panics otherwise |
| `Elf.OverflowsIff` | src/hyperlight_host/src/mem/elf.rs:97-101 | the sum overflows exactly when the stored word does not read back as it |
| `Elf.LoadAt` | src/hyperlight_host/src/mem/elf.rs:71-109 | for any binary with a loadable segment: panics, fails or succeeds exactly as its segments and the first relocation that cannot be applied say; then each byte is that of the last slot covering it, else of the last segment, else what it was; nothing before the target changes |
| `Elf.WellFormedFate` | src/hyperlight_host/src/mem/elf.rs:71-109 | a well-formed binary never panics and loads exactly when every relocation is supported |
| `Elf.WellFormedImage` | src/hyperlight_host/src/mem/elf.rs:71-109 | its image holds each relocated word, file contents, zeros and old bytes where they belong, and nothing outside its own size is written, even when a relocation is refused |
| `Elf.SlotWord` | src/hyperlight_host/src/mem/elf.rs:97-101 | each relative slot reads back as load address plus addend |
| `Elf.SegmentContents` | src/hyperlight_host/src/mem/elf.rs:71-80 | each byte of a segment outside all slots comes from the file, and is zero behind that |
| `Elf.PositionIndependent` | src/hyperlight_host/src/mem/elf.rs:71-109 | images of one binary at two addresses differ only in relative slots, each by the difference of the addresses |
| `Elf.AbiExactlyAtBaseZero` | src/hyperlight_host/src/mem/elf.rs:97-101 | of any binary with a relative relocation, the bytes loaded at two addresses that differ modulo 2^64 are both relocated as the psABI asks exactly when the base address is zero |
| `Elf.LinkedHighIsMisplaced` | src/hyperlight_host/src/mem/elf.rs:71-109 | a binary linked at 0x1000 is left with zero where the psABI wants its relocated word |
| `Elf.ImageInCodeRegion` | src/hyperlight_host/src/mem/mgr.rs:420-423 | in the layout made for a binary its image ends before the PEB, inside the code region |
| `Boot.LoadGuest` | src/hyperlight_host/src/mem/mgr.rs:344-434 | loading over zeroed memory leaves the relocated image, the code pointer, the stack guard and two zeroed buffers |
| `Boot.CreateSandbox` | src/hyperlight_host/src/sandbox/uninitialized.rs:172-184 | after loading, PEB and page tables every entry and every address has the rights of its offset, and when the kernel stack is within its room all of them are intact together: image, PEB words, stack guard, two empty stacks |
| `Boot.ReadyForCalls` | src/hyperlight_host/src/mem/layout.rs:1242-1252 | the buffers of a new sandbox satisfy what a guest call requires |
| `Snapshots.SandboxMemoryManager.Push` | src/hyperlight_host/src/mem/mgr.rs:281-288 | succeeds exactly with the lock and then adds an image of all of memory to the snapshots; otherwise nothing changes |
| `Snapshots.SandboxMemoryManager.Restore` | src/hyperlight_host/src/mem/mgr.rs:294-305 | succeeds exactly with the lock and a snapshot, and then makes memory equal the newest, which stays; otherwise nothing changes |
| `Snapshots.SandboxMemoryManager.PopRestore` | src/hyperlight_host/src/mem/mgr.rs:310-320 | drops the newest snapshot; succeeds exactly with the lock and one below, which memory then equals; otherwise memory is unchanged |
| `Snapshots.BalancedKeepsBelow` | src/hyperlight_host/src/mem/mgr.rs:281-320 | any stretch that pops what it pushes, with arbitrary writes, restores and lock failures, leaves the snapshots below it alone |
| `Snapshots.RestoreUndoes` | src/hyperlight_host/src/mem/mgr.rs:290-305 | after a push and any such stretch, restoring brings back the memory of the push |
| `Snapshots.PopUndoes` | src/hyperlight_host/src/mem/mgr.rs:307-320 | after a push and any such stretch, popping brings back the image and the snapshots from before the push, or fails with memory unchanged when there were none |
| `VCpu.Run` | src/hyperlight_host/src/hypervisor/mod.rs:259-312 | for every trace of exits the first that is neither a retry nor a handled outb decides, and each result tells which exit that was; the outb at each position is handled after exactly those before it, once; only a cancelled exit changes the flags, if there are any |
| `VCpu.FaultsByOffset` | src/hyperlight_host/src/hypervisor/mod.rs:150-173 | every access faults in a guard page; elsewhere a read never, a write exactly in the host function definitions, an execution exactly outside the code and an executable heap |
| `VCpu.GuardFaultIsStackOverflow` | src/hyperlight_host/src/hypervisor/mod.rs:150-173 | any access fault in one of the three guard pages ends as a stack overflow, a fault elsewhere as a violation of that region's own flags |
| `VCpu.FaultUsesRegionOfPage` | src/hyperlight_host/src/hypervisor/mod.rs:150-173 | a fault is judged by the region that gave its page its flags |
| `Handler.InvStep` | src/hyperlight_host/src/hypervisor/hypervisor_handler.rs:298-478 | every step of either thread keeps order and number of responses, flags, guards and the meaning of `run_cancelled` |
| `Handler.ReachableInv` | src/hyperlight_host/src/hypervisor/hypervisor_handler.rs:298-592 | in every reachable state: actions sent are those queued, in progress or lost, answered, and received; a set `run_cancelled` means the action that last cleared it ended as cancelled; the signal loop stays within its limit |
| `Handler.CancelledStays` | src/hyperlight_host/src/hypervisor/mod.rs:291-303 | an action that ended as cancelled has exactly that response about to be sent, queued or received, at every later step |
| `Handler.NextResponse` | src/hyperlight_host/src/hypervisor/hypervisor_handler.rs:580-592 | responses are received in the order of the actions they answer |
| `Handler.OwnResponseIff` | src/hyperlight_host/src/hypervisor/hypervisor_handler.rs:538-592 | with `u` earlier responses outstanding a caller gets the one `u` actions back; its own exactly when `u` is zero |
| `Handler.NoTimeoutsOwnResponse` | src/hyperlight_host/src/hypervisor/hypervisor_handler.rs:538-592 | in every run without timeouts each caller gets its own response, with `running` false and both guards released |
| `Handler.ReinitialiseRestores` | src/hyperlight_host/src/hypervisor/hypervisor_handler.rs:612-665 | in every interleaving of a synchronised dispatch that returns Ok(ExecutionCanceledByHost), Initialise was sent with memory equal to the last snapshot, and the system is synchronised again |
| `Handler.TrustworthyIffFlagClear` | src/hyperlight_host/src/hypervisor/hypervisor_handler.rs:682-745 | from a synchronised dispatch, `terminate_execution` returns Ok only for a cancelled action, in all interleavings, exactly when `run_cancelled` was false at the start |
| `Handler.StaleFlagMisleads` | src/hyperlight_host/src/hypervisor/hypervisor_handler.rs:366-369 | the interleaving in which a left-over flag is taken for the new action's |
| `Handler.StaleFlagIsReachable` | src/hyperlight_host/src/hypervisor/hypervisor_handler.rs:300-363 | from every reachable synchronised state one with a left-over flag can be reached |
| `Handler.AbandonedCallMisleadsNext` | src/hyperlight_host/src/hypervisor/hypervisor_handler.rs:616-636 | a timed-out dispatch that gives up on cancelling leaves its response unread, and the next call gets that one |
| `Handler.ReachableRunning` | src/hyperlight_host/src/hypervisor/hypervisor_handler.rs:300-363 | in every reachable state `running` is set exactly from its store at the start of an action to its end or its cancelled exit |
| `Handler.FinishedReportIff` | src/hyperlight_host/src/hypervisor/hypervisor_handler.rs:616-619 | a timed-out call with nothing else outstanding is told that execution finished exactly when its action is over or has not begun, never both |
| `Handler.AbandonedCallIsReachable` | src/hyperlight_host/src/hypervisor/hypervisor_handler.rs:612-619 | from every synchronised state a dispatch can be told that it finished while it is still queued, and any next call then finds the response to it in place of its own |
| `HandlerRuns.ResponseTellsHowItEnded` | src/hyperlight_host/src/hypervisor/hypervisor_handler.rs:298-478 | in every run a response received belongs to an action that some step sent, and its message is how the one step that ended that action ended it: the guest's result, cancelled, or terminated |
| `HandlerRuns.CallerLearnsHowItEnded` | src/hyperlight_host/src/hypervisor/hypervisor_handler.rs:538-592 | in every run without timeouts a call returns how the action it asked for ended |
| `HandlerRuns.EndsOnce` | src/hyperlight_host/src/hypervisor/hypervisor_handler.rs:298-478 | no action ends twice in a run |
| `HandlerRuns.OutcomeTells` | src/hyperlight_host/src/hypervisor/hypervisor_handler.rs:580-745 | each outcome of a call comes about exactly by its own step and in its own state |
| `HandlerRuns.ReinitialisedMeans` | src/hyperlight_host/src/hypervisor/hypervisor_handler.rs:638-665 | a synchronised dispatch that returns after reinitialising has received its own response, with the message it returns, and a finished Initialise |
| `HandlerRuns.CancellationCanSucceed` | src/hyperlight_host/src/hypervisor/hypervisor_handler.rs:612-665 | from every reachable synchronised state with a snapshot there is a run in which a dispatch is cancelled and the vCPU reinitialised |
| `HandlerRuns.StillRunningIff` | src/hyperlight_host/src/hypervisor/hypervisor_handler.rs:625-636 | after the wait the caller goes on exactly when its action is over or not begun, and reports a hung guest otherwise |
| `HandlerRuns.LoopEndsIff` | src/hyperlight_host/src/hypervisor/hypervisor_handler.rs:697-728 | the signal loop ends exactly with the flag set or after as many signals as its limit |
| `HandlerRuns.GuardExcludesSnapshots` | src/hyperlight_host/src/hypervisor/hypervisor_handler.rs:385-420 | from entering the guest with the memory guard to dropping it no snapshot is taken or restored |
| `HandlerRuns.MemoryOfRun` | src/hyperlight_host/src/mem/mgr.rs:281-305 | memory at any point of a run is what was last written, or the image at the newest snapshot before the last restore |

## Left out

- Windows: cancellation through the hypervisor, and in-process mode, are not part of this model.
- KVM, mshv and WHP drivers, registers, surrogate processes and the mapping calls: foreign interfaces, represented by the exits and steps they produce.
- FlatBuffer encoding and decoding, parameter and return types, error codes: an abstract decoder of size-prefixed bytes takes their place.
- PE files, and the reading of ELF headers: an ELF file is given by its program headers, relocations and bytes.
- Page-directory entries behind the last filled table: they point past the tables, so nothing is claimed about addresses from `NumPages * 2 MiB` on.
- PML4 and PDPT entries other than the first: never written, and not reached by addresses below 1 GiB.
- SharedMem.SharedMemory.CopyFromSlice: takes the memory lock for granted; a lock that cannot be taken is one more error that changes nothing.
- SharedMem.SharedMemory.CopyToSlice: takes the memory lock for granted, likewise.
- SharedMem.SharedMemory.Fill: takes the memory lock for granted, likewise.
- SharedMem.SharedMemory.ReadU64At: takes the memory lock for granted, likewise.
- SharedMem.SharedMemory.PushBuffer: takes the memory lock for granted; what a push leaves that loses it between two writes is stated by `IoStack.PushCommitsLast`.
- SharedMem.SharedMemory.TryPopBufferInto: takes the memory lock for granted; what a pop leaves that loses it between its writes is stated by `IoStack.PopCommitsFirst`. A release build would wrap where this model panics.
- CallProtocol.CallFunctionOnGuest: timeouts are in the handler protocol, not here; whether the stack guard is intact is a parameter; the guest's other writes, its error buffer included, are left out.
- Elf.LoadAt: the old contents are described only when every segment fits; after a panic in a segment only the frame is stated.
- The host function registry, metrics, logging, tracing, the C API, the guest's allocator and assembly.
- Volatile access and memory ordering: each operation between VM entry and exit is atomic.
- Joining the handler thread after its termination, and the failure of mutexes only the caller takes.
