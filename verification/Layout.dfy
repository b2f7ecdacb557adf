/**
`SandboxMemoryLayout`: the offsets of every section of guest memory, computed forward by
`new`, and rebuilt by the region builder in `get_memory_regions`, which checks each
against the first.
*/
module Layout {
  import opened Bytes
  import opened Bits
  import opened SharedMem
  import opened Regions

  const BASE_ADDRESS: nat := 0x20_0000
  const MAX_MEMORY_SIZE: nat := 0x4000_0000 - BASE_ADDRESS
  const AMOUNT_OF_MEMORY_PER_PT: nat := 0x20_0000

  /** `size_of::<HyperlightPEB>()`. */
  const PEB_SIZE: nat := 0xB8

  /** The sizes a `SandboxConfiguration` supplies. */
  datatype Config = Config(
    hostFunctionDefinitionSize: nat, hostExceptionSize: nat, guestErrorBufferSize: nat,
    inputDataSize: nat, outputDataSize: nat, guestPanicContextBufferSize: nat, kernelStackSize: nat)

  /** Sizes whose sums stay within a `usize`. */
  const SIZE_LIMIT: nat := 0x1_0000_0000_0000

  predicate Bounded(cfg: Config, codeSize: nat, stackSize: nat, heapSize: nat) {
    cfg.hostFunctionDefinitionSize < SIZE_LIMIT && cfg.hostExceptionSize < SIZE_LIMIT &&
    cfg.guestErrorBufferSize < SIZE_LIMIT && cfg.inputDataSize < SIZE_LIMIT &&
    cfg.outputDataSize < SIZE_LIMIT && cfg.guestPanicContextBufferSize < SIZE_LIMIT &&
    cfg.kernelStackSize < SIZE_LIMIT &&
    codeSize < SIZE_LIMIT && stackSize < SIZE_LIMIT && heapSize < SIZE_LIMIT
  }

  datatype SandboxMemoryLayout = SandboxMemoryLayout(
    cfg: Config, codeSize: nat, stackSize: nat, heapSize: nat,
    totalPageTableSize: nat, guestCodeOffset: nat, pebOffset: nat,
    hostFunctionDefinitionsBufferOffset: nat, hostExceptionBufferOffset: nat, guestErrorBufferOffset: nat,
    inputDataBufferOffset: nat, outputDataBufferOffset: nat, guestPanicContextBufferOffset: nat,
    guestHeapBufferOffset: nat, guardPageOffset: nat, guestUserStackBufferOffset: nat,
    userStackGuardPageOffset: nat, kernelStackBufferOffset: nat, kernelStackSizeRounded: nat,
    kernelStackGuardPageOffset: nat, bootStackBufferOffset: nat)

  /** The page-rounded sizes that the page-table estimate counts. */
  function CountedSize(cfg: Config, codeSize: nat, stackSize: nat, heapSize: nat): nat
    requires Bounded(cfg, codeSize, stackSize, heapSize)
  {
    PageUp(codeSize) + PageUp(stackSize) + PageUp(heapSize) + PageUp(cfg.hostExceptionSize) +
    PageUp(cfg.hostFunctionDefinitionSize) + PageUp(cfg.guestErrorBufferSize) +
    PageUp(cfg.inputDataSize) + PageUp(cfg.outputDataSize) +
    PageUp(cfg.guestPanicContextBufferSize) + PageUp(PEB_SIZE)
  }

  /** How many 2 MiB tables it takes to map `n` bytes. */
  function TablesFor(n: nat): nat {
    (n + AMOUNT_OF_MEMORY_PER_PT - 1) / AMOUNT_OF_MEMORY_PER_PT
  }

  function TotalPageTableSize(cfg: Config, codeSize: nat, stackSize: nat, heapSize: nat): nat
    requires Bounded(cfg, codeSize, stackSize, heapSize)
  {
    (TablesFor(CountedSize(cfg, codeSize, stackSize, heapSize) + BASE_ADDRESS + 515 * PAGE_SIZE) + 4) * PAGE_SIZE
  }

  function New(cfg: Config, codeSize: nat, stackSize: nat, heapSize: nat): SandboxMemoryLayout
    requires Bounded(cfg, codeSize, stackSize, heapSize)
  {
    var total := TotalPageTableSize(cfg, codeSize, stackSize, heapSize);
    var peb := total + PageUp(codeSize);
    var functions := PageUp(peb + PEB_SIZE);
    var exception := PageUp(functions + cfg.hostFunctionDefinitionSize);
    var error := PageUp(exception + cfg.hostExceptionSize);
    var input := PageUp(error + cfg.guestErrorBufferSize);
    var output := PageUp(input + cfg.inputDataSize);
    var panic := PageUp(output + cfg.outputDataSize);
    var heap := PageUp(panic + cfg.guestPanicContextBufferSize);
    var guard := PageUp(heap + heapSize);
    var userStack := guard + PAGE_SIZE;
    var stackRounded := PageUp(stackSize);
    var userGuard := userStack + stackRounded;
    var kernelStack := userGuard + PAGE_SIZE;
    var kernelRounded := PageUp(cfg.kernelStackSize);
    var kernelGuard := kernelStack + kernelRounded;
    SandboxMemoryLayout(cfg, codeSize, stackRounded, heapSize, total, total, peb, functions, exception, error,
                        input, output, panic, heap, guard, userStack, userGuard, kernelStack, kernelRounded,
                        kernelGuard, kernelGuard + PAGE_SIZE)
  }

  /** `l` is the layout `new` computes for some bounded sizes. */
  ghost predicate Built(l: SandboxMemoryLayout, stackSize: nat) {
    Bounded(l.cfg, l.codeSize, stackSize, l.heapSize) && l == New(l.cfg, l.codeSize, stackSize, l.heapSize)
  }

  /** Each section starts where the one before it, rounded up to whole pages, ends. */
  ghost predicate Chained(l: SandboxMemoryLayout) {
    PageAligned(l.totalPageTableSize) && l.guestCodeOffset == l.totalPageTableSize &&
    Bounded(l.cfg, l.codeSize, 0, l.heapSize) &&
    l.pebOffset == l.guestCodeOffset + PageUp(l.codeSize) &&
    l.hostFunctionDefinitionsBufferOffset == l.pebOffset + PageUp(PEB_SIZE) &&
    l.hostExceptionBufferOffset == l.hostFunctionDefinitionsBufferOffset + PageUp(l.cfg.hostFunctionDefinitionSize) &&
    l.guestErrorBufferOffset == l.hostExceptionBufferOffset + PageUp(l.cfg.hostExceptionSize) &&
    l.inputDataBufferOffset == l.guestErrorBufferOffset + PageUp(l.cfg.guestErrorBufferSize) &&
    l.outputDataBufferOffset == l.inputDataBufferOffset + PageUp(l.cfg.inputDataSize) &&
    l.guestPanicContextBufferOffset == l.outputDataBufferOffset + PageUp(l.cfg.outputDataSize) &&
    l.guestHeapBufferOffset == l.guestPanicContextBufferOffset + PageUp(l.cfg.guestPanicContextBufferSize) &&
    l.guardPageOffset == l.guestHeapBufferOffset + PageUp(l.heapSize) &&
    l.guestUserStackBufferOffset == l.guardPageOffset + PAGE_SIZE &&
    l.userStackGuardPageOffset == l.guestUserStackBufferOffset + l.stackSize &&
    l.kernelStackBufferOffset == l.userStackGuardPageOffset + PAGE_SIZE &&
    l.kernelStackSizeRounded == PageUp(l.cfg.kernelStackSize) &&
    l.kernelStackGuardPageOffset == l.kernelStackBufferOffset + l.kernelStackSizeRounded &&
    l.bootStackBufferOffset == l.kernelStackGuardPageOffset + PAGE_SIZE
  }

  /** A page-aligned offset and the size of the section that starts there. */
  lemma Section(start: nat, size: nat)
    requires PageAligned(start) && start < 0x100_0000_0000_0000 && size < SIZE_LIMIT
    ensures PageUp(start + size) == start + PageUp(size)
    ensures size <= PageUp(size) < size + PAGE_SIZE
    ensures PageAligned(PageUp(size)) && PageAligned(start + PageUp(size))
  {
    hide PageUp;
    PageUpFrom(start, size);
    PageUpRounds(size);
  }

  lemma BuiltIsChained(l: SandboxMemoryLayout, stackSize: nat)
    requires Built(l, stackSize)
    ensures Chained(l)
    ensures l.stackSize == PageUp(stackSize)
    ensures PageAligned(l.pebOffset) && PageAligned(l.inputDataBufferOffset) && PageAligned(l.outputDataBufferOffset)
    ensures PageAligned(l.guardPageOffset)
    ensures l.totalPageTableSize == TotalPageTableSize(l.cfg, l.codeSize, stackSize, l.heapSize)
  {
    hide PageUp, PageAligned, TotalPageTableSize;
    EstimateBound(l.cfg, l.codeSize, stackSize, l.heapSize);
    Section(l.guestCodeOffset, l.codeSize);
    Section(l.pebOffset, PEB_SIZE);
    Section(l.hostFunctionDefinitionsBufferOffset, l.cfg.hostFunctionDefinitionSize);
    Section(l.hostExceptionBufferOffset, l.cfg.hostExceptionSize);
    Section(l.guestErrorBufferOffset, l.cfg.guestErrorBufferSize);
    Section(l.inputDataBufferOffset, l.cfg.inputDataSize);
    Section(l.outputDataBufferOffset, l.cfg.outputDataSize);
    Section(l.guestPanicContextBufferOffset, l.cfg.guestPanicContextBufferSize);
    Section(l.guestHeapBufferOffset, l.heapSize);
  }

  /** The sizes the estimate counts, before rounding. */
  function RawSize(cfg: Config, codeSize: nat, stackSize: nat, heapSize: nat): nat {
    codeSize + stackSize + heapSize + cfg.hostExceptionSize + cfg.hostFunctionDefinitionSize +
    cfg.guestErrorBufferSize + cfg.inputDataSize + cfg.outputDataSize + cfg.guestPanicContextBufferSize + PEB_SIZE
  }

  lemma CountedIsRounded(cfg: Config, codeSize: nat, stackSize: nat, heapSize: nat)
    requires Bounded(cfg, codeSize, stackSize, heapSize)
    ensures 0 <= CountedSize(cfg, codeSize, stackSize, heapSize) - RawSize(cfg, codeSize, stackSize, heapSize) <= 10 * (PAGE_SIZE - 1)
  {
    hide PageUp;
    PageUpRounds(codeSize);
    PageUpRounds(stackSize);
    PageUpRounds(heapSize);
    PageUpRounds(cfg.hostExceptionSize);
    PageUpRounds(cfg.hostFunctionDefinitionSize);
    PageUpRounds(cfg.guestErrorBufferSize);
    PageUpRounds(cfg.inputDataSize);
    PageUpRounds(cfg.outputDataSize);
    PageUpRounds(cfg.guestPanicContextBufferSize);
    PageUpRounds(PEB_SIZE);
  }

  /**
   The estimate is whole pages: four, and one table for each 2 MiB of what lies below and
   in the counted sections and the largest tables. The tables reach past all of these,
   and by less than one table and ten pages of rounding.
   */
  lemma EstimateCovers(cfg: Config, codeSize: nat, stackSize: nat, heapSize: nat, tables: int)
    requires Bounded(cfg, codeSize, stackSize, heapSize)
    requires tables == TotalPageTableSize(cfg, codeSize, stackSize, heapSize) / PAGE_SIZE - 4
    ensures TotalPageTableSize(cfg, codeSize, stackSize, heapSize) == (tables + 4) * PAGE_SIZE
    ensures var mapped := 0x20_0000 + RawSize(cfg, codeSize, stackSize, heapSize) + (3 + 512) * 0x1000;
            mapped <= tables * 0x20_0000 < mapped + 0x20_0000 + 10 * 0x1000
  {
    hide CountedSize, RawSize;
    CountedIsRounded(cfg, codeSize, stackSize, heapSize);
  }

  lemma EstimateBound(cfg: Config, codeSize: nat, stackSize: nat, heapSize: nat)
    requires Bounded(cfg, codeSize, stackSize, heapSize)
    ensures CountedSize(cfg, codeSize, stackSize, heapSize) < 11 * SIZE_LIMIT
    ensures TotalPageTableSize(cfg, codeSize, stackSize, heapSize) < SIZE_LIMIT
    ensures PageAligned(TotalPageTableSize(cfg, codeSize, stackSize, heapSize))
  {
    hide CountedSize;
    CountedIsRounded(cfg, codeSize, stackSize, heapSize);
  }

  /** The size of guest memory: the end of the boot stack, if it does not exceed the maximum. */
  function GetMemorySize(l: SandboxMemoryLayout): Outcome<nat> {
    var total := l.bootStackBufferOffset + PAGE_SIZE;
    var size := if total % PAGE_SIZE == 0 then total else (total / PAGE_SIZE + 1) * PAGE_SIZE;
    if size > MAX_MEMORY_SIZE then Err else Ok(size)
  }

  /** The layout read as a list of regions, from the offsets alone. */
  function LayoutRegions(l: SandboxMemoryLayout, host: nat, executableHeap: bool): seq<MemoryRegion> {
    [ RegionOf(BASE_ADDRESS, host, 0, l.guestCodeOffset, READ_WRITE, PageTables),
      RegionOf(BASE_ADDRESS, host, l.guestCodeOffset, l.pebOffset, READ_WRITE_EXECUTE, Code),
      RegionOf(BASE_ADDRESS, host, l.pebOffset, l.hostFunctionDefinitionsBufferOffset, READ_WRITE, Peb),
      RegionOf(BASE_ADDRESS, host, l.hostFunctionDefinitionsBufferOffset, l.hostExceptionBufferOffset, READ, HostFunctionDefinitions),
      RegionOf(BASE_ADDRESS, host, l.hostExceptionBufferOffset, l.guestErrorBufferOffset, READ_WRITE, HostExceptionData),
      RegionOf(BASE_ADDRESS, host, l.guestErrorBufferOffset, l.inputDataBufferOffset, READ_WRITE, GuestErrorData),
      RegionOf(BASE_ADDRESS, host, l.inputDataBufferOffset, l.outputDataBufferOffset, READ_WRITE, InputData),
      RegionOf(BASE_ADDRESS, host, l.outputDataBufferOffset, l.guestPanicContextBufferOffset, READ_WRITE, OutputData),
      RegionOf(BASE_ADDRESS, host, l.guestPanicContextBufferOffset, l.guestHeapBufferOffset, READ_WRITE, PanicContext),
      RegionOf(BASE_ADDRESS, host, l.guestHeapBufferOffset, l.guardPageOffset,
               if executableHeap then READ_WRITE_EXECUTE else READ_WRITE, Heap),
      RegionOf(BASE_ADDRESS, host, l.guardPageOffset, l.guestUserStackBufferOffset, READ_GUARD, GuardPage),
      RegionOf(BASE_ADDRESS, host, l.guestUserStackBufferOffset, l.userStackGuardPageOffset, READ_WRITE, Stack),
      RegionOf(BASE_ADDRESS, host, l.userStackGuardPageOffset, l.kernelStackBufferOffset, READ_GUARD, GuardPage),
      RegionOf(BASE_ADDRESS, host, l.kernelStackBufferOffset, l.kernelStackGuardPageOffset, READ_WRITE, KernelStack),
      RegionOf(BASE_ADDRESS, host, l.kernelStackGuardPageOffset, l.bootStackBufferOffset, READ_GUARD, GuardPage),
      RegionOf(BASE_ADDRESS, host, l.bootStackBufferOffset, l.bootStackBufferOffset + PAGE_SIZE, READ_WRITE, BootStack) ]
  }

  // ------------------------------------------------------------------ what lies where

  predicate InCode(l: SandboxMemoryLayout, off: nat) { l.guestCodeOffset <= off < l.pebOffset }

  predicate InDefinitions(l: SandboxMemoryLayout, off: nat) {
    l.hostFunctionDefinitionsBufferOffset <= off < l.hostExceptionBufferOffset
  }

  predicate InException(l: SandboxMemoryLayout, off: nat) { l.hostExceptionBufferOffset <= off < l.guestErrorBufferOffset }

  predicate InHeap(l: SandboxMemoryLayout, off: nat) { l.guestHeapBufferOffset <= off < l.guardPageOffset }

  predicate InUserStack(l: SandboxMemoryLayout, off: nat) {
    l.guestUserStackBufferOffset <= off < l.userStackGuardPageOffset
  }

  /** The guard pages below the user stack, between it and the kernel stack, and behind that. */
  predicate InGuard(l: SandboxMemoryLayout, off: nat) {
    l.guardPageOffset <= off < l.guestUserStackBufferOffset || l.userStackGuardPageOffset <= off < l.kernelStackBufferOffset ||
    l.kernelStackGuardPageOffset <= off < l.bootStackBufferOffset
  }

  /** Code, and the heap if it is executable. */
  predicate Executable(l: SandboxMemoryLayout, off: nat, executableHeap: bool) {
    InCode(l, off) || (executableHeap && InHeap(l, off))
  }

  ghost predicate Ascending(l: SandboxMemoryLayout) {
    l.guestCodeOffset <= l.pebOffset <= l.hostFunctionDefinitionsBufferOffset <= l.hostExceptionBufferOffset &&
    l.hostExceptionBufferOffset <= l.guestErrorBufferOffset <= l.inputDataBufferOffset <= l.outputDataBufferOffset &&
    l.outputDataBufferOffset <= l.guestPanicContextBufferOffset <= l.guestHeapBufferOffset <= l.guardPageOffset &&
    l.guardPageOffset <= l.guestUserStackBufferOffset <= l.userStackGuardPageOffset <= l.kernelStackBufferOffset &&
    l.kernelStackBufferOffset <= l.kernelStackGuardPageOffset <= l.bootStackBufferOffset
  }

  lemma BuiltAscends(l: SandboxMemoryLayout, stackSize: nat)
    requires Built(l, stackSize)
    ensures Ascending(l)
  {
    hide PageUp, New;
    BuiltIsChained(l, stackSize);
  }

  /** The type and the flags of the region that holds an offset. */
  ghost predicate RegionFits(r: MemoryRegion, l: SandboxMemoryLayout, off: nat, executableHeap: bool) {
    (r.kind == Code <==> InCode(l, off)) && (r.kind == Heap <==> InHeap(l, off)) &&
    (r.kind == HostFunctionDefinitions <==> InDefinitions(l, off)) &&
    (r.kind == HostExceptionData <==> InException(l, off)) &&
    (r.kind == GuardPage <==> InGuard(l, off)) && (r.kind == Stack <==> InUserStack(l, off)) &&
    r.flags.read && (r.flags.write <==> !InGuard(l, off) && !InDefinitions(l, off)) &&
    (r.flags.execute <==> Executable(l, off, executableHeap)) && (r.flags.stackGuard <==> InGuard(l, off))
  }

  /** The types of the other regions. */
  ghost predicate KindFits(kind: RegionType, l: SandboxMemoryLayout, off: nat) {
    (kind == PageTables <==> off < l.guestCodeOffset) &&
    (kind == Peb <==> l.pebOffset <= off < l.hostFunctionDefinitionsBufferOffset) &&
    (kind == GuestErrorData <==> l.guestErrorBufferOffset <= off < l.inputDataBufferOffset) &&
    (kind == InputData <==> l.inputDataBufferOffset <= off < l.outputDataBufferOffset) &&
    (kind == OutputData <==> l.outputDataBufferOffset <= off < l.guestPanicContextBufferOffset) &&
    (kind == PanicContext <==> l.guestPanicContextBufferOffset <= off < l.guestHeapBufferOffset) &&
    (kind == KernelStack <==> l.kernelStackBufferOffset <= off < l.kernelStackGuardPageOffset) &&
    (kind == BootStack <==> l.bootStackBufferOffset <= off)
  }

  lemma KindByIndex(l: SandboxMemoryLayout, host: nat, executableHeap: bool, off: nat, k: nat)
    requires Ascending(l) && k < 16 && LayoutRegions(l, host, executableHeap)[k].guest.Contains(0x20_0000 + off)
    ensures KindFits(LayoutRegions(l, host, executableHeap)[k].kind, l, off)
  {
  }

  lemma RegionByIndex(l: SandboxMemoryLayout, host: nat, executableHeap: bool, off: nat, k: nat)
    requires Ascending(l) && k < 16 && LayoutRegions(l, host, executableHeap)[k].guest.Contains(0x20_0000 + off)
    ensures RegionFits(LayoutRegions(l, host, executableHeap)[k], l, off, executableHeap)
  {
  }

  /** Every offset in guest memory lies in a region that fits it, and no offset behind it in any. */
  lemma RegionByOffset(l: SandboxMemoryLayout, stackSize: nat, host: nat, executableHeap: bool, off: nat)
    requires Built(l, stackSize) && GetMemorySize(l).Ok?
    ensures var rs := LayoutRegions(l, host, executableHeap);
            match FirstMatch(rs, 0x20_0000 + off)
            case Some(k) => off < GetMemorySize(l).value && RegionFits(rs[k], l, off, executableHeap) &&
                            KindFits(rs[k].kind, l, off)
            case None => off >= GetMemorySize(l).value
  {
    hide New, PageUp, GetMemorySize, FirstMatch, RegionFits, KindFits;
    MemorySize(l, stackSize);
    BuiltAscends(l, stackSize);
    var rs := LayoutRegions(l, host, executableHeap);
    match FirstMatch(rs, 0x20_0000 + off)
    case Some(k) =>
      RegionByIndex(l, host, executableHeap, off, k);
      KindByIndex(l, host, executableHeap, off, k);
      RegionsEnd(l, host, executableHeap, off, k);
    case None =>
      SomeRegion(l, host, executableHeap, off);
  }

  lemma RegionsEnd(l: SandboxMemoryLayout, host: nat, executableHeap: bool, off: nat, k: nat)
    requires Ascending(l) && k < 16 && LayoutRegions(l, host, executableHeap)[k].guest.Contains(0x20_0000 + off)
    ensures off < l.bootStackBufferOffset + PAGE_SIZE
  {
  }

  lemma SomeRegion(l: SandboxMemoryLayout, host: nat, executableHeap: bool, off: nat)
    requires Ascending(l) && FirstMatch(LayoutRegions(l, host, executableHeap), 0x20_0000 + off) == None
    ensures off >= l.bootStackBufferOffset + PAGE_SIZE
  {
    var rs := LayoutRegions(l, host, executableHeap);
    var a := 0x20_0000 + off;
    assert !rs[0].guest.Contains(a) && !rs[1].guest.Contains(a) && !rs[2].guest.Contains(a) && !rs[3].guest.Contains(a);
    assert !rs[4].guest.Contains(a) && !rs[5].guest.Contains(a) && !rs[6].guest.Contains(a) && !rs[7].guest.Contains(a);
    assert !rs[8].guest.Contains(a) && !rs[9].guest.Contains(a) && !rs[10].guest.Contains(a) && !rs[11].guest.Contains(a);
    assert !rs[12].guest.Contains(a) && !rs[13].guest.Contains(a) && !rs[14].guest.Contains(a) && !rs[15].guest.Contains(a);
  }

  /** The first `k` regions are built, and the builder is at the offset `at`. */
  ghost predicate Upto(b: MemoryRegionVecBuilder, rs: seq<MemoryRegion>, k: nat, at: nat)
    reads b
  {
    b.Valid() && b.InPages() && b.guestBase == BASE_ADDRESS && EndOf(b.regions, BASE_ADDRESS) == BASE_ADDRESS + at &&
    k <= |rs| && b.regions == rs[..k]
  }

  /** Pushes one section and checks that the next one starts where the layout says. */
  method AddSection(b: MemoryRegionVecBuilder, size: nat, flags: Flags, kind: RegionType, expected: nat,
                    ghost rs: seq<MemoryRegion>, ghost k: nat, ghost at: nat)
    returns (ok: bool)
    requires Upto(b, rs, k, at) && size < SIZE_LIMIT + PAGE_SIZE && k < |rs|
    requires rs[k] == RegionOf(BASE_ADDRESS, b.hostBase, at, expected, flags, kind)
    modifies b
    ensures ok <==> at + PageUp(size) == expected
    ensures ok ==> Upto(b, rs, k + 1, expected)
  {
    hide PageUp, Tiles, Contiguous, EndOf;
    var off := b.PushPageAligned(size, flags, kind);
    ok := off == expected;
    assert ok ==> b.regions == rs[..k] + [rs[k]] == rs[..k + 1];
  }

  /** The page tables, the code and the data sections. */
  method AddDataSections(b: MemoryRegionVecBuilder, l: SandboxMemoryLayout, executableHeap: bool,
                         ghost rs: seq<MemoryRegion>)
    returns (ok: bool)
    requires Chained(l) && l.totalPageTableSize < SIZE_LIMIT && PageUp(l.totalPageTableSize) == l.totalPageTableSize
    requires rs == LayoutRegions(l, b.hostBase, executableHeap) && Upto(b, rs, 0, 0)
    modifies b
    ensures ok && Upto(b, rs, 9, l.guestHeapBufferOffset)
  {
    hide PageUp, Upto, RegionOf;
    ok := AddSection(b, l.totalPageTableSize, READ_WRITE, PageTables, l.guestCodeOffset, rs, 0, 0);
    if !ok { return; }
    ok := AddSection(b, l.codeSize, READ_WRITE_EXECUTE, Code, l.pebOffset, rs, 1, l.guestCodeOffset);
    if !ok { return; }
    ok := AddSection(b, PEB_SIZE, READ_WRITE, Peb, l.hostFunctionDefinitionsBufferOffset, rs, 2, l.pebOffset);
    if !ok { return; }
    ok := AddSection(b, l.cfg.hostFunctionDefinitionSize, READ, HostFunctionDefinitions,
                     l.hostExceptionBufferOffset, rs, 3, l.hostFunctionDefinitionsBufferOffset);
    if !ok { return; }
    ok := AddSection(b, l.cfg.hostExceptionSize, READ_WRITE, HostExceptionData,
                     l.guestErrorBufferOffset, rs, 4, l.hostExceptionBufferOffset);
    if !ok { return; }
    ok := AddSection(b, l.cfg.guestErrorBufferSize, READ_WRITE, GuestErrorData,
                     l.inputDataBufferOffset, rs, 5, l.guestErrorBufferOffset);
    if !ok { return; }
    ok := AddSection(b, l.cfg.inputDataSize, READ_WRITE, InputData,
                     l.outputDataBufferOffset, rs, 6, l.inputDataBufferOffset);
    if !ok { return; }
    ok := AddSection(b, l.cfg.outputDataSize, READ_WRITE, OutputData,
                     l.guestPanicContextBufferOffset, rs, 7, l.outputDataBufferOffset);
    if !ok { return; }
    ok := AddSection(b, l.cfg.guestPanicContextBufferSize, READ_WRITE, PanicContext,
                     l.guestHeapBufferOffset, rs, 8, l.guestPanicContextBufferOffset);
  }

  /** The heap and the stacks with their guard pages, all but the boot stack. */
  method AddStackSections(b: MemoryRegionVecBuilder, l: SandboxMemoryLayout, executableHeap: bool,
                          ghost rs: seq<MemoryRegion>)
    returns (ok: bool)
    requires Chained(l) && l.stackSize < SIZE_LIMIT + PAGE_SIZE && PageUp(l.stackSize) == l.stackSize
    requires l.kernelStackSizeRounded < SIZE_LIMIT + PAGE_SIZE
    requires PageUp(l.kernelStackSizeRounded) == l.kernelStackSizeRounded && PageUp(PAGE_SIZE) == PAGE_SIZE
    requires rs == LayoutRegions(l, b.hostBase, executableHeap) && Upto(b, rs, 9, l.guestHeapBufferOffset)
    modifies b
    ensures ok && Upto(b, rs, 15, l.bootStackBufferOffset)
  {
    hide PageUp, Upto, RegionOf;
    ok := AddSection(b, l.heapSize, if executableHeap then READ_WRITE_EXECUTE else READ_WRITE, Heap,
                     l.guardPageOffset, rs, 9, l.guestHeapBufferOffset);
    if !ok { return; }
    ok := AddSection(b, PAGE_SIZE, READ_GUARD, GuardPage, l.guestUserStackBufferOffset, rs, 10, l.guardPageOffset);
    if !ok { return; }
    ok := AddSection(b, l.stackSize, READ_WRITE, Stack,
                     l.guestUserStackBufferOffset + l.stackSize, rs, 11, l.guestUserStackBufferOffset);
    if !ok { return; }
    ok := AddSection(b, PAGE_SIZE, READ_GUARD, GuardPage, l.kernelStackBufferOffset, rs, 12, l.userStackGuardPageOffset);
    if !ok { return; }
    ok := AddSection(b, l.kernelStackSizeRounded, READ_WRITE, KernelStack,
                     l.kernelStackGuardPageOffset, rs, 13, l.kernelStackBufferOffset);
    if !ok { return; }
    ok := AddSection(b, PAGE_SIZE, READ_GUARD, GuardPage, l.bootStackBufferOffset, rs, 14, l.kernelStackGuardPageOffset);
  }

  /**
   For every layout that `new` produces, all sixteen checks pass exactly when the memory
   size is acceptable; the regions built from the sizes are then the regions the offsets
   describe, and they tile guest memory.
   */
  method GetMemoryRegions(l: SandboxMemoryLayout, host: nat, executableHeap: bool, ghost stackSize: nat)
    returns (r: Outcome<seq<MemoryRegion>>)
    requires Built(l, stackSize)
    ensures r.Ok? <==> GetMemorySize(l).Ok?
    ensures !r.Panic?
    ensures r.Ok? ==> r.value == LayoutRegions(l, host, executableHeap) && Tiles(r.value, BASE_ADDRESS, host) &&
                      EndOf(r.value, BASE_ADDRESS) == BASE_ADDRESS + GetMemorySize(l).value
  {
    hide PageUp, Tiles, Contiguous, New, EndOf, Chained;
    BuiltIsChained(l, stackSize);
    RoundedSizes(l, stackSize);
    assert PageAligned(BASE_ADDRESS);
    var b := new MemoryRegionVecBuilder(BASE_ADDRESS, host);
    ghost var rs := LayoutRegions(l, host, executableHeap);
    var ok := AddDataSections(b, l, executableHeap, rs);
    if !ok { return Err; }
    ok := AddStackSections(b, l, executableHeap, rs);
    if !ok { return Err; }
    var size := GetMemorySize(l);
    if !size.Ok? { return Err; }
    ok := AddSection(b, PAGE_SIZE, READ_WRITE, BootStack, size.value, rs, 15, l.bootStackBufferOffset);
    if !ok { return Err; }
    assert rs[..16] == rs;
    return Ok(b.regions);
  }

  /** Sizes that are already whole pages are not rounded again. */
  lemma RoundedSizes(l: SandboxMemoryLayout, stackSize: nat)
    requires Built(l, stackSize)
    ensures l.totalPageTableSize < SIZE_LIMIT && PageUp(l.totalPageTableSize) == l.totalPageTableSize
    ensures l.stackSize < SIZE_LIMIT + PAGE_SIZE && PageUp(l.stackSize) == l.stackSize
    ensures l.kernelStackSizeRounded < SIZE_LIMIT + PAGE_SIZE && PageUp(l.kernelStackSizeRounded) == l.kernelStackSizeRounded
    ensures PageUp(PAGE_SIZE) == PAGE_SIZE
    ensures PageAligned(l.bootStackBufferOffset)
  {
    hide PageUp, New, TotalPageTableSize, CountedSize;
    BuiltIsChained(l, stackSize);
    EstimateBound(l.cfg, l.codeSize, stackSize, l.heapSize);
    PageUpUnique(l.totalPageTableSize, l.totalPageTableSize);
    PageUpRounds(stackSize);
    PageUpUnique(l.stackSize, l.stackSize);
    PageUpRounds(l.cfg.kernelStackSize);
    PageUpUnique(l.kernelStackSizeRounded, l.kernelStackSizeRounded);
    PageUpUnique(PAGE_SIZE, PAGE_SIZE);
    AlignedSum(l.stackSize, l.kernelStackSizeRounded);
    AlignedSum(l.guardPageOffset, l.stackSize + l.kernelStackSizeRounded);
  }

  /** Guest memory is the estimate, what the estimate counts, and what it leaves out. */
  lemma MemorySize(l: SandboxMemoryLayout, stackSize: nat)
    requires Built(l, stackSize) && GetMemorySize(l).Ok?
    ensures GetMemorySize(l).value == l.totalPageTableSize + CountedSize(l.cfg, l.codeSize, stackSize, l.heapSize) +
                                      l.kernelStackSizeRounded + 4 * PAGE_SIZE
    ensures GetMemorySize(l).value == l.bootStackBufferOffset + PAGE_SIZE <= MAX_MEMORY_SIZE
  {
    hide PageUp, New, TotalPageTableSize;
    BuiltIsChained(l, stackSize);
    RoundedSizes(l, stackSize);
  }

  /** A configuration is accepted exactly when its memory and the 2 MiB below it fit in 1 GiB. */
  lemma AcceptedIff(l: SandboxMemoryLayout, stackSize: nat)
    requires Built(l, stackSize)
    ensures GetMemorySize(l).Ok? <==>
            0x20_0000 + l.totalPageTableSize + CountedSize(l.cfg, l.codeSize, stackSize, l.heapSize) +
            l.kernelStackSizeRounded + 4 * 0x1000 <= 0x4000_0000
  {
    hide PageUp, New, TotalPageTableSize;
    BuiltIsChained(l, stackSize);
    RoundedSizes(l, stackSize);
  }
}
