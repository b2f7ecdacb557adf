/**
Creating a sandbox, end to end: the guest binary is loaded, the stack guard and the PEB
are written and the page tables are set up, all into the same memory. The theorem is that
none of these disturbs another.
*/
module Boot {
  import opened Bytes
  import opened Bits
  import opened IoStack
  import opened SharedMem
  import opened Regions
  import opened Layout
  import opened PageTables
  import opened Partition
  import opened PebWriter
  import CallProtocol
  import Elf

  const CODE_POINTER_WORD: nat := 7

  /** The buffers of a layout, as the call protocol sees them. */
  function BuffersOf(l: SandboxMemoryLayout): CallProtocol.Buffers {
    CallProtocol.Buffers(l.inputDataBufferOffset, l.cfg.inputDataSize, l.outputDataBufferOffset, l.cfg.outputDataSize)
  }

  /** The sections this module writes, in ascending order and apart from each other. */
  ghost predicate Apart(l: SandboxMemoryLayout, image: nat, size: nat) {
    l.guestCodeOffset + image <= l.pebOffset && l.pebOffset + PEB_SIZE <= l.inputDataBufferOffset &&
    8 <= l.cfg.inputDataSize && l.inputDataBufferOffset + l.cfg.inputDataSize <= l.outputDataBufferOffset &&
    8 <= l.cfg.outputDataSize && l.outputDataBufferOffset + l.cfg.outputDataSize <= l.guestUserStackBufferOffset &&
    l.guestUserStackBufferOffset + 16 <= size < TWO64
  }

  lemma SectionsApart(l: SandboxMemoryLayout, stackSize: nat)
    requires Built(l, stackSize) && GetMemorySize(l).Ok? && 8 <= l.cfg.inputDataSize && 8 <= l.cfg.outputDataSize
    ensures Apart(l, l.codeSize, GetMemorySize(l).value)
  {
    hide New, PageUp, GetMemorySize;
    LayoutInside(l, stackSize);
    BuiltIsChained(l, stackSize);
    PageUpRounds(l.codeSize);
  }

  /** What the PEB writer leaves alone. */
  ghost predicate OnlyPeb(m: seq<byte>, m': seq<byte>, l: SandboxMemoryLayout) {
    |m| == |m'| &&
    forall k | 0 <= k < |m| && !(l.pebOffset <= k < l.pebOffset + PEB_SIZE) &&
               !(l.inputDataBufferOffset <= k < l.inputDataBufferOffset + 8) &&
               !(l.outputDataBufferOffset <= k < l.outputDataBufferOffset + 8) :: m'[k] == m[k]
  }

  lemma PebKeepsWindow(m: seq<byte>, m': seq<byte>, l: SandboxMemoryLayout, start: nat, size: nat)
    requires OnlyPeb(m, m', l) && start + size <= |m|
    requires start + size <= l.pebOffset || l.pebOffset + PEB_SIZE <= start
    requires start + size <= l.inputDataBufferOffset || l.inputDataBufferOffset + 8 <= start
    requires start + size <= l.outputDataBufferOffset || l.outputDataBufferOffset + 8 <= start
    ensures Window(m', start, size) == Window(m, start, size)
  {
  }

  lemma TablesKeepWindow(m: seq<byte>, m': seq<byte>, from: nat, start: nat, size: nat)
    requires SameFrom(m, m', from) && from <= start && start + size <= |m|
    ensures Window(m', start, size) == Window(m, start, size)
  {
  }

  lemma ZeroWindow(m: seq<byte>, start: nat, size: nat)
    requires m == Zeros(|m|) && start + size <= |m|
    ensures Window(m, start, size) == Zeros(size)
  {
  }

  lemma SlotsFromWindow(m: seq<byte>, m': seq<byte>, peb: nat, fields: Fields)
    requires Slots(m, peb, fields) && peb + PEB_SIZE <= |m'| && Window(m', peb, PEB_SIZE) == Window(m, peb, PEB_SIZE)
    ensures Slots(m', peb, fields)
  {
    hide ReadU64;
    forall j | j in fields ensures 8 * j + 8 <= PEB_SIZE && ReadU64(m', peb + 8 * j) == fields[j] {
      ReadInWindow(m, peb, PEB_SIZE, 8 * j);
      ReadInWindow(m', peb, PEB_SIZE, 8 * j);
    }
  }

  /** Loads the binary over zeroed memory, behind a code pointer in the PEB, and plants the stack guard. */
  method LoadGuest(elf: Elf.ElfInfo, l: SandboxMemoryLayout, shm: SharedMemory, cookie: seq<byte>) returns (ok: bool)
    requires Elf.WellFormed(elf) && Elf.SlotsApart(elf) && Elf.NoOverflow(elf, BASE_ADDRESS + l.guestCodeOffset)
    requires 0 <= Elf.VaSize(elf) && Apart(l, Elf.VaSize(elf), shm.mem.Length) && shm.mem.Length <= MAX_MEMORY_SIZE
    requires shm.mem[..] == Zeros(shm.mem.Length) && |cookie| == 16
    modifies shm.mem
    ensures ok <==> forall i | 0 <= i < |elf.relocs| :: Elf.Supported(elf.relocs[i])
    ensures ok ==> Elf.Loaded(elf, BASE_ADDRESS + l.guestCodeOffset, Zeros(Elf.VaSize(elf)),
                              Window(shm.mem[..], l.guestCodeOffset, Elf.VaSize(elf)))
    ensures ok ==> Slots(shm.mem[..], l.pebOffset, map[CODE_POINTER_WORD := BASE_ADDRESS + l.guestCodeOffset])
    ensures ok ==> Window(shm.mem[..], l.guestUserStackBufferOffset, 16) == cookie
    ensures ok ==> Window(shm.mem[..], l.inputDataBufferOffset, l.cfg.inputDataSize) == Zeros(l.cfg.inputDataSize)
    ensures ok ==> Window(shm.mem[..], l.outputDataBufferOffset, l.cfg.outputDataSize) == Zeros(l.cfg.outputDataSize)
  {
    hide Elf.WellFormed, Elf.SlotsApart, Elf.NoOverflow, Elf.Loaded, Elf.VaSize, Elf.Written, Elf.AllFit, Elf.Supported, Splice, U64, Window, SameOutside, Zeros, Slots;
    Elf.HasLoadOf(elf);
    ghost var m0, n := shm.mem[..], Elf.VaSize(elf);
    var loadAddr := BASE_ADDRESS + l.guestCodeOffset;
    var _ := shm.WriteU64At(l.pebOffset + 8 * CODE_POINTER_WORD, loadAddr);
    ghost var m1 := shm.mem[..];
    SpliceWindow(m0, l.pebOffset, PEB_SIZE, 8 * CODE_POINTER_WORD, U64(loadAddr));
    OneSlot(m0, l.pebOffset, CODE_POINTER_WORD, loadAddr);
    KeepsWindow(m0, m1, l.pebOffset, PEB_SIZE, l.guestCodeOffset, n);
    ZeroWindow(m0, l.guestCodeOffset, n);
    var loaded := Elf.LoadAt(elf, loadAddr, shm, l.guestCodeOffset);
    Elf.WellFormedFate(elf, loadAddr, |m1| - l.guestCodeOffset);
    if !loaded.Ok? {
      return false;
    }
    ok := true;
    Elf.WellFormedImage(elf, |elf.relocs|, loadAddr, m1, shm.mem[..], l.guestCodeOffset);
    ghost var m2 := shm.mem[..];
    var _ := shm.CopyFromSlice(cookie, l.guestUserStackBufferOffset);
    ghost var m3 := shm.mem[..];
    SpliceWindow(m2, l.guestUserStackBufferOffset, 16, 0, cookie);
    WholeWindow(Window(m2, l.guestUserStackBufferOffset, 16), cookie);
    KeepsWindow(m2, m3, l.guestUserStackBufferOffset, 16, l.guestCodeOffset, n);
    Untouched(m0, m1, m2, m3, l, n, l.inputDataBufferOffset, l.cfg.inputDataSize);
    Untouched(m0, m1, m2, m3, l, n, l.outputDataBufferOffset, l.cfg.outputDataSize);
    KeepsWindow(m1, m2, l.guestCodeOffset, n, l.pebOffset, PEB_SIZE);
    KeepsWindow(m2, m3, l.guestUserStackBufferOffset, 16, l.pebOffset, PEB_SIZE);
    SlotsFromWindow(m1, m3, l.pebOffset, map[CODE_POINTER_WORD := loadAddr]);
  }

  lemma OneSlot(m: seq<byte>, peb: nat, j: nat, v: nat)
    requires peb + PEB_SIZE <= |m| && 8 * j + 8 <= PEB_SIZE && v < TWO64
    ensures Slots(Splice(m, peb + 8 * j, U64(v)), peb, map[j := v])
  {
    ReadWritten(m, peb + 8 * j, v);
  }

  lemma WholeWindow(w: seq<byte>, data: seq<byte>)
    requires |w| == |data|
    ensures Splice(w, 0, data) == data
  {
  }

  /** A buffer no step of the loader touches is still zero. */
  lemma Untouched(m0: seq<byte>, m1: seq<byte>, m2: seq<byte>, m3: seq<byte>, l: SandboxMemoryLayout, image: nat,
                  start: nat, size: nat)
    requires m0 == Zeros(|m0|) && start + size <= |m0| && |m1| == |m2| == |m0|
    requires SameOutside(m0, m1, l.pebOffset, PEB_SIZE) && l.pebOffset + PEB_SIZE <= start
    requires SameOutside(m1, m2, l.guestCodeOffset, image) && l.guestCodeOffset + image <= start
    requires SameOutside(m2, m3, l.guestUserStackBufferOffset, 16) && start + size <= l.guestUserStackBufferOffset
    ensures Window(m3, start, size) == Zeros(size)
  {
  }

  /** Everything a new sandbox promises about its memory. */
  ghost predicate Booted(m: seq<byte>, elf: Elf.ElfInfo, l: SandboxMemoryLayout, cookie: seq<byte>, seed: nat,
                         regions: seq<MemoryRegion>, executableHeap: bool)
    requires Elf.WellFormed(elf) && 0 <= Elf.VaSize(elf) && Apart(l, Elf.VaSize(elf), |m|) && Inside(l, |m|)
  {
    Elf.Loaded(elf, BASE_ADDRESS + l.guestCodeOffset, Zeros(Elf.VaSize(elf)), Window(m, l.guestCodeOffset, Elf.VaSize(elf))) &&
    ReadsBack(m, l, 0x20_0000, seed, 1) && ReadU64(m, l.pebOffset + 56) == 0x20_0000 + l.guestCodeOffset &&
    Window(m, l.guestUserStackBufferOffset, 16) == cookie &&
    Holds(Window(m, l.inputDataBufferOffset, l.cfg.inputDataSize), []) &&
    Holds(Window(m, l.outputDataBufferOffset, l.cfg.outputDataSize), []) &&
    forall va: nat | va < NumPages(|m|) * 0x20_0000 :: Walk(m, va) == Intended(regions, executableHeap, va)
  }

  /**
   From zeroed memory: afterwards every address walks as its region says, and if the
   kernel stack is within the room the page-table estimate leaves, the code region holds
   the relocated image, the PEB its fields, the stack its guard, both buffers empty stacks.
   */
  method CreateSandbox(elf: Elf.ElfInfo, l: SandboxMemoryLayout, shm: SharedMemory, host: nat, executableHeap: bool,
                       cookie: seq<byte>, seed: nat, ghost stackSize: nat)
    returns (ok: bool, regions: seq<MemoryRegion>)
    requires Elf.WellFormed(elf) && Elf.SlotsApart(elf) && Elf.NoOverflow(elf, BASE_ADDRESS + l.guestCodeOffset)
    requires Built(l, stackSize) && GetMemorySize(l) == Ok(shm.mem.Length) && l.codeSize == Elf.VaSize(elf)
    requires 8 <= l.cfg.inputDataSize && 8 <= l.cfg.outputDataSize
    requires shm.mem[..] == Zeros(shm.mem.Length) && |cookie| == 16 && seed < TWO64
    modifies shm.mem
    ensures Apart(l, Elf.VaSize(elf), shm.mem.Length) && Inside(l, shm.mem.Length)
    ensures ok <==> forall i | 0 <= i < |elf.relocs| :: Elf.Supported(elf.relocs[i])
    ensures ok ==> regions == LayoutRegions(l, host, executableHeap)
    ensures ok ==> EntriesRight(shm.mem[..], l, executableHeap, NumPages(shm.mem.Length))
    ensures ok ==> forall va: nat | va < NumPages(shm.mem.Length) * 0x20_0000 ::
              Walk(shm.mem[..], va) == Intended(regions, executableHeap, va) &&
              WalkRights(Walk(shm.mem[..], va), va, l, executableHeap, shm.mem.Length)
    ensures ok && l.kernelStackSizeRounded <= KernelStackRoom(l.cfg, l.codeSize, stackSize, l.heapSize) ==>
              Booted(shm.mem[..], elf, l, cookie, seed, regions, executableHeap)
  {
    hide Elf.WellFormed, Elf.SlotsApart, Elf.NoOverflow, Elf.Loaded, Elf.VaSize, Elf.Supported;
    hide New, Window, Slots, Holds, Walk, Intended, EntriesRight, WalkRights, LayoutRegions, KernelStackRoom, SameFrom, PebFields, Zeros, OnlyPeb, ReadsBack, ReadU64;
    SectionsApart(l, stackSize);
    LayoutInside(l, stackSize);
    regions := [];
    ok := LoadGuest(elf, l, shm, cookie);
    if !ok {
      return;
    }
    ghost var m3, kept := shm.mem[..], map[CODE_POINTER_WORD := BASE_ADDRESS + l.guestCodeOffset];
    ok := Write(l, shm, BASE_ADDRESS, host, seed, 1, stackSize, kept);
    ghost var m4 := shm.mem[..];
    assert OnlyPeb(m3, m4, l) by { OnlyPebIntro(m3, m4, l); }
    var rsp;
    rsp, regions := SetUpHypervisorPartition(l, shm, host, executableHeap, true, stackSize);
    if l.kernelStackSizeRounded <= KernelStackRoom(l.cfg, l.codeSize, stackSize, l.heapSize) {
      AllInPlace(elf, l, m3, m4, shm.mem[..], cookie, PebFields(kept, l, BASE_ADDRESS, |m4|, seed, 1));
      FieldsReadBack(shm.mem[..], l, stackSize, BASE_ADDRESS, seed, 1, kept);
      assert 7 in kept;
    }
  }

  lemma OnlyPebIntro(m: seq<byte>, m': seq<byte>, l: SandboxMemoryLayout)
    requires |m| == |m'| &&
             forall k | 0 <= k < |m| && !(l.pebOffset <= k < l.pebOffset + PEB_SIZE) &&
               !(l.inputDataBufferOffset <= k < l.inputDataBufferOffset + 8) &&
               !(l.outputDataBufferOffset <= k < l.outputDataBufferOffset + 8) :: m'[k] == m[k]
    ensures OnlyPeb(m, m', l)
  {
  }

  /** The page tables and the PEB leave the loaded image, the guard and the buffers in place. */
  lemma AllInPlace(elf: Elf.ElfInfo, l: SandboxMemoryLayout, m3: seq<byte>, m4: seq<byte>, m5: seq<byte>,
                   cookie: seq<byte>, fields: Fields)
    requires Elf.WellFormed(elf) && 0 <= Elf.VaSize(elf) && Apart(l, Elf.VaSize(elf), |m3|) && |m3| == |m4| == |m5|
    requires OnlyPeb(m3, m4, l) && SameFrom(m4, m5, l.guestCodeOffset)
    requires Initialised(m3, m4, l.inputDataBufferOffset, l.cfg.inputDataSize)
    requires Initialised(m3, m4, l.outputDataBufferOffset, l.cfg.outputDataSize)
    requires Window(m3, l.inputDataBufferOffset, l.cfg.inputDataSize) == Zeros(l.cfg.inputDataSize)
    requires Window(m3, l.outputDataBufferOffset, l.cfg.outputDataSize) == Zeros(l.cfg.outputDataSize)
    requires Slots(m4, l.pebOffset, fields) && Window(m3, l.guestUserStackBufferOffset, 16) == cookie
    ensures Window(m5, l.guestCodeOffset, Elf.VaSize(elf)) == Window(m3, l.guestCodeOffset, Elf.VaSize(elf))
    ensures Slots(m5, l.pebOffset, fields) && Window(m5, l.guestUserStackBufferOffset, 16) == cookie
    ensures Holds(Window(m5, l.inputDataBufferOffset, l.cfg.inputDataSize), [])
    ensures Holds(Window(m5, l.outputDataBufferOffset, l.cfg.outputDataSize), [])
  {
    hide Elf.WellFormed, Elf.VaSize, OnlyPeb, SameFrom, Slots, Holds, Window, Splice, U64, Zeros;
    Elf.HasLoadOf(elf);
    var n, g := Elf.VaSize(elf), l.guestCodeOffset;
    PebKeepsWindow(m3, m4, l, g, n);
    PebKeepsWindow(m3, m4, l, l.guestUserStackBufferOffset, 16);
    TablesKeepWindow(m4, m5, g, g, n);
    TablesKeepWindow(m4, m5, g, l.guestUserStackBufferOffset, 16);
    TablesKeepWindow(m4, m5, g, l.pebOffset, PEB_SIZE);
    TablesKeepWindow(m4, m5, g, l.inputDataBufferOffset, l.cfg.inputDataSize);
    TablesKeepWindow(m4, m5, g, l.outputDataBufferOffset, l.cfg.outputDataSize);
    SlotsFromWindow(m4, m5, l.pebOffset, fields);
  }

  /** A new sandbox is ready for its first call. */
  lemma ReadyForCalls(m: seq<byte>, elf: Elf.ElfInfo, l: SandboxMemoryLayout, cookie: seq<byte>, seed: nat,
                      regions: seq<MemoryRegion>, executableHeap: bool)
    requires Elf.WellFormed(elf) && 0 <= Elf.VaSize(elf) && Apart(l, Elf.VaSize(elf), |m|) && Inside(l, |m|)
    requires Booted(m, elf, l, cookie, seed, regions, executableHeap)
    ensures BuffersOf(l).Valid(|m|) && CallProtocol.Represents(m, BuffersOf(l), [], [])
  {
  }
}
