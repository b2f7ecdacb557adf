/**
Setting up a partition: the regions of the layout and the page tables for them, end to
end, and the question the estimate in the layout has to answer: do the tables stay out of
the guest's code? The estimate does not count the kernel stack, so the answer depends on
how big that is.
*/
module Partition {
  import opened Bytes
  import opened Bits
  import opened SharedMem
  import opened Regions
  import opened Layout
  import opened PageTables

  /** The largest kernel stack, in whole pages, for which the estimate covers the tables. */
  function KernelStackRoom(cfg: Config, codeSize: nat, stackSize: nat, heapSize: nat): int
    requires Bounded(cfg, codeSize, stackSize, heapSize)
  {
    var counted := CountedSize(cfg, codeSize, stackSize, heapSize);
    TablesFor(counted + BASE_ADDRESS + 515 * PAGE_SIZE) * AMOUNT_OF_MEMORY_PER_PT -
    counted - TotalPageTableSize(cfg, codeSize, stackSize, heapSize) - 4 * PAGE_SIZE
  }

  lemma TablesForMonotone(n: nat, x: nat)
    ensures TablesFor(n) <= x <==> n <= x * AMOUNT_OF_MEMORY_PER_PT
  {
  }

  /** The tables end before the guest's code exactly when the kernel stack fits in that room. */
  lemma TablesFitIff(l: SandboxMemoryLayout, stackSize: nat)
    requires Built(l, stackSize) && GetMemorySize(l).Ok?
    ensures PT_OFFSET + NumPages(GetMemorySize(l).value) * 4096 <= l.guestCodeOffset <==>
            l.kernelStackSizeRounded <= KernelStackRoom(l.cfg, l.codeSize, stackSize, l.heapSize)
  {
    hide PageUp, New, CountedSize, TablesFor;
    BuiltIsChained(l, stackSize);
    MemorySize(l, stackSize);
    var counted := CountedSize(l.cfg, l.codeSize, stackSize, l.heapSize);
    TablesForMonotone(GetMemorySize(l).value, TablesFor(counted + BASE_ADDRESS + 515 * PAGE_SIZE));
  }

  /** The room is never less than 2 MiB - 20 KiB, whatever the other sizes are. */
  lemma RoomAtLeast(l: SandboxMemoryLayout, stackSize: nat)
    requires Built(l, stackSize) && GetMemorySize(l).Ok?
    ensures KernelStackRoom(l.cfg, l.codeSize, stackSize, l.heapSize) >= 0x20_0000 - 20 * 1024
  {
    hide PageUp, New, CountedSize, TablesFor;
    BuiltIsChained(l, stackSize);
    MemorySize(l, stackSize);
    var n := CountedSize(l.cfg, l.codeSize, stackSize, l.heapSize) + BASE_ADDRESS + 515 * PAGE_SIZE;
    TablesForMonotone(n, TablesFor(n));
    TablesForMonotone(n, 512);
  }

  /** At most 512 tables are filled, and memory always has room for them. */
  lemma TablesFitMemory(l: SandboxMemoryLayout, stackSize: nat)
    requires Built(l, stackSize) && GetMemorySize(l).Ok?
    ensures 1 <= NumPages(GetMemorySize(l).value) <= 512
    ensures PT_OFFSET + NumPages(GetMemorySize(l).value) * 4096 <= GetMemorySize(l).value
    ensures BASE_ADDRESS + GetMemorySize(l).value <= NumPages(GetMemorySize(l).value) * 0x20_0000
  {
    hide PageUp, New, CountedSize;
    BuiltIsChained(l, stackSize);
    MemorySize(l, stackSize);
  }

  /** A configuration that is accepted although its tables run into the guest's code. */
  lemma LargeKernelStackOverruns(l: SandboxMemoryLayout)
    requires l == New(Config(0x1000, 0x4000, 0x100, 0x4000, 0x4000, 0x400, 0x400_0000), 0x1000, 0x800, 0x1000)
    ensures GetMemorySize(l).Ok?
    ensures PT_OFFSET + NumPages(GetMemorySize(l).value) * 4096 > l.guestCodeOffset
  {
    hide PageUp, New, CountedSize, TablesFor, TotalPageTableSize;
    ExampleIsBuilt(l);
    CountedExample();
    BuiltIsChained(l, 0x800);
    RoundedSizes(l, 0x800);
    PageUpUnique(0x400_0000, 0x400_0000);
    EndOfExample(l);
    TablesFitIff(l, 0x800);
    RoomOfExample(l);
  }

  lemma ExampleIsBuilt(l: SandboxMemoryLayout)
    requires l == New(Config(0x1000, 0x4000, 0x100, 0x4000, 0x4000, 0x400, 0x400_0000), 0x1000, 0x800, 0x1000)
    ensures Built(l, 0x800) && l.codeSize == 0x1000 && l.heapSize == 0x1000
    ensures l.cfg == Config(0x1000, 0x4000, 0x100, 0x4000, 0x4000, 0x400, 0x400_0000)
  {
  }

  lemma RoomOfExample(l: SandboxMemoryLayout)
    requires Bounded(l.cfg, l.codeSize, 0x800, l.heapSize)
    requires CountedSize(l.cfg, l.codeSize, 0x800, l.heapSize) == 0x13000
    ensures KernelStackRoom(l.cfg, l.codeSize, 0x800, l.heapSize) < 0x60_0000
  {
  }

  lemma CountedExample()
    ensures CountedSize(Config(0x1000, 0x4000, 0x100, 0x4000, 0x4000, 0x400, 0x400_0000), 0x1000, 0x800, 0x1000) == 0x13000
  {
    hide PageUp;
    PageUpUnique(0x1000, 0x1000);
    PageUpUnique(0x800, 0x1000);
    PageUpUnique(0x4000, 0x4000);
    PageUpUnique(0x100, 0x1000);
    PageUpUnique(0x400, 0x1000);
    PageUpUnique(PEB_SIZE, 0x1000);
  }

  lemma EndOfExample(l: SandboxMemoryLayout)
    requires Built(l, 0x800) && Chained(l) && l.kernelStackSizeRounded == 0x400_0000 && l.stackSize == PageUp(0x800)
    requires CountedSize(l.cfg, l.codeSize, 0x800, l.heapSize) == 0x13000
    requires l.totalPageTableSize == TotalPageTableSize(l.cfg, l.codeSize, 0x800, l.heapSize)
    requires PageAligned(l.bootStackBufferOffset)
    ensures GetMemorySize(l).Ok?
  {
  }

  // ------------------------------------------------------------- rights, offset by offset

  /** Entry `k` of the page tables of a sandbox with `size` bytes of memory, bit by bit. */
  ghost predicate EntryRights(e: nat, k: nat, l: SandboxMemoryLayout, executableHeap: bool, size: nat) {
    if 0x200 <= k && 0x1000 * k - 0x20_0000 < size then
      var off := 0x1000 * k - 0x20_0000;
      e % 2 == 1 && e / 0x1000 % 0x100_0000_0000 == k &&
      (e / 2 % 2 == 1 <==> !InDefinitions(l, off) && !InException(l, off)) &&
      (e / 4 % 2 == 1 <==> InCode(l, off) || InHeap(l, off) || InUserStack(l, off) || InGuard(l, off)) &&
      (e >= 0x8000_0000_0000_0000 <==> !Executable(l, off, executableHeap))
    else e == 0x1000 * k
  }

  /** All entries of all filled tables, as bytes. */
  ghost predicate EntriesRight(m: seq<byte>, l: SandboxMemoryLayout, executableHeap: bool, tables: nat) {
    0x3000 + 0x1000 * tables <= |m| &&
    forall k | 0 <= k < 512 * tables :: EntryRights(ReadU64(m, 0x3000 + 8 * k), k, l, executableHeap, |m|)
  }

  /** What the processor may do at an address of guest memory, and nothing anywhere else. */
  ghost predicate WalkRights(t: Translation, va: nat, l: SandboxMemoryLayout, executableHeap: bool, size: nat) {
    if 0x20_0000 <= va < 0x20_0000 + size then
      var off := va - 0x20_0000;
      t.Mapped? && t.physical == va && !t.user &&
      (t.writable <==> !InDefinitions(l, off) && !InException(l, off)) &&
      (t.noExecute <==> !Executable(l, off, executableHeap))
    else t == NotPresent
  }

  lemma KindFlags(r: MemoryRegion, l: SandboxMemoryLayout, off: nat, executableHeap: bool)
    requires RegionFits(r, l, off, executableHeap)
    ensures NoExecute(r.kind, executableHeap) <==> !Executable(l, off, executableHeap)
    ensures LowFlags(r.kind) % 2 == 1 && LowFlags(r.kind) < 8
    ensures LowFlags(r.kind) / 2 % 2 == 1 <==> !InDefinitions(l, off) && !InException(l, off)
    ensures LowFlags(r.kind) >= 3 <==> !InDefinitions(l, off) && !InException(l, off)
    ensures LowFlags(r.kind) / 4 == 1 <==> InCode(l, off) || InHeap(l, off) || InUserStack(l, off) || InGuard(l, off)
  {
  }

  lemma OneEntry(l: SandboxMemoryLayout, stackSize: nat, host: nat, executableHeap: bool, k: nat)
    requires Built(l, stackSize) && GetMemorySize(l).Ok? && k < 0x4_0000
    ensures EntryRights(PteValue(k / 512, k % 512, LayoutRegions(l, host, executableHeap), executableHeap), k, l,
                        executableHeap, GetMemorySize(l).value)
  {
    hide New, PteValue, LayoutRegions, GetMemorySize, FirstMatch, LowFlags, NoExecute, RegionFits, KindFits;
    hide InCode, InHeap, InDefinitions, InException, InUserStack, InGuard, Executable;
    var rs, p, i := LayoutRegions(l, host, executableHeap), k / 512, k % 512;
    PteSum(p, i, rs, executableHeap);
    assert p * 512 + i == k;
    if k < 512 {
      assert p == 0;
    } else {
      var off := 0x1000 * k - 0x20_0000;
      RegionByOffset(l, stackSize, host, executableHeap, off);
      match FirstMatch(rs, 0x20_0000 + off)
      case None =>
      case Some(j) =>
        KindFlags(rs[j], l, off, executableHeap);
        EntryBits(k, LowFlags(rs[j].kind), NoExecute(rs[j].kind, executableHeap));
    }
  }

  lemma EntryBits(k: nat, low: nat, nx: bool)
    requires k < 0x4_0000 && low < 8
    ensures var e := k * 4096 + low + (if nx then PAGE_NX else 0);
            e % 2 == low % 2 && e / 0x1000 % 0x100_0000_0000 == k && (e / 2 % 2 == 1 <==> low / 2 % 2 == 1) &&
            (e / 4 % 2 == 1 <==> low / 4 == 1) && (e >= 0x8000_0000_0000_0000 <==> nx)
  {
    EntryParts(k, low, nx);
    hide Large, Nx;
  }

  lemma AllEntries(m: seq<byte>, l: SandboxMemoryLayout, stackSize: nat, host: nat, executableHeap: bool, tables: nat)
    requires Built(l, stackSize) && GetMemorySize(l) == Ok(|m|) && tables <= 512
    requires Tables(m, 512, 512 * tables, LayoutRegions(l, host, executableHeap), executableHeap)
    ensures EntriesRight(m, l, executableHeap, tables)
  {
    hide New, PteValue, LayoutRegions, GetMemorySize, EntryRights, ReadU64, PointerTo;
    forall k | 0 <= k < 512 * tables ensures EntryRights(ReadU64(m, 0x3000 + 8 * k), k, l, executableHeap, |m|) {
      OneEntry(l, stackSize, host, executableHeap, k);
      assert ReadU64(m, PT_OFFSET + 8 * k) == PteValue(k / 512, k % 512, LayoutRegions(l, host, executableHeap), executableHeap);
    }
  }

  lemma OneAddress(l: SandboxMemoryLayout, stackSize: nat, host: nat, executableHeap: bool, va: nat)
    requires Built(l, stackSize) && GetMemorySize(l).Ok?
    ensures WalkRights(Intended(LayoutRegions(l, host, executableHeap), executableHeap, va), va, l, executableHeap,
                       GetMemorySize(l).value)
  {
    hide New, GetMemorySize, LowFlags, NoExecute, RegionFits, KindFits;
    hide InCode, InHeap, InDefinitions, InException, InUserStack, InGuard, Executable;
    var rs := LayoutRegions(l, host, executableHeap);
    if va < 0x20_0000 {
      NothingBelow(l, host, executableHeap, va);
    } else {
      hide LayoutRegions, FirstMatch;
      RegionByOffset(l, stackSize, host, executableHeap, va - 0x20_0000);
      match FirstMatch(rs, va)
      case None =>
      case Some(j) => KindFlags(rs[j], l, va - 0x20_0000, executableHeap);
    }
  }

  lemma NothingBelow(l: SandboxMemoryLayout, host: nat, executableHeap: bool, va: nat)
    requires va < 0x20_0000
    ensures FirstMatch(LayoutRegions(l, host, executableHeap), va) == None
  {
  }

  /**
   `set_up_hypervisor_partition` up to the choice of a hypervisor. For every layout with
   an acceptable memory size all checks and writes succeed and every address below the
   filled tables walks as intended; the guest's code and everything behind it keep their
   bytes when the kernel stack is within its room. A memory lock that cannot be taken
   leaves everything as it was.
   */
  method SetUpHypervisorPartition(l: SandboxMemoryLayout, shm: SharedMemory, host: nat, executableHeap: bool,
                                  lockFree: bool, ghost stackSize: nat)
    returns (rsp: Outcome<nat>, regions: seq<MemoryRegion>)
    requires Built(l, stackSize) && GetMemorySize(l) == Ok(shm.mem.Length)
    modifies shm.mem
    ensures rsp == if lockFree then Ok(BASE_ADDRESS + l.userStackGuardPageOffset - 0x28) else Err
    ensures !lockFree ==> shm.mem[..] == old(shm.mem[..])
    ensures lockFree ==> regions == LayoutRegions(l, host, executableHeap)
    ensures lockFree ==> forall va: nat | va < NumPages(shm.mem.Length) * 0x20_0000 ::
              Walk(shm.mem[..], va) == Intended(regions, executableHeap, va) &&
              (Walk(shm.mem[..], va).Mapped? <==> BASE_ADDRESS <= va < BASE_ADDRESS + shm.mem.Length)
    ensures lockFree ==> EntriesRight(shm.mem[..], l, executableHeap, NumPages(shm.mem.Length))
    ensures lockFree ==> forall va: nat | va < NumPages(shm.mem.Length) * 0x20_0000 ::
              WalkRights(Walk(shm.mem[..], va), va, l, executableHeap, shm.mem.Length)
    ensures lockFree ==> l.kernelStackSizeRounded <= KernelStackRoom(l.cfg, l.codeSize, stackSize, l.heapSize) ==>
              SameFrom(old(shm.mem[..]), shm.mem[..], l.guestCodeOffset)
    ensures l.guestCodeOffset < shm.mem.Length
  {
    hide New, Tables, Tiles, Walk, Intended, LayoutRegions, KernelStackRoom, EndOf, TablesFor, SameFrom, GetMemorySize;
    hide EntriesRight, WalkRights;
    BuiltIsChained(l, stackSize);
    MemorySize(l, stackSize);
    TablesFitMemory(l, stackSize);
    TablesFitIff(l, stackSize);
    var built := GetMemoryRegions(l, host, executableHeap, stackSize);
    regions := built.value;
    rsp := Ok(l.guestUserStackBufferOffset + BASE_ADDRESS + l.stackSize - 0x28);
    if !lockFree {
      return Err, regions;
    }
    ghost var m0 := shm.mem[..];
    var numPages := NumPages(shm.mem.Length);
    var ok := WriteTables(shm, numPages, regions, executableHeap, host);
    forall va: nat | va < numPages * 0x20_0000
      ensures Walk(shm.mem[..], va) == Intended(regions, executableHeap, va)
      ensures Walk(shm.mem[..], va).Mapped? <==> BASE_ADDRESS <= va < BASE_ADDRESS + shm.mem.Length
      ensures WalkRights(Walk(shm.mem[..], va), va, l, executableHeap, shm.mem.Length)
    {
      WalkIsIntended(shm.mem[..], va, numPages, regions, executableHeap, host);
      OneAddress(l, stackSize, host, executableHeap, va);
    }
    AllEntries(shm.mem[..], l, stackSize, host, executableHeap, numPages);
    if l.kernelStackSizeRounded <= KernelStackRoom(l.cfg, l.codeSize, stackSize, l.heapSize) {
      SuffixOfSuffix(m0, shm.mem[..], PT_OFFSET + numPages * 4096, l.guestCodeOffset);
    }
  }

  lemma SuffixOfSuffix(m: seq<byte>, m': seq<byte>, from: nat, later: nat)
    requires SameFrom(m, m', from) && from <= later <= |m|
    ensures SameFrom(m, m', later)
  {
  }
}
