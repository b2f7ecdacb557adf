/**
`set_up_shared_memory`: the page tables the host writes at the start of guest memory, and
the 4-level walk of the processor (section 4.5 of the Intel SDM, volume 3A) that reads
them. The walk is defined from the architecture alone; the theorems say that walking the
written bytes gives the identity translation with the flags of the address's region.
*/
module PageTables {
  import opened Bytes
  import opened Bits
  import opened SharedMem
  import opened Regions
  import opened Layout

  const PML4_OFFSET: nat := 0x0
  const PDPT_OFFSET: nat := 0x1000
  const PD_OFFSET: nat := 0x2000
  const PT_OFFSET: nat := 0x3000

  const PAGE_PRESENT: nat := 1
  const PAGE_RW: nat := 2
  const PAGE_USER: nat := 4
  const PAGE_NX: nat := 0x8000_0000_0000_0000

  // ------------------------------------------------------------------ what is written

  function PageFlags(kind: RegionType, executableHeap: bool): nat {
    match kind
    case Code => BitOr(BitOr(PAGE_PRESENT, PAGE_RW), PAGE_USER)
    case Stack => BitOr(BitOr(BitOr(PAGE_PRESENT, PAGE_RW), PAGE_USER), PAGE_NX)
    case Heap => if executableHeap then BitOr(BitOr(PAGE_PRESENT, PAGE_RW), PAGE_USER)
                 else BitOr(BitOr(BitOr(PAGE_PRESENT, PAGE_RW), PAGE_USER), PAGE_NX)
    case GuardPage => BitOr(BitOr(BitOr(PAGE_PRESENT, PAGE_RW), PAGE_USER), PAGE_NX)
    case HostFunctionDefinitions => BitOr(PAGE_PRESENT, PAGE_NX)
    case HostExceptionData => BitOr(PAGE_PRESENT, PAGE_NX)
    case _ => BitOr(BitOr(PAGE_PRESENT, PAGE_RW), PAGE_NX)
  }

  /** Entry `i` of page table `p`. */
  function PteValue(p: nat, i: nat, regions: seq<MemoryRegion>, executableHeap: bool): nat {
    var address := BitOr(p * 0x20_0000, i * 0x1000);
    if p == 0 then address
    else match FirstMatch(regions, p * 0x20_0000 + i * 0x1000)
      case Some(k) => BitOr(address, PageFlags(regions[k].kind, executableHeap))
      case None => BitOr(address, 0)
  }

  function PointerTo(table: nat): nat {
    BitOr(BitOr(table, PAGE_PRESENT), PAGE_RW)
  }

  /** The first `pds` directory entries and the first `ptes` table entries are in place. */
  ghost predicate Tables(m: seq<byte>, pds: nat, ptes: nat, regions: seq<MemoryRegion>, executableHeap: bool) {
    PT_OFFSET + 8 * ptes <= |m| && pds <= 512 && PD_OFFSET + 8 * pds <= |m| &&
    ReadU64(m, PML4_OFFSET) == PointerTo(BASE_ADDRESS + PDPT_OFFSET) &&
    ReadU64(m, PDPT_OFFSET) == PointerTo(BASE_ADDRESS + PD_OFFSET) &&
    (forall i | 0 <= i < pds :: ReadU64(m, PD_OFFSET + 8 * i) == PointerTo(BASE_ADDRESS + PT_OFFSET + i * 4096)) &&
    (forall k | 0 <= k < ptes ::
       ReadU64(m, PT_OFFSET + 8 * k) == PteValue(k / 512, k % 512, regions, executableHeap))
  }

  /** How many page tables are filled for a memory of `memSize` bytes. */
  function NumPages(memSize: nat): nat {
    TablesFor(memSize) + 1
  }

  // --------------------------------------------------------------------- entry arithmetic

  lemma FlagsValue(kind: RegionType, executableHeap: bool)
    ensures PageFlags(kind, executableHeap) == LowFlags(kind) + (if NoExecute(kind, executableHeap) then PAGE_NX else 0)
  {
    hide BitOr;
    OrSmall();
    OrNx(1);
    OrNx(3);
    OrNx(7);
  }

  lemma OrSmall()
    ensures BitOr(PAGE_PRESENT, PAGE_RW) == 3 && BitOr(3, PAGE_USER) == 7
  {
  }

  lemma OrNx(low: nat)
    requires low < 4096
    ensures BitOr(low, PAGE_NX) == low + PAGE_NX
  {
    hide BitOr, Pow2;
    Pow2Values();
    OrDisjoint(1, low, 63);
  }

  /** Present, writable and user bits of a region's pages. */
  function LowFlags(kind: RegionType): nat {
    match kind
    case Code | Stack | Heap | GuardPage => 7
    case HostFunctionDefinitions | HostExceptionData => 1
    case _ => 3
  }

  predicate NoExecute(kind: RegionType, executableHeap: bool) {
    kind != Code && !(kind == Heap && executableHeap)
  }

  /** A page-aligned address below 4 GiB combined with flag bits is their sum. */
  lemma AddressWithFlags(page: nat, low: nat, nx: bool)
    requires page < 0x10_0000 && low < 4096
    ensures BitOr(page * 4096, low + (if nx then PAGE_NX else 0)) == page * 4096 + low + (if nx then PAGE_NX else 0)
  {
    hide BitOr, Pow2;
    Pow2Values();
    if nx {
      OrLow(page, low, 0x8_0000_0000_0000, 12);
      OrDisjoint(1, page, 51);
    } else {
      OrDisjoint(page, low, 12);
    }
  }

  lemma PointerValue(table: nat)
    requires table % 4096 == 0 && table < 0x1_0000_0000
    ensures PointerTo(table) == table + 3
  {
    hide BitOr;
    AddressWithFlags(table / 4096, 1, false);
    PointerRw(table);
  }

  lemma PointerRw(table: nat)
    requires table % 4096 == 0
    ensures BitOr(table + 1, 2) == table + 3
  {
    var half := (table + 1) / 2;
    assert half % 2 == 0;
    OrZero(half / 2);
    assert BitOr(half, 1) == 2 * BitOr(half / 2, 0) + 1;
    assert BitOr(table + 1, 2) == 2 * BitOr(half, 1) + 1;
  }

  lemma PteSum(p: nat, i: nat, regions: seq<MemoryRegion>, executableHeap: bool)
    requires p < 512 && i < 512
    ensures PteValue(p, i, regions, executableHeap) ==
            (p * 512 + i) * 4096 +
            (if p == 0 then 0 else match FirstMatch(regions, (p * 512 + i) * 4096)
               case Some(k) => LowFlags(regions[k].kind) + (if NoExecute(regions[k].kind, executableHeap) then PAGE_NX else 0)
               case None => 0)
  {
    hide BitOr, Pow2, FirstMatch;
    Pow2Values();
    OrDisjoint(p, i * 0x1000, 21);
    var page := p * 512 + i;
    OrZero(page * 4096);
    match FirstMatch(regions, page * 4096)
    case None =>
    case Some(k) =>
      FlagsValue(regions[k].kind, executableHeap);
      AddressWithFlags(page, LowFlags(regions[k].kind), NoExecute(regions[k].kind, executableHeap));
  }

  // -------------------------------------------------------------------- the walk

  /** What the processor makes of a virtual address. */
  datatype Translation =
    | Mapped(physical: nat, lowFlags: nat, writable: bool, user: bool, noExecute: bool)
    | NotPresent
    | LargePage
    | Unbacked

  function AddressOf(entry: nat): nat {
    entry / 4096 % 0x100_0000_0000 * 4096
  }

  predicate Present(entry: nat) { entry % 2 == 1 }
  predicate Writable(entry: nat) { entry / 2 % 2 == 1 }
  predicate User(entry: nat) { entry / 4 % 2 == 1 }
  predicate Large(entry: nat) { entry / 128 % 2 == 1 }
  predicate Nx(entry: nat) { entry / 0x8000_0000_0000_0000 % 2 == 1 }

  /** The entry at guest-physical address `table + 8 * index`; guest memory starts at the base address. */
  function EntryAt(m: seq<byte>, table: nat, index: nat): Option<nat> {
    var at := table + 8 * index - BASE_ADDRESS;
    if 0 <= at && at + 8 <= |m| then Some(ReadU64(m, at)) else None
  }

  /** The walk from `CR3 = BASE_ADDRESS`. Rights are the conjunction over all four levels. */
  function Walk(m: seq<byte>, va: nat): Translation {
    match EntryAt(m, BASE_ADDRESS, va / 0x80_0000_0000 % 512)
    case None => Unbacked
    case Some(pml4e) =>
      if !Present(pml4e) then NotPresent
      else match EntryAt(m, AddressOf(pml4e), va / 0x4000_0000 % 512)
        case None => Unbacked
        case Some(pdpte) =>
          if !Present(pdpte) then NotPresent else if Large(pdpte) then LargePage
          else match EntryAt(m, AddressOf(pdpte), va / 0x20_0000 % 512)
            case None => Unbacked
            case Some(pde) =>
              if !Present(pde) then NotPresent else if Large(pde) then LargePage
              else match EntryAt(m, AddressOf(pde), va / 0x1000 % 512)
                case None => Unbacked
                case Some(pte) =>
                  if !Present(pte) then NotPresent
                  else Mapped(AddressOf(pte) + va % 0x1000, pte % 4096,
                              Writable(pml4e) && Writable(pdpte) && Writable(pde) && Writable(pte),
                              User(pml4e) && User(pdpte) && User(pde) && User(pte),
                              Nx(pml4e) || Nx(pdpte) || Nx(pde) || Nx(pte))
  }

  lemma EntryParts(page: nat, low: nat, nx: bool)
    requires page < 0x10_0000 && low < 8
    ensures var e := page * 4096 + low + (if nx then PAGE_NX else 0);
            AddressOf(e) == page * 4096 && e % 4096 == low && Present(e) == (low % 2 == 1) &&
            Writable(e) == (low / 2 % 2 == 1) && User(e) == (low / 4 == 1) && !Large(e) && Nx(e) == nx
  {
    var q := page + (if nx then 0x8_0000_0000_0000 else 0);
    var e := q * 4096 + low;
    LowParts(q, low);
    HighParts(page, nx);
    assert Nx(e) == nx;
  }

  lemma LowParts(q: nat, low: nat)
    requires low < 8
    ensures var e := q * 4096 + low;
            e / 4096 == q && e % 4096 == low && Present(e) == (low % 2 == 1) &&
            Writable(e) == (low / 2 % 2 == 1) && User(e) == (low / 4 == 1) && !Large(e)
  {
    var e := q * 4096 + low;
    var u, w, present := low / 4, low / 2 % 2, low % 2;
    assert low == 4 * u + 2 * w + present;
    Halve(e, q * 2048 + 2 * u + w, present);
    Halve(e / 2, q * 1024 + u, w);
    Quarter(e, q * 1024 + u, 2 * w + present);
    Halve(e / 4, q * 512, u);
    assert e / 128 == q * 32;
  }

  lemma Halve(e: nat, x: nat, r: nat)
    requires e == 2 * x + r && r < 2
    ensures e / 2 == x && e % 2 == r
  {
  }

  lemma Quarter(e: nat, x: nat, r: nat)
    requires e == 4 * x + r && r < 4
    ensures e / 4 == x
  {
  }

  lemma HighParts(page: nat, nx: bool)
    requires page < 0x10_0000
    ensures (page + (if nx then 0x8_0000_0000_0000 else 0)) % 0x100_0000_0000 == page
  {
  }

  /** What the walk must find: the identity, with the rights and the low flags of the region on the last level. */
  function Intended(regions: seq<MemoryRegion>, executableHeap: bool, va: nat): Translation {
    match FirstMatch(regions, va)
    case None => NotPresent
    case Some(k) =>
      Mapped(va, LowFlags(regions[k].kind), LowFlags(regions[k].kind) >= 3, false, NoExecute(regions[k].kind, executableHeap))
  }

  /** The three upper levels of every address below 1 GiB lead to page table `va / 2 MiB`. */
  lemma UpperLevels(m: seq<byte>, va: nat, ptes: nat, regions: seq<MemoryRegion>, executableHeap: bool)
    requires Tables(m, 512, ptes, regions, executableHeap) && va < 0x4000_0000
    ensures va / 0x80_0000_0000 % 512 == 0 && va / 0x4000_0000 % 512 == 0 && va / 0x20_0000 % 512 == va / 0x20_0000
    ensures EntryAt(m, BASE_ADDRESS, 0) == Some(BASE_ADDRESS + PDPT_OFFSET + 3)
    ensures EntryAt(m, BASE_ADDRESS + PDPT_OFFSET, 0) == Some(BASE_ADDRESS + PD_OFFSET + 3)
    ensures EntryAt(m, BASE_ADDRESS + PD_OFFSET, va / 0x20_0000) ==
            Some(BASE_ADDRESS + PT_OFFSET + va / 0x20_0000 * 4096 + 3)
  {
    hide PointerTo, ReadU64;
    var p := va / 0x20_0000;
    PointerValue(BASE_ADDRESS + PDPT_OFFSET);
    PointerValue(BASE_ADDRESS + PD_OFFSET);
    PointerValue(BASE_ADDRESS + PT_OFFSET + p * 4096);
    assert ReadU64(m, PD_OFFSET + 8 * p) == PointerTo(BASE_ADDRESS + PT_OFFSET + p * 4096);
  }

  /** The last level: the entry found for `va` is the one written for its page. */
  lemma LastLevel(m: seq<byte>, va: nat, ptes: nat, regions: seq<MemoryRegion>, executableHeap: bool)
    requires Tables(m, 512, ptes, regions, executableHeap) && va < 0x4000_0000 && va / 0x1000 < ptes
    ensures EntryAt(m, BASE_ADDRESS + PT_OFFSET + va / 0x20_0000 * 4096, va / 0x1000 % 512) ==
            Some(PteValue(va / 0x20_0000, va / 0x1000 % 512, regions, executableHeap))
  {
    hide PteValue, ReadU64;
    var k := va / 0x1000;
    assert k / 512 == va / 0x20_0000;
    assert ReadU64(m, PT_OFFSET + 8 * k) == PteValue(k / 512, k % 512, regions, executableHeap);
    assert PT_OFFSET + 8 * k == PT_OFFSET + k / 512 * 4096 + 8 * (k % 512);
  }

  /** An entry of an upper level: it leads on, for the kernel, without restricting access. */
  predicate LeadsOn(entry: nat) {
    Present(entry) && Writable(entry) && !User(entry) && !Large(entry) && !Nx(entry)
  }

  lemma WalkThrough(m: seq<byte>, va: nat, pml4e: nat, pdpte: nat, pde: nat, pte: nat)
    requires LeadsOn(pml4e) && LeadsOn(pdpte) && LeadsOn(pde)
    requires EntryAt(m, BASE_ADDRESS, va / 0x80_0000_0000 % 512) == Some(pml4e)
    requires EntryAt(m, AddressOf(pml4e), va / 0x4000_0000 % 512) == Some(pdpte)
    requires EntryAt(m, AddressOf(pdpte), va / 0x20_0000 % 512) == Some(pde)
    requires EntryAt(m, AddressOf(pde), va / 0x1000 % 512) == Some(pte)
    ensures Walk(m, va) ==
            if !Present(pte) then NotPresent
            else Mapped(AddressOf(pte) + va % 0x1000, pte % 4096, Writable(pte), false, Nx(pte))
  {
    hide AddressOf, Present, Writable, User, Large, Nx, EntryAt;
  }

  /** The walk, once its four entries are known. */
  lemma WalkOf(m: seq<byte>, va: nat, pdpt: nat, pd: nat, pt: nat, page: nat, low: nat, nx: bool)
    requires pdpt < 0x10_0000 && pd < 0x10_0000 && pt < 0x10_0000 && page < 0x10_0000 && low < 8
    requires EntryAt(m, BASE_ADDRESS, va / 0x80_0000_0000 % 512) == Some(pdpt * 4096 + 3)
    requires EntryAt(m, pdpt * 4096, va / 0x4000_0000 % 512) == Some(pd * 4096 + 3)
    requires EntryAt(m, pd * 4096, va / 0x20_0000 % 512) == Some(pt * 4096 + 3)
    requires EntryAt(m, pt * 4096, va / 0x1000 % 512) == Some(page * 4096 + low + (if nx then PAGE_NX else 0))
    ensures Walk(m, va) ==
            if low % 2 == 0 then NotPresent
            else Mapped(page * 4096 + va % 0x1000, low, low / 2 % 2 == 1, false, nx)
  {
    hide AddressOf, Present, Writable, User, Large, Nx, EntryAt, Walk;
    EntryParts(pdpt, 3, false);
    EntryParts(pd, 3, false);
    EntryParts(pt, 3, false);
    EntryParts(page, low, nx);
    WalkThrough(m, va, pdpt * 4096 + 3, pd * 4096 + 3, pt * 4096 + 3,
                page * 4096 + low + (if nx then PAGE_NX else 0));
  }

  /**
   Every virtual address below the mapped tables is translated as intended: to itself,
   with the flags of its region, if it lies in guest memory; to nothing otherwise. No
   address is accessible from user mode, because the upper levels never set that bit.
   */
  lemma WalkIsIntended(m: seq<byte>, va: nat, numPages: nat, regions: seq<MemoryRegion>, executableHeap: bool, host: nat)
    requires Tables(m, 512, 512 * numPages, regions, executableHeap) && Tiles(regions, BASE_ADDRESS, host)
    requires va < numPages * 0x20_0000 <= 0x4000_0000
    ensures Walk(m, va) == Intended(regions, executableHeap, va)
    ensures Walk(m, va).Mapped? <==> BASE_ADDRESS <= va < EndOf(regions, BASE_ADDRESS)
  {
    hide Tables, Tiles, EntryAt, Walk, FirstMatch, EndOf, PteValue, PageAligned;
    var p, page := va / 0x20_0000, va / 0x1000;
    Covered(regions, BASE_ADDRESS, host, va);
    SameRegionInPage(regions, BASE_ADDRESS, host, va);
    assert va - va % PAGE_SIZE == page * 4096;
    UpperLevels(m, va, 512 * numPages, regions, executableHeap);
    LastLevel(m, va, 512 * numPages, regions, executableHeap);
    assert page == p * 512 + page % 512;
    PteSum(p, page % 512, regions, executableHeap);
    var found := FirstMatch(regions, page * 4096);
    var low := if p == 0 || found.None? then 0 else LowFlags(regions[found.value].kind);
    var nx := p != 0 && found.Some? && NoExecute(regions[found.value].kind, executableHeap);
    WalkOf(m, va, 0x201, 0x202, 0x203 + p, page, low, nx);
  }

  // ------------------------------------------------------------------- writing the tables

  /** A directory entry written at its place extends the directory. */
  lemma ExtendDirectory(m: seq<byte>, i: nat, regions: seq<MemoryRegion>, executableHeap: bool)
    requires Tables(m, i, 0, regions, executableHeap) && i < 512 && PT_OFFSET <= |m|
    ensures Tables(Splice(m, PD_OFFSET + 8 * i, U64(PointerTo(BASE_ADDRESS + PT_OFFSET + i * 4096))), i + 1, 0,
                   regions, executableHeap)
  {
    hide Splice, U64, ReadU64, PointerTo;
    var off, v := PD_OFFSET + 8 * i, PointerTo(BASE_ADDRESS + PT_OFFSET + i * 4096);
    PointerValue(BASE_ADDRESS + PT_OFFSET + i * 4096);
    ReadWritten(m, off, v);
    ReadElsewhere(m, off, U64(v), PML4_OFFSET);
    ReadElsewhere(m, off, U64(v), PDPT_OFFSET);
    var m' := Splice(m, off, U64(v));
    forall j | 0 <= j < i + 1
      ensures ReadU64(m', PD_OFFSET + 8 * j) == PointerTo(BASE_ADDRESS + PT_OFFSET + j * 4096)
    {
      if j < i {
        ReadElsewhere(m, off, U64(v), PD_OFFSET + 8 * j);
      }
    }
  }

  /** A table entry written at its place extends the tables. */
  lemma ExtendTable(m: seq<byte>, p: nat, i: nat, regions: seq<MemoryRegion>, executableHeap: bool)
    requires Tables(m, 512, 512 * p + i, regions, executableHeap) && i < 512
    requires PT_OFFSET + p * 4096 + i * 8 + 8 <= |m|
    requires PteValue(p, i, regions, executableHeap) < TWO64
    ensures Tables(Splice(m, PT_OFFSET + p * 4096 + i * 8, U64(PteValue(p, i, regions, executableHeap))), 512,
                   512 * p + i + 1, regions, executableHeap)
  {
    hide Splice, U64, ReadU64, PointerTo, PteValue;
    var k := 512 * p + i;
    assert k / 512 == p && k % 512 == i;
    var off, v := PT_OFFSET + 8 * k, PteValue(p, i, regions, executableHeap);
    ReadWritten(m, off, v);
    ReadElsewhere(m, off, U64(v), PML4_OFFSET);
    ReadElsewhere(m, off, U64(v), PDPT_OFFSET);
    var m' := Splice(m, off, U64(v));
    forall j | 0 <= j < 512
      ensures ReadU64(m', PD_OFFSET + 8 * j) == PointerTo(BASE_ADDRESS + PT_OFFSET + j * 4096)
    {
      ReadElsewhere(m, off, U64(v), PD_OFFSET + 8 * j);
    }
    forall j | 0 <= j < k + 1
      ensures ReadU64(m', PT_OFFSET + 8 * j) == PteValue(j / 512, j % 512, regions, executableHeap)
    {
      if j < k {
        ReadElsewhere(m, off, U64(v), PT_OFFSET + 8 * j);
      }
    }
  }

  /** The two single entries at the top. */
  lemma TopEntries(m: seq<byte>, regions: seq<MemoryRegion>, executableHeap: bool)
    requires PT_OFFSET <= |m|
    ensures Tables(Splice(Splice(m, PML4_OFFSET, U64(PointerTo(BASE_ADDRESS + PDPT_OFFSET))),
                          PDPT_OFFSET, U64(PointerTo(BASE_ADDRESS + PD_OFFSET))), 0, 0, regions, executableHeap)
  {
    hide Splice, U64, ReadU64, PointerTo;
    PointerValue(BASE_ADDRESS + PDPT_OFFSET);
    PointerValue(BASE_ADDRESS + PD_OFFSET);
    var v, w := PointerTo(BASE_ADDRESS + PDPT_OFFSET), PointerTo(BASE_ADDRESS + PD_OFFSET);
    ReadWritten(m, PML4_OFFSET, v);
    var m1 := Splice(m, PML4_OFFSET, U64(v));
    ReadWritten(m1, PDPT_OFFSET, w);
    ReadElsewhere(m1, PDPT_OFFSET, U64(w), PML4_OFFSET);
  }

  /** The bytes from `from` on are the same. */
  ghost predicate SameFrom(m: seq<byte>, m': seq<byte>, from: nat) {
    |m| == |m'| && (from <= |m| ==> m[from..] == m'[from..])
  }

  lemma WriteBelow(m0: seq<byte>, m: seq<byte>, off: nat, data: seq<byte>, from: nat)
    requires SameFrom(m0, m, from) && off + |data| <= from <= |m|
    ensures SameFrom(m0, Splice(m, off, data), from)
  {
  }

  lemma PteBound(p: nat, i: nat, regions: seq<MemoryRegion>, executableHeap: bool)
    requires p < 512 && i < 512
    ensures PteValue(p, i, regions, executableHeap) < TWO64
  {
    hide PteValue;
    PteSum(p, i, regions, executableHeap);
  }

  /**
   Writes all tables, stopping at the first write that does not fit. It succeeds exactly
   when memory has room for them, and then no byte behind the last table changes.
   */
  method WriteTables(shm: SharedMemory, numPages: nat, regions: seq<MemoryRegion>, executableHeap: bool, ghost host: nat)
    returns (ok: bool)
    requires Tiles(regions, BASE_ADDRESS, host) && 1 <= numPages <= 512
    modifies shm.mem
    ensures ok <==> PT_OFFSET + numPages * 4096 <= shm.mem.Length
    ensures ok ==> Tables(shm.mem[..], 512, 512 * numPages, regions, executableHeap)
    ensures ok ==> SameFrom(old(shm.mem[..]), shm.mem[..], PT_OFFSET + numPages * 4096)
  {
    hide Tables, Tiles, Splice, U64, PointerTo, PteValue, SameFrom;
    ghost var m0, end := shm.mem[..], PT_OFFSET + numPages * 4096;
    assert SameFrom(m0, m0, end) by { SameFromRefl(m0, end); }
    ok := shm.WriteU64At(PML4_OFFSET, PointerTo(BASE_ADDRESS + PDPT_OFFSET));
    if !ok { return; }
    ghost var m1 := shm.mem[..];
    ok := shm.WriteU64At(PDPT_OFFSET, PointerTo(BASE_ADDRESS + PD_OFFSET));
    if !ok { return; }
    if shm.mem.Length >= end {
      WriteBelow(m0, m0, PML4_OFFSET, U64(PointerTo(BASE_ADDRESS + PDPT_OFFSET)), end);
      WriteBelow(m0, m1, PDPT_OFFSET, U64(PointerTo(BASE_ADDRESS + PD_OFFSET)), end);
      TopEntries(m0, regions, executableHeap);
    }
    for i := 0 to 512
      invariant end <= shm.mem.Length ==> Tables(shm.mem[..], i, 0, regions, executableHeap) && SameFrom(m0, shm.mem[..], end)
    {
      ghost var m := shm.mem[..];
      ok := shm.WriteU64At(PD_OFFSET + i * 8, PointerTo(BASE_ADDRESS + PT_OFFSET + i * 4096));
      if !ok { return; }
      if end <= shm.mem.Length {
        ExtendDirectory(m, i, regions, executableHeap);
        WriteBelow(m0, m, PD_OFFSET + 8 * i, U64(PointerTo(BASE_ADDRESS + PT_OFFSET + i * 4096)), end);
      }
    }
    for p := 0 to numPages
      invariant p > 0 ==> PT_OFFSET + p * 4096 <= shm.mem.Length
      invariant end <= shm.mem.Length ==> Tables(shm.mem[..], 512, 512 * p, regions, executableHeap) && SameFrom(m0, shm.mem[..], end)
    {
      for i := 0 to 512
        invariant i > 0 ==> PT_OFFSET + p * 4096 + i * 8 <= shm.mem.Length
        invariant end <= shm.mem.Length ==> Tables(shm.mem[..], 512, 512 * p + i, regions, executableHeap) && SameFrom(m0, shm.mem[..], end)
      {
        ghost var m := shm.mem[..];
        var value := PageTableEntry(p, i, regions, executableHeap, host);
        ok := shm.WriteU64At(PT_OFFSET + p * 4096 + i * 8, value);
        if !ok { return; }
        if end <= shm.mem.Length {
          PteBound(p, i, regions, executableHeap);
          ExtendTable(m, p, i, regions, executableHeap);
          WriteBelow(m0, m, PT_OFFSET + p * 4096 + i * 8, U64(value), end);
        }
      }
    }
    ok := true;
  }

  lemma SameFromRefl(m: seq<byte>, from: nat)
    ensures SameFrom(m, m, from)
  {
  }

  /** `get_page_flags` and the choice of flags for one entry. */
  method PageTableEntry(p: nat, i: nat, regions: seq<MemoryRegion>, executableHeap: bool, ghost host: nat)
    returns (value: nat)
    requires Tiles(regions, BASE_ADDRESS, host)
    ensures value == PteValue(p, i, regions, executableHeap)
  {
    hide Tiles, BitOr, FirstMatch;
    if p == 0 {
      return BitOr(p * 0x20_0000, i * 0x1000);
    }
    var found := BinarySearch(regions, p * 0x20_0000 + i * 0x1000, BASE_ADDRESS, host);
    var flags := 0;
    if found.Some? {
      flags := PageFlags(regions[found.value].kind, executableHeap);
    }
    return BitOr(BitOr(p * 0x20_0000, i * 0x1000), flags);
  }
}
