/**
Memory regions, the builder that lays them end to end, and the two ways the code looks
an address up: the binary search behind the page-table flags and the first-match scan
behind access violations.
*/
module Regions {
  import opened Bytes
  import opened Bits

  datatype RegionType =
    | PageTables | Code | Peb | HostFunctionDefinitions | HostExceptionData | GuestErrorData
    | InputData | OutputData | PanicContext | Heap | GuardPage | Stack | KernelStack | BootStack

  /** `MemoryRegionFlags`, one field per bit. */
  datatype Flags = Flags(read: bool, write: bool, execute: bool, stackGuard: bool)

  const READ := Flags(true, false, false, false)
  const READ_WRITE := Flags(true, true, false, false)
  const READ_WRITE_EXECUTE := Flags(true, true, true, false)
  const READ_GUARD := Flags(true, false, false, true)

  datatype Range = Range(start: nat, end: nat) {
    predicate Contains(a: nat) {
      start <= a < end
    }
  }

  datatype MemoryRegion = MemoryRegion(guest: Range, host: Range, flags: Flags, kind: RegionType)

  /** The region between two offsets from the guest base and the host base. */
  function RegionOf(base: nat, host: nat, from: nat, to: nat, flags: Flags, kind: RegionType): MemoryRegion {
    MemoryRegion(Range(base + from, base + to), Range(host + from, host + to), flags, kind)
  }

  function EndOf(rs: seq<MemoryRegion>, base: nat): nat {
    if rs == [] then base else rs[|rs| - 1].guest.end
  }

  /** A region that starts at `at`, its host range moved from `base` to `host`. */
  ghost predicate Abuts(r: MemoryRegion, at: nat, base: nat, host: nat) {
    r.guest.start == at && base <= at <= r.guest.end && r.host == Range(at - base + host, r.guest.end - base + host)
  }

  /** Such a region of whole pages. */
  ghost predicate Follows(r: MemoryRegion, at: nat, base: nat, host: nat) {
    Abuts(r, at, base, host) && PageAligned(at) && PageAligned(r.guest.end)
  }

  /** The regions lie end to end from `base`. */
  ghost predicate Contiguous(rs: seq<MemoryRegion>, base: nat, host: nat) {
    rs == [] || (Contiguous(rs[..|rs| - 1], base, host) &&
                 Abuts(rs[|rs| - 1], EndOf(rs[..|rs| - 1], base), base, host))
  }

  /** The regions lie end to end from `base`, all in whole pages. */
  ghost predicate Tiles(rs: seq<MemoryRegion>, base: nat, host: nat) {
    PageAligned(base) &&
    (rs == [] || (Tiles(rs[..|rs| - 1], base, host) &&
                  Follows(rs[|rs| - 1], EndOf(rs[..|rs| - 1], base), base, host)))
  }

  lemma TilesSnoc(rs: seq<MemoryRegion>, r: MemoryRegion, base: nat, host: nat)
    requires Tiles(rs, base, host) && Follows(r, EndOf(rs, base), base, host)
    ensures Tiles(rs + [r], base, host) && EndOf(rs + [r], base) == r.guest.end
  {
  }

  lemma LastRegion(rs: seq<MemoryRegion>, base: nat, host: nat)
    requires Contiguous(rs, base, host) && rs != []
    ensures var last := rs[|rs| - 1]; base <= last.guest.end && last.host.end == last.guest.end - base + host
  {
  }

  lemma ContiguousSnoc(rs: seq<MemoryRegion>, r: MemoryRegion, base: nat, host: nat)
    requires Contiguous(rs, base, host) && Abuts(r, EndOf(rs, base), base, host)
    ensures Contiguous(rs + [r], base, host) && EndOf(rs + [r], base) == r.guest.end
  {
  }

  class MemoryRegionVecBuilder {
    const guestBase: nat
    const hostBase: nat
    var regions: seq<MemoryRegion>

    ghost predicate Valid()
      reads this
    {
      Contiguous(regions, guestBase, hostBase)
    }

    ghost predicate InPages()
      reads this
    {
      Tiles(regions, guestBase, hostBase)
    }

    constructor (guestBase: nat, hostBase: nat)
      ensures Valid() && (PageAligned(guestBase) ==> InPages())
      ensures regions == [] && EndOf(regions, guestBase) == guestBase
      ensures this.guestBase == guestBase && this.hostBase == hostBase
    {
      this.guestBase, this.hostBase, regions := guestBase, hostBase, [];
    }

    method Push(size: nat, flags: Flags, kind: RegionType) returns (total: nat)
      requires Valid()
      modifies this
      ensures Valid() && (old(InPages()) && PageAligned(size) ==> InPages())
      ensures EndOf(regions, guestBase) == old(EndOf(regions, guestBase)) + size == guestBase + total
      ensures regions == old(regions) +
                [RegionOf(guestBase, hostBase, total - size, total, flags, kind)]
    {
      hide Tiles, Contiguous;
      var region;
      if regions == [] {
        region := MemoryRegion(Range(guestBase, guestBase + size), Range(hostBase, hostBase + size), flags, kind);
      } else {
        LastRegion(regions, guestBase, hostBase);
        var last := regions[|regions| - 1];
        region := MemoryRegion(Range(last.guest.end, last.guest.end + size),
                               Range(last.host.end, last.host.end + size), flags, kind);
      }
      ContiguousSnoc(regions, region, guestBase, hostBase);
      if InPages() && PageAligned(size) {
        EndAligned(regions, guestBase, hostBase);
        AlignedSum(EndOf(regions, guestBase), size);
        TilesSnoc(regions, region, guestBase, hostBase);
      }
      regions := regions + [region];
      total := region.guest.end - guestBase;
    }

    /** Rounds the size up to a page; returns the size of all regions so far. */
    method PushPageAligned(size: nat, flags: Flags, kind: RegionType) returns (total: nat)
      requires Valid() && size + PAGE_SIZE - 1 < TWO64
      modifies this
      ensures Valid() && (old(InPages()) ==> InPages())
      ensures EndOf(regions, guestBase) == old(EndOf(regions, guestBase)) + PageUp(size) == guestBase + total
      ensures regions == old(regions) +
                [RegionOf(guestBase, hostBase, total - PageUp(size), total, flags, kind)]
    {
      hide PageUp;
      PageUpRounds(size);
      total := Push(PageUp(size), flags, kind);
    }
  }

  // ------------------------------------------------------------------- looking up

  /** `iter().find(|r| r.guest_region.contains(&addr))`, from index `i` on. */
  function FindFrom(rs: seq<MemoryRegion>, addr: nat, i: nat): (r: Option<nat>)
    requires i <= |rs|
    ensures match r
            case Some(k) => i <= k < |rs| && rs[k].guest.Contains(addr) &&
                            forall j | i <= j < k :: !rs[j].guest.Contains(addr)
            case None => forall j | i <= j < |rs| :: !rs[j].guest.Contains(addr)
    decreases |rs| - i
  {
    if i == |rs| then None else if rs[i].guest.Contains(addr) then Some(i) else FindFrom(rs, addr, i + 1)
  }

  function FirstMatch(rs: seq<MemoryRegion>, addr: nat): (r: Option<nat>)
    ensures r.Some? ==> r.value < |rs| && rs[r.value].guest.Contains(addr)
  {
    FindFrom(rs, addr, 0)
  }

  /** Later regions end later and start no earlier than earlier ones end. */
  lemma {:induction false} Ordered(rs: seq<MemoryRegion>, base: nat, host: nat, i: nat, j: nat)
    requires Tiles(rs, base, host) && i < j < |rs|
    ensures rs[i].guest.end <= rs[j].guest.start
    decreases |rs|
  {
    var front := rs[..|rs| - 1];
    if j < |front| {
      Ordered(front, base, host, i, j);
    } else if i < j - 1 {
      Ordered(front, base, host, i, j - 1);
    }
  }

  /** The standard library's `binary_search_by` with the comparison of `get_page_flags`. */
  method BinarySearch(rs: seq<MemoryRegion>, addr: nat, ghost base: nat, ghost host: nat) returns (r: Option<nat>)
    requires Tiles(rs, base, host)
    ensures r == FirstMatch(rs, addr)
  {
    hide Tiles;
    var size, left, right := |rs|, 0, |rs|;
    while left < right
      invariant 0 <= left <= right <= |rs| && size == right - left
      invariant forall k | 0 <= k < left :: !rs[k].guest.Contains(addr)
      invariant forall k | right <= k < |rs| :: !rs[k].guest.Contains(addr)
      decreases right - left
    {
      var mid := left + size / 2;
      if rs[mid].guest.Contains(addr) {
        OnlyMatch(rs, base, host, addr, mid);
        return Some(mid);
      } else if rs[mid].guest.start > addr {
        NoneAbove(rs, base, host, addr, mid);
        right := mid;
      } else {
        NoneBelow(rs, base, host, addr, mid);
        left := mid + 1;
      }
      size := right - left;
    }
    return None;
  }

  lemma NoneAbove(rs: seq<MemoryRegion>, base: nat, host: nat, addr: nat, mid: nat)
    requires Tiles(rs, base, host) && mid < |rs| && rs[mid].guest.start > addr
    ensures forall k | mid <= k < |rs| :: !rs[k].guest.Contains(addr)
  {
    Aligned(rs, base, host, mid);
    forall k | mid < k < |rs| ensures !rs[k].guest.Contains(addr) {
      Ordered(rs, base, host, mid, k);
    }
  }

  lemma NoneBelow(rs: seq<MemoryRegion>, base: nat, host: nat, addr: nat, mid: nat)
    requires Tiles(rs, base, host) && mid < |rs| && rs[mid].guest.start <= addr
    ensures forall k | 0 <= k < mid :: !rs[k].guest.Contains(addr)
  {
    forall k | 0 <= k < mid ensures !rs[k].guest.Contains(addr) {
      Ordered(rs, base, host, k, mid);
    }
  }

  /** An address lies in at most one region. */
  lemma OnlyMatch(rs: seq<MemoryRegion>, base: nat, host: nat, addr: nat, k: nat)
    requires Tiles(rs, base, host) && k < |rs| && rs[k].guest.Contains(addr)
    ensures FirstMatch(rs, addr) == Some(k)
  {
    NoneBelow(rs, base, host, addr, k);
  }

  /** Exactly the addresses from `base` to the end of the last region lie in a region. */
  lemma {:induction false} Covered(rs: seq<MemoryRegion>, base: nat, host: nat, addr: nat)
    requires Tiles(rs, base, host)
    ensures FirstMatch(rs, addr).Some? <==> base <= addr < EndOf(rs, base)
    decreases |rs|
  {
    if rs == [] {
    } else {
      var n, front := |rs| - 1, rs[..|rs| - 1];
      Covered(front, base, host, addr);
      if FirstMatch(front, addr).Some? {
        var k := FirstMatch(front, addr).value;
        assert rs[k].guest.Contains(addr);
      } else {
        assert forall k | 0 <= k < n :: !front[k].guest.Contains(addr);
        assert FirstMatch(rs, addr).Some? <==> rs[n].guest.Contains(addr);
      }
    }
  }

  /** All addresses of a page lie in the region of the page's first address. */
  lemma SameRegionInPage(rs: seq<MemoryRegion>, base: nat, host: nat, addr: nat)
    requires Tiles(rs, base, host)
    ensures FirstMatch(rs, addr) == FirstMatch(rs, addr - addr % PAGE_SIZE)
  {
    hide Tiles, FirstMatch;
    var page := addr - addr % PAGE_SIZE;
    Covered(rs, base, host, addr);
    Covered(rs, base, host, page);
    EndAligned(rs, base, host);
    if FirstMatch(rs, page).Some? {
      var k := FirstMatch(rs, page).value;
      Aligned(rs, base, host, k);
      OnlyMatch(rs, base, host, addr, k);
    } else if base <= addr {
      assert page % PAGE_SIZE == 0 && base <= page;
    }
  }

  lemma EndAligned(rs: seq<MemoryRegion>, base: nat, host: nat)
    requires Tiles(rs, base, host)
    ensures PageAligned(base) && PageAligned(EndOf(rs, base))
  {
  }

  lemma {:induction false} Aligned(rs: seq<MemoryRegion>, base: nat, host: nat, k: nat)
    requires Tiles(rs, base, host) && k < |rs|
    ensures PageAligned(rs[k].guest.start) && PageAligned(rs[k].guest.end)
    ensures base <= rs[k].guest.start <= rs[k].guest.end
    decreases |rs|
  {
    if k == |rs| - 1 {
    } else {
      Aligned(rs[..|rs| - 1], base, host, k);
    }
  }
}
