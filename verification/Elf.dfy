/**
The ELF loader: copies the loadable segments of a guest binary into the target slice of
memory that starts at the code region, and applies its relocations, proved against a
description of every byte of the loaded image.
*/
module Elf {
  import opened Bytes
  import opened SharedMem
  import Layout
  import Regions
  import Bits

  /** A program header; only `PT_LOAD` segments are loaded. */
  datatype ProgramHeader = ProgramHeader(load: bool, vaddr: nat, offset: nat, filesz: nat, memsz: nat)

  datatype RelocType = NoReloc | Relative | Unsupported

  datatype Reloc = Reloc(kind: RelocType, offset: nat, addend: Option<int>)

  datatype ElfInfo = ElfInfo(payload: seq<byte>, phdrs: seq<ProgramHeader>, relocs: seq<Reloc>)

  /** The first `PT_LOAD` header from index `i` on. */
  function FirstLoad(phdrs: seq<ProgramHeader>, i: nat): (r: nat)
    requires i <= |phdrs|
    ensures i <= r <= |phdrs| && (forall j | i <= j < r :: !phdrs[j].load) && (r < |phdrs| ==> phdrs[r].load)
    decreases |phdrs| - i
  {
    if i == |phdrs| || phdrs[i].load then i else FirstLoad(phdrs, i + 1)
  }

  /** One past the last `PT_LOAD` header among the first `i`. */
  function LastLoad(phdrs: seq<ProgramHeader>, i: nat): (r: nat)
    requires i <= |phdrs|
    ensures r <= i && (forall j | r <= j < i :: !phdrs[j].load) && (r > 0 ==> phdrs[r - 1].load)
  {
    if i == 0 || phdrs[i - 1].load then i else LastLoad(phdrs, i - 1)
  }

  /** What `ElfInfo::new` checks. */
  predicate HasLoad(elf: ElfInfo) {
    exists j | 0 <= j < |elf.phdrs| :: elf.phdrs[j].load
  }

  function BaseVa(elf: ElfInfo): nat
    requires HasLoad(elf)
  {
    elf.phdrs[FirstLoad(elf.phdrs, 0)].vaddr
  }

  function VaSize(elf: ElfInfo): int
    requires HasLoad(elf)
  {
    var last := elf.phdrs[LastLoad(elf.phdrs, |elf.phdrs|) - 1];
    last.vaddr + last.memsz - BaseVa(elf)
  }

  /** Loadable segments ascend without overlap and carry no more file bytes than memory. */
  ghost predicate WellFormed(elf: ElfInfo) {
    HasLoad(elf) &&
    (forall j | 0 <= j < |elf.phdrs| && elf.phdrs[j].load ::
       elf.phdrs[j].filesz <= elf.phdrs[j].memsz && elf.phdrs[j].offset + elf.phdrs[j].filesz <= |elf.payload|) &&
    (forall i, j | 0 <= i < j < |elf.phdrs| && elf.phdrs[i].load && elf.phdrs[j].load ::
       elf.phdrs[i].vaddr + elf.phdrs[i].memsz <= elf.phdrs[j].vaddr)
  }

  /** The eight-byte slots of the relative relocations lie in the image and do not overlap. */
  ghost predicate SlotsApart(elf: ElfInfo)
    requires HasLoad(elf)
  {
    (forall i | 0 <= i < |elf.relocs| && elf.relocs[i].kind == Relative :: elf.relocs[i].offset + 8 <= VaSize(elf)) &&
    (forall i, j | 0 <= i < j < |elf.relocs| && elf.relocs[i].kind == Relative && elf.relocs[j].kind == Relative ::
       elf.relocs[i].offset + 8 <= elf.relocs[j].offset || elf.relocs[j].offset + 8 <= elf.relocs[i].offset)
  }

  /** Every relocation is one the loader knows, with the addend it needs. */
  predicate Supported(r: Reloc) {
    r.kind == NoReloc || (r.kind == Relative && r.addend.Some?)
  }

  predicate Overflows(r: Reloc, loadAddr: nat) {
    r.addend.Some? && !(-0x8000_0000_0000_0000 <= loadAddr + r.addend.value < 0x8000_0000_0000_0000)
  }

  ghost predicate NoOverflow(elf: ElfInfo, loadAddr: nat) {
    forall i | 0 <= i < |elf.relocs| :: !Overflows(elf.relocs[i], loadAddr)
  }

  /** The 64-bit word a relative relocation stores. */
  function Relocated(r: Reloc, loadAddr: nat): (v: nat)
    requires r.addend.Some?
    ensures v < TWO64
  {
    (loadAddr + r.addend.value) % TWO64
  }

  /** A word read as a signed number. */
  function Signed(v: nat): int {
    if v < 0x8000_0000_0000_0000 then v else v - TWO64
  }

  /** The addition overflows exactly when the stored word does not read back as the sum. */
  lemma OverflowsIff(r: Reloc, loadAddr: nat)
    requires r.addend.Some?
    ensures !Overflows(r, loadAddr) <==> Signed(Relocated(r, loadAddr)) == loadAddr + r.addend.value
  {
  }

  // ------------------------------------------------------------- the image, byte by byte

  predicate InSegment(h: ProgramHeader, base: nat, k: nat) {
    h.load && h.vaddr <= base + k < h.vaddr + h.memsz
  }

  /** File contents first, zeros after. */
  function SegmentByte(elf: ElfInfo, h: ProgramHeader, base: nat, k: nat): byte
    requires InSegment(h, base, k) && h.offset + h.filesz <= |elf.payload|
  {
    var at := base + k - h.vaddr;
    if at < h.filesz then elf.payload[h.offset + at] else 0
  }

  predicate InSlot(r: Reloc, k: nat) {
    r.kind == Relative && r.offset <= k < r.offset + 8
  }

  /** A segment the loader can copy into a target of `len` bytes without a panic. */
  predicate SegmentFits(elf: ElfInfo, h: ProgramHeader, len: nat)
    requires HasLoad(elf)
  {
    h.load ==> BaseVa(elf) <= h.vaddr && h.filesz <= h.memsz && h.offset + h.filesz <= |elf.payload| &&
               h.vaddr - BaseVa(elf) + h.memsz <= len
  }

  predicate AllFit(elf: ElfInfo, n: nat, len: nat)
    requires HasLoad(elf) && n <= |elf.phdrs|
  {
    forall j | 0 <= j < n :: SegmentFits(elf, elf.phdrs[j], len)
  }

  /** A relocation the loader can apply in a target of `len` bytes. */
  predicate Applicable(r: Reloc, loadAddr: nat, len: nat) {
    Supported(r) && (r.kind == Relative ==> !Overflows(r, loadAddr) && r.offset + 8 <= len)
  }

  /** The first relocation from index `i` on that cannot be applied. */
  function FirstBad(elf: ElfInfo, loadAddr: nat, len: nat, i: nat): (r: nat)
    requires i <= |elf.relocs|
    ensures i <= r <= |elf.relocs| && (forall j | i <= j < r :: Applicable(elf.relocs[j], loadAddr, len))
    ensures r < |elf.relocs| ==> !Applicable(elf.relocs[r], loadAddr, len)
    decreases |elf.relocs| - i
  {
    if i == |elf.relocs| || !Applicable(elf.relocs[i], loadAddr, len) then i else FirstBad(elf, loadAddr, len, i + 1)
  }

  /** The last of the first `n` headers whose segment covers byte `k`. */
  function SegmentAt(elf: ElfInfo, n: nat, k: nat): (r: Option<nat>)
    requires HasLoad(elf) && n <= |elf.phdrs|
    ensures match r
            case Some(j) => j < n && InSegment(elf.phdrs[j], BaseVa(elf), k) &&
                            forall i | j < i < n :: !InSegment(elf.phdrs[i], BaseVa(elf), k)
            case None => forall i | 0 <= i < n :: !InSegment(elf.phdrs[i], BaseVa(elf), k)
  {
    if n == 0 then None else if InSegment(elf.phdrs[n - 1], BaseVa(elf), k) then Some(n - 1) else SegmentAt(elf, n - 1, k)
  }

  /** The last of the first `n` relocations whose slot covers byte `k`. */
  function SlotAt(elf: ElfInfo, n: nat, k: nat): (r: Option<nat>)
    requires n <= |elf.relocs|
    ensures match r
            case Some(j) => j < n && InSlot(elf.relocs[j], k) && forall i | j < i < n :: !InSlot(elf.relocs[i], k)
            case None => forall i | 0 <= i < n :: !InSlot(elf.relocs[i], k)
  {
    if n == 0 then None else if InSlot(elf.relocs[n - 1], k) then Some(n - 1) else SlotAt(elf, n - 1, k)
  }

  /** Byte `k` after the first `n` segments over `was`: of segments that overlap the last one counts. */
  ghost predicate SegmentsLoaded(elf: ElfInfo, n: nat, was: seq<byte>, t: seq<byte>)
    requires HasLoad(elf) && n <= |elf.phdrs|
  {
    AllFit(elf, n, |was|) && |t| == |was| &&
    forall k | 0 <= k < |t| ::
      t[k] == match SegmentAt(elf, n, k)
              case Some(j) => SegmentByte(elf, elf.phdrs[j], BaseVa(elf), k)
              case None => was[k]
  }

  /** Byte `k` after the first `n` relocations: of slots that overlap the last one counts. */
  ghost predicate Relocations(elf: ElfInfo, n: nat, loadAddr: nat, was: seq<byte>, t: seq<byte>)
    requires n <= |elf.relocs|
  {
    (forall i | 0 <= i < n :: Applicable(elf.relocs[i], loadAddr, |was|)) && |t| == |was| &&
    forall k | 0 <= k < |t| ::
      t[k] == match SlotAt(elf, n, k)
              case Some(i) => U64(Relocated(elf.relocs[i], loadAddr))[k - elf.relocs[i].offset]
              case None => was[k]
  }

  /** What the loader leaves of `was` after all segments and the first `n` relocations. */
  ghost predicate Written(elf: ElfInfo, n: nat, loadAddr: nat, was: seq<byte>, t: seq<byte>)
    requires HasLoad(elf) && n <= |elf.relocs|
  {
    exists mid :: SegmentsLoaded(elf, |elf.phdrs|, was, mid) && Relocations(elf, n, loadAddr, mid, t)
  }

  ghost predicate InAnySlot(elf: ElfInfo, k: nat) {
    exists i | 0 <= i < |elf.relocs| :: InSlot(elf.relocs[i], k)
  }

  ghost predicate InAnySegment(elf: ElfInfo, k: nat)
    requires HasLoad(elf)
  {
    exists j | 0 <= j < |elf.phdrs| :: InSegment(elf.phdrs[j], BaseVa(elf), k)
  }

  /**
   The loaded image `t` over what was there before: relocated words in the slots, file
   contents and zeros in the segments, and the old bytes everywhere else.
   */
  ghost predicate Loaded(elf: ElfInfo, loadAddr: nat, was: seq<byte>, t: seq<byte>)
    requires WellFormed(elf)
  {
    |t| == |was| &&
    (forall i | 0 <= i < |elf.relocs| && elf.relocs[i].kind == Relative ::
       elf.relocs[i].addend.Some? && elf.relocs[i].offset + 8 <= |t| &&
       Window(t, elf.relocs[i].offset, 8) == U64(Relocated(elf.relocs[i], loadAddr))) &&
    (forall j, k | 0 <= j < |elf.phdrs| && 0 <= k < |t| && InSegment(elf.phdrs[j], BaseVa(elf), k) && !InAnySlot(elf, k) ::
       t[k] == SegmentByte(elf, elf.phdrs[j], BaseVa(elf), k)) &&
    (forall k | 0 <= k < |t| && !InAnySlot(elf, k) && !InAnySegment(elf, k) :: t[k] == was[k])
  }

  // ------------------------------------------------------------------------ the loader

  /** Where segment `j` lies: behind the base, inside the image. */
  lemma SegmentRange(elf: ElfInfo, j: nat)
    requires WellFormed(elf) && j < |elf.phdrs| && elf.phdrs[j].load
    ensures BaseVa(elf) <= elf.phdrs[j].vaddr
    ensures elf.phdrs[j].vaddr - BaseVa(elf) + elf.phdrs[j].memsz <= VaSize(elf)
  {
    var first, last := FirstLoad(elf.phdrs, 0), LastLoad(elf.phdrs, |elf.phdrs|) - 1;
    if first < j {
      assert elf.phdrs[first].vaddr + elf.phdrs[first].memsz <= elf.phdrs[j].vaddr;
    }
    if j < last {
      assert elf.phdrs[j].vaddr + elf.phdrs[j].memsz <= elf.phdrs[last].vaddr;
    }
  }

  /** The image starts with its first loadable segment and ends with its last. */
  lemma ImageIsTight(elf: ElfInfo) returns (first: nat, last: nat)
    requires WellFormed(elf)
    ensures first < |elf.phdrs| && elf.phdrs[first].load && elf.phdrs[first].vaddr == BaseVa(elf)
    ensures last < |elf.phdrs| && elf.phdrs[last].load
    ensures elf.phdrs[last].vaddr - BaseVa(elf) + elf.phdrs[last].memsz == VaSize(elf)
    ensures forall j | 0 <= j < |elf.phdrs| && elf.phdrs[j].load ::
              elf.phdrs[first].vaddr <= elf.phdrs[j].vaddr &&
              elf.phdrs[j].vaddr + elf.phdrs[j].memsz <= elf.phdrs[last].vaddr + elf.phdrs[last].memsz
  {
    first, last := FirstLoad(elf.phdrs, 0), LastLoad(elf.phdrs, |elf.phdrs|) - 1;
    forall j | 0 <= j < |elf.phdrs| && elf.phdrs[j].load
      ensures elf.phdrs[first].vaddr <= elf.phdrs[j].vaddr
      ensures elf.phdrs[j].vaddr + elf.phdrs[j].memsz <= elf.phdrs[last].vaddr + elf.phdrs[last].memsz
    {
      SegmentRange(elf, j);
    }
  }

  /** Copying one segment and clearing its tail extends the loaded segments by one. */
  lemma LoadOne(elf: ElfInfo, j: nat, was: seq<byte>, t: seq<byte>, data: seq<byte>, start: nat)
    requires HasLoad(elf) && j < |elf.phdrs| && elf.phdrs[j].load && SegmentsLoaded(elf, j, was, t)
    requires SegmentFits(elf, elf.phdrs[j], |was|) && start + BaseVa(elf) == elf.phdrs[j].vaddr
    requires data == elf.payload[elf.phdrs[j].offset..elf.phdrs[j].offset + elf.phdrs[j].filesz] +
                     Zeros(elf.phdrs[j].memsz - elf.phdrs[j].filesz)
    ensures SegmentsLoaded(elf, j + 1, was, Splice(t, start, data))
  {
    var t' := Splice(t, start, data);
    SpliceIndex(t, start, data);
    hide Splice, BaseVa, HasLoad;
    forall k | 0 <= k < |t|
      ensures t'[k] == match SegmentAt(elf, j + 1, k)
                       case Some(i) => SegmentByte(elf, elf.phdrs[i], BaseVa(elf), k)
                       case None => was[k]
    {
      if InSegment(elf.phdrs[j], BaseVa(elf), k) {
        assert t'[k] == data[k - start];
      }
    }
  }

  lemma SkipOne(elf: ElfInfo, j: nat, was: seq<byte>, t: seq<byte>)
    requires HasLoad(elf) && j < |elf.phdrs| && !elf.phdrs[j].load && SegmentsLoaded(elf, j, was, t)
    ensures SegmentsLoaded(elf, j + 1, was, t)
  {
    hide BaseVa, HasLoad;
  }

  /** Writing one slot extends the applied relocations by one. */
  lemma RelocateOne(elf: ElfInfo, i: nat, loadAddr: nat, was: seq<byte>, t: seq<byte>)
    requires i < |elf.relocs| && Applicable(elf.relocs[i], loadAddr, |was|) && elf.relocs[i].kind == Relative
    requires Relocations(elf, i, loadAddr, was, t)
    ensures Relocations(elf, i + 1, loadAddr, was,
                        Splice(t, elf.relocs[i].offset, U64(Relocated(elf.relocs[i], loadAddr))))
  {
    SpliceIndex(t, elf.relocs[i].offset, U64(Relocated(elf.relocs[i], loadAddr)));
    hide Splice, U64, Relocated, Overflows;
  }

  lemma IgnoreOne(elf: ElfInfo, i: nat, loadAddr: nat, was: seq<byte>, t: seq<byte>)
    requires i < |elf.relocs| && elf.relocs[i].kind == NoReloc && Relocations(elf, i, loadAddr, was, t)
    ensures Relocations(elf, i + 1, loadAddr, was, t)
  {
  }

  /** Two adjacent writes are one. */
  lemma SpliceAdjacent(s: seq<byte>, off: nat, a: seq<byte>, b: seq<byte>)
    requires off + |a| + |b| <= |s|
    ensures Splice(Splice(s, off, a), off + |a|, b) == Splice(s, off, a + b)
  {
  }

  /** How loading ends: a segment that does not fit panics, then the first bad relocation decides. */
  function Fate(elf: ElfInfo, loadAddr: nat, len: nat): Outcome<()>
    requires HasLoad(elf)
  {
    var n := FirstBad(elf, loadAddr, len, 0);
    if !AllFit(elf, |elf.phdrs|, len) then Panic
    else if n == |elf.relocs| then Ok(())
    else if Supported(elf.relocs[n]) then Panic else Err
  }

  /**
   Loads any binary with a loadable segment into the memory from `code` on, for execution
   at `loadAddr`. Nothing before `code` changes; unless a segment does not fit, every byte
   is accounted for, up to the first relocation that cannot be applied.
   */
  method LoadAt(elf: ElfInfo, loadAddr: nat, shm: SharedMemory, code: nat) returns (r: Outcome<()>)
    requires HasLoad(elf) && code <= shm.mem.Length
    modifies shm.mem
    ensures r == Fate(elf, loadAddr, shm.mem.Length - code)
    ensures SameOutside(old(shm.mem[..]), shm.mem[..], code, shm.mem.Length - code)
    ensures AllFit(elf, |elf.phdrs|, shm.mem.Length - code) ==>
              Written(elf, FirstBad(elf, loadAddr, shm.mem.Length - code, 0), loadAddr,
                      Window(old(shm.mem[..]), code, shm.mem.Length - code),
                      Window(shm.mem[..], code, shm.mem.Length - code))
  {
    hide SameOutside, SegmentsLoaded, Relocations, Splice, U64, Window, BaseVa, HasLoad, Overflows;
    ghost var m0 := shm.mem[..];
    var n := shm.mem.Length - code;
    ghost var was := Window(m0, code, n);
    SameOutsideRefl(m0, code, n);
    var base := BaseVa(elf);
    NoSegments(elf, was);
    for j := 0 to |elf.phdrs|
      invariant SameOutside(m0, shm.mem[..], code, n) && AllFit(elf, j, n)
      invariant SegmentsLoaded(elf, j, was, Window(shm.mem[..], code, n))
    {
      ghost var m := shm.mem[..];
      var h := elf.phdrs[j];
      if !SegmentFits(elf, h, n) {
        return Panic;
      }
      if h.load {
        var start := h.vaddr - base;
        var data := elf.payload[h.offset..h.offset + h.filesz];
        var _ := shm.CopyFromSlice(data, code + start);
        var _ := shm.Fill(0, code + start + h.filesz, h.memsz - h.filesz);
        SpliceAdjacent(m, code + start, data, Zeros(h.memsz - h.filesz));
        SpliceWindow(m, code, n, start, data + Zeros(h.memsz - h.filesz));
        SameOutsideTrans(m0, m, shm.mem[..], code, n);
        LoadOne(elf, j, was, Window(m, code, n), data + Zeros(h.memsz - h.filesz), start);
      } else {
        SkipOne(elf, j, was, Window(m, code, n));
      }
    }
    ghost var mid := Window(shm.mem[..], code, n);
    NoRelocations(elf, loadAddr, mid);
    for i := 0 to |elf.relocs|
      invariant SameOutside(m0, shm.mem[..], code, n) && FirstBad(elf, loadAddr, n, i) == FirstBad(elf, loadAddr, n, 0)
      invariant Relocations(elf, i, loadAddr, mid, Window(shm.mem[..], code, n))
    {
      ghost var m := shm.mem[..];
      var r := elf.relocs[i];
      match r.kind
      case Relative =>
        if r.addend == None {
          return Err;
        }
        if Overflows(r, loadAddr) || r.offset + 8 > n {
          return Panic;
        }
        RelocateOne(elf, i, loadAddr, mid, Window(m, code, n));
        SpliceWindow(m, code, n, r.offset, U64(Relocated(r, loadAddr)));
        var _ := shm.CopyFromSlice(U64(Relocated(r, loadAddr)), code + r.offset);
        SameOutsideTrans(m0, m, shm.mem[..], code, n);
      case NoReloc =>
        IgnoreOne(elf, i, loadAddr, mid, Window(m, code, n));
      case Unsupported =>
        return Err;
    }
    return Ok(());
  }

  lemma HasLoadOf(elf: ElfInfo)
    requires WellFormed(elf)
    ensures HasLoad(elf)
  {
  }

  lemma NoSegments(elf: ElfInfo, was: seq<byte>)
    requires HasLoad(elf)
    ensures SegmentsLoaded(elf, 0, was, was)
  {
  }

  lemma NoRelocations(elf: ElfInfo, loadAddr: nat, was: seq<byte>)
    ensures Relocations(elf, 0, loadAddr, was, was)
  {
  }

  /** Relocation `i` is ignored, or is a relative one that fits the target and an `i64`. */
  ghost predicate Applies(elf: ElfInfo, loadAddr: nat, len: nat, i: nat)
    requires i < |elf.relocs|
  {
    var r := elf.relocs[i];
    r.kind == NoReloc ||
    (r.kind == Relative && r.addend.Some? && r.offset + 8 <= len &&
     -0x8000_0000_0000_0000 <= loadAddr + r.addend.value < 0x8000_0000_0000_0000)
  }

  /** Relocation `i` is the first that does not apply. */
  ghost predicate FirstFault(elf: ElfInfo, loadAddr: nat, len: nat, i: nat) {
    i < |elf.relocs| && !Applies(elf, loadAddr, len, i) && forall j | 0 <= j < i :: Applies(elf, loadAddr, len, j)
  }

  /** Loading fails exactly when the first fault is a relocation the loader refuses, and panics on any other. */
  lemma FateIff(elf: ElfInfo, loadAddr: nat, len: nat)
    requires HasLoad(elf) && AllFit(elf, |elf.phdrs|, len)
    ensures Fate(elf, loadAddr, len).Ok? <==> forall i | 0 <= i < |elf.relocs| :: Applies(elf, loadAddr, len, i)
    ensures forall i: nat | FirstFault(elf, loadAddr, len, i) ::
              Fate(elf, loadAddr, len) ==
              if elf.relocs[i].kind == Unsupported || elf.relocs[i].addend == None then Err else Panic
  {
    hide HasLoad, AllFit;
    var n := FirstBad(elf, loadAddr, len, 0);
    forall i: nat | FirstFault(elf, loadAddr, len, i) ensures i == n {
      assert Applicable(elf.relocs[i], loadAddr, len) <==> Applies(elf, loadAddr, len, i);
      if n < |elf.relocs| {
        assert Applicable(elf.relocs[n], loadAddr, len) <==> Applies(elf, loadAddr, len, n);
      }
    }
    if n < |elf.relocs| {
      assert !Applies(elf, loadAddr, len, n);
    }
  }

  // ------------------------------------------------------------ binaries that are well formed

  /** A well-formed binary loads exactly when every relocation is supported, and never panics. */
  lemma WellFormedFate(elf: ElfInfo, loadAddr: nat, len: nat)
    requires WellFormed(elf) && SlotsApart(elf) && NoOverflow(elf, loadAddr) && VaSize(elf) <= len
    ensures AllFit(elf, |elf.phdrs|, len)
    ensures Fate(elf, loadAddr, len) == if forall i | 0 <= i < |elf.relocs| :: Supported(elf.relocs[i]) then Ok(()) else Err
    ensures Fate(elf, loadAddr, len) == Err <==>
            exists i | 0 <= i < |elf.relocs| ::
              elf.relocs[i].kind == Unsupported || (elf.relocs[i].kind == Relative && elf.relocs[i].addend == None)
  {
    hide BaseVa, VaSize, Overflows;
    forall j | 0 <= j < |elf.phdrs| ensures SegmentFits(elf, elf.phdrs[j], len) {
      if elf.phdrs[j].load {
        SegmentRange(elf, j);
      }
    }
  }

  /** Its bytes are those of `Loaded`, and nothing outside its own size is written. */
  lemma WellFormedImage(elf: ElfInfo, n: nat, loadAddr: nat, m: seq<byte>, m': seq<byte>, code: nat)
    requires WellFormed(elf) && SlotsApart(elf) && 0 <= VaSize(elf) && code + VaSize(elf) <= |m| == |m'| && n <= |elf.relocs|
    requires SameOutside(m, m', code, |m| - code)
    requires Written(elf, n, loadAddr, Window(m, code, |m| - code), Window(m', code, |m| - code))
    ensures SameOutside(m, m', code, VaSize(elf))
    ensures n == |elf.relocs| ==> Loaded(elf, loadAddr, Window(m, code, VaSize(elf)), Window(m', code, VaSize(elf)))
  {
    hide VaSize, BaseVa, HasLoad, WellFormed, SlotsApart, Loaded, SegmentsLoaded, Relocations, SameOutside;
    HasLoadOf(elf);
    var was, t, size := Window(m, code, |m| - code), Window(m', code, |m| - code), VaSize(elf);
    var mid :| SegmentsLoaded(elf, |elf.phdrs|, was, mid) && Relocations(elf, n, loadAddr, mid, t);
    NothingBehind(elf, n, loadAddr, was, mid, t);
    OutsideWindow(m, m', was, t, code, size);
    if n == |elf.relocs| {
      ImageIsLoaded(elf, loadAddr, was, mid, t);
      assert was[..size] == Window(m, code, size) && t[..size] == Window(m', code, size);
    }
  }

  lemma OutsideWindow(m: seq<byte>, m': seq<byte>, was: seq<byte>, t: seq<byte>, code: nat, size: nat)
    requires code + size <= |m| == |m'| && SameOutside(m, m', code, |m| - code)
    requires was == Window(m, code, |m| - code) && t == Window(m', code, |m| - code)
    requires forall k | size <= k < |t| :: t[k] == was[k]
    ensures SameOutside(m, m', code, size)
  {
    forall k | 0 <= k < |m| && !(code <= k < code + size) ensures m[k] == m'[k] {
      if code + size <= k {
        assert t[k - code] == was[k - code];
      }
    }
  }

  lemma NothingBehind(elf: ElfInfo, n: nat, loadAddr: nat, was: seq<byte>, mid: seq<byte>, t: seq<byte>)
    requires WellFormed(elf) && SlotsApart(elf) && n <= |elf.relocs|
    requires SegmentsLoaded(elf, |elf.phdrs|, was, mid) && Relocations(elf, n, loadAddr, mid, t)
    ensures |t| == |was| && forall k | VaSize(elf) <= k < |t| && 0 <= k :: t[k] == was[k]
  {
    hide VaSize, BaseVa;
    forall k | VaSize(elf) <= k < |t| && 0 <= k ensures t[k] == was[k] {
      match SegmentAt(elf, |elf.phdrs|, k)
      case Some(j) => SegmentRange(elf, j);
      case None =>
      match SlotAt(elf, n, k)
      case Some(i) => SlotRange(elf, i);
      case None =>
    }
  }

  lemma ImageIsLoaded(elf: ElfInfo, loadAddr: nat, was: seq<byte>, mid: seq<byte>, t: seq<byte>)
    requires WellFormed(elf) && SlotsApart(elf) && 0 <= VaSize(elf) <= |was|
    requires SegmentsLoaded(elf, |elf.phdrs|, was, mid) && Relocations(elf, |elf.relocs|, loadAddr, mid, t)
    ensures |t| == |was| && Loaded(elf, loadAddr, was[..VaSize(elf)], t[..VaSize(elf)])
  {
    hide VaSize, BaseVa, U64, Relocated, Overflows;
    var w, u := was[..VaSize(elf)], t[..VaSize(elf)];
    forall i | 0 <= i < |elf.relocs| && elf.relocs[i].kind == Relative
      ensures elf.relocs[i].addend.Some? && elf.relocs[i].offset + 8 <= |u|
      ensures Window(u, elf.relocs[i].offset, 8) == U64(Relocated(elf.relocs[i], loadAddr))
    {
      SlotRange(elf, i);
      OneSlotIntact(elf, loadAddr, mid, t, i);
      assert u[elf.relocs[i].offset..elf.relocs[i].offset + 8] == t[elf.relocs[i].offset..elf.relocs[i].offset + 8];
    }
    forall j, k | 0 <= j < |elf.phdrs| && 0 <= k < |u| && InSegment(elf.phdrs[j], BaseVa(elf), k) && !InAnySlot(elf, k)
      ensures u[k] == SegmentByte(elf, elf.phdrs[j], BaseVa(elf), k)
    {
      OnlySegment(elf, j, k);
    }
  }

  /** Where segments do not overlap there is only one to choose from. */
  lemma OnlySegment(elf: ElfInfo, j: nat, k: nat)
    requires WellFormed(elf) && j < |elf.phdrs| && InSegment(elf.phdrs[j], BaseVa(elf), k)
    ensures SegmentAt(elf, |elf.phdrs|, k) == Some(j)
  {
    hide BaseVa;
    if SegmentAt(elf, |elf.phdrs|, k).value > j {
      assert false;
    }
  }

  /** Where slots do not overlap each keeps its word. */
  lemma OneSlotIntact(elf: ElfInfo, loadAddr: nat, mid: seq<byte>, t: seq<byte>, i: nat)
    requires HasLoad(elf) && SlotsApart(elf) && Relocations(elf, |elf.relocs|, loadAddr, mid, t)
    requires i < |elf.relocs| && elf.relocs[i].kind == Relative
    ensures elf.relocs[i].addend.Some? && elf.relocs[i].offset + 8 <= |t|
    ensures Window(t, elf.relocs[i].offset, 8) == U64(Relocated(elf.relocs[i], loadAddr))
  {
    hide VaSize, HasLoad, U64, Relocated, Overflows;
    assert Applicable(elf.relocs[i], loadAddr, |mid|);
    var o := elf.relocs[i].offset;
    forall p | 0 <= p < 8 ensures t[o + p] == U64(Relocated(elf.relocs[i], loadAddr))[p] {
      assert InSlot(elf.relocs[i], o + p);
      if SlotAt(elf, |elf.relocs|, o + p).value > i {
        assert false;
      }
    }
  }

  lemma SlotRange(elf: ElfInfo, i: nat)
    requires HasLoad(elf) && SlotsApart(elf) && i < |elf.relocs| && elf.relocs[i].kind == Relative
    ensures elf.relocs[i].offset + 8 <= VaSize(elf)
  {
  }

  // --------------------------------------------------------------- what the image means

  /** With the layout made for it, the image ends before the PEB: `LoadAt` stays in the code region. */
  lemma ImageInCodeRegion(elf: ElfInfo, l: Layout.SandboxMemoryLayout, stackSize: nat)
    requires HasLoad(elf) && Layout.Built(l, stackSize) && l.codeSize == VaSize(elf)
    ensures l.guestCodeOffset + VaSize(elf) <= l.pebOffset
    ensures Layout.LayoutRegions(l, 0, false)[1].kind == Regions.Code
    ensures Layout.LayoutRegions(l, 0, false)[1].guest ==
            Regions.Range(Layout.BASE_ADDRESS + l.guestCodeOffset, Layout.BASE_ADDRESS + l.pebOffset)
  {
    hide Layout.New, Bits.PageUp, VaSize;
    Layout.BuiltIsChained(l, stackSize);
    Bits.PageUpRounds(l.codeSize);
  }

  /** Byte `p` of a segment, unless a slot covers it, comes from the file, and is zero behind that. */
  lemma SegmentContents(elf: ElfInfo, loadAddr: nat, was: seq<byte>, t: seq<byte>, j: nat, p: nat)
    requires WellFormed(elf) && Loaded(elf, loadAddr, was, t) && VaSize(elf) == |t|
    requires j < |elf.phdrs| && elf.phdrs[j].load && p < elf.phdrs[j].memsz
    ensures elf.phdrs[j].filesz <= elf.phdrs[j].memsz && elf.phdrs[j].offset + elf.phdrs[j].filesz <= |elf.payload|
    ensures var at := elf.phdrs[j].vaddr - BaseVa(elf) + p;
            0 <= at < |t| && (!InAnySlot(elf, at) ==>
              t[at] == if p < elf.phdrs[j].filesz then elf.payload[elf.phdrs[j].offset + p] else 0)
  {
    SegmentRange(elf, j);
    hide BaseVa, VaSize;
    assert InSegment(elf.phdrs[j], BaseVa(elf), elf.phdrs[j].vaddr - BaseVa(elf) + p);
  }

  /**
   Loading one binary at two addresses over the same bytes gives images that differ only
   in relocation slots, and there by exactly the difference of the addresses.
   */
  lemma PositionIndependent(elf: ElfInfo, a: nat, b: nat, was: seq<byte>, s: seq<byte>, t: seq<byte>)
    requires WellFormed(elf) && Loaded(elf, a, was, s) && Loaded(elf, b, was, t)
    ensures forall k | 0 <= k < |was| && !InAnySlot(elf, k) :: s[k] == t[k]
    ensures forall i | 0 <= i < |elf.relocs| && elf.relocs[i].kind == Relative ::
              elf.relocs[i].offset + 8 <= |was| &&
              (ReadU64(t, elf.relocs[i].offset) - ReadU64(s, elf.relocs[i].offset) - (b - a)) % TWO64 == 0
  {
    hide BaseVa, U64, Relocated;
    forall k | 0 <= k < |was| && !InAnySlot(elf, k) ensures s[k] == t[k] {
      if InAnySegment(elf, k) {
        var j :| 0 <= j < |elf.phdrs| && InSegment(elf.phdrs[j], BaseVa(elf), k);
        assert s[k] == SegmentByte(elf, elf.phdrs[j], BaseVa(elf), k) == t[k];
      }
    }
    forall i | 0 <= i < |elf.relocs| && elf.relocs[i].kind == Relative
      ensures elf.relocs[i].offset + 8 <= |was|
      ensures (ReadU64(t, elf.relocs[i].offset) - ReadU64(s, elf.relocs[i].offset) - (b - a)) % TWO64 == 0
    {
      SlotWord(elf, a, was, s, i);
      SlotWord(elf, b, was, t, i);
      ModDifference(a + elf.relocs[i].addend.value, b + elf.relocs[i].addend.value);
    }
  }

  /** A relative slot holds the load address plus the addend, as a 64-bit word. */
  lemma SlotWord(elf: ElfInfo, loadAddr: nat, was: seq<byte>, t: seq<byte>, i: nat)
    requires WellFormed(elf) && Loaded(elf, loadAddr, was, t)
    requires i < |elf.relocs| && elf.relocs[i].kind == Relative
    ensures elf.relocs[i].addend.Some? && elf.relocs[i].offset + 8 <= |t|
    ensures ReadU64(t, elf.relocs[i].offset) == (loadAddr + elf.relocs[i].addend.value) % TWO64
  {
    hide U64, BaseVa;
    assert Window(t, elf.relocs[i].offset, 8) == U64(Relocated(elf.relocs[i], loadAddr));
    U64RoundTrip(Relocated(elf.relocs[i], loadAddr));
  }

  lemma ModDifference(x: int, y: int)
    ensures (y % TWO64 - x % TWO64 - (y - x)) % TWO64 == 0
  {
  }

  /** Where a relative relocation belongs in the image and what it stores, by the AMD64 psABI. */
  function AbiIndex(elf: ElfInfo, r: Reloc): int
    requires HasLoad(elf)
  {
    r.offset - BaseVa(elf)
  }

  function AbiValue(elf: ElfInfo, r: Reloc, loadAddr: nat): (v: nat)
    requires HasLoad(elf) && r.addend.Some?
    ensures v < TWO64
  {
    (loadAddr - BaseVa(elf) + r.addend.value) % TWO64
  }

  /** Every relative relocation has been applied where the psABI wants it and as it wants it. */
  ghost predicate AbiRelocated(elf: ElfInfo, loadAddr: nat, t: seq<byte>)
    requires HasLoad(elf)
  {
    forall i | 0 <= i < |elf.relocs| && elf.relocs[i].kind == Relative ::
      elf.relocs[i].addend.Some? && 0 <= AbiIndex(elf, elf.relocs[i]) <= |t| - 8 &&
      ReadU64(t, AbiIndex(elf, elf.relocs[i])) == AbiValue(elf, elf.relocs[i], loadAddr)
  }

  ghost predicate IsRelative(elf: ElfInfo, i: nat) {
    i < |elf.relocs| && elf.relocs[i].kind == Relative
  }

  /** Relocation `i` is relative, and no relative one has a lower offset. */
  ghost predicate IsLowest(elf: ElfInfo, i: nat) {
    IsRelative(elf, i) && forall j: nat | IsRelative(elf, j) :: elf.relocs[i].offset <= elf.relocs[j].offset
  }

  lemma {:induction false} LowestExists(elf: ElfInfo, i: nat) returns (low: nat)
    requires IsRelative(elf, i)
    ensures IsRelative(elf, low) && IsLowest(elf, low)
    decreases elf.relocs[i].offset
  {
    if IsLowest(elf, i) {
      low := i;
    } else {
      var j: nat :| IsRelative(elf, j) && elf.relocs[j].offset < elf.relocs[i].offset;
      low := LowestExists(elf, j);
    }
  }

  /**
   The loader takes the virtual address of a slot for its place in the image and leaves
   the base out of the value. Its images of a binary with a relative relocation at two
   addresses are both what the psABI asks for exactly when the binary is linked at base zero.
   */
  lemma AbiExactlyAtBaseZero(elf: ElfInfo, a: nat, b: nat, was: seq<byte>, s: seq<byte>, t: seq<byte>, i: nat)
    requires WellFormed(elf) && IsRelative(elf, i) && a % TWO64 != b % TWO64
    requires Loaded(elf, a, was, s) && Loaded(elf, b, was, t)
    ensures AbiRelocated(elf, a, s) && AbiRelocated(elf, b, t) <==> BaseVa(elf) == 0
  {
    if BaseVa(elf) == 0 {
      AbiAtBaseZero(elf, a, was, s);
      AbiAtBaseZero(elf, b, was, t);
    } else if AbiRelocated(elf, a, s) && AbiRelocated(elf, b, t) {
      BothRight(elf, a, b, was, s, t, i);
    }
  }

  lemma AbiAtBaseZero(elf: ElfInfo, loadAddr: nat, was: seq<byte>, t: seq<byte>)
    requires WellFormed(elf) && Loaded(elf, loadAddr, was, t) && BaseVa(elf) == 0
    ensures AbiRelocated(elf, loadAddr, t)
  {
    hide BaseVa, ReadU64;
    forall i | 0 <= i < |elf.relocs| && elf.relocs[i].kind == Relative
      ensures elf.relocs[i].addend.Some? && 0 <= AbiIndex(elf, elf.relocs[i]) <= |t| - 8
      ensures ReadU64(t, AbiIndex(elf, elf.relocs[i])) == AbiValue(elf, elf.relocs[i], loadAddr)
    {
      SlotWord(elf, loadAddr, was, t, i);
    }
  }

  lemma SameModulo(a: nat, b: nat, c: int)
    requires (a + c) % TWO64 == (b + c) % TWO64
    ensures a % TWO64 == b % TWO64
  {
  }

  /** Two images that are both right were made for the same address, unless the base is zero. */
  lemma BothRight(elf: ElfInfo, a: nat, b: nat, was: seq<byte>, s: seq<byte>, t: seq<byte>, i: nat)
    requires WellFormed(elf) && IsRelative(elf, i) && BaseVa(elf) > 0
    requires Loaded(elf, a, was, s) && Loaded(elf, b, was, t) && AbiRelocated(elf, a, s) && AbiRelocated(elf, b, t)
    ensures a % TWO64 == b % TWO64
  {
    hide WellFormed, Loaded, AbiRelocated, BaseVa, IsLowest, ReadU64, LE, U64, AbiValue;
    HasLoadOf(elf);
    var low := LowestExists(elf, i);
    var r := elf.relocs[low];
    SlotAndWord(elf, a, was, s, low);
    SlotAndWord(elf, b, was, t, low);
    var at, x, y := AbiIndex(elf, r), AbiValue(elf, r, a), AbiValue(elf, r, b);
    BelowLowest(elf, a, b, was, s, t, low);
    SameLowBytes(s, t, at, BaseVa(elf), x, y, 8);
    EqualWords(x, y);
    SameAddress(elf, r, a, b);
  }

  lemma EqualWords(x: nat, y: nat)
    requires x < TWO64 && y < TWO64 && LE(x, 8) == LE(y, 8)
    ensures x == y
  {
    hide LE;
    U64RoundTrip(x);
    U64RoundTrip(y);
  }

  lemma SameAddress(elf: ElfInfo, r: Reloc, a: nat, b: nat)
    requires HasLoad(elf) && r.addend.Some? && AbiValue(elf, r, a) == AbiValue(elf, r, b)
    ensures a % TWO64 == b % TWO64
  {
    hide BaseVa;
    SameModulo(a, b, r.addend.value - BaseVa(elf));
  }

  lemma BelowLowest(elf: ElfInfo, a: nat, b: nat, was: seq<byte>, s: seq<byte>, t: seq<byte>, low: nat)
    requires WellFormed(elf) && IsLowest(elf, low) && Loaded(elf, a, was, s) && Loaded(elf, b, was, t)
    ensures |s| == |t| && forall k | 0 <= k < elf.relocs[low].offset && k < |s| :: s[k] == t[k]
  {
    forall k | 0 <= k < elf.relocs[low].offset && k < |s| ensures !InAnySlot(elf, k) {
      forall i | 0 <= i < |elf.relocs| ensures !InSlot(elf.relocs[i], k) {
        if elf.relocs[i].kind == Relative {
          assert IsRelative(elf, i);
        }
      }
    }
    PositionIndependent(elf, a, b, was, s, t);
  }

  /** In a right image a slot holds the word the psABI wants, plus the base, and the word stands `BaseVa` earlier. */
  lemma SlotAndWord(elf: ElfInfo, loadAddr: nat, was: seq<byte>, t: seq<byte>, i: nat)
    requires WellFormed(elf) && Loaded(elf, loadAddr, was, t) && IsRelative(elf, i) && AbiRelocated(elf, loadAddr, t)
    ensures elf.relocs[i].addend.Some? && 0 <= AbiIndex(elf, elf.relocs[i]) && elf.relocs[i].offset + 8 <= |t|
    ensures ReadU64(t, AbiIndex(elf, elf.relocs[i])) == AbiValue(elf, elf.relocs[i], loadAddr)
    ensures Window(t, elf.relocs[i].offset, 8) == LE(AbiValue(elf, elf.relocs[i], loadAddr) + BaseVa(elf), 8)
  {
    hide BaseVa, ReadU64, LE;
    var r := elf.relocs[i];
    assert Window(t, r.offset, 8) == U64(Relocated(r, loadAddr));
    ModuloSum(loadAddr - BaseVa(elf) + r.addend.value, BaseVa(elf));
  }

  lemma ModuloSum(v: int, d: nat)
    ensures LE(v % TWO64 + d, 8) == LE((v + d) % TWO64, 8)
  {
    hide LE;
    var sum := v % TWO64 + d;
    assert sum % TWO64 == (v + d) % TWO64;
    Pow256Values();
    LEHigh(sum % TWO64, sum / TWO64, 8);
  }

  /**
   Words `x` in `s` and `y` in `t` that stand `d` bytes before slots holding `x + d` and
   `y + d`: if nothing before the slots differs, `x` and `y` agree in ever more bytes,
   because each byte of the word inside the slot repeats an earlier one of the sum.
   */
  lemma {:induction false} SameLowBytes(s: seq<byte>, t: seq<byte>, at: nat, d: nat, x: nat, y: nat, j: nat)
    requires at + d + 8 <= |s| == |t| && d > 0 && j <= 8
    requires ReadU64(s, at) == x && ReadU64(t, at) == y
    requires Window(s, at + d, 8) == LE(x + d, 8) && Window(t, at + d, 8) == LE(y + d, 8)
    requires forall k | 0 <= k < at + d :: s[k] == t[k]
    ensures LE(x, j) == LE(y, j)
    decreases j
  {
    hide ReadU64, LE;
    if j == 0 {
      assert LE(x, 0) == LE(y, 0);
    } else {
      SameLowBytes(s, t, at, d, x, y, j - 1);
      if j - 1 >= d {
        var p := j - 1 - d;
        LowBytesOfSum(x, y, d, j - 1, p + 1);
        assert s[at + j - 1] == Window(s, at + d, 8)[p] == LE(x + d, 8)[..p + 1][p];
        assert t[at + j - 1] == Window(t, at + d, 8)[p] == LE(y + d, 8)[..p + 1][p];
      }
      WordByte(s, at, x, j);
      WordByte(t, at, y, j);
    }
  }

  lemma LowBytesOfSum(x: nat, y: nat, d: nat, n: nat, m: nat)
    requires LE(x, n) == LE(y, n) && m <= n <= 8
    ensures LE(x + d, 8)[..m] == LE(y + d, 8)[..m]
  {
    hide LE;
    LEPrefix(x, n, m);
    LEPrefix(y, n, m);
    LEAdd(x, y, d, m);
    LEPrefix(x + d, 8, m);
    LEPrefix(y + d, 8, m);
  }

  /** The low `j` bytes of a word read at `at` are the low `j - 1` and the byte found there. */
  lemma WordByte(t: seq<byte>, at: nat, v: nat, j: nat)
    requires at + 8 <= |t| && 0 < j <= 8 && ReadU64(t, at) == v
    ensures LE(v, j) == LE(v, j - 1) + [t[at + j - 1]]
  {
    hide LE;
    RoundTripBack(t[at..at + 8]);
    LEPrefix(v, 8, j);
    LEPrefix(v, 8, j - 1);
  }

  /** A binary linked at 0x1000 with one relocation at 0x1100. */
  const LINKED_HIGH := ElfInfo([], [ProgramHeader(true, 0x1000, 0, 0, 0x2000)], [Reloc(Relative, 0x1100, Some(5))])

  lemma LinkedHighIsWellFormed()
    ensures WellFormed(LINKED_HIGH) && SlotsApart(LINKED_HIGH) && VaSize(LINKED_HIGH) == 0x2000
  {
  }

  /** Loading it leaves zero where the psABI wants the relocated word. */
  lemma LinkedHighIsMisplaced(loadAddr: nat, was: seq<byte>, t: seq<byte>)
    requires |was| == 0x2000 && (LinkedHighIsWellFormed(); Loaded(LINKED_HIGH, loadAddr, was, t))
    requires 0x1000 <= loadAddr < 0x1_0000_0000
    ensures HasLoad(LINKED_HIGH) && AbiIndex(LINKED_HIGH, LINKED_HIGH.relocs[0]) == 0x100
    ensures ReadU64(t, 0x100) == 0 != AbiValue(LINKED_HIGH, LINKED_HIGH.relocs[0], loadAddr)
  {
    LinkedHighIsWellFormed();
    assert BaseVa(LINKED_HIGH) == 0x1000;
    forall k | 0x100 <= k < 0x108 ensures t[k] == 0 {
      assert InSegment(LINKED_HIGH.phdrs[0], 0x1000, k);
      assert !InAnySlot(LINKED_HIGH, k);
    }
    assert t[0x100..0x108] == Zeros(8) == U64(0) by {
      LEZero(8);
    }
    U64RoundTrip(0);
  }

  lemma {:induction false} LEZero(n: nat)
    ensures LE(0, n) == Zeros(n)
  {
    if n == 0 {
    } else {
      LEZero(n - 1);
      assert Zeros(n) == [0] + Zeros(n - 1);
    }
  }
}
