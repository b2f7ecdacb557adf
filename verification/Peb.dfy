/**
`SandboxMemoryLayout::write`: the process environment block the guest reads its buffers
and stacks from, and the initial stack pointers of the two buffers. A PEB field is named
by its index in 8-byte words, as `repr(C)` lays out `HyperlightPEB`.
*/
module PebWriter {
  import opened Bytes
  import opened Bits
  import opened IoStack
  import opened SharedMem
  import opened Regions
  import opened Layout
  import CallProtocol

  type Fields = map<nat, nat>

  /** The words of the PEB at `peb` that `fields` names hold its values. */
  ghost predicate Slots(m: seq<byte>, peb: nat, fields: Fields) {
    peb + PEB_SIZE <= |m| && forall j | j in fields :: 8 * j + 8 <= PEB_SIZE && ReadU64(m, peb + 8 * j) == fields[j]
  }

  /**
   The fields in the order they are written, in three groups. The dispatch pointer
   (word 1) and the code and outb pointers (words 7 to 9) are not written here.
   */
  function HostFields(fields: Fields, l: SandboxMemoryLayout, guestOffset: nat, seed: nat, runMode: nat): Fields {
    fields[0 := seed]
    [2 := l.cfg.hostFunctionDefinitionSize][3 := guestOffset + l.hostFunctionDefinitionsBufferOffset]
    [4 := l.cfg.hostExceptionSize]
    [6 := guestOffset + l.guestErrorBufferOffset][5 := l.cfg.guestErrorBufferSize]
    [10 := runMode]
  }

  function BufferFields(fields: Fields, l: SandboxMemoryLayout, guestOffset: nat): Fields {
    fields[11 := l.cfg.inputDataSize][12 := guestOffset + l.inputDataBufferOffset]
    [13 := l.cfg.outputDataSize][14 := guestOffset + l.outputDataBufferOffset]
    [15 := l.cfg.guestPanicContextBufferSize][16 := guestOffset + l.guestPanicContextBufferOffset]
    [17 := l.heapSize][18 := guestOffset + l.guestHeapBufferOffset]
  }

  /** The stack addresses, counted back from the end of guest memory. */
  function StackFields(fields: Fields, l: SandboxMemoryLayout, bottom: nat): Fields
    requires l.stackSize + l.kernelStackSizeRounded + 3 * PAGE_SIZE <= bottom
  {
    var minUserStack := bottom - l.stackSize - l.kernelStackSizeRounded - 3 * PAGE_SIZE;
    var userStack := minUserStack + l.stackSize;
    var kernelStack := userStack + PAGE_SIZE + l.kernelStackSizeRounded;
    fields[19 := minUserStack][20 := userStack][21 := kernelStack][22 := kernelStack + PAGE_SIZE * 2]
  }

  /** All offsets lie in guest memory and all sections fit between them. */
  ghost predicate Inside(l: SandboxMemoryLayout, size: nat) {
    size <= MAX_MEMORY_SIZE &&
    l.pebOffset + PEB_SIZE <= l.hostFunctionDefinitionsBufferOffset &&
    l.hostFunctionDefinitionsBufferOffset + l.cfg.hostFunctionDefinitionSize <= l.hostExceptionBufferOffset &&
    l.hostExceptionBufferOffset + l.cfg.hostExceptionSize <= l.guestErrorBufferOffset &&
    l.guestErrorBufferOffset + l.cfg.guestErrorBufferSize <= l.inputDataBufferOffset &&
    l.inputDataBufferOffset + l.cfg.inputDataSize <= l.outputDataBufferOffset &&
    l.outputDataBufferOffset + l.cfg.outputDataSize <= l.guestPanicContextBufferOffset &&
    l.guestPanicContextBufferOffset + l.cfg.guestPanicContextBufferSize <= l.guestHeapBufferOffset &&
    l.guestHeapBufferOffset + l.heapSize <= l.guardPageOffset &&
    l.guardPageOffset + l.stackSize + l.kernelStackSizeRounded + 4 * PAGE_SIZE <= size
  }

  lemma LayoutInside(l: SandboxMemoryLayout, stackSize: nat)
    requires Built(l, stackSize) && GetMemorySize(l).Ok?
    ensures Inside(l, GetMemorySize(l).value) && GetMemorySize(l).value == l.bootStackBufferOffset + PAGE_SIZE
  {
    hide PageUp, New, PageAligned, GetMemorySize, CountedSize, TotalPageTableSize;
    BuiltIsChained(l, stackSize);
    MemorySize(l, stackSize);
    assert PageAligned(0) by { ZeroAligned(); }
    Section(0, PEB_SIZE);
    Section(0, l.cfg.hostFunctionDefinitionSize);
    Section(0, l.cfg.hostExceptionSize);
    Section(0, l.cfg.guestErrorBufferSize);
    Section(0, l.cfg.inputDataSize);
    Section(0, l.cfg.outputDataSize);
    Section(0, l.cfg.guestPanicContextBufferSize);
    Section(0, l.heapSize);
  }

  lemma ZeroAligned()
    ensures PageAligned(0)
  {
  }

  lemma WriteSlotStep(m: seq<byte>, peb: nat, fields: Fields, j: nat, v: nat)
    requires Slots(m, peb, fields) && 8 * j + 8 <= PEB_SIZE && v < TWO64
    ensures Slots(Splice(m, peb + 8 * j, U64(v)), peb, fields[j := v])
  {
    hide Splice, U64, ReadU64;
    ReadWritten(m, peb + 8 * j, v);
    forall k | k in fields && k != j ensures ReadU64(Splice(m, peb + 8 * j, U64(v)), peb + 8 * k) == fields[k] {
      ReadElsewhere(m, peb + 8 * j, U64(v), peb + 8 * k);
    }
  }

  /** Writes one word of the PEB. */
  method WriteSlot(shm: SharedMemory, peb: nat, j: nat, v: nat, ghost m0: seq<byte>, ghost fields: Fields)
    returns (ghost now: Fields)
    requires Slots(shm.mem[..], peb, fields) && SameOutside(m0, shm.mem[..], peb, PEB_SIZE)
    requires 8 * j + 8 <= PEB_SIZE && v < TWO64
    modifies shm.mem
    ensures now == fields[j := v]
    ensures Slots(shm.mem[..], peb, now) && SameOutside(m0, shm.mem[..], peb, PEB_SIZE)
  {
    hide Slots, SameOutside, Splice, U64;
    ghost var m := shm.mem[..];
    SlotsFit(m, peb, fields);
    WriteSlotStep(m, peb, fields, j, v);
    SpliceWindow(m, peb, PEB_SIZE, 8 * j, U64(v));
    var _ := shm.WriteU64At(peb + 8 * j, v);
    SameOutsideTrans(m0, m, shm.mem[..], peb, PEB_SIZE);
    now := fields[j := v];
  }

  lemma SlotsFit(m: seq<byte>, peb: nat, fields: Fields)
    requires Slots(m, peb, fields)
    ensures peb + PEB_SIZE <= |m|
  {
  }

  method WriteHostFields(l: SandboxMemoryLayout, shm: SharedMemory, guestOffset: nat, seed: nat, runMode: nat,
                         ghost m0: seq<byte>, ghost fields: Fields)
    requires Slots(shm.mem[..], l.pebOffset, fields) && SameOutside(m0, shm.mem[..], l.pebOffset, PEB_SIZE)
    requires Inside(l, shm.mem.Length) && guestOffset < 0x1000_0000_0000_0000 && seed < TWO64 && runMode < 5
    modifies shm.mem
    ensures Slots(shm.mem[..], l.pebOffset, HostFields(fields, l, guestOffset, seed, runMode))
    ensures SameOutside(m0, shm.mem[..], l.pebOffset, PEB_SIZE)
  {
    hide SameOutside, Slots;
    ghost var f := WriteSlot(shm, l.pebOffset, 0, seed, m0, fields);
    f := WriteSlot(shm, l.pebOffset, 2, l.cfg.hostFunctionDefinitionSize, m0, f);
    f := WriteSlot(shm, l.pebOffset, 3, guestOffset + l.hostFunctionDefinitionsBufferOffset, m0, f);
    f := WriteSlot(shm, l.pebOffset, 4, l.cfg.hostExceptionSize, m0, f);
    f := WriteSlot(shm, l.pebOffset, 6, guestOffset + l.guestErrorBufferOffset, m0, f);
    f := WriteSlot(shm, l.pebOffset, 5, l.cfg.guestErrorBufferSize, m0, f);
    f := WriteSlot(shm, l.pebOffset, 10, runMode, m0, f);
  }

  method WriteBufferFields(l: SandboxMemoryLayout, shm: SharedMemory, guestOffset: nat, ghost m0: seq<byte>, ghost fields: Fields)
    requires Slots(shm.mem[..], l.pebOffset, fields) && SameOutside(m0, shm.mem[..], l.pebOffset, PEB_SIZE)
    requires Inside(l, shm.mem.Length) && guestOffset < 0x1000_0000_0000_0000
    modifies shm.mem
    ensures Slots(shm.mem[..], l.pebOffset, BufferFields(fields, l, guestOffset))
    ensures SameOutside(m0, shm.mem[..], l.pebOffset, PEB_SIZE)
  {
    hide SameOutside, Slots;
    ghost var f := WriteSlot(shm, l.pebOffset, 11, l.cfg.inputDataSize, m0, fields);
    f := WriteSlot(shm, l.pebOffset, 12, guestOffset + l.inputDataBufferOffset, m0, f);
    f := WriteSlot(shm, l.pebOffset, 13, l.cfg.outputDataSize, m0, f);
    f := WriteSlot(shm, l.pebOffset, 14, guestOffset + l.outputDataBufferOffset, m0, f);
    f := WriteSlot(shm, l.pebOffset, 15, l.cfg.guestPanicContextBufferSize, m0, f);
    f := WriteSlot(shm, l.pebOffset, 16, guestOffset + l.guestPanicContextBufferOffset, m0, f);
    f := WriteSlot(shm, l.pebOffset, 17, l.heapSize, m0, f);
    f := WriteSlot(shm, l.pebOffset, 18, guestOffset + l.guestHeapBufferOffset, m0, f);
  }

  method WriteStackFields(l: SandboxMemoryLayout, shm: SharedMemory, bottom: nat, ghost m0: seq<byte>, ghost fields: Fields)
    requires Slots(shm.mem[..], l.pebOffset, fields) && SameOutside(m0, shm.mem[..], l.pebOffset, PEB_SIZE)
    requires l.stackSize + l.kernelStackSizeRounded + 3 * PAGE_SIZE <= bottom < 0x2000_0000_0000_0000
    modifies shm.mem
    ensures Slots(shm.mem[..], l.pebOffset, StackFields(fields, l, bottom))
    ensures SameOutside(m0, shm.mem[..], l.pebOffset, PEB_SIZE)
  {
    hide SameOutside, Slots;
    var minUserStack := bottom - l.stackSize - l.kernelStackSizeRounded - PAGE_SIZE - PAGE_SIZE - PAGE_SIZE;
    ghost var f := WriteSlot(shm, l.pebOffset, 19, minUserStack, m0, fields);
    var userStack := minUserStack + l.stackSize;
    f := WriteSlot(shm, l.pebOffset, 20, userStack, m0, f);
    var kernelStack := userStack + (PAGE_SIZE + l.kernelStackSizeRounded);
    f := WriteSlot(shm, l.pebOffset, 21, kernelStack, m0, f);
    f := WriteSlot(shm, l.pebOffset, 22, kernelStack + PAGE_SIZE * 2, m0, f);
  }

  /** All fields of the PEB of a sandbox with `size` bytes of memory at `guestOffset`, over what was there. */
  function PebFields(kept: Fields, l: SandboxMemoryLayout, guestOffset: nat, size: nat, seed: nat, runMode: nat): Fields
    requires l.stackSize + l.kernelStackSizeRounded + 3 * PAGE_SIZE <= guestOffset + size
  {
    StackFields(BufferFields(HostFields(kept, l, guestOffset, seed, runMode), l, guestOffset), l, guestOffset + size)
  }

  // ------------------------------------------------------------- what the guest reads

  /** The seed, the run mode and the sections the host fills. */
  ghost predicate ReadsHostFields(m: seq<byte>, l: SandboxMemoryLayout, guestOffset: nat, seed: nat, runMode: nat)
    requires l.pebOffset + 0xB8 <= |m|
  {
    ReadU64(m, l.pebOffset) == seed && ReadU64(m, l.pebOffset + 80) == runMode &&
    ReadU64(m, l.pebOffset + 16) == l.cfg.hostFunctionDefinitionSize &&
    ReadU64(m, l.pebOffset + 24) == guestOffset + l.hostFunctionDefinitionsBufferOffset &&
    ReadU64(m, l.pebOffset + 32) == l.cfg.hostExceptionSize &&
    ReadU64(m, l.pebOffset + 40) == l.cfg.guestErrorBufferSize &&
    ReadU64(m, l.pebOffset + 48) == guestOffset + l.guestErrorBufferOffset
  }

  /** The buffers and the heap. */
  ghost predicate ReadsBufferFields(m: seq<byte>, l: SandboxMemoryLayout, guestOffset: nat)
    requires l.pebOffset + 0xB8 <= |m|
  {
    ReadU64(m, l.pebOffset + 88) == l.cfg.inputDataSize &&
    ReadU64(m, l.pebOffset + 96) == guestOffset + l.inputDataBufferOffset &&
    ReadU64(m, l.pebOffset + 104) == l.cfg.outputDataSize &&
    ReadU64(m, l.pebOffset + 112) == guestOffset + l.outputDataBufferOffset &&
    ReadU64(m, l.pebOffset + 120) == l.cfg.guestPanicContextBufferSize &&
    ReadU64(m, l.pebOffset + 128) == guestOffset + l.guestPanicContextBufferOffset &&
    ReadU64(m, l.pebOffset + 136) == l.heapSize &&
    ReadU64(m, l.pebOffset + 144) == guestOffset + l.guestHeapBufferOffset
  }

  /** The stacks, where the layout placed them: both ends of the user stack, the ends of the others. */
  ghost predicate ReadsStackFields(m: seq<byte>, l: SandboxMemoryLayout, guestOffset: nat)
    requires l.pebOffset + 0xB8 <= |m|
  {
    ReadU64(m, l.pebOffset + 152) == guestOffset + l.guestUserStackBufferOffset &&
    ReadU64(m, l.pebOffset + 160) == guestOffset + l.userStackGuardPageOffset &&
    ReadU64(m, l.pebOffset + 168) == guestOffset + l.kernelStackGuardPageOffset &&
    ReadU64(m, l.pebOffset + 176) == guestOffset + |m|
  }

  ghost predicate ReadsBack(m: seq<byte>, l: SandboxMemoryLayout, guestOffset: nat, seed: nat, runMode: nat) {
    l.pebOffset + 0xB8 <= |m| && ReadsHostFields(m, l, guestOffset, seed, runMode) &&
    ReadsBufferFields(m, l, guestOffset) && ReadsStackFields(m, l, guestOffset)
  }

  lemma FieldsReadBack(m: seq<byte>, l: SandboxMemoryLayout, stackSize: nat, guestOffset: nat, seed: nat, runMode: nat,
                       kept: Fields)
    requires Built(l, stackSize) && GetMemorySize(l) == Ok(|m|)
    requires l.stackSize + l.kernelStackSizeRounded + 3 * PAGE_SIZE <= guestOffset + |m|
    requires Slots(m, l.pebOffset, PebFields(kept, l, guestOffset, |m|, seed, runMode))
    ensures ReadsBack(m, l, guestOffset, seed, runMode)
    ensures forall j | j in kept && j in {1, 7, 8, 9} :: 8 * j + 8 <= 0xB8 && ReadU64(m, l.pebOffset + 8 * j) == kept[j]
  {
    hide New, PageUp, ReadU64, GetMemorySize, Slots, PebFields, Built, ReadsHostFields, ReadsBufferFields, ReadsStackFields;
    LayoutInside(l, stackSize);
    var fields := PebFields(kept, l, guestOffset, |m|, seed, runMode);
    SlotsFit(m, l.pebOffset, fields);
    HostWords(fields, kept, l, guestOffset, seed, runMode, |m|);
    ReadHost(m, fields, l, guestOffset, seed, runMode);
    BufferWords(fields, kept, l, guestOffset, seed, runMode, |m|);
    ReadBuffers(m, fields, l, guestOffset);
    StackWords(fields, kept, l, guestOffset, seed, runMode, |m|, stackSize);
    ReadStacks(m, fields, l, guestOffset);
    KeptWords(fields, kept, l, guestOffset, seed, runMode, |m|);
    forall j | j in kept && j in {1, 7, 8, 9}
      ensures 8 * j + 8 <= 0xB8 && ReadU64(m, l.pebOffset + 8 * j) == kept[j]
    {
      Word(m, l.pebOffset, fields, j);
    }
  }

  lemma Word(m: seq<byte>, peb: nat, fields: Fields, j: nat)
    requires Slots(m, peb, fields) && j in fields
    ensures 8 * j + 8 <= PEB_SIZE && peb + PEB_SIZE <= |m| && ReadU64(m, peb + 8 * j) == fields[j]
  {
  }

  lemma ReadHost(m: seq<byte>, fields: Fields, l: SandboxMemoryLayout, guestOffset: nat, seed: nat, runMode: nat)
    requires Slots(m, l.pebOffset, fields) && l.pebOffset + 0xB8 <= |m|
    requires {0, 2, 3, 4, 5, 6, 10} <= fields.Keys && fields[0] == seed && fields[10] == runMode
    requires fields[2] == l.cfg.hostFunctionDefinitionSize && fields[3] == guestOffset + l.hostFunctionDefinitionsBufferOffset
    requires fields[4] == l.cfg.hostExceptionSize && fields[5] == l.cfg.guestErrorBufferSize
    requires fields[6] == guestOffset + l.guestErrorBufferOffset
    ensures ReadsHostFields(m, l, guestOffset, seed, runMode)
  {
    hide ReadU64, Slots;
    Word(m, l.pebOffset, fields, 0);
    Word(m, l.pebOffset, fields, 2);
    Word(m, l.pebOffset, fields, 3);
    Word(m, l.pebOffset, fields, 4);
    Word(m, l.pebOffset, fields, 5);
    Word(m, l.pebOffset, fields, 6);
    Word(m, l.pebOffset, fields, 10);
  }

  lemma ReadBuffers(m: seq<byte>, fields: Fields, l: SandboxMemoryLayout, guestOffset: nat)
    requires Slots(m, l.pebOffset, fields) && l.pebOffset + 0xB8 <= |m|
    requires {11, 12, 13, 14, 15, 16, 17, 18} <= fields.Keys && fields[11] == l.cfg.inputDataSize
    requires fields[13] == l.cfg.outputDataSize && fields[15] == l.cfg.guestPanicContextBufferSize && fields[17] == l.heapSize
    requires fields[12] == guestOffset + l.inputDataBufferOffset && fields[14] == guestOffset + l.outputDataBufferOffset
    requires fields[16] == guestOffset + l.guestPanicContextBufferOffset && fields[18] == guestOffset + l.guestHeapBufferOffset
    ensures ReadsBufferFields(m, l, guestOffset)
  {
    hide ReadU64, Slots;
    Word(m, l.pebOffset, fields, 11);
    Word(m, l.pebOffset, fields, 12);
    Word(m, l.pebOffset, fields, 13);
    Word(m, l.pebOffset, fields, 14);
    Word(m, l.pebOffset, fields, 15);
    Word(m, l.pebOffset, fields, 16);
    Word(m, l.pebOffset, fields, 17);
    Word(m, l.pebOffset, fields, 18);
  }

  lemma ReadStacks(m: seq<byte>, fields: Fields, l: SandboxMemoryLayout, guestOffset: nat)
    requires Slots(m, l.pebOffset, fields) && l.pebOffset + 0xB8 <= |m| && {19, 20, 21, 22} <= fields.Keys
    requires fields[19] == guestOffset + l.guestUserStackBufferOffset && fields[20] == guestOffset + l.userStackGuardPageOffset
    requires fields[21] == guestOffset + l.kernelStackGuardPageOffset && fields[22] == guestOffset + |m|
    ensures ReadsStackFields(m, l, guestOffset)
  {
    hide ReadU64, Slots;
    Word(m, l.pebOffset, fields, 19);
    Word(m, l.pebOffset, fields, 20);
    Word(m, l.pebOffset, fields, 21);
    Word(m, l.pebOffset, fields, 22);
  }

  lemma StackWords(fields: Fields, kept: Fields, l: SandboxMemoryLayout, guestOffset: nat, seed: nat, runMode: nat, size: nat,
                   stackSize: nat)
    requires Built(l, stackSize) && GetMemorySize(l) == Ok(size)
    requires l.stackSize + l.kernelStackSizeRounded + 3 * PAGE_SIZE <= guestOffset + size
    requires fields == PebFields(kept, l, guestOffset, size, seed, runMode)
    ensures 19 in fields && fields[19] == guestOffset + l.guestUserStackBufferOffset
    ensures 20 in fields && fields[20] == guestOffset + l.userStackGuardPageOffset
    ensures 21 in fields && fields[21] == guestOffset + l.kernelStackGuardPageOffset
    ensures 22 in fields && fields[22] == guestOffset + size
  {
    hide New, PageUp, Built, GetMemorySize, BufferFields, HostFields;
    LayoutInside(l, stackSize);
    BuiltIsChained(l, stackSize);
  }

  lemma HostWords(fields: Fields, kept: Fields, l: SandboxMemoryLayout, guestOffset: nat, seed: nat, runMode: nat, size: nat)
    requires l.stackSize + l.kernelStackSizeRounded + 3 * PAGE_SIZE <= guestOffset + size
    requires fields == PebFields(kept, l, guestOffset, size, seed, runMode)
    ensures 0 in fields && fields[0] == seed && 10 in fields && fields[10] == runMode
    ensures 2 in fields && fields[2] == l.cfg.hostFunctionDefinitionSize
    ensures 3 in fields && fields[3] == guestOffset + l.hostFunctionDefinitionsBufferOffset
    ensures 4 in fields && fields[4] == l.cfg.hostExceptionSize && 5 in fields && fields[5] == l.cfg.guestErrorBufferSize
    ensures 6 in fields && fields[6] == guestOffset + l.guestErrorBufferOffset
  {
  }

  lemma BufferWords(fields: Fields, kept: Fields, l: SandboxMemoryLayout, guestOffset: nat, seed: nat, runMode: nat, size: nat)
    requires l.stackSize + l.kernelStackSizeRounded + 3 * PAGE_SIZE <= guestOffset + size
    requires fields == PebFields(kept, l, guestOffset, size, seed, runMode)
    ensures 11 in fields && fields[11] == l.cfg.inputDataSize && 13 in fields && fields[13] == l.cfg.outputDataSize
    ensures 15 in fields && fields[15] == l.cfg.guestPanicContextBufferSize && 17 in fields && fields[17] == l.heapSize
    ensures 12 in fields && fields[12] == guestOffset + l.inputDataBufferOffset
    ensures 14 in fields && fields[14] == guestOffset + l.outputDataBufferOffset
    ensures 16 in fields && fields[16] == guestOffset + l.guestPanicContextBufferOffset
    ensures 18 in fields && fields[18] == guestOffset + l.guestHeapBufferOffset
  {
    hide HostFields;
  }

  lemma KeptWords(fields: Fields, kept: Fields, l: SandboxMemoryLayout, guestOffset: nat, seed: nat, runMode: nat, size: nat)
    requires l.stackSize + l.kernelStackSizeRounded + 3 * PAGE_SIZE <= guestOffset + size
    requires fields == PebFields(kept, l, guestOffset, size, seed, runMode)
    ensures forall j | j in kept && j in {1, 7, 8, 9} :: j in fields && fields[j] == kept[j]
  {
  }

  /**
   Writes the PEB and the stack pointers of the input and output buffers. A guest offset
   that is neither the base address nor the host's own is refused before anything is
   written. Buffers that were all zero become images of the empty stack.
   */
  method Write(l: SandboxMemoryLayout, shm: SharedMemory, guestOffset: nat, hostBase: nat, seed: nat, runMode: nat,
               ghost stackSize: nat, ghost kept: Fields)
    returns (ok: bool)
    requires Built(l, stackSize) && GetMemorySize(l) == Ok(shm.mem.Length)
    requires Slots(shm.mem[..], l.pebOffset, kept)
    requires 8 <= l.cfg.inputDataSize && 8 <= l.cfg.outputDataSize
    requires guestOffset < 0x1000_0000_0000_0000 && seed < TWO64 && runMode < 5
    modifies shm.mem
    ensures ok <==> guestOffset == BASE_ADDRESS || guestOffset == hostBase
    ensures !ok ==> shm.mem[..] == old(shm.mem[..])
    ensures Inside(l, shm.mem.Length)
    ensures ok ==> Slots(shm.mem[..], l.pebOffset, PebFields(kept, l, guestOffset, shm.mem.Length, seed, runMode))
    ensures ok ==> ReadsBack(shm.mem[..], l, guestOffset, seed, runMode)
    ensures ok ==> forall j | j in kept && j in {1, 7, 8, 9} ::
                     8 * j + 8 <= 0xB8 && ReadU64(shm.mem[..], l.pebOffset + 8 * j) == kept[j]
    ensures ok ==> Initialised(old(shm.mem[..]), shm.mem[..], l.inputDataBufferOffset, l.cfg.inputDataSize)
    ensures ok ==> Initialised(old(shm.mem[..]), shm.mem[..], l.outputDataBufferOffset, l.cfg.outputDataSize)
    ensures ok ==> forall k | 0 <= k < shm.mem.Length && !(l.pebOffset <= k < l.pebOffset + 0xB8) &&
                     !(l.inputDataBufferOffset <= k < l.inputDataBufferOffset + 8) &&
                     !(l.outputDataBufferOffset <= k < l.outputDataBufferOffset + 8) ::
                     shm.mem[..][k] == old(shm.mem[..])[k]
  {
    hide New, Slots, SameOutside, HostFields, BufferFields, StackFields, Initialised, Splice, U64, Window, ReadsBack;
    LayoutInside(l, stackSize);
    if guestOffset != BASE_ADDRESS && guestOffset != hostBase {
      return false;
    }
    ghost var m0 := shm.mem[..];
    SameOutsideRefl(m0, l.pebOffset, PEB_SIZE);
    ghost var host := HostFields(kept, l, guestOffset, seed, runMode);
    WriteHostFields(l, shm, guestOffset, seed, runMode, m0, kept);
    WriteBufferFields(l, shm, guestOffset, m0, host);
    WriteStackFields(l, shm, guestOffset + shm.mem.Length, m0, BufferFields(host, l, guestOffset));
    ghost var m1 := shm.mem[..];
    var _ := shm.WriteU64At(l.inputDataBufferOffset, 8);
    ghost var m2 := shm.mem[..];
    var _ := shm.WriteU64At(l.outputDataBufferOffset, 8);
    ghost var fields := PebFields(kept, l, guestOffset, shm.mem.Length, seed, runMode);
    WriteBehindPeb(m1, l.pebOffset, fields, l.inputDataBufferOffset);
    WriteBehindPeb(m2, l.pebOffset, fields, l.outputDataBufferOffset);
    BuffersInitialised(l, m0, m1, m2, shm.mem[..]);
    NothingElse(l, m0, m1, m2, shm.mem[..]);
    FieldsReadBack(shm.mem[..], l, stackSize, guestOffset, seed, runMode, kept);
    return true;
  }

  /** The buffer at `start` has stack pointer 8; if it was zero, it is the image of the empty stack. */
  ghost predicate Initialised(m: seq<byte>, m': seq<byte>, start: nat, size: nat) {
    8 <= size && start + size <= |m| == |m'| &&
    Window(m', start, size) == Splice(Window(m, start, size), 0, U64(8)) &&
    (Window(m, start, size) == Zeros(size) ==> Holds(Window(m', start, size), []))
  }

  lemma WriteBehindPeb(m: seq<byte>, peb: nat, fields: Fields, off: nat)
    requires Slots(m, peb, fields) && peb + PEB_SIZE <= off && off + 8 <= |m|
    ensures Slots(Splice(m, off, U64(8)), peb, fields)
  {
    hide Splice, U64, ReadU64;
    forall j | j in fields ensures ReadU64(Splice(m, off, U64(8)), peb + 8 * j) == fields[j] {
      ReadElsewhere(m, off, U64(8), peb + 8 * j);
    }
  }

  lemma BuffersInitialised(l: SandboxMemoryLayout, m0: seq<byte>, m1: seq<byte>, m2: seq<byte>, m3: seq<byte>)
    requires Inside(l, |m0|) && 8 <= l.cfg.inputDataSize && 8 <= l.cfg.outputDataSize
    requires SameOutside(m0, m1, l.pebOffset, PEB_SIZE) && |m1| == |m0|
    requires m2 == Splice(m1, l.inputDataBufferOffset, U64(8))
    requires m3 == Splice(m2, l.outputDataBufferOffset, U64(8))
    ensures Initialised(m0, m3, l.inputDataBufferOffset, l.cfg.inputDataSize)
    ensures Initialised(m0, m3, l.outputDataBufferOffset, l.cfg.outputDataSize)
  {
    hide Splice, U64, Window, SameOutside, Initialised;
    var (i, n, o, k) := (l.inputDataBufferOffset, l.cfg.inputDataSize, l.outputDataBufferOffset, l.cfg.outputDataSize);
    KeepsWindow(m0, m1, l.pebOffset, PEB_SIZE, i, n);
    KeepsWindow(m0, m1, l.pebOffset, PEB_SIZE, o, k);
    SpliceWindow(m1, i, n, 0, U64(8));
    KeepsWindow(m1, m2, i, n, o, k);
    SpliceWindow(m2, o, k, 0, U64(8));
    KeepsWindow(m2, m3, o, k, i, n);
    IntroInitialised(m0, m3, i, n);
    IntroInitialised(m0, m3, o, k);
  }

  lemma NothingElse(l: SandboxMemoryLayout, m0: seq<byte>, m1: seq<byte>, m2: seq<byte>, m3: seq<byte>)
    requires SameOutside(m0, m1, l.pebOffset, PEB_SIZE)
    requires l.inputDataBufferOffset + 8 <= |m1| && l.outputDataBufferOffset + 8 <= |m1|
    requires m2 == Splice(m1, l.inputDataBufferOffset, U64(8))
    requires m3 == Splice(m2, l.outputDataBufferOffset, U64(8))
    ensures forall k | 0 <= k < |m0| && !(l.pebOffset <= k < l.pebOffset + PEB_SIZE) &&
              !(l.inputDataBufferOffset <= k < l.inputDataBufferOffset + 8) &&
              !(l.outputDataBufferOffset <= k < l.outputDataBufferOffset + 8) :: m3[k] == m0[k]
  {
  }

  /** In every layout the two buffers lie in memory and apart from each other. */
  lemma BuffersAreApart(l: SandboxMemoryLayout, stackSize: nat)
    requires Built(l, stackSize) && GetMemorySize(l).Ok?
    requires 8 <= l.cfg.inputDataSize && 8 <= l.cfg.outputDataSize
    ensures CallProtocol.Buffers(l.inputDataBufferOffset, l.cfg.inputDataSize,
                                 l.outputDataBufferOffset, l.cfg.outputDataSize).Valid(GetMemorySize(l).value)
  {
    hide New, PageUp, GetMemorySize;
    LayoutInside(l, stackSize);
  }

  lemma IntroInitialised(m: seq<byte>, m': seq<byte>, start: nat, size: nat)
    requires 8 <= size && start + size <= |m| == |m'| < TWO64
    requires Window(m', start, size) == Splice(Window(m, start, size), 0, U64(8))
    ensures Initialised(m, m', start, size)
  {
  }

  /** Every buffer the PEB announces has its configured size and lies in the region of its own type. */
  lemma BuffersAreFaithful(l: SandboxMemoryLayout, stackSize: nat, kept: Fields, seed: nat, runMode: nat,
                                  host: nat, executableHeap: bool)
    requires Built(l, stackSize) && GetMemorySize(l).Ok?
    requires l.stackSize + l.kernelStackSizeRounded + 3 * PAGE_SIZE <= BASE_ADDRESS + GetMemorySize(l).value
    ensures var peb := PebFields(kept, l, BASE_ADDRESS, GetMemorySize(l).value, seed, runMode);
            var rs := LayoutRegions(l, host, executableHeap);
            Announces(peb, 12, 11, l.cfg.inputDataSize, rs[6], InputData) &&
            Announces(peb, 14, 13, l.cfg.outputDataSize, rs[7], OutputData) &&
            Announces(peb, 16, 15, l.cfg.guestPanicContextBufferSize, rs[8], PanicContext) &&
            Announces(peb, 18, 17, l.heapSize, rs[9], Heap)
  {
    hide New, PageUp, Built, GetMemorySize, HostFields;
    LayoutInside(l, stackSize);
  }

  lemma HostBuffersAreFaithful(l: SandboxMemoryLayout, stackSize: nat, kept: Fields, seed: nat, runMode: nat,
                                  host: nat, executableHeap: bool)
    requires Built(l, stackSize) && GetMemorySize(l).Ok?
    requires l.stackSize + l.kernelStackSizeRounded + 3 * PAGE_SIZE <= BASE_ADDRESS + GetMemorySize(l).value
    ensures var peb := PebFields(kept, l, BASE_ADDRESS, GetMemorySize(l).value, seed, runMode);
            var rs := LayoutRegions(l, host, executableHeap);
            Announces(peb, 3, 2, l.cfg.hostFunctionDefinitionSize, rs[3], HostFunctionDefinitions) &&
            Announces(peb, 6, 5, l.cfg.guestErrorBufferSize, rs[5], GuestErrorData) &&
            rs[4].kind == HostExceptionData && 4 in peb && peb[4] == l.cfg.hostExceptionSize <= rs[4].guest.end - rs[4].guest.start
  {
    hide New, PageUp, Built, GetMemorySize;
    LayoutInside(l, stackSize);
  }

  /**
   The four stack addresses, counted back from the end of memory, are the ends of the
   stacks the layout placed going forward.
   */
  lemma StacksAreFaithful(l: SandboxMemoryLayout, stackSize: nat, kept: Fields, seed: nat, runMode: nat,
                                  host: nat, executableHeap: bool)
    requires Built(l, stackSize) && GetMemorySize(l).Ok?
    requires l.stackSize + l.kernelStackSizeRounded + 3 * PAGE_SIZE <= BASE_ADDRESS + GetMemorySize(l).value
    ensures var peb := PebFields(kept, l, BASE_ADDRESS, GetMemorySize(l).value, seed, runMode);
            var rs := LayoutRegions(l, host, executableHeap);
            19 in peb && 20 in peb && 21 in peb && 22 in peb &&
            rs[11].kind == Stack && peb[19] == rs[11].guest.start && peb[20] == rs[11].guest.end &&
            rs[13].kind == KernelStack && peb[21] == rs[13].guest.end &&
            rs[15].kind == BootStack && peb[22] == rs[15].guest.end
  {
    hide New, PageUp, Built, GetMemorySize, BufferFields, HostFields;
    LayoutInside(l, stackSize);
    BuiltIsChained(l, stackSize);
  }

  ghost predicate Announces(peb: Fields, pointer: nat, size: nat, n: nat, region: MemoryRegion, kind: RegionType) {
    pointer in peb && size in peb && region.kind == kind && peb[pointer] == region.guest.start &&
    peb[size] == n && peb[pointer] + n <= region.guest.end
  }
}
