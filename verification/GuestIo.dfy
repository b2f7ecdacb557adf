/**
The guest's push on the output buffer and pop from the input buffer. The guest sees a
buffer as a Rust slice `[base, base + size)` of the same memory and indexes it directly,
so an index out of range is a panic rather than an error. Both meet the contracts of the
host's operations, so either side can read what the other wrote.
*/
module GuestIo {
  import opened Bytes
  import opened IoStack
  import opened SharedMem

  method PushSharedOutputData(shm: SharedMemory, base: nat, size: nat, data: seq<byte>)
    returns (r: Outcome<()>)
    requires base + size <= shm.mem.Length < TWO64
    modifies shm.mem
    ensures size == 0 ==> r == Err
    ensures 0 < size < 8 ==> r == Panic
    ensures size < 8 ==> shm.mem[..] == old(shm.mem[..])
    ensures size >= 8 ==> !r.Panic? && Pushed(old(shm.mem[..]), shm.mem[..], base, size, data, r.Ok?)
  {
    hide PushedWindow, Splice, SameOutside, U64;
    if size == 0 {
      return Err;
    }
    if size < 8 {
      return Panic;
    }
    ghost var m0 := shm.mem[..];
    var rel := FromLE(shm.mem[base..base + 8]);
    assert shm.mem[base..base + 8] == m0[base..base + 8];
    ReadInWindow(m0, base, size, 0);
    PushStep(Window(m0, base, size), data, rel);
    SameOutsideRefl(m0, base, size);
    if rel > size || rel < 8 {
      return Err;
    }
    if |data| + 8 > size - rel {
      return Err;
    }
    var _ := shm.CopyFromSlice(data, base + rel);
    ghost var m1 := shm.mem[..];
    var _ := shm.CopyFromSlice(U64(rel), base + rel + |data|);
    ghost var m2 := shm.mem[..];
    var _ := shm.CopyFromSlice(U64(rel + |data| + 8), base);
    PushWrites(m0, base, size, data, rel, m1, m2, shm.mem[..]);
    return Ok(());
  }

  /** The guest hands the decoder everything from the back pointer to the end of the buffer. */
  method TryPopSharedInputDataInto<T(!new)>(shm: SharedMemory, base: nat, size: nat, decode: seq<byte> -> Option<T>)
    returns (r: Outcome<T>)
    requires base + size <= shm.mem.Length < TWO64
    requires PrefixDetermined(decode)
    modifies shm.mem
    ensures size == 0 ==> r == Err
    ensures 0 < size < 8 ==> r == Panic
    ensures size < 8 ==> shm.mem[..] == old(shm.mem[..])
    ensures size >= 8 ==> Popped(old(shm.mem[..]), shm.mem[..], base, size, decode, r)
    ensures size >= 8 ==> GuestPopPanics(old(shm.mem[..]), base, size, r)
  {
    hide Popped, DecodedRest, PrefixDetermined, Splice, SameOutside, U64, Window, PopBytes;
    if size == 0 {
      return Err;
    }
    if size < 8 {
      return Panic;
    }
    ghost var m0 := shm.mem[..];
    var rel := FromLE(shm.mem[base..base + 8]);
    assert shm.mem[base..base + 8] == m0[base..base + 8];
    if rel > size || rel < 16 {
      PopEmpty(m0, base, size, decode);
      return Err;
    }
    var last := FromLE(shm.mem[base + rel - 8..base + rel]);
    assert shm.mem[base + rel - 8..base + rel] == m0[base + rel - 8..base + rel];
    if last > size {
      GuestPopStep(m0, m0, base, size, decode, last, Panic);
      return Panic;
    }
    var decoded := decode(shm.mem[base + last..base + size]);
    assert shm.mem[base + last..base + size] == m0[base + last..base + size];
    if decoded == None {
      DecodedRestIntro(m0, base, size, last, decode, Err);
      GuestPopStep(m0, m0, base, size, decode, last, Err);
      return Err;
    }
    var _ := shm.CopyFromSlice(U64(last), base);
    ghost var m1 := shm.mem[..];
    if last > rel {
      SpliceWindow(m0, base, size, 0, U64(last));
      GuestPopStep(m0, m1, base, size, decode, last, Panic);
      return Panic;
    }
    var _ := shm.Fill(0, base + last, rel - last);
    DecodedRestIntro(m0, base, size, last, decode, Ok(decoded.value));
    PopWrites(m0, base, size, rel, last, m1, shm.mem[..]);
    GuestPopStep(m0, shm.mem[..], base, size, decode, last, Ok(decoded.value));
    return Ok(decoded.value);
  }

  /**
   The guest's pop never panics on a back pointer no higher than the stack pointer, always
   does on one past the buffer, and never succeeds on one in between.
   */
  ghost predicate GuestPopPanics<T(!new)>(m: seq<byte>, base: nat, size: nat, r: Outcome<T>)
    requires 8 <= size && base + size <= |m|
  {
    var sp := ReadU64(m, base);
    16 <= sp <= size ==>
      var last := ReadU64(m, base + sp - 8);
      (last <= sp ==> !r.Panic?) && (last > sp ==> !r.Ok?) && (last > size ==> r.Panic?)
  }

  /** `r` is what decoding the rest of the buffer from `last` gives. */
  ghost predicate DecodedRest<T(!new)>(m: seq<byte>, base: nat, size: nat, last: nat,
                                       decode: seq<byte> -> Option<T>, r: Outcome<T>)
    requires base + size <= |m| && last <= size
  {
    r == match decode(m[base + last..base + size]) case Some(v) => Ok(v) case None => Err
  }

  lemma DecodedRestIntro<T(!new)>(m: seq<byte>, base: nat, size: nat, last: nat,
                                  decode: seq<byte> -> Option<T>, r: Outcome<T>)
    requires base + size <= |m| && last <= size
    requires r == match decode(m[base + last..base + size]) case Some(v) => Ok(v) case None => Err
    ensures DecodedRest(m, base, size, last, decode, r)
  {
  }

  lemma GuestPopOne<T(!new)>(m: seq<byte>, base: nat, size: nat, decode: seq<byte> -> Option<T>,
                             last: nat, r: Outcome<T>, s: seq<Message>, x: Message)
    requires 8 <= size && base + size <= |m| < TWO64 && PrefixDetermined(decode)
    requires Holds(Window(m, base, size), s + [x]) && SizePrefixed(x)
    requires 16 <= ReadU64(m, base) <= size && last == ReadU64(m, base + ReadU64(m, base) - 8)
    requires last <= ReadU64(m, base) ==> DecodedRest(m, base, size, last, decode, r)
    ensures r == (match decode(x) case Some(v) => Ok(v) case None => Err)
    ensures Holds(StepBytes(Window(m, base, size), Pop(r.Ok?)), if r.Ok? then s else s + [x])
  {
    hide Elements, Image, Splice, FromLE, PopBytes, Holds;
    var b := Window(m, base, size);
    ReadInWindow(m, base, size, 0);
    ReadInWindow(m, base, size, ReadU64(m, base) - 8);
    TopMessage(b, s, x);
    SliceOfSlice(m, base, size, last, size - last);
    assert b[last..] == x + b[last + |x|..];
    assert b[last..] == b[last..size];
  }

  lemma GuestPopStep<T(!new)>(m: seq<byte>, m': seq<byte>, base: nat, size: nat,
                              decode: seq<byte> -> Option<T>, last: nat, r: Outcome<T>)
    requires 8 <= size && base + size <= |m| < TWO64 && PrefixDetermined(decode)
    requires 16 <= ReadU64(m, base) <= size && last == ReadU64(m, base + ReadU64(m, base) - 8)
    requires m' == m || SameOutside(m, m', base, size)
    requires r.Err? ==> m' == m
    requires r.Ok? ==> Window(m', base, size) == StepBytes(Window(m, base, size), Pop(true))
    requires last <= ReadU64(m, base) ==> DecodedRest(m, base, size, last, decode, r)
    ensures Popped(m, m', base, size, decode, r)
  {
    var b, b' := Window(m, base, size), Window(m', base, size);
    ReadInWindow(m, base, size, 0);
    if Holds(b, []) {
      StackPointer(b, []);
    }
    forall s: seq<Message>, x: Message | Holds(b, s + [x]) && SizePrefixed(x) && |x| < TWO32
      ensures PaidFor(b', decode, r, s, x)
    {
      GuestPopOne(m, base, size, decode, last, r, s, x);
    }
  }
}
