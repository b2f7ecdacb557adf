/**
The memory shared between host and guest: a byte array with bounds-checked accessors,
and the host's push and pop on a buffer inside it. `Panic` stands for Rust's panics
(a failed `unwrap`, an out-of-range slice, an arithmetic overflow).
*/
module SharedMem {
  import opened Bytes
  import opened IoStack

  datatype Outcome<+T> = Ok(value: T) | Err | Panic

  class SharedMemory {
    const mem: array<byte>

    constructor (size: nat)
      ensures fresh(mem) && mem[..] == Zeros(size)
    {
      mem := new byte[size](_ => 0);
    }

    /** Copies `data` into memory at `offset` byte by byte; refuses to cross the end. */
    method CopyFromSlice(data: seq<byte>, offset: nat) returns (ok: bool)
      modifies mem
      ensures ok <==> offset + |data| <= mem.Length
      ensures mem[..] == if ok then Splice(old(mem[..]), offset, data) else old(mem[..])
    {
      if offset + |data| > mem.Length {
        return false;
      }
      for i := 0 to |data|
        invariant mem[..] == Splice(old(mem[..]), offset, data[..i])
      {
        SpliceSnoc(old(mem[..]), offset, data[..i], data[i]);
        assert data[..i + 1] == data[..i] + [data[i]];
        hide Splice;
        ghost var before := mem[..];
        mem[offset + i] := data[i];
        assert mem[..] == before[offset + i := data[i]];
      }
      assert data[..|data|] == data;
      return true;
    }

    /** Copies `len` bytes at `offset` out of memory. */
    method CopyToSlice(offset: nat, len: nat) returns (r: Option<seq<byte>>)
      ensures r == if offset + len <= mem.Length then Some(mem[offset..offset + len]) else None
    {
      if offset + len > mem.Length {
        return None;
      }
      var out: seq<byte> := [];
      for i := 0 to len
        invariant out == mem[offset..offset + i]
      {
        out := out + [mem[offset + i]];
      }
      return Some(out);
    }

    /** Sets `len` bytes at `offset` to `value`. */
    method Fill(value: byte, offset: nat, len: nat) returns (ok: bool)
      modifies mem
      ensures ok <==> offset + len <= mem.Length
      ensures mem[..] == if ok then Splice(old(mem[..]), offset, Repeat(value, len)) else old(mem[..])
    {
      if offset + len > mem.Length {
        return false;
      }
      for i := 0 to len
        invariant mem[..] == Splice(old(mem[..]), offset, Repeat(value, i))
      {
        SpliceSnoc(old(mem[..]), offset, Repeat(value, i), value);
        assert Repeat(value, i + 1) == Repeat(value, i) + [value];
        hide Splice;
        ghost var before := mem[..];
        mem[offset + i] := value;
        assert mem[..] == before[offset + i := value];
      }
      return true;
    }

    method WriteU64At(offset: nat, value: nat) returns (ok: bool)
      modifies mem
      ensures ok <==> offset + 8 <= mem.Length
      ensures mem[..] == if ok then Splice(old(mem[..]), offset, U64(value)) else old(mem[..])
    {
      ok := CopyFromSlice(U64(value), offset);
    }

    method ReadU64At(offset: nat) returns (r: Option<nat>)
      ensures r == if offset + 8 <= mem.Length then Some(ReadU64(mem[..], offset)) else None
    {
      var bytes := CopyToSlice(offset, 8);
      if bytes == None {
        return None;
      }
      assert mem[offset..offset + 8] == mem[..][offset..offset + 8];
      return Some(FromLE(bytes.value));
    }

    /** The host's push. */
    method PushBuffer(start: nat, size: nat, data: seq<byte>) returns (ok: bool)
      requires 8 <= size && start + size <= mem.Length < TWO64
      modifies mem
      ensures Pushed(old(mem[..]), mem[..], start, size, data, ok)
    {
      hide PushedWindow, Splice, SameOutside, U64;
      ghost var m0 := mem[..];
      var sp := ReadU64At(start);
      var rel := sp.value;
      SameOutsideRefl(m0, start, size);
      ReadInWindow(m0, start, size, 0);
      PushStep(Window(m0, start, size), data, rel);
      if rel > size || rel < 8 {
        return false;
      }
      if |data| + 8 > size - rel {
        return false;
      }
      var _ := CopyFromSlice(data, start + rel);
      ghost var m1 := mem[..];
      var _ := WriteU64At(start + rel + |data|, rel);
      ghost var m2 := mem[..];
      var _ := WriteU64At(start, rel + |data| + 8);
      PushWrites(m0, start, size, data, rel, m1, m2, mem[..]);
      return true;
    }

    /** The host's pop. */
    method TryPopBufferInto<T(!new)>(start: nat, size: nat, decode: seq<byte> -> Option<T>)
      returns (r: Outcome<T>)
      requires 8 <= size && start + size <= mem.Length < TWO64
      modifies mem
      ensures Popped(old(mem[..]), mem[..], start, size, decode, r)
      ensures PopPanics(old(mem[..]), start, size, r)
    {
      hide Popped, DecodedAt, Splice, SameOutside, U64, ReadU64, Window, PopBytes, Oversized;
      ghost var m0 := mem[..];
      var sp := ReadU64At(start);
      var rel := sp.value;
      if rel > size || rel < 16 {
        PopEmpty(m0, start, size, decode);
        return Err;
      }
      var lastElement := ReadU64At(start + rel - 8);
      var last := lastElement.value;
      var decoded := DecodeAt(last + start, decode);
      if !decoded.Ok? {
        PopFails(m0, start, size, decode, last, decoded);
        return decoded;
      }
      var _ := WriteU64At(start, last);
      ghost var m1 := mem[..];
      if last > rel {
        SpliceWindow(m0, start, size, 0, U64(last));
        PopStep(m0, m1, start, size, decode, last, Panic);
        return Panic;
      }
      var _ := Fill(0, last + start, rel - last);
      PopWrites(m0, start, size, rel, last, m1, mem[..]);
      PopStep(m0, mem[..], start, size, decode, last, decoded);
      return decoded;
    }

    /** Copies out the size-prefixed message at `at` and decodes it. */
    method DecodeAt<T(!new)>(at: nat, decode: seq<byte> -> Option<T>) returns (r: Outcome<T>)
      requires mem.Length < TWO64
      ensures DecodedAt(mem[..], at, decode, r)
      ensures r.Panic? <==> Oversized(mem[..], at)
    {
      if at + 4 >= TWO64 {
        return Panic;
      }
      var prefix := CopyToSlice(at, 4);
      if prefix == None {
        return Err;
      }
      var len := FromLE(prefix.value) + 4;
      assert mem[at..at + 4] == mem[..][at..at + 4];
      forall x: Message | at + |x| <= mem.Length && mem[..][at..at + |x|] == x && SizePrefixed(x)
        ensures |x| == len && x == mem[at..at + len]
      {
        assert x[..4] == prefix.value;
      }
      if len >= TWO32 {
        return Panic;
      }
      var bytes := CopyToSlice(at, len);
      if bytes == None {
        return Err;
      }
      var decoded := decode(bytes.value);
      if decoded == None {
        return Err;
      }
      return Ok(decoded.value);
    }
  }

  // ------------------------------------------------- what push and pop do to a memory

  /**
   A push of `data` on the buffer at `start`: nothing outside the buffer changes, the
   buffer makes one step, and on the image of a stack the push succeeds exactly when
   there is room, leaving the image of the larger stack.
   */
  ghost predicate Pushed(m: seq<byte>, m': seq<byte>, start: nat, size: nat, data: seq<byte>, ok: bool)
    requires 8 <= size && start + size <= |m| < TWO64
  {
    SameOutside(m, m', start, size) && PushedWindow(Window(m, start, size), Window(m', start, size), data, ok)
  }

  ghost predicate PushedWindow(b: seq<byte>, b': seq<byte>, data: seq<byte>, ok: bool)
    requires 8 <= |b|
  {
    b' == StepBytes(b, Push(data)) &&
    (ok <==> 8 <= ReadU64(b, 0) && ReadU64(b, 0) + |data| + 8 <= |b|) &&
    forall s: seq<Message> | Holds(b, s) ::
      (ok <==> Fits(s, |data|, |b|)) && Holds(b', if ok then s + [data] else s)
  }

  /**
   A pop through `decode` from the buffer at `start`. Whatever the buffer holds, nothing
   outside it changes and an error leaves everything as it was. On the image of a stack
   the reader gets the decoded top message and the image of the rest remains.
   */
  ghost predicate Popped<T(!new)>(m: seq<byte>, m': seq<byte>, start: nat, size: nat,
                                  decode: seq<byte> -> Option<T>, r: Outcome<T>)
    requires 8 <= size && start + size <= |m| < TWO64
  {
    SameOutside(m, m', start, size) &&
    PoppedWindow(Window(m, start, size), Window(m', start, size), decode, r)
  }

  ghost predicate PoppedWindow<T(!new)>(b: seq<byte>, b': seq<byte>,
                                        decode: seq<byte> -> Option<T>, r: Outcome<T>)
    requires 8 <= |b|
  {
    (!r.Panic? ==> b' == StepBytes(b, Pop(r.Ok?))) &&
    (!(16 <= ReadU64(b, 0) <= |b|) ==> r == Err) && (Holds(b, []) ==> r == Err) &&
    forall s: seq<Message>, m: Message | Holds(b, s + [m]) && SizePrefixed(m) && |m| < TWO32 ::
      PaidFor(b', decode, r, s, m)
  }

  /** The prefix at `at` ends past the address space, or its size does not fit a `u32` together with itself. */
  predicate Oversized(m: seq<byte>, at: nat) {
    at + 4 >= TWO64 || (at + 4 <= |m| && FromLE(m[at..at + 4]) + 4 >= TWO32)
  }

  /** Four bytes are too large a size exactly when they are at least 0xFFFF_FFFC. */
  lemma OversizedIff(m: seq<byte>, at: nat)
    requires at + 4 <= |m| && at + 4 < TWO64
    ensures Oversized(m, at) <==> m[at] >= 0xFC && m[at + 1] == m[at + 2] == m[at + 3] == 0xFF
  {
    var (a, b, c, d) := (m[at], m[at + 1], m[at + 2], m[at + 3]);
    assert m[at..at + 4] == [a, b, c, d];
    FourBytes(a, b, c, d);
  }

  lemma FourBytes(a: byte, b: byte, c: byte, d: byte)
    ensures FromLE([a, b, c, d]) == a + 0x100 * b + 0x1_0000 * c + 0x100_0000 * d
  {
    assert [d][1..] == [] && FromLE([d]) == d;
    assert [c, d][1..] == [d] && FromLE([c, d]) == c + 0x100 * d;
    assert [b, c, d][1..] == [c, d] && FromLE([b, c, d]) == b + 0x100 * c + 0x1_0000 * d;
    assert [a, b, c, d][1..] == [b, c, d];
  }

  /**
   What a buffer nobody wrote as a stack can do to the host's pop. With a back pointer no
   higher than the stack pointer it panics exactly on an oversized prefix; with a higher
   one it never succeeds.
   */
  ghost predicate PopPanics<T(!new)>(m: seq<byte>, start: nat, size: nat, r: Outcome<T>)
    requires 8 <= size && start + size <= |m|
  {
    var sp := ReadU64(m, start);
    16 <= sp <= size ==>
      var last := ReadU64(m, start + sp - 8);
      (last <= sp ==> (r.Panic? <==> Oversized(m, start + last))) && (last > sp ==> !r.Ok?)
  }

  /** The writes of a push, seen from the buffer. */
  lemma PushWrites(m: seq<byte>, start: nat, size: nat, data: seq<byte>, rel: nat, m1: seq<byte>, m2: seq<byte>, m3: seq<byte>)
    requires start + size <= |m| && 8 <= rel && rel + |data| + 8 <= size
    requires m1 == Splice(m, start + rel, data)
    requires m2 == Splice(m1, start + rel + |data|, U64(rel))
    requires m3 == Splice(m2, start, U64(rel + |data| + 8))
    ensures SameOutside(m, m3, start, size)
    ensures Window(m3, start, size) == PushBytes(Window(m, start, size), rel, data)
  {
    hide Splice, Window, SameOutside, U64;
    SpliceWindow(m, start, size, rel, data);
    SpliceWindow(m1, start, size, rel + |data|, U64(rel));
    SpliceWindow(m2, start, size, 0, U64(rel + |data| + 8));
    SameOutsideTrans(m, m1, m2, start, size);
    SameOutsideTrans(m, m2, m3, start, size);
  }

  /** The writes of a pop, seen from the buffer. */
  lemma PopWrites(m: seq<byte>, start: nat, size: nat, rel: nat, last: nat, m1: seq<byte>, m2: seq<byte>)
    requires start + size <= |m| && 8 <= size && last <= rel <= size && 16 <= rel
    requires rel == ReadU64(m, start) && last == ReadU64(m, start + rel - 8)
    requires m1 == Splice(m, start, U64(last))
    requires m2 == Splice(m1, last + start, Zeros(rel - last))
    ensures SameOutside(m, m2, start, size)
    ensures Window(m2, start, size) == StepBytes(Window(m, start, size), Pop(true))
  {
    hide Splice, Window, SameOutside, U64, Zeros, ReadU64;
    ReadInWindow(m, start, size, 0);
    ReadInWindow(m, start, size, rel - 8);
    SpliceWindow(m, start, size, 0, U64(last));
    SpliceWindow(m1, start, size, last, Zeros(rel - last));
    SameOutsideTrans(m, m1, m2, start, size);
  }

  lemma PushStep(b: seq<byte>, data: seq<byte>, rel: nat)
    requires 8 <= |b| < TWO64 && rel == ReadU64(b, 0)
    ensures PushedWindow(b, StepBytes(b, Push(data)), data, 8 <= rel && rel + |data| + 8 <= |b|)
  {
    forall s: seq<Message> | Holds(b, s)
      ensures rel == Top(s) && Holds(StepBytes(b, Push(data)), StepStack(s, Push(data), |b|))
    {
      StackPointer(b, s);
      StepRefines(b, s, Push(data));
    }
  }

  lemma ReadInWindow(m: seq<byte>, start: nat, size: nat, at: nat)
    requires start + size <= |m| && at + 8 <= size
    ensures ReadU64(m, start + at) == ReadU64(Window(m, start, size), at)
  {
    SliceOfSlice(m, start, size, at, 8);
  }

  /** A stack pointer out of range: the buffer holds no message. */
  lemma PopEmpty<T(!new)>(m: seq<byte>, start: nat, size: nat, decode: seq<byte> -> Option<T>)
    requires 8 <= size && start + size <= |m| < TWO64
    requires !(16 <= ReadU64(m, start) <= size)
    ensures Popped(m, m, start, size, decode, Err)
  {
    ReadInWindow(m, start, size, 0);
    forall s: seq<Message>, x: Message | Holds(Window(m, start, size), s + [x]) ensures false {
      StackPointer(Window(m, start, size), s + [x]);
      ElementsSnoc(s, x);
    }
  }

  /** What a reader finds on top of a well-formed buffer. */
  ghost predicate OnTop(b: seq<byte>, s: seq<Message>, x: Message, rel: nat, last: nat) {
    last + |x| + 8 == rel <= |b| && b[last..last + |x|] == x &&
    Holds(StepBytes(b, Pop(true)), s)
  }

  lemma TopMessage(b: seq<byte>, s: seq<Message>, x: Message)
    requires Holds(b, s + [x])
    ensures 16 <= ReadU64(b, 0) <= |b|
    ensures OnTop(b, s, x, ReadU64(b, 0), ReadU64(b, ReadU64(b, 0) - 8))
  {
    StackPointer(b, s + [x]);
    TopElement(b, s, x);
    PopImage(b, s, x);
  }

  /** What decoding the bytes found at `at` has to give. */
  ghost predicate DecodedAt<T(!new)>(m: seq<byte>, at: nat, decode: seq<byte> -> Option<T>, r: Outcome<T>) {
    forall x: Message | at + |x| <= |m| && m[at..at + |x|] == x && SizePrefixed(x) && |x| < TWO32 ::
      r == (match decode(x) case Some(v) => Ok(v) case None => Err)
  }

  /** What a pop with result `r` owes for the stack `s + [x]`. */
  ghost predicate PaidFor<T(!new)>(b': seq<byte>, decode: seq<byte> -> Option<T>, r: Outcome<T>,
                                   s: seq<Message>, x: Message)
  {
    r == (match decode(x) case Some(v) => Ok(v) case None => Err) &&
    Holds(b', if r.Ok? then s else s + [x])
  }

  lemma PopOne<T(!new)>(m: seq<byte>, start: nat, size: nat, decode: seq<byte> -> Option<T>,
                        last: nat, r: Outcome<T>, s: seq<Message>, x: Message)
    requires 8 <= size && start + size <= |m| < TWO64
    requires Holds(Window(m, start, size), s + [x]) && SizePrefixed(x) && |x| < TWO32
    requires 16 <= ReadU64(m, start) <= size && last == ReadU64(m, start + ReadU64(m, start) - 8)
    requires last <= ReadU64(m, start) ==> DecodedAt(m, last + start, decode, r)
    ensures r == (match decode(x) case Some(v) => Ok(v) case None => Err)
    ensures Holds(StepBytes(Window(m, start, size), Pop(r.Ok?)), if r.Ok? then s else s + [x])
  {
    hide Elements, Image, Splice, FromLE, PopBytes, Holds;
    var b := Window(m, start, size);
    ReadInWindow(m, start, size, 0);
    ReadInWindow(m, start, size, ReadU64(m, start) - 8);
    TopMessage(b, s, x);
    SliceOfSlice(m, start, size, last, |x|);
  }

  /** How the host's pop meets its contract once it has decoded the bytes at the back pointer. */
  lemma PopStep<T(!new)>(m: seq<byte>, m': seq<byte>, start: nat, size: nat,
                         decode: seq<byte> -> Option<T>, last: nat, r: Outcome<T>)
    requires 8 <= size && start + size <= |m| < TWO64
    requires 16 <= ReadU64(m, start) <= size && last == ReadU64(m, start + ReadU64(m, start) - 8)
    requires SameOutside(m, m', start, size)
    requires !r.Panic? ==> Window(m', start, size) == StepBytes(Window(m, start, size), Pop(r.Ok?))
    requires last <= ReadU64(m, start) ==> DecodedAt(m, last + start, decode, r)
    ensures Popped(m, m', start, size, decode, r)
  {
    var b, b' := Window(m, start, size), Window(m', start, size);
    ReadInWindow(m, start, size, 0);
    if Holds(b, []) {
      StackPointer(b, []);
    }
    forall s: seq<Message>, x: Message | Holds(b, s + [x]) && SizePrefixed(x) && |x| < TWO32
      ensures PaidFor(b', decode, r, s, x)
    {
      PopOne(m, start, size, decode, last, r, s, x);
    }
  }

  /** A pop that does not decode leaves the memory alone. */
  lemma PopFails<T(!new)>(m: seq<byte>, start: nat, size: nat,
                          decode: seq<byte> -> Option<T>, last: nat, r: Outcome<T>)
    requires 8 <= size && start + size <= |m| < TWO64 && !r.Ok?
    requires 16 <= ReadU64(m, start) <= size && last == ReadU64(m, start + ReadU64(m, start) - 8)
    requires DecodedAt(m, last + start, decode, r)
    ensures Popped(m, m, start, size, decode, r)
  {
    PopStep(m, m, start, size, decode, last, r);
  }
}
