/**
The in-memory format of the input and output buffers, and the stack of messages it
stands for. A buffer holds an 8-byte stack pointer followed by elements, each the bytes
of a message and then an 8-byte back pointer to where those bytes start; every byte
above the stack pointer is zero. `Image(s, size)` is the one buffer of `size` bytes that
represents the stack `s`, so equality with an image fixes every byte of the buffer.
*/
module IoStack {
  import opened Bytes

  type Message = seq<byte>

  /** The bytes of all elements, bottom first. The first element starts at offset 8. */
  function Elements(s: seq<Message>): seq<byte> {
    if s == [] then [] else
      var below := Elements(s[..|s| - 1]);
      below + s[|s| - 1] + U64(8 + |below|)
  }

  /** The stack pointer of a buffer holding `s`: the offset of the first free byte. */
  function Top(s: seq<Message>): nat {
    8 + |Elements(s)|
  }

  function Image(s: seq<Message>, size: nat): (b: seq<byte>)
    requires Top(s) <= size
    ensures |b| == size
  {
    U64(Top(s)) + Elements(s) + Zeros(size - Top(s))
  }

  ghost predicate Holds(buffer: seq<byte>, s: seq<Message>) {
    Top(s) <= |buffer| < TWO64 && buffer == Image(s, |buffer|)
  }

  /** The length of a message is announced by its first four bytes. */
  predicate SizePrefixed(m: Message) {
    4 <= |m| && FromLE(m[..4]) + 4 == |m|
  }

  /** A message is size-prefixed exactly when it is four bytes of length and then that many bytes. */
  lemma SizePrefixedIff(m: Message)
    requires |m| < TWO32
    ensures SizePrefixed(m) <==> 4 <= |m| && m == LE(|m| - 4, 4) + m[4..]
  {
    if 4 <= |m| {
      assert m == m[..4] + m[4..];
      RoundTripBack(m[..4]);
      Pow256Values();
      RoundTrip(|m| - 4, 4);
    }
  }

  /** `TryFrom<&[u8]>` of a size-prefixed flatbuffer: bytes past the message do not matter. */
  ghost predicate PrefixDetermined<T(!new)>(decode: seq<byte> -> Option<T>) {
    forall m, rest :: SizePrefixed(m) ==> decode(m + rest) == decode(m)
  }

  /** What a push does to a buffer whose stack pointer is `sp`. */
  function PushBytes(b: seq<byte>, sp: nat, data: seq<byte>): (r: seq<byte>)
    requires 8 <= sp && sp + |data| + 8 <= |b|
    ensures |r| == |b|
  {
    Splice(Splice(Splice(b, sp, data), sp + |data|, U64(sp)), 0, U64(sp + |data| + 8))
  }

  /** What a pop does to a buffer: move the stack pointer from `sp` to `last`, clear what is above. */
  function PopBytes(b: seq<byte>, sp: nat, last: nat): (r: seq<byte>)
    requires last <= sp <= |b| && 8 <= |b|
    ensures |r| == |b|
  {
    Splice(Splice(b, 0, U64(last)), last, Zeros(sp - last))
  }

  /** Room for one more message of `n` bytes. */
  predicate Fits(s: seq<Message>, n: nat, size: nat) {
    Top(s) + n + 8 <= size
  }

  // ---------------------------------------------------------------- facts about images

  lemma ElementsSnoc(s: seq<Message>, m: Message)
    ensures Elements(s + [m]) == Elements(s) + m + U64(Top(s))
    ensures Top(s + [m]) == Top(s) + |m| + 8
  {
  }

  /** The stack pointer is 8 plus, for every message, its length and its back pointer. */
  function TotalLength(s: seq<Message>): nat {
    if s == [] then 0 else |s[0]| + 8 + TotalLength(s[1..])
  }

  lemma {:induction false} TotalLengthSnoc(s: seq<Message>, m: Message)
    ensures TotalLength(s + [m]) == TotalLength(s) + |m| + 8
  {
    if s == [] {
    } else {
      assert (s + [m])[1..] == s[1..] + [m];
      TotalLengthSnoc(s[1..], m);
    }
  }

  lemma {:induction false} StackPointer(b: seq<byte>, s: seq<Message>)
    requires Holds(b, s)
    ensures ReadU64(b, 0) == Top(s) == 8 + TotalLength(s) <= |b|
  {
    assert b[0..8] == U64(Top(s));
    U64RoundTrip(Top(s));
    TopIsTotal(s);
  }

  lemma {:induction false} TopIsTotal(s: seq<Message>)
    ensures Top(s) == 8 + TotalLength(s)
  {
    if s == [] {
    } else {
      var below := s[..|s| - 1];
      TopIsTotal(below);
      TotalLengthSnoc(below, s[|s| - 1]);
      assert s == below + [s[|s| - 1]];
    }
  }

  /** There is room exactly when the larger stack has an image of that size. */
  lemma FitsIff(s: seq<Message>, m: Message, size: nat)
    ensures Fits(s, |m|, size) <==> 8 + TotalLength(s) + |m| + 8 <= size
    ensures Fits(s, |m|, size) <==> Top(s + [m]) <= size
  {
    TopIsTotal(s);
    ElementsSnoc(s, m);
  }

  /** Every byte from the stack pointer to the end of the buffer is zero. */
  lemma FreeBytesAreZero(b: seq<byte>, s: seq<Message>, k: nat)
    requires Holds(b, s) && Top(s) <= k < |b|
    ensures b[k] == 0
  {
  }

  /** A buffer is an image when its three parts are right. */
  lemma FromParts(b: seq<byte>, s: seq<Message>)
    requires Top(s) <= |b| < TWO64
    requires b[..8] == U64(Top(s)) && b[8..Top(s)] == Elements(s)
    requires forall k | Top(s) <= k < |b| :: b[k] == 0
    ensures Holds(b, s)
  {
    assert b[Top(s)..] == Zeros(|b| - Top(s));
    assert b == b[..8] + b[8..Top(s)] + b[Top(s)..];
  }

  lemma ToParts(b: seq<byte>, s: seq<Message>)
    requires Holds(b, s)
    ensures b[..8] == U64(Top(s)) && b[8..Top(s)] == Elements(s)
    ensures forall k | Top(s) <= k < |b| :: b[k] == 0
  {
  }

  /** Where the element on top of the stack lies in the buffer. */
  lemma TopElement(b: seq<byte>, s: seq<Message>, m: Message)
    requires Holds(b, s + [m])
    ensures Top(s + [m]) == Top(s) + |m| + 8 <= |b|
    ensures ReadU64(b, Top(s + [m]) - 8) == Top(s)
    ensures b[Top(s)..Top(s) + |m|] == m
  {
    ElementsSnoc(s, m);
    ToParts(b, s + [m]);
    hide U64, Elements, Holds;
    var sp, body := Top(s + [m]), b[8..Top(s + [m])];
    assert body[|body| - 8..] == U64(Top(s));
    SliceOfSlice(b, 8, sp - 8, sp - 16, 8);
    SliceOfSlice(b, 8, sp - 8, Top(s) - 8, |m|);
    U64RoundTrip(Top(s));
  }

  /** Three writes that do not overlap, read back. */
  lemma ThreeWrites(b: seq<byte>, sp: nat, data: seq<byte>, back: seq<byte>, ptr: seq<byte>, r: seq<byte>)
    requires |back| == |ptr| == 8 <= sp && sp + |data| + 8 <= |b|
    requires r == Splice(Splice(Splice(b, sp, data), sp + |data|, back), 0, ptr)
    ensures r[..8] == ptr && r[8..sp + |data| + 8] == b[8..sp] + data + back
    ensures r[sp + |data| + 8..] == b[sp + |data| + 8..]
  {
    var b1 := Splice(b, sp, data);
    var b2 := Splice(b1, sp + |data|, back);
    SpliceIndex(b, sp, data);
    SpliceIndex(b1, sp + |data|, back);
    SpliceIndex(b2, 0, ptr);
  }

  /** Pushing turns the image of a stack into the image of the larger stack. */
  lemma PushImage(b: seq<byte>, s: seq<Message>, m: Message)
    requires Holds(b, s) && Fits(s, |m|, |b|)
    ensures Holds(PushBytes(b, Top(s), m), s + [m])
  {
    ElementsSnoc(s, m);
    ToParts(b, s);
    var sp, mid := Top(s), Top(s) + |m|;
    var r := PushBytes(b, sp, m);
    ThreeWrites(b, sp, m, U64(sp), U64(mid + 8), r);
    forall k | mid + 8 <= k < |b| ensures r[k] == 0 {
      assert r[k] == r[mid + 8..][k - mid - 8];
    }
    FromParts(r, s + [m]);
  }

  /** Popping turns it back, byte for byte. */
  lemma PopImage(b: seq<byte>, s: seq<Message>, m: Message)
    requires Holds(b, s + [m])
    ensures Top(s) <= Top(s + [m]) <= |b|
    ensures Holds(PopBytes(b, Top(s + [m]), Top(s)), s)
  {
    ElementsSnoc(s, m);
    ToParts(b, s + [m]);
    hide U64, Elements, Holds;
    var sp, last := Top(s + [m]), Top(s);
    var r := PopBytes(b, sp, last);
    SpliceIndex(b, 0, U64(last));
    SpliceIndex(Splice(b, 0, U64(last)), last, Zeros(sp - last));
    assert r[..8] == U64(last);
    assert r[8..last] == b[8..sp][..last - 8] == Elements(s);
    FromParts(r, s);
  }

  // ------------------------------------------------ the stack is determined by the bytes

  /** Reads the stack back out of a buffer by following the back pointers from `sp` down. */
  function FollowBack(b: seq<byte>, sp: nat): Option<seq<Message>>
    decreases sp
  {
    if sp == 8 then Some([])
    else if !(16 <= sp <= |b|) then None
    else
      var last := ReadU64(b, sp - 8);
      if !(8 <= last <= sp - 8) then None
      else match FollowBack(b, last)
        case None => None
        case Some(s) => Some(s + [b[last..sp - 8]])
  }

  lemma {:induction false} FollowIgnoresPointerAndFree(b: seq<byte>, c: seq<byte>, sp: nat)
    requires 8 <= sp <= |b| == |c| && forall k | 8 <= k < sp :: b[k] == c[k]
    ensures FollowBack(b, sp) == FollowBack(c, sp)
    decreases sp
  {
    if sp < 16 {
    } else {
      assert b[sp - 8..sp] == c[sp - 8..sp];
      var last := ReadU64(b, sp - 8);
      if 8 <= last <= sp - 8 {
        FollowIgnoresPointerAndFree(b, c, last);
        assert b[last..sp - 8] == c[last..sp - 8];
      }
    }
  }

  lemma PopKeepsBelow(b: seq<byte>, sp: nat, last: nat)
    requires 8 <= last <= sp <= |b|
    ensures forall k | 8 <= k < last :: PopBytes(b, sp, last)[k] == b[k]
  {
  }

  /** One step down the back pointers. */
  lemma FollowTop(b: seq<byte>, c: seq<byte>, sp: nat, last: nat, s: seq<Message>)
    requires 8 <= last <= sp - 8 && sp <= |b| == |c| && ReadU64(b, sp - 8) == last && FollowBack(c, last) == Some(s)
    requires forall k | 8 <= k < last :: b[k] == c[k]
    ensures FollowBack(b, sp) == Some(s + [b[last..sp - 8]])
  {
    FollowIgnoresPointerAndFree(b, c, last);
    hide ReadU64;
  }

  /** Following the back pointers of an image recovers exactly the stack it represents. */
  lemma {:induction false} FollowImage(b: seq<byte>, s: seq<Message>)
    requires Holds(b, s)
    ensures FollowBack(b, ReadU64(b, 0)) == Some(s)
    decreases |s|
  {
    StackPointer(b, s);
    hide Holds, PopBytes, U64, ReadU64;
    if s == [] {
    } else {
      hide Elements, FollowBack;
      var below, m := s[..|s| - 1], s[|s| - 1];
      assert s == below + [m];
      TopElement(b, below, m);
      PopImage(b, below, m);
      var c := PopBytes(b, Top(s), Top(below));
      PopKeepsBelow(b, Top(s), Top(below));
      FollowImage(c, below);
      StackPointer(c, below);
      FollowTop(b, c, Top(s), Top(below), below);
    }
  }

  /** A buffer represents at most one stack. */
  lemma HoldsUnique(b: seq<byte>, s: seq<Message>, t: seq<Message>)
    requires Holds(b, s) && Holds(b, t)
    ensures s == t
  {
    FollowImage(b, s);
    FollowImage(b, t);
  }

  // --------------------------------------------------- operations cut off between two writes

  /** A push cut off after its first `n` writes. */
  function PartialPush(b: seq<byte>, sp: nat, data: seq<byte>, n: nat): (r: seq<byte>)
    requires 8 <= sp && sp + |data| + 8 <= |b| && n <= 2
    ensures |r| == |b|
  {
    if n == 0 then b
    else if n == 1 then Splice(b, sp, data)
    else Splice(Splice(b, sp, data), sp + |data|, U64(sp))
  }

  /** Until the stack pointer is written a push shows nothing: readers still find the old stack. */
  lemma PushCommitsLast(b: seq<byte>, s: seq<Message>, m: Message, n: nat)
    requires Holds(b, s) && Fits(s, |m|, |b|) && n <= 2
    ensures var c := PartialPush(b, Top(s), m, n);
            ReadU64(c, 0) == Top(s) && FollowBack(c, ReadU64(c, 0)) == Some(s)
  {
    StackPointer(b, s);
    FollowImage(b, s);
    hide Holds, U64, Elements, FollowBack;
    var c := PartialPush(b, Top(s), m, n);
    SpliceIndex(b, Top(s), m);
    SpliceIndex(Splice(b, Top(s), m), Top(s) + |m|, U64(Top(s)));
    assert forall k | 0 <= k < Top(s) :: b[k] == c[k];
    assert c[0..8] == b[0..8];
    FollowIgnoresPointerAndFree(b, c, Top(s));
  }

  /** A pop takes effect with its first write: readers find the smaller stack although nothing is cleared yet. */
  lemma PopCommitsFirst(b: seq<byte>, s: seq<Message>, m: Message)
    requires Holds(b, s + [m])
    ensures var c := Splice(b, 0, U64(Top(s)));
            ReadU64(c, 0) == Top(s) && FollowBack(c, ReadU64(c, 0)) == Some(s)
  {
    HoldsSize(b, s + [m]);
    TopElement(b, s, m);
    PopImage(b, s, m);
    var c, d := Splice(b, 0, U64(Top(s))), PopBytes(b, Top(s + [m]), Top(s));
    StackPointer(d, s);
    FollowImage(d, s);
    hide Holds, Elements, FollowBack;
    ReadWritten(b, 0, Top(s));
    PopKeepsBelow(b, Top(s + [m]), Top(s));
    SpliceIndex(b, 0, U64(Top(s)));
    FollowIgnoresPointerAndFree(d, c, Top(s));
  }

  // ------------------------------------------------------------------------ whole runs

  /** An operation of either side; `readable` says whether the reader can decode the top message. */
  datatype Op = Push(data: Message) | Pop(readable: bool)

  /** One operation on the bytes of a well-formed buffer. */
  function StepBytes(b: seq<byte>, op: Op): (r: seq<byte>)
    requires 8 <= |b|
    ensures |r| == |b|
  {
    var sp := ReadU64(b, 0);
    match op
    case Push(data) =>
      if 8 <= sp && sp + |data| + 8 <= |b| then PushBytes(b, sp, data) else b
    case Pop(readable) =>
      if readable && 16 <= sp <= |b| && ReadU64(b, sp - 8) <= sp
      then PopBytes(b, sp, ReadU64(b, sp - 8)) else b
  }

  /** The same operation on the stack: a push without room and a pop that fails change nothing. */
  function StepStack(s: seq<Message>, op: Op, size: nat): seq<Message> {
    match op
    case Push(data) => if Fits(s, |data|, size) then s + [data] else s
    case Pop(readable) => if readable && s != [] then s[..|s| - 1] else s
  }

  function RunBytes(b: seq<byte>, ops: seq<Op>): (r: seq<byte>)
    requires 8 <= |b|
    ensures |r| == |b|
    decreases |ops|
  {
    if ops == [] then b else RunBytes(StepBytes(b, ops[0]), ops[1..])
  }

  function RunStack(s: seq<Message>, ops: seq<Op>, size: nat): seq<Message>
    decreases |ops|
  {
    if ops == [] then s else RunStack(StepStack(s, ops[0], size), ops[1..], size)
  }

  lemma HoldsSize(b: seq<byte>, s: seq<Message>)
    requires Holds(b, s)
    ensures 8 <= Top(s) <= |b| < TWO64
  {
  }

  lemma StepRefines(b: seq<byte>, s: seq<Message>, op: Op)
    requires Holds(b, s)
    ensures Holds(StepBytes(b, op), StepStack(s, op, |b|))
  {
    hide PushBytes, PopBytes, Holds;
    HoldsSize(b, s);
    StackPointer(b, s);
    if op.Push? && Fits(s, |op.data|, |b|) {
      PushImage(b, s, op.data);
    } else if op.Pop? && s != [] {
      assert s == s[..|s| - 1] + [s[|s| - 1]];
      TopElement(b, s[..|s| - 1], s[|s| - 1]);
      PopImage(b, s[..|s| - 1], s[|s| - 1]);
    }
  }

  /** In every run the bytes are the image of the stack the operations describe. */
  lemma {:induction false} RunRefines(b: seq<byte>, s: seq<Message>, ops: seq<Op>)
    requires Holds(b, s)
    ensures Holds(RunBytes(b, ops), RunStack(s, ops, |b|))
    decreases |ops|
  {
    if ops == [] {
    } else {
      StepRefines(b, s, ops[0]);
      RunRefines(StepBytes(b, ops[0]), StepStack(s, ops[0], |b|), ops[1..]);
    }
  }

  /** A zeroed buffer whose stack pointer is 8 is the image of the empty stack. */
  lemma FreshBuffer(b: seq<byte>)
    requires 8 <= |b| < TWO64 && b == U64(8) + Zeros(|b| - 8)
    ensures Holds(b, [])
  {
  }

  /** A successful push and the pop that follows restore the buffer byte for byte. */
  lemma PushPopRestores(b: seq<byte>, s: seq<Message>, m: Message)
    requires Holds(b, s) && Fits(s, |m|, |b|)
    ensures RunBytes(b, [Push(m), Pop(true)]) == b
  {
    var ops := [Push(m), Pop(true)];
    RunRefines(b, s, ops);
    assert ops[1..] == [Pop(true)];
    assert RunStack(s, ops, |b|) == RunStack(s + [m], [Pop(true)], |b|);
    assert (s + [m])[..|s|] == s;
    assert RunStack(s + [m], [Pop(true)], |b|) == s;
  }
}
