/**
Bytes, little-endian integers and writes into a byte sequence. Every other module
describes memory with these three notions: `LE`/`FromLE` are Rust's `to_le_bytes` and
`from_le_bytes`, and `Splice` is what `copy_from_slice` at an offset does to a memory.
*/
module Bytes {

  type byte = x: int | 0 <= x < 256

  const TWO32: int := 0x1_0000_0000
  const TWO64: int := 0x1_0000_0000_0000_0000

  datatype Option<+T> = None | Some(value: T)

  function Pow256(n: nat): (r: nat)
    ensures r > 0
  {
    if n == 0 then 1 else 256 * Pow256(n - 1)
  }

  /** The `n` least significant bytes of `v`, least significant first. */
  function LE(v: nat, n: nat): (s: seq<byte>)
    ensures |s| == n
  {
    if n == 0 then [] else [v % 256] + LE(v / 256, n - 1)
  }

  function FromLE(s: seq<byte>): nat {
    if s == [] then 0 else s[0] + 256 * FromLE(s[1..])
  }

  lemma {:induction false} RoundTrip(v: nat, n: nat)
    requires v < Pow256(n)
    ensures FromLE(LE(v, n)) == v
  {
    if n == 0 {
    } else {
      RoundTrip(v / 256, n - 1);
      assert LE(v, n)[1..] == LE(v / 256, n - 1);
    }
  }

  lemma {:induction false} RoundTripBack(s: seq<byte>)
    ensures LE(FromLE(s), |s|) == s
  {
    if s == [] {
    } else {
      RoundTripBack(s[1..]);
    }
  }

  /** A byte behind the others is worth a higher power of 256: the least significant comes first. */
  lemma {:induction false} FromLESnoc(s: seq<byte>, x: byte)
    ensures FromLE(s + [x]) == FromLE(s) + x * Pow256(|s|)
  {
    if s == [] {
    } else {
      assert (s + [x])[1..] == s[1..] + [x];
      FromLESnoc(s[1..], x);
      var p := Pow256(|s| - 1);
      assert x * (256 * p) == 256 * (x * p);
    }
  }

  /** Fewer bytes are a prefix. */
  lemma {:induction false} LEPrefix(v: nat, n: nat, j: nat)
    requires j <= n
    ensures LE(v, n)[..j] == LE(v, j)
  {
    if j == 0 {
    } else {
      LEPrefix(v / 256, n - 1, j - 1);
    }
  }

  /** The low bytes of a sum depend on the low bytes only. */
  lemma {:induction false} LEAdd(x: nat, y: nat, d: nat, n: nat)
    requires LE(x, n) == LE(y, n)
    ensures LE(x + d, n) == LE(y + d, n)
    decreases n
  {
    if n == 0 {
    } else {
      assert LE(x, n)[0] == LE(y, n)[0] && LE(x, n)[1..] == LE(x / 256, n - 1) && LE(y, n)[1..] == LE(y / 256, n - 1);
      var carry := (x % 256 + d) / 256;
      assert (x + d) / 256 == x / 256 + carry && (y + d) / 256 == y / 256 + carry;
      LEAdd(x / 256, y / 256, carry, n - 1);
    }
  }

  /** Whatever lies above `n` bytes does not show in them. */
  lemma {:induction false} LEHigh(v: nat, k: nat, n: nat)
    ensures LE(v + k * Pow256(n), n) == LE(v, n)
    decreases n
  {
    if n == 0 {
    } else {
      var high := k * Pow256(n - 1);
      assert k * Pow256(n) == 256 * high;
      assert (v + 256 * high) % 256 == v % 256 && (v + 256 * high) / 256 == v / 256 + high;
      LEHigh(v / 256, k, n - 1);
    }
  }

  lemma Pow256Values()
    ensures Pow256(4) == TWO32 && Pow256(8) == TWO64
  {
  }

  /** The encoding of a `u64`. */
  function U64(v: nat): (s: seq<byte>)
    ensures |s| == 8
  {
    LE(v, 8)
  }

  /** `s` with the bytes from `off` on replaced by `data`. */
  function Splice(s: seq<byte>, off: nat, data: seq<byte>): (r: seq<byte>)
    requires off + |data| <= |s|
    ensures |r| == |s|
  {
    s[..off] + data + s[off + |data|..]
  }

  /** Writing one byte more. */
  lemma SpliceSnoc(s: seq<byte>, off: nat, data: seq<byte>, v: byte)
    requires off + |data| < |s|
    ensures Splice(s, off, data + [v]) == Splice(s, off, data)[off + |data| := v]
  {
  }

  function Repeat(v: byte, n: nat): (s: seq<byte>)
    ensures |s| == n && forall k | 0 <= k < n :: s[k] == v
  {
    seq(n, _ => v)
  }

  function Zeros(n: nat): (s: seq<byte>)
    ensures |s| == n && forall k | 0 <= k < n :: s[k] == 0
  {
    Repeat(0, n)
  }

  function ReadU64(s: seq<byte>, off: nat): nat
    requires off + 8 <= |s|
  {
    FromLE(s[off..off + 8])
  }

  lemma U64RoundTrip(v: nat)
    requires v < TWO64
    ensures FromLE(U64(v)) == v
  {
    Pow256Values();
    RoundTrip(v, 8);
  }

  lemma ReadWritten(s: seq<byte>, off: nat, v: nat)
    requires off + 8 <= |s| && v < TWO64
    ensures ReadU64(Splice(s, off, U64(v)), off) == v
  {
    assert Splice(s, off, U64(v))[off..off + 8] == U64(v);
    U64RoundTrip(v);
  }

  lemma ReadElsewhere(s: seq<byte>, off: nat, data: seq<byte>, at: nat)
    requires off + |data| <= |s| && at + 8 <= |s|
    requires at + 8 <= off || off + |data| <= at
    ensures ReadU64(Splice(s, off, data), at) == ReadU64(s, at)
  {
    assert Splice(s, off, data)[at..at + 8] == s[at..at + 8];
  }

  lemma SliceOfSlice(s: seq<byte>, start: nat, size: nat, at: nat, n: nat)
    requires start + size <= |s| && at + n <= size
    ensures s[start..start + size][at..at + n] == s[start + at..start + at + n]
  {
    var l, r := s[start..start + size][at..at + n], s[start + at..start + at + n];
    forall k | 0 <= k < n ensures l[k] == r[k] {
      assert l[k] == s[start..start + size][at + k] == s[start + at + k];
    }
  }

  /** The bytes of a write, one by one. */
  lemma SpliceIndex(s: seq<byte>, off: nat, data: seq<byte>)
    requires off + |data| <= |s|
    ensures forall k | 0 <= k < |s| ::
              Splice(s, off, data)[k] == if off <= k < off + |data| then data[k - off] else s[k]
  {
  }

  /** The window of `size` bytes at `start`. */
  function Window(s: seq<byte>, start: nat, size: nat): (w: seq<byte>)
    requires start + size <= |s|
    ensures |w| == size
  {
    s[start..start + size]
  }

  /** Nothing outside the window at `start` differs. */
  ghost predicate SameOutside(s: seq<byte>, t: seq<byte>, start: nat, size: nat) {
    |s| == |t| && forall k | 0 <= k < |s| && !(start <= k < start + size) :: s[k] == t[k]
  }

  lemma SameOutsideRefl(s: seq<byte>, start: nat, size: nat)
    ensures SameOutside(s, s, start, size)
  {
  }

  lemma SameOutsideTrans(s: seq<byte>, t: seq<byte>, u: seq<byte>, start: nat, size: nat)
    requires SameOutside(s, t, start, size) && SameOutside(t, u, start, size)
    ensures SameOutside(s, u, start, size)
  {
  }

  /** What is confined to one window leaves every other window as it was. */
  lemma KeepsWindow(s: seq<byte>, t: seq<byte>, at: nat, n: nat, start: nat, size: nat)
    requires SameOutside(s, t, at, n) && start + size <= |s| && (start + size <= at || at + n <= start)
    ensures |t| == |s| && Window(t, start, size) == Window(s, start, size)
  {
    forall k | 0 <= k < size ensures Window(t, start, size)[k] == Window(s, start, size)[k] {
      assert s[start + k] == t[start + k];
    }
  }

  /** A write inside a window is that write on the window and nothing else. */
  lemma SpliceWindow(s: seq<byte>, start: nat, size: nat, off: nat, data: seq<byte>)
    requires start + size <= |s| && off + |data| <= size
    ensures Window(Splice(s, start + off, data), start, size) == Splice(Window(s, start, size), off, data)
    ensures SameOutside(s, Splice(s, start + off, data), start, size)
  {
    var t, w := Splice(s, start + off, data), Window(s, start, size);
    SpliceIndex(s, start + off, data);
    SpliceIndex(w, off, data);
    forall k | 0 <= k < size ensures Window(t, start, size)[k] == Splice(w, off, data)[k] {
      assert Window(t, start, size)[k] == t[start + k];
    }
  }
}
