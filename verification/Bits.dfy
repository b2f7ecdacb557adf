/**
Bitwise operators of unsigned machine words, defined bit by bit on naturals, and the
arithmetic they amount to on the operands the memory code uses: rounding up to a page,
and combining an aligned address with flag bits.
*/
module Bits {
  import opened Bytes

  const PAGE_SIZE: nat := 0x1000

  function Pow2(k: nat): (r: nat)
    ensures r > 0
  {
    if k == 0 then 1 else 2 * Pow2(k - 1)
  }

  function BitOr(a: nat, b: nat): nat
    decreases a + b
  {
    if a == 0 && b == 0 then 0
    else 2 * BitOr(a / 2, b / 2) + (if a % 2 == 1 || b % 2 == 1 then 1 else 0)
  }

  /** `a & b` of two `w`-bit words. */
  function BitAnd(a: nat, b: nat, w: nat): nat {
    if w == 0 then 0
    else 2 * BitAnd(a / 2, b / 2, w - 1) + (if a % 2 == 1 && b % 2 == 1 then 1 else 0)
  }

  /** `!a` of a 64-bit word. */
  function Not64(a: nat): (r: nat)
    requires a < TWO64
  {
    TWO64 - 1 - a
  }

  lemma {:induction false} OrZero(a: nat)
    ensures BitOr(a, 0) == a == BitOr(0, a)
  {
    if a == 0 {
    } else {
      OrZero(a / 2);
    }
  }

  /** Or with a word whose low `k` bits are clear leaves the other's low bits alone. */
  lemma {:induction false} OrLow(high: nat, low: nat, high': nat, k: nat)
    requires low < Pow2(k)
    ensures BitOr(high * Pow2(k), low + high' * Pow2(k)) == low + BitOr(high, high') * Pow2(k)
  {
    if k == 0 {
    } else {
      var h := Pow2(k - 1);
      TimesTwice(high, h);
      TimesTwice(high', h);
      TimesTwice(BitOr(high, high'), h);
      OrLow(high, low / 2, high', k - 1);
    }
  }

  lemma TimesTwice(x: nat, h: nat)
    ensures x * (2 * h) == 2 * (x * h)
  {
  }

  /** Or of words that share no bit is their sum. */
  lemma OrDisjoint(high: nat, low: nat, k: nat)
    requires low < Pow2(k)
    ensures BitOr(high * Pow2(k), low) == high * Pow2(k) + low == BitOr(low, high * Pow2(k))
  {
    hide Pow2, BitOr;
    OrLow(high, low, 0, k);
    OrZero(high);
    assert low + 0 * Pow2(k) == low;
    OrCommutes(high * Pow2(k), low);
  }

  lemma {:induction false} OrCommutes(a: nat, b: nat)
    ensures BitOr(a, b) == BitOr(b, a)
    decreases a + b
  {
    if a + b == 0 {
    } else {
      OrCommutes(a / 2, b / 2);
    }
  }

  /** Masking with `!(2^k - 1)` clears the low `k` bits. */
  lemma {:induction false} AndHighMask(high: nat, low: nat, k: nat, w: nat)
    requires k <= w && low < Pow2(k) && low + high * Pow2(k) < Pow2(w)
    ensures Pow2(k) <= Pow2(w)
    ensures BitAnd(low + high * Pow2(k), Pow2(w) - Pow2(k), w) == high * Pow2(k)
  {
    if k == 0 {
      hide BitAnd;
      AndOnes(high, w);
    } else {
      var h := high * Pow2(k - 1);
      TimesTwice(high, Pow2(k - 1));
      AndHighMask(high, low / 2, k - 1, w - 1);
      AndEven(low + 2 * h, Pow2(w - 1) - Pow2(k - 1), w);
      assert (low + 2 * h) / 2 == low / 2 + h;
    }
  }

  lemma AndEven(a: nat, half: nat, w: nat)
    requires w > 0
    ensures BitAnd(a, 2 * half, w) == 2 * BitAnd(a / 2, half, w - 1)
  {
  }

  lemma {:induction false} AndOnes(a: nat, w: nat)
    requires a < Pow2(w)
    ensures BitAnd(a, Pow2(w) - 1, w) == a
  {
    if w == 0 {
    } else {
      AndOnes(a / 2, w - 1);
    }
  }

  lemma Pow2Values()
    ensures Pow2(12) == 0x1000 && Pow2(21) == 0x20_0000 && Pow2(51) == 0x8_0000_0000_0000
    ensures Pow2(63) == 0x8000_0000_0000_0000 && Pow2(64) == TWO64
    ensures Pow2(1) == 2 && Pow2(2) == 4
  {
    assert Pow2(12) == 0x1000 && Pow2(21) == 0x20_0000 && Pow2(15) == 0x8000;
    Pow2Add(15, 15);
    assert Pow2(30) == 0x4000_0000;
    Pow2Add(30, 21);
    Pow2Add(51, 12);
    Pow2Add(63, 1);
  }

  lemma {:induction false} Pow2Add(a: nat, b: nat)
    ensures Pow2(a + b) == Pow2(a) * Pow2(b)
    decreases b
  {
    if b == 0 {
    } else {
      Pow2Add(a, b - 1);
      TimesTwice(Pow2(a), Pow2(b - 1));
    }
  }

  /** `round_up_to(value, PAGE_SIZE)`, as the code computes it. */
  function PageUp(value: nat): nat {
    BitAnd(value + PAGE_SIZE - 1, Not64(PAGE_SIZE - 1), 64)
  }

  predicate PageAligned(n: nat) {
    n % PAGE_SIZE == 0
  }

  lemma AlignedSum(a: nat, b: nat)
    requires PageAligned(a) && PageAligned(b)
    ensures PageAligned(a + b)
  {
  }

  /** It is the least multiple of the page size that is not below `value`. */
  lemma PageUpRounds(value: nat)
    requires value + PAGE_SIZE - 1 < TWO64
    ensures PageUp(value) % PAGE_SIZE == 0 && value <= PageUp(value) < value + PAGE_SIZE
  {
    hide Pow2;
    Pow2Values();
    var v := value + PAGE_SIZE - 1;
    AndHighMask(v / PAGE_SIZE, v % PAGE_SIZE, 12, 64);
  }

  lemma PageUpUnique(value: nat, r: nat)
    requires value + PAGE_SIZE - 1 < TWO64
    requires r % PAGE_SIZE == 0 && value <= r < value + PAGE_SIZE
    ensures PageUp(value) == r
  {
    hide BitAnd;
    PageUpRounds(value);
  }

  /** Rounding past an aligned start rounds the size. */
  lemma PageUpFrom(start: nat, size: nat)
    requires start % PAGE_SIZE == 0 && start + size + PAGE_SIZE - 1 < TWO64
    ensures PageUp(start + size) == start + PageUp(size)
  {
    hide BitAnd;
    PageUpRounds(size);
    PageUpUnique(start + size, start + PageUp(size));
  }
}
