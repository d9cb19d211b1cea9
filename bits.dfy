/** Python's bitwise operators on non-negative integers. A shift right by k
    is division by 2^k, a contiguous mask is a remainder; only `|` needs a
    definition of its own, because the serialisers OR fields that can overlap. */
module Bits {

  function Pow2(k: nat): (r: nat)
    ensures r >= 1
  {
    if k == 0 then 1 else 2 * Pow2(k - 1)
  }

  /** `a | b`, bit by bit from the least significant end. */
  function Or(a: nat, b: nat): nat
    decreases a + b
  {
    if a == 0 then b
    else if b == 0 then a
    else 2 * Or(a / 2, b / 2) + (if a % 2 == 1 || b % 2 == 1 then 1 else 0)
  }

  lemma {:induction false} OrCommutes(a: nat, b: nat)
    ensures Or(a, b) == Or(b, a)
    decreases a + b
  {
    if a != 0 && b != 0 {
      OrCommutes(a / 2, b / 2);
    }
  }

  /** `(hi << k) | lo` with lo below 2^k: the two operands share no set
      bit, so the OR is their sum. */
  lemma {:induction false} OrShifted(hi: nat, lo: nat, k: nat)
    requires lo < Pow2(k)
    ensures Or(hi * Pow2(k), lo) == hi * Pow2(k) + lo
    decreases k
  {
    if k == 0 {
      assert lo == 0;
    } else if hi == 0 || lo == 0 {
    } else {
      var x := hi * Pow2(k - 1);
      assert hi * Pow2(k) == 2 * x;
      OrShifted(hi, lo / 2, k - 1);
    }
  }

  /** Shifting both operands left by one bit shifts their OR. */
  lemma OrDouble(x: nat, y: nat)
    ensures Or(2 * x, 2 * y) == 2 * Or(x, y)
  {
    if x != 0 && y != 0 {
      assert (2 * x) / 2 == x && (2 * y) / 2 == y;
    }
  }

  lemma MulAssoc(a: nat, b: nat, c: nat)
    ensures a * (b * c) == (a * b) * c
  {
  }

  lemma Twice(x: nat, p: nat)
    ensures x * (2 * p) == 2 * (x * p)
  {
  }

  /** `(x << k) | (y << k) == (x | y) << k`. */
  lemma {:induction false} OrScale(x: nat, y: nat, k: nat)
    ensures Or(x * Pow2(k), y * Pow2(k)) == Or(x, y) * Pow2(k)
    decreases k
  {
    if k == 0 {
      assert Pow2(0) == 1;
    } else {
      var p := Pow2(k - 1);
      calc {
        Or(x * Pow2(k), y * Pow2(k));
        { assert Pow2(k) == 2 * p; Twice(x, p); Twice(y, p); }
        Or(2 * (x * p), 2 * (y * p));
        { OrDouble(x * p, y * p); }
        2 * Or(x * p, y * p);
        { OrScale(x, y, k - 1); }
        2 * (Or(x, y) * p);
        { Twice(Or(x, y), p); assert Pow2(k) == 2 * p; }
        Or(x, y) * Pow2(k);
      }
    }
  }

  /** `(hi << k) | (lo << j)` with j <= k and lo below 2^(k-j): the two
      fields share no set bit, so the OR is their sum. */
  lemma {:induction false} OrFields(hi: nat, lo: nat, k: nat, j: nat)
    requires j <= k && lo < Pow2(k - j)
    ensures Or(hi * Pow2(k), lo * Pow2(j)) == hi * Pow2(k) + lo * Pow2(j)
  {
    var p, q := Pow2(k - j), Pow2(j);
    var h := hi * p;
    assert k - j + j == k;
    PowAdd(k - j, j);
    MulAssoc(hi, p, q);
    OrScale(h, lo, j);
    OrShifted(hi, lo, k - j);
    Distrib(h, lo, q);
  }

  /** `OrFields` with the two powers of two given as values. */
  lemma {:induction false} OrFieldsAt(hi: nat, lo: nat, k: nat, j: nat, p: nat, q: nat)
    requires j <= k && lo < Pow2(k - j) && p == Pow2(k) && q == Pow2(j)
    ensures Or(hi * p, lo * q) == hi * p + lo * q
  {
    OrFields(hi, lo, k, j);
  }

  /** `OrShifted` with the power of two given as a value. */
  lemma {:induction false} OrShiftedAt(hi: nat, lo: nat, k: nat, p: nat)
    requires p == Pow2(k) && lo < p
    ensures Or(hi * p, lo) == hi * p + lo
  {
    OrShifted(hi, lo, k);
  }

  lemma Distrib(a: nat, b: nat, c: nat)
    ensures (a + b) * c == a * c + b * c
  {
  }

  lemma {:induction false} PowAdd(a: nat, b: nat)
    ensures Pow2(a + b) == Pow2(a) * Pow2(b)
    decreases a
  {
    if a > 0 {
      PowAdd(a - 1, b);
    }
  }

  lemma Pow2Values()
    ensures Pow2(3) == 8 && Pow2(4) == 16 && Pow2(5) == 32 && Pow2(6) == 64 && Pow2(7) == 128
    ensures Pow2(8) == 0x100 && Pow2(11) == 0x800
    ensures Pow2(13) == 0x2000 && Pow2(16) == 0x1_0000 && Pow2(24) == 0x100_0000
    ensures Pow2(28) == 0x1000_0000 && Pow2(29) == 0x2000_0000 && Pow2(32) == 0x1_0000_0000
  {
  }

  /** `a | b` on Python integers of either sign, as far as the serialisers
      need it: an OR with a negative operand is negative (two's complement),
      which every unsigned pack then rejects; its exact value is not kept. */
  function IntOr(a: int, b: int): (r: int)
    ensures r < 0 <==> a < 0 || b < 0
    ensures a >= 0 && b >= 0 ==> r == Or(a, b)
  {
    if a < 0 || b < 0 then -1 else Or(a, b)
  }
}
