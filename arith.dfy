/** Small facts about integer division and multiplication used by the
    codec proofs. Division here is Dafny's, which agrees with Python's `//`
    whenever the divisor is positive. */
module Arith {

  function Abs(a: int): nat { if a < 0 then -a else a }

  lemma MulMono(k: int, d: int)
    requires d > 0
    ensures k >= 1 ==> k * d >= d
    ensures k <= -1 ==> k * d <= -d
  {
  }

  lemma MulLe(a: int, b: int, c: int)
    requires 0 <= c && a <= b
    ensures a * c <= b * c
  {
  }

  /** Division by d undoes multiplication by d, whatever the remainder. */
  lemma DivAdd(q: int, r: int, d: int)
    requires d > 0 && 0 <= r < d
    ensures (q * d + r) / d == q && (q * d + r) % d == r
  {
    var x := q * d + r;
    var k := q - x / d;
    assert x == (x / d) * d + x % d;
    assert k * d == x % d - r;
    MulMono(k, d);
  }

  lemma DivLt(a: int, b: int, c: int)
    requires 0 <= a < b * c && b > 0
    ensures a / b < c
  {
    assert a >= (a / b) * b;
    if a / b >= c {
      MulLe(c, a / b, b);
    }
  }

  lemma DivDiv(a: nat, b: nat, c: nat)
    requires b > 0 && c > 0
    ensures a / b / c == a / (b * c)
  {
    var q := a / b / c;
    var r1 := a % b;
    var r2 := (a / b) % c;
    assert a / b == q * c + r2;
    assert a == (q * c + r2) * b + r1;
    assert a == q * (b * c) + (r2 * b + r1);
    assert r2 * b + r1 < b * c by {
      MulLe(r2, c - 1, b);
    }
    DivAdd(q, r2 * b + r1, b * c);
  }

  /** Floor division by a positive divisor is monotonic. */
  lemma DivMono(x: int, y: int, d: int)
    requires d > 0 && x <= y
    ensures x / d <= y / d
  {
    var qx, qy := x / d, y / d;
    assert x == qx * d + x % d && y == qy * d + y % d;
    if qx > qy {
      MulLe(qy + 1, qx, d);
    }
  }
}
