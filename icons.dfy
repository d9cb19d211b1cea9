/** magellan/icons.py: the `group` helper, the `bf` bitfield object and
    `Icon.getImage`'s pixel unpacking, reshaping and grey palettes. Bits are
    those of Python's unbounded two's-complement integers: `d >> i` is floor
    division by 2^i, which is Dafny's `/` for a positive divisor, and
    `x & (2^w - 1)` is `x % 2^w`. */
module Icons {
  import opened Wrappers
  import opened Bits
  import opened Arith
  import opened Chunks

  // ------------------------------------------------------------ group

  /** `group(lst, n)`: zipping the n strided slices `lst[i::n]` gives the
      consecutive n-tuples; an incomplete tail is dropped, and a size of 0
      or less zips nothing. Tuple k holds `lst[k*n + i]` at position i. */
  function Group<T>(lst: seq<T>, n: int): (r: seq<seq<T>>)
    ensures n <= 0 ==> r == []
    ensures n > 0 ==> |r| == |lst| / n
    ensures n > 0 ==> forall k :: 0 <= k < |r| ==> |r[k]| == n
  {
    if n <= 0 then []
    else
      var q := |lst| / n;
      seq(q, k requires 0 <= k < q =>
        seq(n, i requires 0 <= i < n => GroupItem(lst, n, k, i)))
  }

  function GroupItem<T>(lst: seq<T>, n: nat, k: nat, i: nat): T
    requires n > 0 && k < |lst| / n && i < n
  {
    GroupIndex(|lst|, n, k, i);
    lst[k * n + i]
  }

  lemma GroupIndex(len: nat, n: nat, k: nat, i: nat)
    requires n > 0 && k < len / n && i < n
    ensures k * n + i < (k + 1) * n <= len / n * n <= len
  {
    MulSucc(k, n);
    MulLe(k + 1, len / n, n);
    assert len == len / n * n + len % n;
  }

  /** Tuple k is the slice `lst[k*n : k*n + n]`. */
  lemma GroupSlices<T>(lst: seq<T>, n: int, k: nat)
    requires n > 0 && k < |lst| / n
    ensures k * n + n <= |lst| && Group(lst, n)[k] == lst[k * n..k * n + n]
  {
    GroupIndex(|lst|, n, k, 0);
    MulSucc(k, n);
  }

  /** The tuples, put back together, are the list without its incomplete
      tail: nothing is reordered and fewer than n items are lost. */
  lemma GroupFlattens<T>(lst: seq<T>, n: int)
    requires n > 0
    ensures |lst| / n * n <= |lst| < |lst| / n * n + n
    ensures Concat(Group(lst, n)) == lst[..|lst| / n * n]
  {
    var q := |lst| / n;
    assert |lst| == q * n + |lst| % n;
    GroupPrefix(lst, n, q);
    assert Group(lst, n)[..q] == Group(lst, n);
  }

  lemma {:induction false} GroupPrefix<T>(lst: seq<T>, n: int, m: nat)
    requires n > 0 && m <= |lst| / n
    ensures m * n <= |lst| && Concat(Group(lst, n)[..m]) == lst[..m * n]
  {
    var g := Group(lst, n);
    if m == 0 {
      assert g[..0] == [];
    } else {
      GroupPrefix(lst, n, m - 1);
      GroupSlices(lst, n, m - 1);
      MulSucc(m - 1, n);
      assert g[..m] == g[..m - 1] + [g[m - 1]];
      ConcatAppend(g[..m - 1], g[m - 1]);
      assert lst[..(m - 1) * n] + lst[(m - 1) * n..m * n] == lst[..m * n];
    }
  }

  // ------------------------------------------------------------ bits

  /** Bit i of d, counted from the least significant end. */
  function Bit(d: int, i: nat): (b: int)
    ensures b == 0 || b == 1
    decreases i
  {
    if i == 0 then d % 2 else Bit(d / 2, i - 1)
  }

  /** d with bit i replaced by v & 1. */
  function WithBit(d: int, i: nat, v: int): int
    decreases i
  {
    if i == 0 then d / 2 * 2 + v % 2 else WithBit(d / 2, i - 1, v) * 2 + d % 2
  }

  /** Bits [s, s + w) of d as a number. */
  function Field(d: int, s: nat, w: nat): (r: int)
    ensures 0 <= r < Pow2(w)
    decreases w
  {
    if w == 0 then 0 else Bit(d, s) + 2 * Field(d, s + 1, w - 1)
  }

  /** d with bits [s, s + w) replaced by the low w bits of v. */
  function WithField(d: int, s: nat, w: nat, v: int): int
    decreases w
  {
    if w == 0 then d else WithField(WithBit(d, s, v % 2), s + 1, w - 1, v / 2)
  }

  /** Setting a bit changes that bit to v & 1 and no other. */
  lemma {:induction false} WithBitBits(d: int, i: nat, v: int, j: nat)
    ensures Bit(WithBit(d, i, v), j) == if j == i then v % 2 else Bit(d, j)
    decreases i
  {
    if i == 0 {
      if j > 0 {
        DivAdd(d / 2, v % 2, 2);
      }
    } else {
      var w := WithBit(d / 2, i - 1, v);
      DivAdd(w, d % 2, 2);
      if j > 0 {
        WithBitBits(d / 2, i - 1, v, j - 1);
      }
    }
  }

  /** `x << s`. */
  function Shl(x: int, s: nat): int
    decreases s
  {
    if s == 0 then x else 2 * Shl(x, s - 1)
  }

  lemma {:induction false} ShlIsMul(x: int, s: nat)
    ensures Shl(x, s) == x * Pow2(s)
    decreases s
  {
    if s > 0 {
      ShlIsMul(x, s - 1);
      assert 2 * (x * Pow2(s - 1)) == x * (2 * Pow2(s - 1));
    }
  }

  lemma {:induction false} ShlAdd(x: int, y: int, z: int, s: nat)
    requires z == x + y
    ensures Shl(x, s) + Shl(y, s) == Shl(z, s)
    decreases s
  {
    if s > 0 {
      ShlAdd(x, y, z, s - 1);
    }
  }

  lemma {:induction false} ShlSucc(x: int, s: nat)
    ensures Shl(x, s + 1) == Shl(2 * x, s)
    decreases s
  {
    if s > 0 {
      ShlSucc(x, s - 1);
    }
  }

  /** The same change as the source's arithmetic
      `(d & ~(1 << i)) | ((v & 1) << i)`: bit i's weight moves from its
      old value to v & 1. */
  lemma {:induction false} WithBitValue(d: int, i: nat, v: int)
    ensures WithBit(d, i, v) == d + Shl(v % 2 - Bit(d, i), i)
    decreases i
  {
    if i > 0 {
      WithBitValue(d / 2, i - 1, v);
      assert d == d / 2 * 2 + d % 2;
    }
  }

  /** Reading from s + 1 is reading from s in half the number. */
  lemma {:induction false} FieldHalf(d: int, s: nat, w: nat)
    ensures Field(d, s + 1, w) == Field(d / 2, s, w)
    decreases w
  {
    if w > 0 {
      FieldHalf(d, s + 1, w - 1);
    }
  }

  /** `(d // 2) // 2^k == d // 2^(k+1)`, also for negative d. */
  lemma HalfThenDiv(d: int, k: nat)
    ensures d / 2 / Pow2(k) == d / Pow2(k + 1)
  {
    var p := Pow2(k);
    var q, r := d / (2 * p), d % (2 * p);
    assert d == q * (2 * p) + r;
    DivAdd(q * p + r / 2, r % 2, 2);
    assert d / 2 == q * p + r / 2;
    DivLt(r, 2, p);
    DivAdd(q, r / 2, p);
  }

  /** A field is the source's `(d >> s) & (2^w - 1)`. */
  lemma {:induction false} FieldValue(d: int, s: nat, w: nat)
    ensures Field(d, s, w) == d / Pow2(s) % Pow2(w)
    decreases s
  {
    if s == 0 {
      LowField(d, w);
    } else {
      FieldHalf(d, s - 1, w);
      FieldValue(d / 2, s - 1, w);
      HalfThenDiv(d, s - 1);
    }
  }

  lemma {:induction false} LowField(x: int, w: nat)
    ensures Field(x, 0, w) == x % Pow2(w)
    decreases w
  {
    if w > 0 {
      FieldHalf(x, 0, w - 1);
      LowField(x / 2, w - 1);
      DoubleMod(x, Pow2(w - 1));
    }
  }

  /** Taking the low bit off and the rest modulo p is taking x modulo 2p. */
  lemma DoubleMod(x: int, p: nat)
    requires p > 0
    ensures x % (2 * p) == x % 2 + 2 * (x / 2 % p)
  {
    var q, r := x / 2 / p, x / 2 % p;
    assert x / 2 == q * p + r;
    assert x == 2 * (x / 2) + x % 2;
    assert 2 * (q * p) == q * (2 * p);
    assert x == q * (2 * p) + (x % 2 + 2 * r);
    DivAdd(q, x % 2 + 2 * r, 2 * p);
  }

  /** A bit is the source's `(d >> i) & 1`. */
  lemma BitValue(d: int, i: nat)
    ensures Bit(d, i) == d / Pow2(i) % 2
  {
    FieldValue(d, i, 1);
  }

  /** A field read covers exactly the bits of its range. */
  lemma {:induction false} FieldBits(d: int, s: nat, w: nat, k: nat)
    requires k < w
    ensures Bit(Field(d, s, w), k) == Bit(d, s + k)
    decreases w
  {
    var rest := Field(d, s + 1, w - 1);
    DivAdd(rest, Bit(d, s), 2);
    if k > 0 {
      FieldBits(d, s + 1, w - 1, k - 1);
    }
  }

  /** Setting a field changes the bits of its range to those of v and no
      other bit. */
  lemma {:induction false} WithFieldBits(d: int, s: nat, w: nat, v: int, j: nat)
    ensures Bit(WithField(d, s, w, v), j) == if s <= j < s + w then Bit(v, j - s) else Bit(d, j)
    decreases w
  {
    if w > 0 {
      var d1 := WithBit(d, s, v % 2);
      WithFieldBits(d1, s + 1, w - 1, v / 2, j);
      WithBitBits(d, s, v % 2, j);
    }
  }

  /** Bit k of d counted from bit s. */
  function BitAt(d: int, s: nat, k: nat): int
  {
    Bit(d, s + k)
  }

  /** Numbers with the same bits on a range read the same field there. */
  lemma {:induction false} FieldOfSameBits(a: int, b: int, s: nat, t: nat, w: nat)
    requires forall k :: 0 <= k < w ==> BitAt(a, s, k) == BitAt(b, t, k)
    ensures Field(a, s, w) == Field(b, t, w)
    decreases w
  {
    if w > 0 {
      assert BitAt(a, s, 0) == BitAt(b, t, 0);
      var s1, t1 := s + 1, t + 1;
      forall k | 0 <= k < w - 1 ensures BitAt(a, s1, k) == BitAt(b, t1, k) {
        assert BitAt(a, s, k + 1) == BitAt(b, t, k + 1);
      }
      FieldOfSameBits(a, b, s + 1, t + 1, w - 1);
    }
  }

  /** The field read back after setting it is v masked to w bits. */
  lemma WithFieldReadsBack(d: int, s: nat, w: nat, v: int)
    ensures Field(WithField(d, s, w, v), s, w) == Field(v, 0, w)
  {
    forall k | 0 <= k < w ensures BitAt(WithField(d, s, w, v), s, k) == BitAt(v, 0, k) {
      WithFieldBits(d, s, w, v, s + k);
    }
    FieldOfSameBits(WithField(d, s, w, v), v, s, 0, w);
  }

  /** The source's arithmetic `(d & ~(m << s)) | ((v & m) << s)` with
      m = 2^w - 1: the field's weight moves from its old value to v's low
      bits. */
  lemma {:induction false} WithFieldValue(d: int, s: nat, w: nat, v: int)
    ensures WithField(d, s, w, v) == d + Shl(Field(v, 0, w) - Field(d, s, w), s)
    decreases w
  {
    if w > 0 {
      var d1, s1 := WithBit(d, s, v % 2), s + 1;
      var a, b, c := Field(v / 2, 0, w - 1), Field(d, s1, w - 1), Bit(d, s);
      calc {
        WithField(d, s, w, v);
        WithField(d1, s1, w - 1, v / 2);
        { WithFieldValue(d1, s1, w - 1, v / 2); }
        d1 + Shl(a - Field(d1, s1, w - 1), s1);
        { WithBitAbove(d, s, v % 2, w - 1); }
        d1 + Shl(a - b, s1);
        { ShlSucc(a - b, s); }
        d1 + Shl(2 * (a - b), s);
        { WithBitValue(d, s, v % 2); }
        d + Shl(v % 2 % 2 - c, s) + Shl(2 * (a - b), s);
        { FieldHalf(v, 0, w - 1);
          ShlAdd(v % 2 % 2 - c, 2 * (a - b), Field(v, 0, w) - Field(d, s, w), s); }
        d + Shl(Field(v, 0, w) - Field(d, s, w), s);
      }
    } else {
      ShlIsMul(0, s);
    }
  }

  /** `WithFieldValue` in the source's own terms: `v & m` is `v % 2^w` and
      `(d >> s) & m` is `d // 2^s % 2^w`. */
  lemma WithFieldArith(d: int, s: nat, w: nat, v: int)
    ensures WithField(d, s, w, v) == d + (v % Pow2(w) - d / Pow2(s) % Pow2(w)) * Pow2(s)
  {
    WithFieldValue(d, s, w, v);
    FieldValue(d, s, w);
    LowField(v, w);
    ShlIsMul(Field(v, 0, w) - Field(d, s, w), s);
  }

  /** Setting bit s leaves the bits above it alone. */
  lemma WithBitAbove(d: int, s: nat, vb: int, w: nat)
    ensures Field(WithBit(d, s, vb), s + 1, w) == Field(d, s + 1, w)
  {
    var d1, s1 := WithBit(d, s, vb), s + 1;
    forall k | 0 <= k < w ensures BitAt(d1, s1, k) == BitAt(d, s1, k) {
      WithBitBits(d, s, vb, s1 + k);
    }
    FieldOfSameBits(d1, d, s1, s1, w);
  }

  /** `bf`: an integer read and written bit by bit. */
  class Bitfield {
    var d: int

    /** `bf(value)`. */
    constructor (value: int)
      ensures d == value
    {
      d := value;
    }

    /** `bf[i]`, that is `(d >> i) & 1`; a negative index is a negative
        shift count. */
    function GetItem(i: int): (r: Result<int>)
      reads this
      ensures i < 0 <==> r == Fail(ValueError)
      ensures i >= 0 ==> r == Ok(d / Pow2(i) % 2)
    {
      if i < 0 then Fail(ValueError)
      else
        BitValue(d, i);
        Ok(Bit(d, i))
    }

    /** `bf[s:e]`, that is `(d >> s) & (2^(e-s) - 1)`. A negative start is
        a negative shift count; an end before the start makes the mask a
        float, which `&` refuses. Negative bounds are not adjusted, because
        `bf` has no length. */
    function GetSlice(s: int, e: int): (r: Result<int>)
      reads this
      ensures s < 0 ==> r == Fail(ValueError)
      ensures 0 <= s && e < s ==> r == Fail(TypeError)
      ensures 0 <= s <= e ==> r == Ok(d / Pow2(s) % Pow2(e - s))
      ensures 0 <= s <= e ==> forall k :: 0 <= k < e - s ==> Bit(r.value, k) == Bit(d, s + k)
    {
      if s < 0 then Fail(ValueError)
      else if e < s then Fail(TypeError)
      else
        var f := Field(d, s, e - s);
        FieldValue(d, s, e - s);
        assert forall k :: 0 <= k < e - s ==> Bit(f, k) == Bit(d, s + k) by {
          forall k | 0 <= k < e - s ensures Bit(f, k) == Bit(d, s + k) {
            FieldBits(d, s, e - s, k);
          }
        }
        Ok(f)
    }

    /** `bf[i] = v`: bit i becomes v & 1 and every other bit keeps its
        value. */
    method SetItem(i: int, v: int) returns (r: Result<()>)
      modifies this
      ensures i < 0 ==> r == Fail(ValueError) && d == old(d)
      ensures i >= 0 ==> r == Ok(()) && d == old(d) + (v % 2 - Bit(old(d), i)) * Pow2(i)
      ensures i >= 0 ==> forall j: nat :: Bit(d, j) == if j == i then v % 2 else Bit(old(d), j)
    {
      if i < 0 {
        return Fail(ValueError);
      }
      var before := d;
      d := WithBit(d, i, v);
      WithBitValue(before, i, v);
      ShlIsMul(v % 2 - Bit(before, i), i);
      forall j: nat ensures Bit(d, j) == if j == i then v % 2 else Bit(before, j) {
        WithBitBits(before, i, v, j);
      }
      r := Ok(());
    }

    /** `bf[s:e] = v`: bits s .. e-1 take the low e - s bits of v and every
        other bit keeps its value. An end before the start fails first, on
        the float mask; then a negative start, on the shift. `ret` is the
        stored field, which is what the method is meant to hand back; the
        source's own return value is `SetSliceReturnAsWritten`. */
    method SetSlice(s: int, e: int, v: int) returns (r: Result<()>, ret: int)
      modifies this
      ensures e < s ==> r == Fail(TypeError) && d == old(d)
      ensures s < 0 <= e - s ==> r == Fail(ValueError) && d == old(d)
      ensures 0 <= s <= e ==> r == Ok(())
      ensures 0 <= s <= e ==> d == old(d) + (v % Pow2(e - s) - old(d) / Pow2(s) % Pow2(e - s)) * Pow2(s)
      ensures 0 <= s <= e ==> forall j: nat :: Bit(d, j) == if s <= j < e then Bit(v, j - s) else Bit(old(d), j)
      ensures 0 <= s <= e ==> ret == Field(d, s, e - s) == v % Pow2(e - s)
    {
      if e < s {
        return Fail(TypeError), 0;
      }
      if s < 0 {
        return Fail(ValueError), 0;
      }
      var before := d;
      d := WithField(d, s, e - s, v);
      WithFieldArith(before, s, e - s, v);
      LowField(v, e - s);
      forall j: nat ensures Bit(d, j) == if s <= j < e then Bit(v, j - s) else Bit(before, j) {
        WithFieldBits(before, s, e - s, v, j);
      }
      WithFieldReadsBack(before, s, e - s, v);
      ret := Field(d, s, e - s);
      r := Ok(());
    }
  }

  /** What the source's `__setslice__` returns: `(d >> s) & (mask << s)`,
      the mask shifted but the number shifted as well, which keeps bits
      [s, e) of `d >> s`, that is bits [2s, s + e) of d, in place. */
  function SetSliceReturnAsWritten(d: int, s: nat, e: nat): int
    requires s <= e
  {
    Shl(Field(d, 2 * s, e - s), s)
  }

  /** Bit by bit: zero outside [s, e), and bit s + j of d at position j. */
  lemma SetSliceReturnBits(d: int, s: nat, e: nat, j: nat)
    requires s <= e
    ensures Bit(SetSliceReturnAsWritten(d, s, e), j) == if s <= j < e then Bit(d, s + j) else 0
  {
    var f := Field(d, 2 * s, e - s);
    ShlBits(f, s, j);
    if s <= j {
      if j < e {
        FieldBits(d, 2 * s, e - s, j - s);
      } else {
        HighBitsZero(f, e - s, j - s);
      }
    }
  }

  /** Once s > 0 the returned value is not the stored field: after
      `b = bf(0); b[2:4] = 3` the number is 12, the stored field 3, and the
      source returns 0. */
  lemma SetSliceReturnDiffers()
    ensures WithField(0, 2, 2, 3) == 12
    ensures Field(12, 2, 2) == 3
    ensures SetSliceReturnAsWritten(12, 2, 4) == 0
  {
    assert Field(12, 4, 2) == 0;
  }

  /** Bits of `x << s`: s zeros below the bits of x. */
  lemma {:induction false} ShlBits(x: int, s: nat, j: nat)
    ensures Bit(Shl(x, s), j) == if j < s then 0 else Bit(x, j - s)
    decreases s
  {
    if s > 0 {
      var y := Shl(x, s - 1);
      DivAdd(y, 0, 2);
      if j > 0 {
        ShlBits(x, s - 1, j - 1);
      }
    }
  }

  /** A number below 2^w has no bit set from w up. */
  lemma {:induction false} HighBitsZero(x: int, w: nat, j: nat)
    requires 0 <= x < Pow2(w) && w <= j
    ensures Bit(x, j) == 0
    decreases j
  {
    if j > 0 {
      if w > 0 {
        HighBitsZero(x / 2, w - 1, j - 1);
      } else {
        assert x == 0;
        HighBitsZero(0, 0, j - 1);
      }
    } else {
      assert x == 0;
    }
  }

  // ------------------------------------------------------------ pixels

  /** The pixels of one byte: for bit = 8, 8 - bpp, ... while bit > 0,
      the slice [bit - bpp : bit]. A step of 0 is refused by `range`, a
      negative bpp gives an empty range, and a slice starting below bit 0
      is a negative shift count. */
  function BytePixels(x: int, bpp: int): Result<seq<int>>
  {
    if bpp == 0 then Fail(ValueError)
    else if bpp < 0 then Ok([])
    else PixelsFrom(x, bpp, 8)
  }

  function PixelsFrom(x: int, bpp: nat, bit: int): Result<seq<int>>
    requires bpp > 0
    decreases bit
  {
    if bit <= 0 then Ok([])
    else if bit - bpp < 0 then Fail(ValueError)
    else
      match PixelsFrom(x, bpp, bit - bpp)
      case Fail(f) => Fail(f)
      case Ok(rest) => Ok([Field(x, bit - bpp, bpp)] + rest)
  }

  /** The depths that split a byte evenly. */
  predicate EvenDepth(bpp: int)
  {
    bpp == 1 || bpp == 2 || bpp == 4 || bpp == 8
  }

  /** How many pixels a byte holds at an even depth: 8 / bpp. */
  function PerByte(bpp: int): (n: nat)
    requires EvenDepth(bpp)
    ensures n * bpp == 8
  {
    if bpp == 1 then 8 else if bpp == 2 then 4 else if bpp == 4 then 2 else 1
  }

  /** Where the field with k fields below it starts: bit k·bpp. */
  function FieldStart(k: nat, bpp: nat): nat
  {
    k * bpp
  }

  /** The independent reading of a byte at an even depth: its
      n = `PerByte(bpp)` fields, the most significant first, so that field
      k starts at bit (n - k - 1)·bpp, which is 8 - (k + 1)·bpp. */
  function ByteFields(x: int, bpp: nat): (r: seq<int>)
    requires EvenDepth(bpp)
    ensures |r| == PerByte(bpp)
  {
    var n := PerByte(bpp);
    seq(n, k requires 0 <= k < n => Field(x, FieldStart(n - k - 1, bpp), bpp))
  }

  /** At an even depth a byte gives its fields, most significant first. */
  lemma BytePixelsSplit(x: int, bpp: nat)
    requires EvenDepth(bpp)
    ensures BytePixels(x, bpp) == Ok(ByteFields(x, bpp))
  {
    var n := PerByte(bpp);
    assert FieldStart(n, bpp) == 8;
    PixelsFromSplit(x, bpp, n);
    var r := PixelsFrom(x, bpp, FieldStart(n, bpp)).value;
    assert r == ByteFields(x, bpp);
  }

  lemma {:induction false} PixelsFromSplit(x: int, bpp: nat, n: nat)
    requires bpp > 0
    ensures PixelsFrom(x, bpp, FieldStart(n, bpp)).Ok?
    ensures |PixelsFrom(x, bpp, FieldStart(n, bpp)).value| == n
    ensures forall k :: 0 <= k < n ==>
      PixelsFrom(x, bpp, FieldStart(n, bpp)).value[k] == Field(x, FieldStart(n - k - 1, bpp), bpp)
  {
    if n > 0 {
      PixelsFromSplit(x, bpp, n - 1);
      MulSucc(n - 1, bpp);
      assert FieldStart(n, bpp) - bpp == FieldStart(n - 1, bpp);
      var rest := PixelsFrom(x, bpp, FieldStart(n - 1, bpp)).value;
      assert PixelsFrom(x, bpp, FieldStart(n, bpp)).value == [Field(x, FieldStart(n - 1, bpp), bpp)] + rest;
    }
  }

  /** Any other positive depth reaches a slice that starts below bit 0. */
  lemma BytePixelsRefused(x: int, bpp: nat)
    requires bpp == 3 || bpp == 5 || bpp == 6 || bpp == 7 || bpp > 8
    ensures BytePixels(x, bpp) == Fail(ValueError)
  {
    if bpp == 3 {
      assert PixelsFrom(x, 3, 2) == Fail(ValueError);
      assert PixelsFrom(x, 3, 5) == Fail(ValueError);
    } else if bpp < 8 {
      assert PixelsFrom(x, bpp, 8 - bpp) == Fail(ValueError);
    }
  }

  /** All pixels of the data, byte after byte. */
  function Pixels(data: seq<int>, bpp: int): Result<seq<int>>
  {
    if |data| == 0 then Ok([])
    else
      match Pixels(data[..|data| - 1], bpp)
      case Fail(f) => Fail(f)
      case Ok(front) =>
        match BytePixels(data[|data| - 1], bpp)
        case Fail(f) => Fail(f)
        case Ok(last) => Ok(front + last)
  }

  /** The loop of `imgdataAsArray`: each byte's pixels appended in turn. */
  method UnpackPixels(data: seq<int>, bpp: int) returns (r: Result<seq<int>>)
    ensures r == Pixels(data, bpp)
  {
    var pixels: seq<int> := [];
    var i := 0;
    while i < |data|
      invariant 0 <= i <= |data|
      invariant Pixels(data[..i], bpp) == Ok(pixels)
    {
      var b := BytePixels(data[i], bpp);
      assert data[..i + 1][..i] == data[..i];
      if b.Fail? {
        PixelsFailStays(data, bpp, i + 1);
        return Fail(b.failure);
      }
      pixels := pixels + b.value;
      i := i + 1;
    }
    assert data[..i] == data;
    r := Ok(pixels);
  }

  /** Once a byte fails, the whole data fails with its error. */
  lemma {:induction false} PixelsFailStays(data: seq<int>, bpp: int, n: nat)
    requires 0 < n <= |data| && BytePixels(data[n - 1], bpp).Fail?
    requires Pixels(data[..n - 1], bpp).Ok?
    ensures Pixels(data, bpp) == Fail(BytePixels(data[n - 1], bpp).failure)
    decreases |data|
  {
    if n < |data| {
      var front := data[..|data| - 1];
      assert front[..n - 1] == data[..n - 1];
      assert front[n - 1] == data[n - 1];
      PixelsFailStays(front, bpp, n);
    } else {
      assert data[..|data| - 1] == data[..n - 1];
    }
  }

  /** The fields of every byte, byte by byte. */
  function AllFields(data: seq<int>, bpp: nat): (r: seq<seq<int>>)
    requires EvenDepth(bpp)
    ensures |r| == |data| && AllOfLength(r, PerByte(bpp))
    ensures forall j :: 0 <= j < |data| ==> r[j] == ByteFields(data[j], bpp)
  {
    if |data| == 0 then []
    else AllFields(data[..|data| - 1], bpp) + [ByteFields(data[|data| - 1], bpp)]
  }

  /** At an even depth the pixels are the bytes' fields laid end to end. */
  lemma {:induction false} PixelsConcat(data: seq<int>, bpp: nat)
    requires EvenDepth(bpp)
    ensures Pixels(data, bpp) == Ok(Concat(AllFields(data, bpp)))
    ensures |Concat(AllFields(data, bpp))| == |data| * PerByte(bpp)
  {
    if |data| > 0 {
      var m := |data| - 1;
      PixelsConcat(data[..m], bpp);
      BytePixelsSplit(data[m], bpp);
      ConcatAppend(AllFields(data[..m], bpp), ByteFields(data[m], bpp));
    }
    ConcatLength(AllFields(data, bpp), PerByte(bpp));
  }

  /** At an even depth pixel j·(8/bpp) + k is field k of byte j. */
  lemma PixelsAt(data: seq<int>, bpp: nat, j: nat, k: nat)
    requires EvenDepth(bpp) && j < |data| && k < PerByte(bpp)
    ensures Pixels(data, bpp).Ok? && |Pixels(data, bpp).value| == |data| * PerByte(bpp)
    ensures j * PerByte(bpp) + k < |Pixels(data, bpp).value|
    ensures Pixels(data, bpp).value[j * PerByte(bpp) + k] == ByteFields(data[j], bpp)[k]
  {
    PixelsConcat(data, bpp);
    ConcatIndex(AllFields(data, bpp), PerByte(bpp), j, k);
  }

  lemma ConcatIndex<T>(xs: seq<seq<T>>, n: nat, j: nat, k: nat)
    requires AllOfLength(xs, n) && j < |xs| && k < n
    ensures j * n + k < |Concat(xs)| && Concat(xs)[j * n + k] == xs[j][k]
  {
    ConcatAt(xs, n, j);
    var c := Concat(xs);
    assert c[j * n + k] == c[j * n..j * n + n][k];
  }

  lemma ImageIndex(row: nat, col: nat, width: nat, height: nat)
    requires row < height && col < width
    ensures col * height + row < width * height
  {
    MulSucc(col, height);
    MulLe(col + 1, width, height);
  }

  /** `numpy.array(pixels).reshape((width, height)).T`: the image has
      `height` rows of `width` pixels, pixel (row, col) is
      `pixels[col * height + row]`, and a pixel count other than
      width·height is a ValueError. */
  function Image(pixels: seq<int>, width: nat, height: nat): (r: Result<seq<seq<int>>>)
    ensures r.Ok? <==> |pixels| == width * height
    ensures r.Ok? ==> |r.value| == height
    ensures r.Ok? ==> forall row :: 0 <= row < height ==> |r.value[row]| == width
    ensures r.Ok? ==> forall row, col :: 0 <= row < height && 0 <= col < width ==>
      r.value[row][col] == ImagePixel(pixels, width, height, row, col)
  {
    if |pixels| != width * height then Fail(ValueError)
    else
      Ok(seq(height, row requires 0 <= row < height =>
        seq(width, col requires 0 <= col < width => ImagePixel(pixels, width, height, row, col))))
  }

  /** Pixel (row, col) of the transposed image. */
  function ImagePixel(pixels: seq<int>, width: nat, height: nat, row: nat, col: nat): (p: int)
    requires |pixels| == width * height && row < height && col < width
    ensures col * height + row < |pixels| && p == pixels[col * height + row]
  {
    ImageIndex(row, col, width, height);
    pixels[col * height + row]
  }

  /** The palette `putpalette` receives: for 2 bits per pixel the greys
      i·255//3 for i = 3 down to 0, for 4 bits i·255//15 for i = 15 down
      to 0, each as an (r, g, b) triple. At any other depth `palette` was
      never assigned. */
  function Palette(bpp: int): (r: Result<seq<int>>)
    ensures bpp != 2 && bpp != 4 <==> r == Fail(UnboundLocalError)
  {
    if bpp == 2 then Ok(Greys(3, 3))
    else if bpp == 4 then Ok(Greys(15, 15))
    else Fail(UnboundLocalError)
  }

  /** Grey level i on a scale of `levels`, as Python 2's `i*255/levels`. */
  function Grey(i: int, levels: nat): int
    requires levels > 0
  {
    i * 255 / levels
  }

  /** The grey triples for i = top down to 0 on a scale of `levels`. */
  function Greys(top: nat, levels: nat): (r: seq<int>)
    requires levels > 0
    ensures |r| == 3 * (top + 1)
    ensures forall k :: 0 <= k < |r| ==> r[k] == Grey(top - k / 3, levels)
  {
    GreysAbove(top, -1, levels)
  }

  /** The grey triples for top down to i + 1, in that order. */
  function GreysAbove(top: int, i: int, levels: nat): (r: seq<int>)
    requires levels > 0 && i <= top
    ensures |r| == 3 * (top - i)
    ensures forall k :: 0 <= k < |r| ==> r[k] == Grey(top - k / 3, levels)
    decreases top - i
  {
    if i == top then []
    else
      var g := Grey(i + 1, levels);
      var front := GreysAbove(top, i + 1, levels);
      assert forall k :: |front| <= k < |front| + 3 ==> top - k / 3 == i + 1;
      front + [g, g, g]
  }

  /** The palette loops of `getImage`: for i from the top level down to 0
      the triple i·255//levels is appended. */
  method BuildPalette(bpp: int) returns (r: Result<seq<int>>)
    ensures r == Palette(bpp)
  {
    var levels: nat;
    if bpp == 2 {
      levels := 3;
    } else if bpp == 4 {
      levels := 15;
    } else {
      return Fail(UnboundLocalError);
    }
    var palette: seq<int> := [];
    var i: int := levels;
    while i >= 0
      invariant -1 <= i <= levels
      invariant palette == GreysAbove(levels, i, levels)
    {
      var g := i * 255 / levels;
      palette := palette + [g, g, g];
      i := i - 1;
    }
    r := Ok(palette);
  }

  /** The greys descend from white to black: 255, 170, 85, 0 at 2 bits per
      pixel and steps of 17 at 4 bits. */
  lemma PaletteValues()
    ensures Palette(2) == Ok([255, 255, 255, 170, 170, 170, 85, 85, 85, 0, 0, 0])
    ensures Palette(4).Ok? && |Palette(4).value| == 48
    ensures forall k :: 0 <= k < 48 ==> Palette(4).value[k] == (15 - k / 3) * 17
  {
    TwoBitGreys();
    FourBitGreys();
  }

  lemma TwoBitGreys()
    ensures Greys(3, 3) == [255, 255, 255, 170, 170, 170, 85, 85, 85, 0, 0, 0]
  {
    var p := Greys(3, 3);
    assert Grey(3, 3) == 255 && Grey(2, 3) == 170 && Grey(1, 3) == 85 && Grey(0, 3) == 0;
    assert p[0] == 255 && p[1] == 255 && p[2] == 255;
    assert p[3] == 170 && p[4] == 170 && p[5] == 170;
    assert p[6] == 85 && p[7] == 85 && p[8] == 85;
    assert p[9] == 0 && p[10] == 0 && p[11] == 0;
  }

  lemma FourBitGreys()
    ensures forall k :: 0 <= k < 48 ==> Greys(15, 15)[k] == (15 - k / 3) * 17
  {
    forall k | 0 <= k < 48 ensures Greys(15, 15)[k] == (15 - k / 3) * 17 {
      var i := 15 - k / 3;
      assert i * 255 == i * 17 * 15;
      DivAdd(i * 17, 0, 15);
    }
  }

  /** `Icon.getImage` without PIL: the image pixels and the palette. The
      image data is unpacked and reshaped first, then the mask (whose image
      is otherwise unused), and the palette is only looked up at the end. */
  function GetImage(data: seq<int>, mask: seq<int>, width: nat, height: nat, bpp: int)
    : (r: Result<(seq<seq<int>>, seq<int>)>)
    ensures r.Ok? ==> Pixels(data, bpp).Ok? && Image(Pixels(data, bpp).value, width, height) == Ok(r.value.0)
    ensures r.Ok? ==> Palette(bpp) == Ok(r.value.1)
  {
    match Pixels(data, bpp)
    case Fail(f) => Fail(f)
    case Ok(px) =>
      match Image(px, width, height)
      case Fail(f) => Fail(f)
      case Ok(img) =>
        match Pixels(mask, bpp)
        case Fail(f) => Fail(f)
        case Ok(mpx) =>
          match Image(mpx, width, height)
          case Fail(f) => Fail(f)
          case Ok(_) =>
            match Palette(bpp)
            case Fail(f) => Fail(f)
            case Ok(pal) => Ok((img, pal))
  }

  /** An icon of an even depth renders exactly when its depth is 2 or 4 and
      both the data and the mask hold width·height pixels; 1- and 8-bit
      icons have no palette. */
  lemma GetImageSucceeds(data: seq<int>, mask: seq<int>, width: nat, height: nat, bpp: nat)
    requires EvenDepth(bpp)
    ensures GetImage(data, mask, width, height, bpp).Ok? <==>
      (bpp == 2 || bpp == 4) && |data| * PerByte(bpp) == width * height && |mask| * PerByte(bpp) == width * height
  {
    PixelsConcat(data, bpp);
    PixelsConcat(mask, bpp);
  }
}
