/** The cell search of `max_cellno_containing_bbox` as its callers need
    it: the deepest cell that holds the whole box. The search of
    magellan/Layer.py can settle on a cell that does not hold the box, on
    a column one past the last, or on a shifted cell of level 0; the
    search here puts the box in the cell its slot names and tests that
    the box ends inside that cell. Lengths are scaled as in `CellSearch`:
    at level n every length is multiplied by 2^(n+1), so that a cell is 2W
    wide and half a cell is W. */
module CellSearchFixed {
  import opened Wrappers
  import opened Geometry
  import opened Bits
  import opened Arith
  import opened Quadtree
  import opened CellSearch

  /** The slot of the source, kept inside the grid: 2^n columns on the
      aligned grid, 2^n + 1 on the shifted one. */
  function FixedSlot(a1: int, w: int, n: nat, s: nat): int
    requires w > 0
  {
    Min(Slot(a1, w, n, s), Pow2(n) - 1 + s)
  }

  /** The span ends inside the cell its start falls in (scaled: the cell
      from `k * 2w - s * w` to `(k + 1) * 2w - s * w`). */
  predicate AxisFits(a1: int, a2: int, w: int, n: nat, s: nat)
    requires w > 0
  {
    a2 * Pow2(n + 1) + s * w <= (FixedSlot(a1, w, n, s) + 1) * (2 * w)
  }

  predicate FitsIn(b: Rec, w: int, h: int, n: nat, s: nat)
    requires w > 0 && h > 0
  {
    AxisFits(b.c1.x, b.c2.x, w, n, s) && AxisFits(b.c1.y, b.c2.y, h, n, s)
  }

  /** The level and grid of the corrected search: level n on the aligned
      grid, else on the shifted grid (which level 0 does not have), else
      the level above. */
  function FixedChoice(b: Rec, w: int, h: int, n: nat): (c: (nat, bool))
    requires w > 0 && h > 0
    ensures c.0 <= n
    ensures c.1 ==> c.0 > 0
  {
    if FitsIn(b, w, h, n, 0) then (n, false)
    else if n > 0 && FitsIn(b, w, h, n, 1) then (n, true)
    else if n == 0 then (0, false)
    else FixedChoice(b, w, h, n - 1)
  }

  function GridOf(shifted: bool): nat { if shifted then 1 else 0 }

  function FixedAddress(b: Rec, w: int, h: int, maxlevels: nat): (a: Address)
    requires w > 0 && h > 0
    ensures a.Valid() && a.level <= maxlevels
  {
    var c := FixedChoice(b, w, h, maxlevels);
    var s := GridOf(c.1);
    Address(c.0, c.1, FixedSlot(b.c1.x, w, c.0, s), FixedSlot(b.c1.y, h, c.0, s))
  }

  /** `max_cellno_containing_bbox` with the corrected search; the failures
      are those of the source. The number is that of a cell of one of the
      levels 0..maxlevels. */
  function MaxCellnoFixed(layerbbox: Rec, bbox: Rec, maxlevels: int): (r: Result<int>)
    requires layerbbox.Valid()
    ensures maxlevels < 0 <==> r == Fail(UnboundLocalError)
    ensures maxlevels >= 0 ==>
      (r == Fail(ZeroDivisionError) <==> layerbbox.Width() == 0 || layerbbox.Height() == 0)
    ensures r.Ok? <==> maxlevels >= 0 && layerbbox.Width() > 0 && layerbbox.Height() > 0
    ensures r.Ok? ==> 1 <= r.value <= TotCells(maxlevels)
  {
    if maxlevels < 0 then Fail(UnboundLocalError)
    else if layerbbox.Width() == 0 || layerbbox.Height() == 0 then Fail(ZeroDivisionError)
    else
      var a := FixedAddress(Relative(layerbbox, bbox), layerbbox.Width(), layerbbox.Height(), maxlevels);
      NumberInLevel(a);
      TotCellsMono(a.level, maxlevels);
      Ok(CellNumber(a))
  }

  // ------------------------------------------------------------ the choice

  /** With no level below 0 to try, every box goes to cell 1, the whole
      layer. */
  lemma LevelZeroCell(layerbbox: Rec, bbox: Rec)
    requires layerbbox.Valid() && layerbbox.Width() > 0 && layerbbox.Height() > 0
    ensures MaxCellnoFixed(layerbbox, bbox, 0) == Ok(1)
  {
    var w, h := layerbbox.Width(), layerbbox.Height();
    var b := Relative(layerbbox, bbox);
    assert Pow2(0) == 1;
    var a := FixedAddress(b, w, h, 0);
    assert a == Address(0, false, 0, 0);
    assert TotCells(-1) == 0;
  }

  /** The corrected search keeps the deepest level whose cell holds the
      box, and the aligned grid wherever it holds it. */
  lemma {:induction false} FixedChoiceDeepest(b: Rec, w: int, h: int, n: nat)
    requires w > 0 && h > 0
    ensures var c := FixedChoice(b, w, h, n);
      (FitsIn(b, w, h, c.0, GridOf(c.1)) || (c.0 == 0 && !c.1))
      && (c.1 ==> !FitsIn(b, w, h, c.0, 0))
      && forall l :: c.0 < l <= n ==> !FitsIn(b, w, h, l, 0) && !FitsIn(b, w, h, l, 1)
  {
    if !FitsIn(b, w, h, n, 0) && !(n > 0 && FitsIn(b, w, h, n, 1)) && n > 0 {
      FixedChoiceDeepest(b, w, h, n - 1);
    }
  }

  /** The one cell of level 0 holds every box that lies in the layer. */
  lemma LevelZeroFits(a1: int, a2: int, w: int)
    requires w > 0 && 0 <= a1 && a2 <= w
    ensures AxisFits(a1, a2, w, 0, 0)
  {
    assert Pow2(1) == 2;
    assert Slot(a1, w, 0, 0) >= 0;
    assert FixedSlot(a1, w, 0, 0) == 0;
  }

  /** For a box in the layer the search always ends on a cell that holds
      it. */
  lemma {:induction false} FixedChoiceFits(b: Rec, w: int, h: int, n: nat)
    requires w > 0 && h > 0
    requires 0 <= b.c1.x && b.c2.x <= w && 0 <= b.c1.y && b.c2.y <= h
    ensures var c := FixedChoice(b, w, h, n); FitsIn(b, w, h, c.0, GridOf(c.1))
  {
    if !FitsIn(b, w, h, n, 0) && !(n > 0 && FitsIn(b, w, h, n, 1)) {
      if n == 0 {
        LevelZeroFits(b.c1.x, b.c2.x, w);
        LevelZeroFits(b.c1.y, b.c2.y, h);
      } else {
        FixedChoiceFits(b, w, h, n - 1);
      }
    }
  }

  // ---------------------------------------------------------- containment

  /** In scaled lengths, the cell the slot names starts at or before the
      span; `AxisFits` says it ends at or after it. */
  lemma SlotStartsBefore(a1: int, w: int, n: nat, s: nat)
    requires w > 0 && 0 <= a1
    ensures FixedSlot(a1, w, n, s) * (2 * w) - s * w <= a1 * Pow2(n + 1)
  {
    var big := a1 * Pow2(n + 1) + s * w;
    var q := big / (2 * w);
    assert big >= 0;
    assert q * (2 * w) <= big;
    assert Slot(a1, w, n, s) == q;
    MulLe(FixedSlot(a1, w, n, s), q, 2 * w);
  }

  /** x * d <= y * d with d > 0 gives x <= y. */
  lemma DivideOut(x: int, y: int, d: int)
    requires d > 0 && x * d <= y * d
    ensures x <= y
  {
    if x > y {
      MulLe(y + 1, x, d);
    }
  }

  /** A layer extent that 2^(l+1) divides, written u * 2^(l+1): the cell
      size of level l is 2u and half of it u. */
  lemma CellSizeOf(w: int, u: int, l: nat)
    requires w == u * Pow2(l + 1)
    ensures w / Pow2(l) == 2 * u && (2 * u) / 2 == u
  {
    assert Pow2(l + 1) == 2 * Pow2(l);
    assert w == (2 * u) * Pow2(l) + 0;
    DivAdd(2 * u, 0, Pow2(l));
  }

  /** The two edges of a cell, scaled, as multiples of S when w = u * S. */
  lemma ScaledEdges(k: int, s: int, u: int, S: int)
    ensures k * (2 * (u * S)) - s * (u * S) == (2 * u * k - s * u) * S
    ensures (k + 1) * (2 * (u * S)) - s * (u * S) == ((k + 1) * (2 * u) - s * u) * S
  {
  }

  /** On one axis: when the layer extent w is u * 2^(l+1), the span of
      the cell `calc_cell_extents` computes holds the span a1..a2 that
      fits the slot's cell. */
  lemma AxisCovered(a1: int, a2: int, w: int, u: int, l: nat, shifted: bool)
    requires w > 0 && w == u * Pow2(l + 1)
    requires 0 <= a1 && a2 <= w
    requires AxisFits(a1, a2, w, l, GridOf(shifted))
    ensures var span := AxisSpan(w, Pow2(l), FixedSlot(a1, w, l, GridOf(shifted)), shifted);
      span.0 <= a1 && a2 <= span.1
  {
    var s := GridOf(shifted);
    var k := FixedSlot(a1, w, l, s);
    var S := Pow2(l + 1);
    CellSizeOf(w, u, l);
    SlotStartsBefore(a1, w, l, s);
    ScaledEdges(k, s, u, S);
    DivideOut(2 * u * k - s * u, a1, S);
    DivideOut(a2, (k + 1) * (2 * u) - s * u, S);
    SpanHolds(w, Pow2(l), k, shifted, u, a1, a2);
  }

  /** The span `AxisSpan` computes for a cell of size 2u holds a1..a2 when
      the unclamped cell does. */
  lemma SpanHolds(w: int, n: nat, k: int, shifted: bool, u: int, a1: int, a2: int)
    requires n >= 1 && w / n == 2 * u && (2 * u) / 2 == u
    requires 0 <= a1 && a2 <= w
    requires 2 * u * k - GridOf(shifted) * u <= a1
    requires a2 <= (k + 1) * (2 * u) - GridOf(shifted) * u
    ensures var span := AxisSpan(w, n, k, shifted); span.0 <= a1 && a2 <= span.1
  {
    assert k * (2 * u) == 2 * u * k;
  }

  /** 2^(m+1) divides whatever 2^(n+1) divides, for m <= n. */
  lemma DividesLower(w: int, m: nat, n: nat) returns (u: int)
    requires m <= n && w % Pow2(n + 1) == 0
    ensures w == u * Pow2(m + 1)
  {
    var A, B := Pow2(m + 1), Pow2(n - m);
    PowAdd(m + 1, n - m);
    assert m + 1 + (n - m) == n + 1;
    var P := Pow2(n + 1);
    var v := w / P;
    assert w == v * P;
    u := v * B;
    MulSwap(v, A, B);
  }

  lemma MulSwap(v: int, a: int, b: int)
    ensures v * (a * b) == (v * b) * a
  {
  }

  /** The cell the corrected search numbers holds the box, in the extents
      `calc_cell_extents` gives it, for a box in the layer of a layer
      whose width and height 2^(maxlevels+1) divides (so that no cell size
      is rounded). */
  lemma MaxCellnoFixedCovers(layerbbox: Rec, bbox: Rec, maxlevels: nat)
    requires layerbbox.Valid() && layerbbox.Width() > 0 && layerbbox.Height() > 0
    requires layerbbox.Width() % Pow2(maxlevels + 1) == 0 && layerbbox.Height() % Pow2(maxlevels + 1) == 0
    requires bbox.CoveredBy(layerbbox)
    ensures MaxCellnoFixed(layerbbox, bbox, maxlevels).Ok?
    ensures bbox.CoveredBy(CellExtents(layerbbox, MaxCellnoFixed(layerbbox, bbox, maxlevels).value))
  {
    var w, h := layerbbox.Width(), layerbbox.Height();
    var b := Relative(layerbbox, bbox);
    var a := FixedAddress(b, w, h, maxlevels);
    FixedChoiceFits(b, w, h, maxlevels);
    var u := DividesLower(w, a.level, maxlevels);
    var v := DividesLower(h, a.level, maxlevels);
    AxisCovered(b.c1.x, b.c2.x, w, u, a.level, a.shifted);
    AxisCovered(b.c1.y, b.c2.y, h, v, a.level, a.shifted);
    DecodeOfNumber(a);
  }
}
