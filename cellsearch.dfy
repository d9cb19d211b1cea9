/** `max_cellno_containing_bbox` of magellan/Layer.py: the cell a new
    element of a layer is stored in, found by trying the deepest level
    first. The source divides floating point coordinates by the cell size;
    here each level n multiplies every length by 2^(n+1) instead, so that a
    cell is 2W wide and half a cell is W (W the layer width), and the
    remainders and quotients are exact. */
module CellSearch {
  import opened Wrappers
  import opened Geometry
  import opened Bits
  import opened Arith
  import opened Quadtree

  /** The wrap test on one axis: `a2 % cell < a1 % cell`, for the span
      a1..a2 relative to the layer, on the aligned grid (s = 0) or on the
      grid shifted by half a cell (s = 1). */
  predicate Wraps(a1: int, a2: int, w: int, n: nat, s: nat)
    requires w > 0
  {
    (a2 * Pow2(n + 1) + s * w) % (2 * w) < (a1 * Pow2(n + 1) + s * w) % (2 * w)
  }

  predicate WrapsIn(b: Rec, w: int, h: int, n: nat, s: nat)
    requires w > 0 && h > 0
  {
    Wraps(b.c1.x, b.c2.x, w, n, s) || Wraps(b.c1.y, b.c2.y, h, n, s)
  }

  /** The box is wider or higher than a cell of level n. */
  predicate TooBig(b: Rec, w: int, h: int, n: nat)
  {
    b.Width() * Pow2(n) > w || b.Height() * Pow2(n) > h
  }

  /** Level n takes the box: it is no larger than a cell and does not
      wrap on both grids. */
  predicate Accepts(b: Rec, w: int, h: int, n: nat)
    requires w > 0 && h > 0
  {
    !TooBig(b, w, h, n) && !(WrapsIn(b, w, h, n, 0) && WrapsIn(b, w, h, n, 1))
  }

  /** The level and grid the search settles on, trying level n first;
      level 0 on the aligned grid when no level takes the box. */
  function LevelChoice(b: Rec, w: int, h: int, n: nat): (c: (nat, bool))
    requires w > 0 && h > 0
    ensures c.0 <= n
  {
    if Accepts(b, w, h, n) then (n, WrapsIn(b, w, h, n, 0))
    else if n == 0 then (0, false)
    else LevelChoice(b, w, h, n - 1)
  }

  /** The search keeps the deepest level that takes the box, and the
      shifted grid only where the aligned one wraps. */
  lemma {:induction false} LevelChoiceDeepest(b: Rec, w: int, h: int, n: nat)
    requires w > 0 && h > 0
    ensures var c := LevelChoice(b, w, h, n);
      (Accepts(b, w, h, c.0) || (c.0 == 0 && !c.1))
      && (c.1 <==> Accepts(b, w, h, c.0) && WrapsIn(b, w, h, c.0, 0))
      && forall l :: c.0 < l <= n ==> !Accepts(b, w, h, l)
  {
    if !Accepts(b, w, h, n) && n > 0 {
      LevelChoiceDeepest(b, w, h, n - 1);
    }
  }

  /** `max(int((a1 + s * cell / 2) / cell), 0)`, scaled. */
  function Slot(a1: int, w: int, n: nat, s: nat): int
    requires w > 0
  {
    Max((a1 * Pow2(n + 1) + s * w) / (2 * w), 0)
  }

  /** The box relative to the layer's lower corner. */
  function Relative(layerbbox: Rec, bbox: Rec): (b: Rec)
    ensures b.Width() == bbox.Width() && b.Height() == bbox.Height()
  {
    Rec(bbox.c1.Sub(layerbbox.c1), bbox.c2.Sub(layerbbox.c1))
  }

  /** The address the source numbers, from the level and grid chosen. */
  function ChosenAddress(b: Rec, w: int, h: int, maxlevels: nat): Address
    requires w > 0 && h > 0
  {
    var c := LevelChoice(b, w, h, maxlevels);
    var s := if c.1 then 1 else 0;
    Address(c.0, c.1, Slot(b.c1.x, w, c.0, s), Slot(b.c1.y, h, c.0, s))
  }

  /** `max_cellno_containing_bbox(layerbbox, bbox, maxlevels)`. With no
      level to try, the variables the loop sets are read unassigned; a
      layer of zero width or height divides by zero. */
  function MaxCellno(layerbbox: Rec, bbox: Rec, maxlevels: int): (r: Result<int>)
    requires layerbbox.Valid()
    ensures maxlevels < 0 <==> r == Fail(UnboundLocalError)
    ensures maxlevels >= 0 ==>
      (r == Fail(ZeroDivisionError) <==> layerbbox.Width() == 0 || layerbbox.Height() == 0)
    ensures r.Ok? ==> r.value >= 1
  {
    if maxlevels < 0 then Fail(UnboundLocalError)
    else if layerbbox.Width() == 0 || layerbbox.Height() == 0 then Fail(ZeroDivisionError)
    else
      var a := ChosenAddress(Relative(layerbbox, bbox), layerbbox.Width(), layerbbox.Height(), maxlevels);
      Ok(CellNumber(a))
  }

  /** `max_cellno_containing_bbox`: the loop from `maxlevels` down to 0.
      A zero-sized layer fails before the loop here; the source fails at
      its first division by the zero cell size, with the same exception. */
  method MaxCellnoContainingBBox(layerbbox: Rec, bbox: Rec, maxlevels: int) returns (r: Result<int>)
    requires layerbbox.Valid()
    ensures r == MaxCellno(layerbbox, bbox, maxlevels)
  {
    if maxlevels < 0 {
      return Fail(UnboundLocalError);
    }
    var w, h := layerbbox.Width(), layerbbox.Height();
    if w == 0 || h == 0 {
      return Fail(ZeroDivisionError);
    }
    var bboxinc := Relative(layerbbox, bbox);
    var shifted := 0;
    var n: nat := maxlevels;
    while true
      invariant n <= maxlevels
      invariant LevelChoice(bboxinc, w, h, maxlevels) == LevelChoice(bboxinc, w, h, n)
      decreases n
    {
      if bboxinc.Width() * Pow2(n) > w || bboxinc.Height() * Pow2(n) > h {
        if n == 0 { break; }
        n := n - 1;
        continue;
      }
      if WrapsIn(bboxinc, w, h, n, 0) {
        if WrapsIn(bboxinc, w, h, n, 1) {
          if n == 0 { break; }
          n := n - 1;
          continue;
        }
        shifted := 1;
      }
      break;
    }
    var col := Slot(bboxinc.c1.x, w, n, shifted);
    var row := Slot(bboxinc.c1.y, h, n, shifted);
    r := Ok(CellNumber(Address(n, shifted == 1, col, row)));
  }
}
