/** The cell numbering of a layer's quadtree (magellan/Layer.py): level L
    splits the layer into 2^L by 2^L aligned cells and, from level 1 on, a
    second grid of (2^L+1) by (2^L+1) cells shifted by half a cell. Cells
    are numbered level by level, aligned before shifted, row by row.

    Coordinates are the discrete layer coordinates with negated y. Where
    the source divides floating point numbers, the arithmetic here is exact:
    at level n every length is multiplied by 2^(n+1), so a cell is 2W wide
    (W the layer width) and half a cell is W. */
module Quadtree {
  import opened Wrappers
  import opened Geometry
  import opened Bits
  import opened Arith

  function Pow4(n: nat): nat
  {
    if n == 0 then 1 else 4 * Pow4(n - 1)
  }

  lemma {:induction false} Pow4Square(n: nat)
    ensures Pow4(n) == Pow2(n) * Pow2(n)
  {
    if n > 0 {
      Pow4Square(n - 1);
      var p := Pow2(n - 1);
      assert Pow2(n) * Pow2(n) == 4 * (p * p);
    }
  }

  /** Cells of level k alone: one at level 0, whose shifted cells are
      numbered as the aligned cells of level 1; above, 4^k aligned and
      (2^k+1)^2 = 4^k + 2 * 2^k + 1 shifted ones. */
  function CellsAt(k: nat): nat
  {
    if k == 0 then 1 else 2 * Pow4(k) + 2 * Pow2(k) + 1
  }

  /** Cells of the levels 0..n, counted level by level. */
  function CellsUpTo(n: nat): nat
  {
    if n <= 0 then 1 else CellsUpTo(n - 1) + CellsAt(n)
  }

  /** The same, with no cell for a negative level. */
  function TotCells(n: int): nat
  {
    if n < 0 then 0 else CellsUpTo(n)
  }

  lemma {:induction false} TotCellsClosed(n: nat)
    ensures 3 * TotCells(n) == -17 + 2 * Pow4(n + 1) + 6 * Pow2(n + 1) + 3 * n
  {
    if n > 0 {
      TotCellsClosed(n - 1);
    }
  }

  /** `totcells_at_level`: the closed form counts the cells of the levels
      0..n, and no cell for a negative level. */
  function TotcellsAtLevel(n: int): (t: int)
    ensures t == TotCells(n)
  {
    if n >= 0 then
      TotCellsClosed(n);
      (-17 + 2 * Pow4(n + 1) + 6 * Pow2(n + 1) + 3 * n) / 3
    else 0
  }

  lemma TotcellsValues()
    ensures TotcellsAtLevel(-1) == 0 && TotcellsAtLevel(0) == 1
    ensures TotcellsAtLevel(1) == 14 && TotcellsAtLevel(2) == 55
  {
    assert Pow4(1) == 4 && Pow4(2) == 16;
    assert Pow2(1) == 2 && Pow2(2) == 4;
  }

  /** Each level adds its own cells, so the count grows strictly. */
  lemma TotCellsStep(n: nat)
    ensures TotCells(n) == TotCells(n - 1) + CellsAt(n)
    ensures TotCells(n) > TotCells(n - 1)
  {
  }

  lemma {:induction false} TotCellsMono(i: int, j: int)
    requires -1 <= i <= j
    ensures TotCells(i) <= TotCells(j)
    decreases j - i
  {
    if i < j {
      TotCellsMono(i, j - 1);
      TotCellsStep(j);
    }
  }

  // ------------------------------------------------------------ addresses

  /** A cell by its level, its grid and its column and row in that grid. */
  datatype Address = Address(level: nat, shifted: bool, col: int, row: int)
  {
    function Shift(): nat { if shifted then 1 else 0 }

    /** The cells that exist: columns and rows 0..2^L-1 in the aligned
        grid, 0..2^L in the shifted grid of a level above 0 (the shifted
        cells of level 0 carry the numbers of level 1's aligned cells). */
    predicate Valid()
    {
      (shifted ==> level > 0)
      && 0 <= col < Pow2(level) + Shift() && 0 <= row < Pow2(level) + Shift()
    }
  }

  /** The number `max_cellno_containing_bbox` gives to a cell: one past
      the cells of the levels below, plus the cell's index in its level
      (4^n written as 2^n * 2^n). */
  function CellNumber(a: Address): int
  {
    1 + TotCells(a.level as int - 1) + Index(a, Pow2(a.level))
  }

  /** The smallest level from `l` on whose count reaches `cellnum`: the
      loop at the start of `calc_cell_extents`. */
  function LevelFrom(cellnum: int, l: nat): (r: nat)
    ensures l <= r && cellnum <= TotCells(r)
    ensures l < r ==> TotCells(r - 1) < cellnum
    decreases cellnum - TotCells(l)
  {
    if cellnum <= TotCells(l) then l
    else
      TotCellsStep(l + 1);
      LevelFrom(cellnum, l + 1)
  }

  function CellLevel(cellnum: int): (r: nat)
    ensures TotCells(r - 1) < cellnum <= TotCells(r) || (r == 0 && cellnum <= 0)
  {
    LevelFrom(cellnum, 0)
  }

  /** The level found is the only one whose range holds the number. */
  lemma {:induction false} LevelFromIs(cellnum: int, l: nat, level: nat)
    requires l <= level
    requires TotCells(level - 1) < cellnum <= TotCells(level)
    ensures LevelFrom(cellnum, l) == level
    decreases level - l
  {
    if l < level {
      TotCellsMono(l, level - 1);
      LevelFromIs(cellnum, l + 1, level);
    }
  }

  /** How `calc_cell_extents` takes a cell number apart. */
  function DecodeCell(cellnum: int): Address
  {
    var level := CellLevel(cellnum);
    Split(level, Pow2(level), cellnum - (TotCells(level - 1) + 1))
  }

  /** The position `rel` within a level whose aligned grid has n by n
      cells: the aligned cells come first, row by row, then the shifted
      ones in rows of n+1. */
  function Split(level: nat, n: nat, rel: int): Address
    requires n >= 1
  {
    if rel < n * n then Address(level, false, rel % n, rel / n)
    else
      var r := rel - n * n;
      Address(level, true, r % (n + 1), r / (n + 1))
  }

  /** The position of a cell within its level, as `CellNumber` adds it. */
  function Index(a: Address, n: nat): int
  {
    a.col + (n + a.Shift()) * a.row + a.Shift() * (n * n)
  }

  lemma DivMod(x: int, k: nat)
    requires k >= 1
    ensures x == x % k + k * (x / k)
  {
  }

  /** Column and row of a position in a k by k grid. */
  lemma GridSplit(x: int, k: nat)
    requires k >= 1 && 0 <= x < k * k
    ensures 0 <= x % k < k && 0 <= x / k < k
  {
    DivLt(x, k, k);
  }

  /** The position of a column and row in a k by k grid. */
  lemma GridJoin(col: int, row: int, k: nat)
    requires 0 <= col < k && 0 <= row < k
    ensures 0 <= col + k * row < k * k
    ensures (col + k * row) % k == col && (col + k * row) / k == row
  {
    MulLe(row, k - 1, k);
    DivAdd(row, col, k);
  }

  lemma SquareNext(n: int)
    ensures (n + 1) * (n + 1) == n * n + 2 * n + 1
  {
  }

  lemma IndexOfSplit(level: nat, n: nat, rel: int)
    requires n >= 1
    ensures Index(Split(level, n, rel), n) == rel
  {
    if rel < n * n {
      DivMod(rel, n);
    } else {
      DivMod(rel - n * n, n + 1);
    }
  }

  lemma SplitInRange(level: nat, n: nat, rel: int)
    requires n >= 1 && 0 <= rel
    requires level == 0 ==> rel < n * n
    requires rel < 2 * (n * n) + 2 * n + 1
    ensures var a := Split(level, n, rel);
      (a.shifted ==> level > 0) && 0 <= a.col < n + a.Shift() && 0 <= a.row < n + a.Shift()
  {
    if rel < n * n {
      GridSplit(rel, n);
    } else {
      SquareNext(n);
      GridSplit(rel - n * n, n + 1);
    }
  }

  lemma SplitOfIndex(a: Address, n: nat)
    requires n >= 1 && 0 <= a.col < n + a.Shift() && 0 <= a.row < n + a.Shift()
    ensures Split(a.level, n, Index(a, n)) == a
    ensures 0 <= Index(a, n)
    ensures !a.shifted ==> Index(a, n) < n * n
    ensures a.shifted ==> Index(a, n) < 2 * (n * n) + 2 * n + 1
  {
    if a.shifted {
      GridJoin(a.col, a.row, n + 1);
      SquareNext(n);
    } else {
      GridJoin(a.col, a.row, n);
    }
  }

  /** Every number is the number of the address it decodes to. */
  lemma NumberOfDecode(cellnum: int)
    ensures CellNumber(DecodeCell(cellnum)) == cellnum
  {
    var level := CellLevel(cellnum);
    var rel := cellnum - (TotCells(level as int - 1) + 1);
    var a := Split(level, Pow2(level), rel);
    assert a.level == level;
    IndexOfSplit(level, Pow2(level), rel);
  }

  /** Every number from 1 on names a cell that exists. */
  lemma DecodeValid(cellnum: int)
    requires cellnum >= 1
    ensures DecodeCell(cellnum).Valid()
  {
    var level := CellLevel(cellnum);
    TotCellsStep(level);
    Pow4Square(level);
    SplitInRange(level, Pow2(level), cellnum - (TotCells(level as int - 1) + 1));
  }

  lemma NumberInLevel(a: Address)
    requires a.Valid()
    ensures TotCells(a.level as int - 1) < CellNumber(a) <= TotCells(a.level)
    ensures CellNumber(a) - (TotCells(a.level as int - 1) + 1) == Index(a, Pow2(a.level))
    ensures Split(a.level, Pow2(a.level), Index(a, Pow2(a.level))) == a
  {
    var n := Pow2(a.level);
    SplitOfIndex(a, n);
    Pow4Square(a.level);
    TotCellsStep(a.level);
  }

  /** Every cell that exists decodes from its number: numbering is a
      one-to-one map from the cells onto the numbers from 1 on. */
  lemma DecodeOfNumber(a: Address)
    requires a.Valid()
    ensures DecodeCell(CellNumber(a)) == a
    ensures CellNumber(a) >= 1
  {
    NumberInLevel(a);
    DecodeInLevel(CellNumber(a), a.level);
  }

  /** A number in the range of a level decodes at that level. */
  lemma DecodeInLevel(cellnum: int, level: nat)
    requires TotCells(level - 1) < cellnum <= TotCells(level)
    ensures DecodeCell(cellnum) == Split(level, Pow2(level), cellnum - (TotCells(level - 1) + 1))
  {
    LevelFromIs(cellnum, 0, level);
  }

  lemma NumberInjective(a: Address, b: Address)
    requires a.Valid() && b.Valid() && CellNumber(a) == CellNumber(b)
    ensures a == b
  {
    DecodeOfNumber(a);
    DecodeOfNumber(b);
  }

  // ------------------------------------------------------------- extents

  /** One axis of a cell box, relative to the layer of extent w: the k-th
      of n cells of size w / n, or for a shifted cell the same moved back
      by half a cell and cut to 0..w. */
  function AxisSpan(w: int, n: nat, k: int, shifted: bool): (int, int)
    requires n >= 1
  {
    var cs := w / n;
    if !shifted then (k * cs, k * cs + cs)
    else (Max(k * cs - cs / 2, 0), Min(k * cs - cs / 2 + w / n, w))
  }

  /** The box `calc_cell_extents` gives the cell at `a` in the layer box
      `dbbox`. */
  function AddressExtents(dbbox: Rec, a: Address): Rec
  {
    var n := Pow2(a.level);
    var x := AxisSpan(dbbox.Width(), n, a.col, a.shifted);
    var y := AxisSpan(dbbox.Height(), n, a.row, a.shifted);
    Rec(Pt(x.0, y.0).Add(dbbox.c1), Pt(x.1, y.1).Add(dbbox.c1))
  }

  /** Once the loop of `calc_cell_extents` stops, its level is the one
      `DecodeCell` decodes at. */
  lemma DecodeAtLevel(cellnum: int, level: nat)
    requires cellnum <= TotCells(level)
    requires LevelFrom(cellnum, level) == CellLevel(cellnum)
    ensures DecodeCell(cellnum) == Split(level, Pow2(level), cellnum - (TotCells(level - 1) + 1))
  {
  }

  /** The extents of an aligned cell, in the steps `calc_cell_extents`
      takes. */
  lemma AlignedCell(dbbox: Rec, level: nat, rel: int)
    requires rel < Pow2(level) * Pow2(level)
    ensures var n := Pow2(level);
      var cs := Pt(dbbox.Width() / n, dbbox.Height() / n);
      var lo := Pt((rel % n) * cs.x, (rel / n) * cs.y);
      AddressExtents(dbbox, Split(level, n, rel)) == Rec(lo.Add(dbbox.c1), lo.Add(cs).Add(dbbox.c1))
  {
  }

  /** The extents of a shifted cell, in the steps `calc_cell_extents`
      takes: half a cell back from the aligned position, clamped to the
      layer. */
  lemma ShiftedCell(dbbox: Rec, level: nat, rel: int)
    requires rel >= Pow2(level) * Pow2(level)
    ensures var n := Pow2(level);
      var w, h := dbbox.Width(), dbbox.Height();
      var cs := Pt(w / n, h / n);
      var k := rel - n * n;
      var lo := Pt((k % (n + 1)) * cs.x - cs.x / 2, (k / (n + 1)) * cs.y - cs.y / 2);
      var hi := lo.Add(Pt(w / n, h / n));
      AddressExtents(dbbox, Split(level, n, rel))
        == Rec(Pt(Max(lo.x, 0), Max(lo.y, 0)).Add(dbbox.c1), Pt(Min(hi.x, w), Min(hi.y, h)).Add(dbbox.c1))
  {
  }

  /** The extents of a numbered cell are those of its address. */
  lemma ExtentsOfNumber(dbbox: Rec, a: Address)
    requires a.Valid()
    ensures CellExtents(dbbox, CellNumber(a)) == AddressExtents(dbbox, a)
  {
    DecodeOfNumber(a);
  }

  /** `Layer.calc_cell_extents` as a value. */
  function CellExtents(dbbox: Rec, cellnum: int): Rec
  {
    AddressExtents(dbbox, DecodeCell(cellnum))
  }

  /** `Layer.calc_cell_extents`: search the level, then place the cell in
      its grid. */
  method CalcCellExtents(dbbox: Rec, cellnum: int) returns (r: Rec)
    ensures r == CellExtents(dbbox, cellnum)
  {
    var level := FindLevel(cellnum);
    DecodeAtLevel(cellnum, level);
    r := LevelCellExtents(dbbox, level, cellnum - (TotCells(level as int - 1) + 1));
  }

  /** The loop at the start of `calc_cell_extents`: the first level whose
      count reaches the number. */
  method FindLevel(cellnum: int) returns (level: nat)
    ensures level == CellLevel(cellnum) && cellnum <= TotCells(level)
    ensures level > 0 ==> TotCells(level - 1) < cellnum
  {
    level := 0;
    while cellnum > TotCells(level)
      invariant LevelFrom(cellnum, level) == CellLevel(cellnum)
      decreases cellnum - TotCells(level)
    {
      TotCellsStep(level + 1);
      level := level + 1;
    }
  }

  /** The rest of `calc_cell_extents`: the extents of the cell at position
      `relcnum` within level `level`. */
  method LevelCellExtents(dbbox: Rec, level: nat, relcnum: int) returns (r: Rec)
    ensures r == AddressExtents(dbbox, Split(level, Pow2(level), relcnum))
  {
    var n: int := Pow2(level);
    var w, h := dbbox.Width(), dbbox.Height();
    var cellsize := Pt(w / n, h / n);
    if relcnum < n * n {
      AlignedCell(dbbox, level, relcnum);
      var idx := Pt(relcnum % n, relcnum / n);
      var mincorner := Pt(idx.x * cellsize.x, idx.y * cellsize.y);
      var maxcorner := mincorner.Add(cellsize);
      r := Rec(mincorner.Add(dbbox.c1), maxcorner.Add(dbbox.c1));
    } else {
      ShiftedCell(dbbox, level, relcnum);
      var rel := relcnum - n * n;
      var idx := Pt(rel % (n + 1), rel / (n + 1));
      var mincorner := Pt(idx.x * cellsize.x - cellsize.x / 2, idx.y * cellsize.y - cellsize.y / 2);
      var maxcorner := mincorner.Add(Pt(w / n, h / n));
      mincorner := Pt(Max(mincorner.x, 0), Max(mincorner.y, 0));
      maxcorner := Pt(Min(maxcorner.x, w), Min(maxcorner.y, h));
      r := Rec(mincorner.Add(dbbox.c1), maxcorner.Add(dbbox.c1));
    }
  }

  /** Cell 1 is the whole layer. */
  lemma CellOneIsLayer(dbbox: Rec)
    ensures CellExtents(dbbox, 1) == dbbox
  {
    assert CellLevel(1) == 0;
  }

  /** Every cell that exists is a valid box inside a valid layer box. */
  lemma ExtentsInLayer(dbbox: Rec, a: Address)
    requires dbbox.Valid() && a.Valid()
    ensures AddressExtents(dbbox, a).Valid()
    ensures AddressExtents(dbbox, a).CoveredBy(dbbox)
  {
    var n := Pow2(a.level);
    SpanInLayer(dbbox.Width(), n, a.col, a.shifted);
    SpanInLayer(dbbox.Height(), n, a.row, a.shifted);
  }

  lemma SpanInLayer(w: nat, n: nat, k: int, shifted: bool)
    requires n >= 1 && 0 <= k && (if shifted then k <= n else k < n)
    ensures 0 <= AxisSpan(w, n, k, shifted).0 <= AxisSpan(w, n, k, shifted).1 <= w
  {
    var cs := w / n;
    assert cs * n <= w;
    MulLe(0, k, cs);
    if shifted {
      MulLe(k, n, cs);
      ShiftedSpan(w, cs, k * cs);
    } else {
      MulLe(k + 1, n, cs);
      assert (k + 1) * cs == k * cs + cs;
    }
  }

  /** A shifted span starts half a cell before an aligned start m within
      the layer, and is clamped to it. */
  lemma ShiftedSpan(w: nat, cs: nat, m: int)
    requires 0 <= m <= w
    ensures 0 <= Max(m - cs / 2, 0) <= Min(m - cs / 2 + cs, w) <= w
  {
  }

  /** The aligned cell (col, row) of level L+1 lies in the aligned cell
      (col/2, row/2) of level L, when the layer's size divides evenly. */
  lemma AlignedChildInParent(dbbox: Rec, level: nat, col: int, row: int)
    requires dbbox.Valid()
    requires dbbox.Width() % Pow2(level + 1) == 0 && dbbox.Height() % Pow2(level + 1) == 0
    requires Address(level + 1, false, col, row).Valid()
    ensures Address(level, false, col / 2, row / 2).Valid()
    ensures AddressExtents(dbbox, Address(level + 1, false, col, row))
              .CoveredBy(AddressExtents(dbbox, Address(level, false, col / 2, row / 2)))
  {
    ChildAxis(dbbox.Width(), Pow2(level), col);
    ChildAxis(dbbox.Height(), Pow2(level), row);
  }

  lemma ChildAxis(w: nat, n: nat, k: int)
    requires n >= 1 && w % (2 * n) == 0 && 0 <= k < 2 * n
    ensures 0 <= k / 2 < n
    ensures AxisSpan(w, n, k / 2, false).0 <= AxisSpan(w, 2 * n, k, false).0
    ensures AxisSpan(w, 2 * n, k, false).1 <= AxisSpan(w, n, k / 2, false).1
  {
    var q := w / (2 * n);
    assert w == q * (2 * n);
    assert w / n == 2 * q by {
      assert w == (2 * q) * n;
      DivAdd(2 * q, 0, n);
    }
    ChildArith(k, q);
    DivLt(k, 2, n);
  }

  lemma ChildArith(k: int, q: nat)
    requires 0 <= k
    ensures (k / 2) * (2 * q) <= k * q
    ensures k * q + q <= (k / 2) * (2 * q) + 2 * q
  {
    assert k == 2 * (k / 2) + k % 2;
    MulLe(k / 2 * 2, k, q);
    MulLe(k + 1, 2 * (k / 2) + 2, q);
  }
}
