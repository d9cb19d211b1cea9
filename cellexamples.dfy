/** Worked cases of `max_cellno_containing_bbox`: the examples of its
    documentation and of the layer tests, and the inputs on which its
    search settles on a cell that does not hold the box. */
module CellSearchExamples {
  import opened Wrappers
  import opened Geometry
  import opened Bits
  import opened Arith
  import opened Quadtree
  import opened CellSearch

  // ------------------------------------------------------------ examples

  /** Level 0 takes a box as large as the layer, and no deeper level does. */
  lemma {:induction false} WholeLayerChoice(b: Rec, w: int, h: int, n: nat)
    requires w > 0 && h > 0
    requires b.c1.x == 0 && b.c1.y == 0 && b.c2.x == w && b.c2.y == h
    ensures LevelChoice(b, w, h, n) == (0, false)
  {
    if n > 0 {
      WholeLayerTooBig(b, w, h, n);
      WholeLayerChoice(b, w, h, n - 1);
    } else {
      assert Pow2(0) == 1;
      WholeAxisNoWrap(w);
      WholeAxisNoWrap(h);
    }
  }

  lemma WholeLayerTooBig(b: Rec, w: int, h: int, n: nat)
    requires w > 0 && h > 0 && n > 0
    requires b.c1.x == 0 && b.c1.y == 0 && b.c2.x == w && b.c2.y == h
    ensures TooBig(b, w, h, n)
  {
    assert Pow2(n) >= 2 by { assert Pow2(n) == 2 * Pow2(n - 1); }
    assert b.Width() * Pow2(n) > w;
  }

  /** A span as wide as the layer does not wrap on the aligned grid of
      level 0. */
  lemma WholeAxisNoWrap(d: int)
    requires d > 0
    ensures !Wraps(0, d, d, 0, 0)
  {
    assert Pow2(1) == 2;
    assert d * Pow2(1) + 0 * d == 1 * (2 * d) + 0;
    DivAdd(1, 0, 2 * d);
    assert 0 * Pow2(1) + 0 * d == 0 * (2 * d) + 0;
    DivAdd(0, 0, 2 * d);
  }

  lemma SlotAtOrigin(d: int)
    requires d > 0
    ensures Slot(0, d, 0, 0) == 0
  {
    assert 0 * Pow2(1) + 0 * d == 0 * (2 * d) + 0;
    DivAdd(0, 0, 2 * d);
  }

  lemma FirstCellNumber()
    ensures CellNumber(Address(0, false, 0, 0)) == 1
  {
    assert Pow2(0) == 1;
  }

  lemma WholeLayerAddress(layerbbox: Rec, maxlevels: nat)
    requires layerbbox.Valid() && layerbbox.Width() > 0 && layerbbox.Height() > 0
    ensures ChosenAddress(Relative(layerbbox, layerbbox), layerbbox.Width(), layerbbox.Height(), maxlevels)
      == Address(0, false, 0, 0)
  {
    var w, h := layerbbox.Width(), layerbbox.Height();
    WholeLayerChoice(Relative(layerbbox, layerbbox), w, h, maxlevels);
    SlotAtOrigin(w);
    SlotAtOrigin(h);
  }

  /** The layer's own bounding box goes to cell 1, whatever the depth (the
      first example of the source's documentation). */
  lemma MaxCellnoWholeLayer(layerbbox: Rec, maxlevels: nat)
    requires layerbbox.Valid() && layerbbox.Width() > 0 && layerbbox.Height() > 0
    ensures MaxCellno(layerbbox, layerbbox, maxlevels) == Ok(1)
  {
    WholeLayerAddress(layerbbox, maxlevels);
    FirstCellChosen(layerbbox, maxlevels);
  }

  /** Settling on the one cell of level 0 numbers the layer's box 1. */
  lemma FirstCellChosen(layerbbox: Rec, maxlevels: nat)
    requires layerbbox.Valid() && layerbbox.Width() > 0 && layerbbox.Height() > 0
    requires ChosenAddress(Relative(layerbbox, layerbbox), layerbbox.Width(), layerbbox.Height(), maxlevels)
      == Address(0, false, 0, 0)
    ensures MaxCellno(layerbbox, layerbbox, maxlevels) == Ok(1)
  {
    FirstCellNumber();
  }

  /** The point element of the layer tests: a layer from (-3, -4) to
      (2, 1) in units of 1e-4, the point (-1.5006, -3.5006) with y
      negated, one level: cell 4. */
  lemma MaxCellnoPointExample(layerbbox: Rec, bbox: Rec)
    requires layerbbox == Rec(Pt(-30000, -10000), Pt(20000, 40000))
    requires bbox == Rec(Pt(-15006, 35006), Pt(-15006, 35006))
    ensures MaxCellno(layerbbox, bbox, 1) == Ok(4)
  {
    var b := Relative(layerbbox, bbox);
    assert b == Rec(Pt(14994, 45006), Pt(14994, 45006));
    assert Pow2(1) == 2 && Pow2(2) == 4;
    assert !TooBig(b, 50000, 50000, 1);
    assert LevelChoice(b, 50000, 50000, 1) == (1, false);
    assert 14994 * Pow2(2) + 0 * 50000 == 0 * 100000 + 59976;
    DivAdd(0, 59976, 100000);
    assert 45006 * Pow2(2) + 0 * 50000 == 1 * 100000 + 80024;
    DivAdd(1, 80024, 100000);
    AddressOf(layerbbox, bbox, 1, 1, false, 0, 1);
  }

  /** The search looks only at the box relative to the layer's lower
      corner: moving both by the same offset changes nothing. */
  lemma MaxCellnoTranslated(layerbbox: Rec, bbox: Rec, d: Pt, maxlevels: int)
    requires layerbbox.Valid()
    ensures layerbbox.Translate(d).Valid()
    ensures MaxCellno(layerbbox.Translate(d), bbox.Translate(d), maxlevels) == MaxCellno(layerbbox, bbox, maxlevels)
  {
    assert Relative(layerbbox.Translate(d), bbox.Translate(d)) == Relative(layerbbox, bbox);
  }

  /** The unit layer of the documentation, scaled by 10. */
  const UnitLayer := Rec(Pt(0, 0), Pt(10, 10))

  /** The same layer moved by (10, 20): the worked cases below are
      computed there and carried back by `MaxCellnoTranslated`. */
  const MovedLayer := Rec(Pt(10, 20), Pt(20, 30))

  /** A box of the unit layer, moved along with it. */
  function Moved(bbox: Rec): Rec
  {
    bbox.Translate(Pt(10, 20))
  }

  /** The documentation's box 0.8..0.9 in a unit layer, one level: it
      fits the aligned cell (1, 1) of level 1, cell 5. Scaled by 10. */
  lemma MaxCellnoAlignedExample(layerbbox: Rec, bbox: Rec)
    requires layerbbox == UnitLayer && bbox == Rec(Pt(8, 8), Pt(9, 9))
    ensures MaxCellno(layerbbox, bbox, 1) == Ok(5)
  {
    MaxCellnoAlignedAddress(MovedLayer, Moved(bbox));
    MaxCellnoTranslated(layerbbox, bbox, Pt(10, 20), 1);
    AlignedNumber();
  }

  lemma AlignedNumber()
    ensures CellNumber(Address(1, false, 1, 1)) == 5
  {
    assert Pow2(1) == 2;
    assert TotCells(0) == 1 && Index(Address(1, false, 1, 1), 2) == 3;
  }

  lemma MaxCellnoAlignedAddress(layerbbox: Rec, bbox: Rec)
    requires layerbbox == MovedLayer && bbox == Rec(Pt(18, 28), Pt(19, 29))
    ensures MaxCellno(layerbbox, bbox, 1) == Ok(CellNumber(Address(1, false, 1, 1)))
  {
    var b := Relative(layerbbox, bbox);
    assert b == Rec(Pt(8, 8), Pt(9, 9));
    assert Pow2(1) == 2 && Pow2(2) == 4;
    assert !TooBig(b, 10, 10, 1);
    assert 9 * Pow2(2) + 0 * 10 == 1 * 20 + 16 && 8 * Pow2(2) + 0 * 10 == 1 * 20 + 12;
    DivAdd(1, 16, 20);
    DivAdd(1, 12, 20);
    assert !WrapsIn(b, 10, 10, 1, 0);
    assert LevelChoice(b, 10, 10, 1) == (1, false);
    AddressOf(layerbbox, bbox, 1, 1, false, 1, 1);
  }

  /** The documentation's box 0.3..0.7 in a unit layer, one level: it
      crosses the middle lines of the aligned grid and goes to the shifted
      cell (1, 1) of level 1, cell 10. Scaled by 10. */
  lemma MaxCellnoShiftedExample(layerbbox: Rec, bbox: Rec)
    requires layerbbox == UnitLayer && bbox == Rec(Pt(3, 3), Pt(7, 7))
    ensures MaxCellno(layerbbox, bbox, 1) == Ok(10)
  {
    MaxCellnoShiftedAddress(MovedLayer, Moved(bbox));
    MaxCellnoTranslated(layerbbox, bbox, Pt(10, 20), 1);
    ShiftedNumber();
  }

  lemma ShiftedNumber()
    ensures CellNumber(Address(1, true, 1, 1)) == 10
  {
    assert Pow2(1) == 2;
    assert TotCells(0) == 1 && Index(Address(1, true, 1, 1), 2) == 8;
  }

  lemma MaxCellnoShiftedAddress(layerbbox: Rec, bbox: Rec)
    requires layerbbox == MovedLayer && bbox == Rec(Pt(13, 23), Pt(17, 27))
    ensures MaxCellno(layerbbox, bbox, 1) == Ok(CellNumber(Address(1, true, 1, 1)))
  {
    var b := Relative(layerbbox, bbox);
    assert b == Rec(Pt(3, 3), Pt(7, 7));
    assert Pow2(1) == 2 && Pow2(2) == 4;
    assert !TooBig(b, 10, 10, 1);
    assert 7 * Pow2(2) + 0 * 10 == 1 * 20 + 8 && 3 * Pow2(2) + 0 * 10 == 0 * 20 + 12;
    DivAdd(1, 8, 20);
    DivAdd(0, 12, 20);
    assert WrapsIn(b, 10, 10, 1, 0);
    assert 7 * Pow2(2) + 1 * 10 == 1 * 20 + 18 && 3 * Pow2(2) + 1 * 10 == 1 * 20 + 2;
    DivAdd(1, 18, 20);
    DivAdd(1, 2, 20);
    assert !WrapsIn(b, 10, 10, 1, 1);
    assert LevelChoice(b, 10, 10, 1) == (1, true);
    AddressOf(layerbbox, bbox, 1, 1, true, 1, 1);
  }

  /** The documentation's box 0.9..1.0 in a unit layer, one level: it ends
      on the layer's edge, which the aligned grid counts as wrapping, and
      goes to the shifted cell (2, 2) of level 1, cell 14. Scaled by 10. */
  lemma MaxCellnoCornerExample(layerbbox: Rec, bbox: Rec)
    requires layerbbox == UnitLayer && bbox == Rec(Pt(9, 9), Pt(10, 10))
    ensures MaxCellno(layerbbox, bbox, 1) == Ok(14)
  {
    MaxCellnoCornerAddress(MovedLayer, Moved(bbox));
    MaxCellnoTranslated(layerbbox, bbox, Pt(10, 20), 1);
    CornerNumber();
  }

  lemma CornerNumber()
    ensures CellNumber(Address(1, true, 2, 2)) == 14
  {
    assert Pow2(1) == 2;
    assert TotCells(0) == 1 && Index(Address(1, true, 2, 2), 2) == 12;
  }

  lemma MaxCellnoCornerAddress(layerbbox: Rec, bbox: Rec)
    requires layerbbox == MovedLayer && bbox == Rec(Pt(19, 29), Pt(20, 30))
    ensures MaxCellno(layerbbox, bbox, 1) == Ok(CellNumber(Address(1, true, 2, 2)))
  {
    var b := Relative(layerbbox, bbox);
    assert b == Rec(Pt(9, 9), Pt(10, 10));
    assert Pow2(1) == 2 && Pow2(2) == 4;
    assert !TooBig(b, 10, 10, 1);
    assert 10 * Pow2(2) + 0 * 10 == 2 * 20 + 0 && 9 * Pow2(2) + 0 * 10 == 1 * 20 + 16;
    DivAdd(2, 0, 20);
    DivAdd(1, 16, 20);
    assert WrapsIn(b, 10, 10, 1, 0);
    assert 10 * Pow2(2) + 1 * 10 == 2 * 20 + 10 && 9 * Pow2(2) + 1 * 10 == 2 * 20 + 6;
    DivAdd(2, 10, 20);
    DivAdd(2, 6, 20);
    assert !WrapsIn(b, 10, 10, 1, 1);
    assert LevelChoice(b, 10, 10, 1) == (1, true);
    AddressOf(layerbbox, bbox, 1, 1, true, 2, 2);
  }

  /** The documentation's box 0.8..0.9 in a unit layer, two levels: it
      fits the aligned cell (3, 3) of level 2, numbered after the 14 cells
      of levels 0 and 1: cell 30. Scaled by 10. */
  lemma MaxCellnoDeeperExample(layerbbox: Rec, bbox: Rec)
    requires layerbbox == UnitLayer && bbox == Rec(Pt(8, 8), Pt(9, 9))
    ensures MaxCellno(layerbbox, bbox, 2) == Ok(30)
  {
    MaxCellnoDeeperAddress(MovedLayer, Moved(bbox));
    MaxCellnoTranslated(layerbbox, bbox, Pt(10, 20), 2);
    DeeperNumber();
  }

  lemma DeeperNumber()
    ensures CellNumber(Address(2, false, 3, 3)) == 30
  {
    assert Pow2(2) == 4 && Pow2(1) == 2;
    assert TotCells(1) == 14 && Index(Address(2, false, 3, 3), 4) == 15;
  }

  lemma MaxCellnoDeeperAddress(layerbbox: Rec, bbox: Rec)
    requires layerbbox == MovedLayer && bbox == Rec(Pt(18, 28), Pt(19, 29))
    ensures MaxCellno(layerbbox, bbox, 2) == Ok(CellNumber(Address(2, false, 3, 3)))
  {
    var b := Relative(layerbbox, bbox);
    assert b == Rec(Pt(8, 8), Pt(9, 9));
    assert Pow2(1) == 2 && Pow2(2) == 4 && Pow2(3) == 8;
    assert !TooBig(b, 10, 10, 2);
    assert 9 * Pow2(3) + 0 * 10 == 3 * 20 + 12 && 8 * Pow2(3) + 0 * 10 == 3 * 20 + 4;
    DivAdd(3, 12, 20);
    DivAdd(3, 4, 20);
    assert !WrapsIn(b, 10, 10, 2, 0);
    assert LevelChoice(b, 10, 10, 2) == (2, false);
    AddressOf(layerbbox, bbox, 2, 2, false, 3, 3);
  }

  /** The search settles on a level and grid, and the box's lower corner
      gives the column and row: that address is the number found. */
  lemma AddressOf(layerbbox: Rec, bbox: Rec, maxlevels: nat, level: nat, shifted: bool, col: int, row: int)
    requires layerbbox.Valid() && layerbbox.Width() > 0 && layerbbox.Height() > 0
    requires var b := Relative(layerbbox, bbox); var s := if shifted then 1 else 0;
      LevelChoice(b, layerbbox.Width(), layerbbox.Height(), maxlevels) == (level, shifted)
      && Slot(b.c1.x, layerbbox.Width(), level, s) == col && Slot(b.c1.y, layerbbox.Height(), level, s) == row
    ensures MaxCellno(layerbbox, bbox, maxlevels) == Ok(CellNumber(Address(level, shifted, col, row)))
  {
  }

  // ------------------------------------------------------------- findings

  /** A box as wide as a cell of level 1 that straddles the line between
      two cells does not wrap (3 % 2 is not below 1 % 2 in the source's
      units), so the search puts it in the aligned cell (0, 0), which does
      not hold it. Layer 8 wide, box 2..6 by 2..3 relative to it. */
  lemma StraddleMissed(layerbbox: Rec, bbox: Rec)
    requires layerbbox == Rec(Pt(10, 20), Pt(18, 28)) && bbox == Rec(Pt(12, 22), Pt(16, 23))
    ensures MaxCellno(layerbbox, bbox, 1) == Ok(CellNumber(Address(1, false, 0, 0)))
    ensures !bbox.CoveredBy(CellExtents(layerbbox, CellNumber(Address(1, false, 0, 0))))
  {
    assert MaxCellno(layerbbox, bbox, 1) == Ok(CellNumber(Address(1, false, 0, 0))) by {
      StraddleNumber(layerbbox, bbox);
      FirstAlignedNumber();
    }
    StraddleCell(layerbbox, bbox);
    ExtentsOfNumber(layerbbox, Address(1, false, 0, 0));
  }

  lemma StraddleNumber(layerbbox: Rec, bbox: Rec)
    requires layerbbox == Rec(Pt(10, 20), Pt(18, 28)) && bbox == Rec(Pt(12, 22), Pt(16, 23))
    ensures MaxCellno(layerbbox, bbox, 1) == Ok(2)
  {
    var b := Relative(layerbbox, bbox);
    assert b == Rec(Pt(2, 2), Pt(6, 3));
    StraddleChoice(b);
    AddressOf(layerbbox, bbox, 1, 1, false, 0, 0);
    FirstAlignedNumber();
  }

  /** The straddling box, relative to its layer 8 wide: level 1 on the
      aligned grid, column and row 0. */
  lemma StraddleChoice(b: Rec)
    requires b == Rec(Pt(2, 2), Pt(6, 3))
    ensures LevelChoice(b, 8, 8, 1) == (1, false)
    ensures Slot(b.c1.x, 8, 1, 0) == 0 && Slot(b.c1.y, 8, 1, 0) == 0
  {
    assert Pow2(1) == 2 && Pow2(2) == 4;
    assert !TooBig(b, 8, 8, 1);
    assert 6 * Pow2(2) + 0 * 8 == 1 * 16 + 8 && 2 * Pow2(2) + 0 * 8 == 0 * 16 + 8;
    DivAdd(1, 8, 16);
    DivAdd(0, 8, 16);
    assert 3 * Pow2(2) + 0 * 8 == 0 * 16 + 12;
    DivAdd(0, 12, 16);
    assert !WrapsIn(b, 8, 8, 1, 0);
  }

  lemma FirstAlignedNumber()
    ensures CellNumber(Address(1, false, 0, 0)) == 2
  {
    assert Pow2(1) == 2 && TotCells(0) == 1;
    assert Index(Address(1, false, 0, 0), 2) == 0;
  }

  lemma StraddleCell(layerbbox: Rec, bbox: Rec)
    requires layerbbox == Rec(Pt(10, 20), Pt(18, 28)) && bbox == Rec(Pt(12, 22), Pt(16, 23))
    ensures !bbox.CoveredBy(AddressExtents(layerbbox, Address(1, false, 0, 0)))
  {
    assert Pow2(1) == 2;
  }

  /** A box on the right edge of the layer gets column 2^n, one past the
      last aligned column; its number is that of the first shifted cell,
      at the layer's left edge. Layer 8 wide, the point (8, 5) relative to
      it. */
  lemma EdgeMisnumbered(layerbbox: Rec, bbox: Rec)
    requires layerbbox == Rec(Pt(10, 20), Pt(18, 28)) && bbox == Rec(Pt(18, 25), Pt(18, 25))
    ensures MaxCellno(layerbbox, bbox, 1) == Ok(CellNumber(Address(1, true, 0, 0)))
    ensures !bbox.CoveredBy(CellExtents(layerbbox, CellNumber(Address(1, true, 0, 0))))
  {
    EdgeNumber(layerbbox, bbox);
    EdgeCell(layerbbox, bbox);
    ExtentsOfNumber(layerbbox, Address(1, true, 0, 0));
  }

  lemma EdgeNumber(layerbbox: Rec, bbox: Rec)
    requires layerbbox == Rec(Pt(10, 20), Pt(18, 28)) && bbox == Rec(Pt(18, 25), Pt(18, 25))
    ensures MaxCellno(layerbbox, bbox, 1) == Ok(6) && CellNumber(Address(1, true, 0, 0)) == 6
  {
    var b := Relative(layerbbox, bbox);
    assert b == Rec(Pt(8, 5), Pt(8, 5));
    assert Pow2(1) == 2 && Pow2(2) == 4;
    assert !TooBig(b, 8, 8, 1);
    assert LevelChoice(b, 8, 8, 1) == (1, false);
    assert 8 * Pow2(2) + 0 * 8 == 2 * 16 + 0 && 5 * Pow2(2) + 0 * 8 == 1 * 16 + 4;
    DivAdd(2, 0, 16);
    DivAdd(1, 4, 16);
    AddressOf(layerbbox, bbox, 1, 1, false, 2, 1);
  }

  lemma EdgeCell(layerbbox: Rec, bbox: Rec)
    requires layerbbox == Rec(Pt(10, 20), Pt(18, 28)) && bbox == Rec(Pt(18, 25), Pt(18, 25))
    ensures !bbox.CoveredBy(AddressExtents(layerbbox, Address(1, true, 0, 0)))
  {
    assert Pow2(1) == 2;
  }

  /** With no level below 0, a box in the upper right quarter that wraps
      on the aligned grid but not on the shifted one is put on the shifted
      grid of level 0, which does not exist: its number is that of a cell
      of level 1. Layer 8 wide, box 6..8 by 6..8 relative to it. */
  lemma LevelZeroShifted(layerbbox: Rec, bbox: Rec)
    requires layerbbox == Rec(Pt(10, 20), Pt(18, 28)) && bbox == Rec(Pt(16, 26), Pt(18, 28))
    ensures MaxCellno(layerbbox, bbox, 0) == Ok(CellNumber(Address(1, false, 1, 1)))
    ensures MaxCellno(layerbbox, bbox, 0).value > TotCells(0)
  {
    var b := Relative(layerbbox, bbox);
    assert b == Rec(Pt(6, 6), Pt(8, 8));
    assert Pow2(0) == 1 && Pow2(1) == 2;
    assert !TooBig(b, 8, 8, 0);
    assert 8 * Pow2(1) + 0 * 8 == 1 * 16 + 0 && 6 * Pow2(1) + 0 * 8 == 0 * 16 + 12;
    DivAdd(1, 0, 16);
    DivAdd(0, 12, 16);
    assert WrapsIn(b, 8, 8, 0, 0);
    assert 8 * Pow2(1) + 1 * 8 == 1 * 16 + 8 && 6 * Pow2(1) + 1 * 8 == 1 * 16 + 4;
    DivAdd(1, 8, 16);
    DivAdd(1, 4, 16);
    assert !WrapsIn(b, 8, 8, 0, 1);
    assert LevelChoice(b, 8, 8, 0) == (0, true);
    AddressOf(layerbbox, bbox, 0, 0, true, 1, 1);
  }
}
