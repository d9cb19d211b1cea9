/** Discrete points and the axis-aligned rectangle `Rec` of
    magellan/CellElement.py, over integer layer coordinates. */
module Geometry {
  import opened Wrappers

  datatype Pt = Pt(x: int, y: int)
  {
    function Add(d: Pt): Pt { Pt(x + d.x, y + d.y) }
    function Sub(d: Pt): Pt { Pt(x - d.x, y - d.y) }
  }

  function Min(a: int, b: int): int { if a <= b then a else b }
  function Max(a: int, b: int): int { if a <= b then b else a }

  /** A rectangle from corner c1 (minimum x and y) to corner c2 (maximum). */
  datatype Rec = Rec(c1: Pt, c2: Pt)
  {
    /** c1 is really the lower corner. */
    predicate Valid() { c1.x <= c2.x && c1.y <= c2.y }

    predicate Contains(p: Pt) { c1.x <= p.x <= c2.x && c1.y <= p.y <= c2.y }

    /** Every point of this rectangle lies in `r` (for valid rectangles). */
    predicate CoveredBy(r: Rec) { r.c1.x <= c1.x && r.c1.y <= c1.y && c2.x <= r.c2.x && c2.y <= r.c2.y }

    function Width(): int { c2.x - c1.x }
    function Height(): int { c2.y - c1.y }

    /** Mirror in the x axis: the corners swap their y values. */
    function NegY(): (r: Rec)
      ensures r.Width() == Width() && r.Height() == Height()
      ensures Valid() ==> r.Valid()
      ensures r.c1.y == -c2.y && r.c2.y == -c1.y
    {
      Rec(Pt(c1.x, -c2.y), Pt(c2.x, -c1.y))
    }

    function Translate(d: Pt): (r: Rec)
      ensures r.Width() == Width() && r.Height() == Height()
      ensures r.c1 == c1.Add(d)
    {
      Rec(c1.Add(d), c2.Add(d))
    }

    /** The smallest rectangle covering both. */
    function Union(a: Rec): (r: Rec)
      ensures CoveredBy(r) && a.CoveredBy(r)
      ensures forall b: Rec :: CoveredBy(b) && a.CoveredBy(b) ==> r.CoveredBy(b)
      ensures Valid() ==> r.Valid()
    {
      Rec(Pt(Min(c1.x, a.c1.x), Min(c1.y, a.c1.y)), Pt(Max(c2.x, a.c2.x), Max(c2.y, a.c2.y)))
    }

    /** Grow by v on every side. */
    function Buffer(v: int): (r: Rec)
      ensures r.Width() == Width() + 2 * v && r.Height() == Height() + 2 * v
      ensures v >= 0 ==> CoveredBy(r)
    {
      Rec(c1.Sub(Pt(v, v)), c2.Add(Pt(v, v)))
    }

    function Scale(f: int): (r: Rec)
      ensures r.Width() == f * Width() && r.Height() == f * Height()
    {
      Rec(Pt(c1.x * f, c1.y * f), Pt(c2.x * f, c2.y * f))
    }

    /** The midpoint, rounded down as Python 2 integer division does. */
    function Center(): (p: Pt)
      ensures Valid() ==> Contains(p)
    {
      Pt((c1.x + c2.x) / 2, (c1.y + c2.y) / 2)
    }

    function UL(): Pt { Pt(c1.x, c2.y) }
    function LL(): Pt { c1 }
    function UR(): Pt { c2 }
    function LR(): Pt { Pt(c2.x, c1.y) }
  }

  lemma NegYInvolution(r: Rec)
    ensures r.NegY().NegY() == r
    ensures forall p: Pt :: r.Contains(p) <==> r.NegY().Contains(Pt(p.x, -p.y))
  {
  }

  lemma TranslateMovesPoints(r: Rec, d: Pt)
    ensures forall p: Pt :: r.Contains(p) <==> r.Translate(d).Contains(p.Add(d))
    ensures r.Translate(d).Translate(Pt(-d.x, -d.y)) == r
  {
  }

  lemma CornersInside(r: Rec)
    requires r.Valid()
    ensures r.Contains(r.UL()) && r.Contains(r.LL()) && r.Contains(r.UR()) && r.Contains(r.LR())
    ensures r.UL().x == r.LL().x && r.UR().x == r.LR().x
    ensures r.UL().y == r.UR().y && r.LL().y == r.LR().y
  {
  }

  /** Bounding box of a non-empty vertex list (the `bounds` property of
      the line-string elements, as a rectangle). */
  function Bounds(vs: seq<Pt>): (r: Rec)
    requires |vs| > 0
    ensures r.Valid()
    ensures forall i :: 0 <= i < |vs| ==> r.Contains(vs[i])
  {
    if |vs| == 1 then Rec(vs[0], vs[0])
    else
      var b := Bounds(vs[..|vs| - 1]);
      var last := vs[|vs| - 1];
      assert forall i :: 0 <= i < |vs| - 1 ==> vs[..|vs| - 1][i] == vs[i];
      b.Union(Rec(last, last))
  }

  /** Each side of the bounding box passes through a vertex. */
  lemma {:induction false} BoundsAttained(vs: seq<Pt>)
    requires |vs| > 0
    ensures exists i :: 0 <= i < |vs| && vs[i].x == Bounds(vs).c1.x
    ensures exists i :: 0 <= i < |vs| && vs[i].y == Bounds(vs).c1.y
    ensures exists i :: 0 <= i < |vs| && vs[i].x == Bounds(vs).c2.x
    ensures exists i :: 0 <= i < |vs| && vs[i].y == Bounds(vs).c2.y
  {
    var n := |vs| - 1;
    if n == 0 {
      assert vs[0].x == Bounds(vs).c1.x && vs[0].y == Bounds(vs).c1.y;
      assert vs[0].x == Bounds(vs).c2.x && vs[0].y == Bounds(vs).c2.y;
    } else {
      var front := vs[..n];
      var b := Bounds(front);
      BoundsAttained(front);
      assert forall i :: 0 <= i < |front| ==> front[i] == vs[i];
      var j1 :| 0 <= j1 < n && front[j1].x == b.c1.x;
      var j2 :| 0 <= j2 < n && front[j2].y == b.c1.y;
      var j3 :| 0 <= j3 < n && front[j3].x == b.c2.x;
      var j4 :| 0 <= j4 < n && front[j4].y == b.c2.y;
      var k1 := if b.c1.x <= vs[n].x then j1 else n;
      var k2 := if b.c1.y <= vs[n].y then j2 else n;
      var k3 := if vs[n].x <= b.c2.x then j3 else n;
      var k4 := if vs[n].y <= b.c2.y then j4 else n;
      assert vs[k1].x == Bounds(vs).c1.x && vs[k2].y == Bounds(vs).c1.y;
      assert vs[k3].x == Bounds(vs).c2.x && vs[k4].y == Bounds(vs).c2.y;
    }
  }

  /** The rectangle through the extreme vertices is the least rectangle
      containing all of them. */
  lemma BoundsIsLeast(vs: seq<Pt>, b: Rec)
    requires |vs| > 0
    requires forall i :: 0 <= i < |vs| ==> b.Contains(vs[i])
    ensures Bounds(vs).CoveredBy(b)
  {
    var r := Bounds(vs);
    BoundsAttained(vs);
    var i1 :| 0 <= i1 < |vs| && vs[i1].x == r.c1.x;
    var i2 :| 0 <= i2 < |vs| && vs[i2].y == r.c1.y;
    var i3 :| 0 <= i3 < |vs| && vs[i3].x == r.c2.x;
    var i4 :| 0 <= i4 < |vs| && vs[i4].y == r.c2.y;
    assert b.Contains(vs[i1]) && b.Contains(vs[i2]) && b.Contains(vs[i3]) && b.Contains(vs[i4]);
  }

  /** BBoxRecFromVlist: one pass keeping running extremes. A value below the
      running minimum cannot also exceed the running maximum, so the `elif`
      loses nothing. An empty list raises IndexError. */
  method BBoxRecFromVlist(vlist: seq<Pt>) returns (r: Result<Rec>)
    ensures |vlist| == 0 ==> r == Fail(IndexError)
    ensures |vlist| > 0 ==> r == Ok(Bounds(vlist))
  {
    if |vlist| == 0 {
      return Fail(IndexError);
    }
    var minx, miny := vlist[0].x, vlist[0].y;
    var maxx, maxy := minx, miny;
    var i := 1;
    while i < |vlist|
      invariant 1 <= i <= |vlist|
      invariant Rec(Pt(minx, miny), Pt(maxx, maxy)) == Bounds(vlist[..i])
    {
      var v := vlist[i];
      assert vlist[..i + 1][..i] == vlist[..i];
      assert Bounds(vlist[..i + 1]) == Bounds(vlist[..i]).Union(Rec(v, v));
      if v.x < minx {
        minx := v.x;
      } else if v.x > maxx {
        maxx := v.x;
      }
      if v.y < miny {
        miny := v.y;
      } else if v.y > maxy {
        maxy := v.y;
      }
      i := i + 1;
    }
    assert vlist[..i] == vlist;
    return Ok(Rec(Pt(minx, miny), Pt(maxx, maxy)));
  }
}
