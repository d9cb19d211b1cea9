/** The pure helpers of osmmagellan/coastline.py: the orientation test of a
    closed ring and the test for a run of values inside a list. Coordinates
    are discrete integers here. */
module Coastline {
  import opened Wrappers
  import opened Geometry

  /** `sum((x2 - x1) * (y2 + y1))` over the consecutive vertices: twice the
      signed area, negative for a counter-clockwise ring. */
  function Shoelace(ps: seq<Pt>): int
  {
    if |ps| < 2 then 0
    else Shoelace(ps[..|ps| - 1]) + (ps[|ps| - 1].x - ps[|ps| - 2].x) * (ps[|ps| - 1].y + ps[|ps| - 2].y)
  }

  /** `isccw(coords)`: whether the ring runs counter-clockwise. An empty
      list gives numpy an array without a second axis to index. */
  function IsCcw(coords: seq<Pt>): (r: Result<bool>)
    ensures |coords| == 0 <==> r == Fail(IndexError)
    ensures |coords| > 0 ==> r == Ok(Shoelace(coords) < 0)
  {
    if |coords| == 0 then Fail(IndexError) else Ok(Shoelace(coords) < 0)
  }

  function Reverse(ps: seq<Pt>): (r: seq<Pt>)
    ensures |r| == |ps| && forall i :: 0 <= i < |ps| ==> r[i] == ps[|ps| - 1 - i]
  {
    if |ps| == 0 then [] else [ps[|ps| - 1]] + Reverse(ps[..|ps| - 1])
  }

  /** The sum, taken from the front. */
  lemma {:induction false} ShoelaceFront(ps: seq<Pt>)
    requires |ps| >= 2
    ensures Shoelace(ps) == (ps[1].x - ps[0].x) * (ps[1].y + ps[0].y) + Shoelace(ps[1..])
  {
    if |ps| > 2 {
      ShoelaceFront(ps[..|ps| - 1]);
      assert ps[..|ps| - 1][1..] == ps[1..][..|ps| - 2];
    }
  }

  /** Running a ring backwards negates the sum. */
  lemma {:induction false} ShoelaceReverse(ps: seq<Pt>)
    ensures Shoelace(Reverse(ps)) == -Shoelace(ps)
  {
    if |ps| >= 2 {
      var r, n := Reverse(ps), |ps|;
      assert r[..n - 1] == Reverse(ps[1..]);
      assert r[n - 1] == ps[0] && r[n - 2] == ps[1];
      ShoelaceFront(ps);
      ShoelaceReverse(ps[1..]);
      EdgeFlips(ps[0], ps[1]);
    }
  }

  /** One edge run backwards contributes the negated term. */
  lemma EdgeFlips(a: Pt, b: Pt)
    ensures (a.x - b.x) * (a.y + b.y) == -((b.x - a.x) * (b.y + a.y))
  {
  }

  /** A ring with a non-zero area is counter-clockwise exactly when its
      reverse is not. */
  lemma ReverseFlips(ps: seq<Pt>)
    requires |ps| > 0 && Shoelace(ps) != 0
    ensures IsCcw(Reverse(ps)) == Ok(!IsCcw(ps).value)
  {
    ShoelaceReverse(ps);
  }

  /** Moving a closed ring keeps its sum: the shift in y adds the shift
      times the x distance from the first vertex to the last. */
  lemma {:induction false} ShoelaceTranslate(ps: seq<Pt>, d: Pt)
    ensures var moved := seq(|ps|, i requires 0 <= i < |ps| => Pt(ps[i].x + d.x, ps[i].y + d.y));
      Shoelace(moved) == Shoelace(ps) + (if |ps| < 2 then 0 else 2 * d.y * (ps[|ps| - 1].x - ps[0].x))
  {
    var moved := seq(|ps|, i requires 0 <= i < |ps| => Pt(ps[i].x + d.x, ps[i].y + d.y));
    if |ps| >= 2 {
      var m := |ps| - 1;
      var prefix := ps[..m];
      ShoelaceTranslate(prefix, d);
      assert moved[..m] == seq(|prefix|, i requires 0 <= i < |prefix| => Pt(prefix[i].x + d.x, prefix[i].y + d.y));
      var a, b := ps[m - 1], ps[m];
      assert (b.x + d.x - (a.x + d.x)) * (b.y + d.y + (a.y + d.y))
             == (b.x - a.x) * (b.y + a.y) + 2 * d.y * (b.x - a.x);
    }
  }

  /** The orientation of a closed ring does not depend on where it lies. */
  lemma TranslateKeepsOrientation(ps: seq<Pt>, d: Pt)
    requires |ps| > 0 && ps[0] == ps[|ps| - 1]
    ensures IsCcw(seq(|ps|, i requires 0 <= i < |ps| => Pt(ps[i].x + d.x, ps[i].y + d.y))) == IsCcw(ps)
  {
    ShoelaceTranslate(ps, d);
  }

  /** The doctests: the unit square listed counter-clockwise, then
      clockwise. */
  lemma IsCcwExamples()
    ensures IsCcw([Pt(-1, -1), Pt(1, -1), Pt(1, 1), Pt(-1, 1), Pt(-1, -1)]) == Ok(true)
    ensures IsCcw([Pt(-1, -1), Pt(-1, 1), Pt(1, 1), Pt(1, -1), Pt(-1, -1)]) == Ok(false)
  {
    var ccw := [Pt(-1, -1), Pt(1, -1), Pt(1, 1), Pt(-1, 1), Pt(-1, -1)];
    assert ccw[..4][..3] == ccw[..3] && ccw[..3][..2] == ccw[..2];
    assert Shoelace(ccw[..2]) == -4;
    assert Shoelace(ccw[..3]) == -4;
    assert Shoelace(ccw[..4]) == -8;
    assert Shoelace(ccw) == -8;
    var cw := [Pt(-1, -1), Pt(-1, 1), Pt(1, 1), Pt(1, -1), Pt(-1, -1)];
    assert cw[..4][..3] == cw[..3] && cw[..3][..2] == cw[..2];
    assert Shoelace(cw[..2]) == 0;
    assert Shoelace(cw[..3]) == 4;
    assert Shoelace(cw[..4]) == 4;
    assert Shoelace(cw) == 8;
  }

  // ------------------------------------------------------------- issubseq

  /** `a.index(x)`: the first position of x, ValueError when absent. */
  function Index<T(==)>(a: seq<T>, x: T): (r: Result<nat>)
    ensures r.Ok? <==> x in a
    ensures r.Ok? ==> r.value < |a| && a[r.value] == x && forall j :: 0 <= j < r.value ==> a[j] != x
    ensures r.Fail? ==> r.failure == ValueError
  {
    if |a| == 0 then Fail(ValueError)
    else if a[0] == x then Ok(0)
    else
      var i :- Index(a[1..], x);
      Ok(i + 1)
  }

  /** The slice `a[i:j]` of Python, which clips at the end of the list. */
  function Slice<T>(a: seq<T>, i: nat, j: nat): seq<T>
  {
    if i >= |a| || j <= i then [] else a[i..if j < |a| then j else |a|]
  }

  /** Whether b is the run of a that starts at position i. */
  predicate RunAt<T(==)>(a: seq<T>, b: seq<T>, i: int)
  {
    0 <= i && i + |b| <= |a| && a[i..i + |b|] == b
  }

  /** Whether b occurs as a run of consecutive values of a. */
  ghost predicate Occurs<T>(a: seq<T>, b: seq<T>)
  {
    exists i :: RunAt(a, b, i)
  }

  /** `issubseq(a, b)` as written: only the run starting at the first
      occurrence of b[0] is compared; an empty b raises IndexError, which
      the handler for ValueError lets through. */
  function IsSubseq<T(==)>(a: seq<T>, b: seq<T>): (r: Result<bool>)
    ensures |b| == 0 <==> r == Fail(IndexError)
    ensures r == Ok(true) ==> Occurs(a, b)
  {
    if |b| == 0 then Fail(IndexError)
    else
      match Index(a, b[0])
      case Fail(_) => Ok(false)
      case Ok(i) =>
        var s := Slice(a, i, i + |b|);
        assert s == b ==> RunAt(a, b, i);
        Ok(s == b)
  }

  /** `issubseq` testing every occurrence of b[0]: true exactly when b
      occurs in a. */
  function IsSubseqFixed<T(==)>(a: seq<T>, b: seq<T>): (r: Result<bool>)
    ensures |b| == 0 <==> r == Fail(IndexError)
    ensures |b| > 0 ==> (r == Ok(true) <==> Occurs(a, b))
    decreases |a|
  {
    if |b| == 0 then Fail(IndexError)
    else if |a| < |b| then
      assert !Occurs(a, b);
      Ok(false)
    else if a[..|b|] == b then
      assert RunAt(a, b, 0);
      Ok(true)
    else
      var r := IsSubseqFixed(a[1..], b);
      assert Occurs(a, b) <==> Occurs(a[1..], b) by {
        if Occurs(a, b) {
          var i :| RunAt(a, b, i);
          assert i != 0;
          assert a[1..][i - 1..i - 1 + |b|] == b;
          assert RunAt(a[1..], b, i - 1);
        }
        if Occurs(a[1..], b) {
          var i :| RunAt(a[1..], b, i);
          assert a[i + 1..i + 1 + |b|] == b;
          assert RunAt(a, b, i + 1);
        }
      }
      r
  }

  /** The doctests: a run found, a run running past the end, and a
      first value that does not occur. */
  lemma IsSubseqFound()
    ensures IsSubseq([0, 1, 2, 3], [1, 2]) == Ok(true)
  {
    var a := [0, 1, 2, 3];
    assert a[1..] == [1, 2, 3];
    assert Index(a[1..], 1) == Ok(0);
    assert Slice(a, 1, 3) == [1, 2];
  }

  lemma IsSubseqPastEnd()
    ensures IsSubseq([0, 1, 2, 3], [1, 2, 3, 4]) == Ok(false)
  {
    var a := [0, 1, 2, 3];
    assert a[1..] == [1, 2, 3];
    assert Index(a[1..], 1) == Ok(0);
    assert Slice(a, 1, 5) == [1, 2, 3];
  }

  lemma IsSubseqAbsent()
    ensures IsSubseq([0, 1, 2, 3], [99]) == Ok(false)
  {
    assert 99 !in [0, 1, 2, 3];
  }

  /** A run behind a false start is missed: [1, 2] occurs in [1, 0, 1, 2]
      at position 2, but only the run at the first 1 is compared. */
  lemma FirstOccurrenceOnly()
    ensures Occurs([1, 0, 1, 2], [1, 2])
    ensures IsSubseq([1, 0, 1, 2], [1, 2]) == Ok(false)
    ensures IsSubseqFixed([1, 0, 1, 2], [1, 2]) == Ok(true)
  {
    var a := [1, 0, 1, 2];
    assert a[2..4] == [1, 2];
    assert RunAt(a, [1, 2], 2);
    assert Index(a, 1) == Ok(0);
    assert Slice(a, 0, 2) == [1, 0];
  }
}
