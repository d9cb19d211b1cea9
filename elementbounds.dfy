/** The bounding box of a cell element and the estimate of its record
    size (`bounds`, `bboxrec` and `estimate_size` of the element classes
    in magellan/CellElement.py). */
module ElementBounds {
  import opened Wrappers
  import opened Geometry
  import opened CellElement
  import opened AreaCodec

  /** The element has coordinates to bound: a label its position, a line
      a vertex, an area a ring and no empty ring. */
  predicate HasBounds(e: Element)
  {
    match e
    case Label(pos) => pos.Some?
    case Area(rings, _, _, _) => |rings| > 0 && RingsNonEmpty(rings)
    case Polyline(cs, _, _, _, _, _) => |cs| > 0
    case Routing(cs, _, _, _, _, _, _, _, _, _, _, _, _, _, _, _) => |cs| > 0
    case _ => true
  }

  /** Rectangle b holds every coordinate of e. */
  predicate Covers(b: Rec, e: Element)
  {
    match e
    case POI(p, _, _, _) => b.Contains(p)
    case Point(p, _, _) => b.Contains(p)
    case Label(pos) => pos.Some? ==> b.Contains(pos.value)
    case Area(rings, _, _, _) => forall k, i :: 0 <= k < |rings| && 0 <= i < |rings[k]| ==> b.Contains(rings[k][i])
    case Polyline(cs, _, _, _, _, _) => forall i :: 0 <= i < |cs| ==> b.Contains(cs[i])
    case Routing(cs, _, _, _, _, _, _, _, _, _, _, _, _, _, _, _) => forall i :: 0 <= i < |cs| ==> b.Contains(cs[i])
  }

  /** `bboxrec`: the rectangle of `bounds`. A label without a position has
      no coordinates to take a tuple of (TypeError); numpy's minimum of an
      empty line or ring raises ValueError. */
  function ElementBox(e: Element): (r: Result<Rec>)
    ensures r.Ok? <==> HasBounds(e)
    ensures r.Ok? ==> r.value.Valid() && Covers(r.value, e)
    ensures !HasBounds(e) ==> r == Fail(if e.Label? then TypeError else ValueError)
  {
    match e
    case POI(p, _, _, _) => Ok(PointBox(p))
    case Point(p, _, _) => Ok(PointBox(p))
    case Label(pos) => if pos.None? then Fail(TypeError) else Ok(PointBox(pos.value))
    case Area(rings, _, _, _) =>
      if |rings| == 0 || !RingsNonEmpty(rings) then Fail(ValueError) else Ok(AreaBounds(rings))
    case Polyline(cs, _, _, _, _, _) => if |cs| == 0 then Fail(ValueError) else Ok(Bounds(cs))
    case Routing(cs, _, _, _, _, _, _, _, _, _, _, _, _, _, _, _) =>
      if |cs| == 0 then Fail(ValueError) else Ok(Bounds(cs))
  }

  /** The box around the rings is covered by every rectangle holding all
      their vertices. */
  lemma {:induction false} AreaBoundsIsLeast(rings: seq<seq<Pt>>, b: Rec)
    requires |rings| > 0 && RingsNonEmpty(rings)
    requires forall k, i :: 0 <= k < |rings| && 0 <= i < |rings[k]| ==> b.Contains(rings[k][i])
    ensures AreaBounds(rings).CoveredBy(b)
    decreases |rings|
  {
    BoundsIsLeast(rings[0], b);
    if |rings| > 1 {
      var rest := rings[1..];
      assert forall k, i :: 0 <= k < |rest| && 0 <= i < |rest[k]| ==> rest[k][i] == rings[k + 1][i];
      AreaBoundsIsLeast(rest, b);
    }
  }

  /** The element box is the least rectangle holding the element. */
  lemma ElementBoxIsLeast(e: Element, b: Rec)
    requires HasBounds(e) && Covers(b, e)
    ensures ElementBox(e).value.CoveredBy(b)
  {
    match e
    case Area(rings, _, _, _) => AreaBoundsIsLeast(rings, b);
    case Polyline(cs, _, _, _, _, _) => BoundsIsLeast(cs, b);
    case Routing(cs, _, _, _, _, _, _, _, _, _, _, _, _, _, _, _) => BoundsIsLeast(cs, b);
    case _ =>
  }

  /** `len(coords)` as `estimate_size` takes it: the two numbers of a
      point, the vertices of a line, the rings of an area. */
  function CoordLength(e: Element): Result<nat>
  {
    match e
    case Label(pos) => if pos.None? then Fail(TypeError) else Ok(2)
    case Area(rings, _, _, _) => Ok(|rings|)
    case Polyline(cs, _, _, _, _, _) => Ok(|cs|)
    case Routing(cs, _, _, _, _, _, _, _, _, _, _, _, _, _, _, _) => Ok(|cs|)
    case _ => Ok(2)
  }

  /** `estimate_size` in tenths of a byte: 10 plus 1.3 per coordinate
      entry. Only a label without a position has none (TypeError). */
  function EstimateSize(e: Element): (r: Result<nat>)
    ensures r.Ok? <==> !(e.Label? && e.position.None?)
    ensures r.Ok? ==> r.value >= 100 && (r.value - 100) % 13 == 0
    ensures (e.POI? || e.Point?) ==> r == Ok(126)
    ensures e.Polyline? || e.Routing? ==> r == Ok(100 + 13 * |e.coords|)
  {
    var n :- CoordLength(e);
    Ok(100 + 13 * n)
  }
}
