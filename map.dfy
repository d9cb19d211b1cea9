/** The map object of magellan/Map.py: the integer-list encoding of its
    configuration file, the discretisation scale, the bounding box
    (stored with y negated, set only in write mode and before any layer
    exists, and otherwise the union of the layers' boxes), and the list
    of groups with its lookups. */
module Maps {
  import opened Wrappers
  import opened PyStr
  import opened Chunks
  import opened Geometry
  import Topo
  import Layers

  // integer lists in the configuration file

  /** `encodeintlist(l)`: the count, then the items, separated by single spaces. */
  function EncodeIntList(l: seq<int>): (r: string)
    ensures |r| >= 1
  {
    Join(Topo.IntStrs([|l|] + l), ' ')
  }

  /** `decodeintlist(s)`: every space-separated word must be a number
      (else ValueError), and the first must count the others (else
      AssertionError). */
  function DecodeIntList(s: string): (r: Result<seq<int>>)
    ensures r.Ok? ==> Topo.ParseInts(Split(s, ' ')) == Ok([|r.value|] + r.value)
    ensures r == Fail(AssertionError) <==>
      (var ns := Topo.ParseInts(Split(s, ' ')); ns.Ok? && ns.value[0] + 1 != |ns.value|)
    ensures r.Fail? ==> r.failure == ValueError || r.failure == AssertionError
  {
    ParseIntsFailure(Split(s, ' '));
    var l :- Topo.ParseInts(Split(s, ' '));
    if l[0] + 1 != |l| then Fail(AssertionError)
    else
      assert l == [l[0]] + l[1..];
      Ok(l[1..])
  }

  /** `map(int, words)` fails only with ValueError. */
  lemma {:induction false} ParseIntsFailure(ws: seq<string>)
    ensures Topo.ParseInts(ws).Fail? ==> Topo.ParseInts(ws).failure == ValueError
  {
    if |ws| > 0 {
      ParseIntsFailure(ws[..|ws| - 1]);
    }
  }

  /** The words of an encoded list are the numbers written out. */
  lemma EncodedWords(xs: seq<int>)
    ensures Split(Join(Topo.IntStrs(xs), ' '), ' ') == Topo.IntStrs(xs) || |xs| == 0
  {
    if |xs| > 0 {
      SplitJoin(Topo.IntStrs(xs), ' ');
    }
  }

  /** `decodeintlist(encodeintlist(l)) == l`. */
  lemma DecodeEncode(l: seq<int>)
    ensures DecodeIntList(EncodeIntList(l)) == Ok(l)
  {
    var xs := [|l|] + l;
    EncodedWords(xs);
    Topo.ParseIntsBack(xs);
    assert xs[1..] == l;
  }

  /** A list whose count word disagrees with the number of items is
      refused with AssertionError. */
  lemma CountMismatchRefused(k: int, l: seq<int>)
    requires k != |l|
    ensures DecodeIntList(Join(Topo.IntStrs([k] + l), ' ')) == Fail(AssertionError)
  {
    var xs := [k] + l;
    EncodedWords(xs);
    Topo.ParseIntsBack(xs);
  }

  /** The example of the source's documentation: [3, 2] is "2 3 2". */
  lemma EncodeExample()
    ensures EncodeIntList([3, 2]) == "2 3 2"
    ensures DecodeIntList("2 3 2") == Ok([3, 2])
  {
    assert IntStr(2) == "2" && IntStr(3) == "3";
    assert [|[3, 2]|] + [3, 2] == [2, 3, 2];
    var ws := Topo.IntStrs([2, 3, 2]);
    assert ws == ["2", "3", "2"];
    assert ws[1..] == ["3", "2"] && ws[1..][1..] == ["2"];
    assert Join(["3", "2"], ' ') == "3 2";
    assert Join(ws, ' ') == "2 3 2";
    DecodeEncode([3, 2]);
  }

  // the bounding box union

  /** `layerbboxunion(a, b)`: a missing box leaves the other one. */
  function BBoxUnion(a: Option<Rec>, b: Option<Rec>): (r: Option<Rec>)
    ensures r.None? <==> a.None? && b.None?
    ensures a.Some? && b.None? ==> r == a
    ensures a.None? && b.Some? ==> r == b
    ensures a.Some? && b.Some? ==> r.Some? && a.value.CoveredBy(r.value) && b.value.CoveredBy(r.value)
  {
    if a.None? && b.None? then None
    else if a.None? then b
    else if b.None? then a
    else Some(a.value.Union(b.value))
  }

  /** `reduce(layerbboxunion, boxes, None)`: folded from the left. */
  function ReduceBBoxes(boxes: seq<Option<Rec>>): Option<Rec>
  {
    if |boxes| == 0 then None
    else BBoxUnion(ReduceBBoxes(boxes[..|boxes| - 1]), boxes[|boxes| - 1])
  }

  /** Every present box of the list lies inside `r`. */
  predicate CoversAll(r: Rec, boxes: seq<Option<Rec>>)
  {
    forall i :: 0 <= i < |boxes| && boxes[i].Some? ==> boxes[i].value.CoveredBy(r)
  }

  predicate AllNone(boxes: seq<Option<Rec>>)
  {
    forall i :: 0 <= i < |boxes| ==> boxes[i].None?
  }

  /** The union is missing exactly when every layer box is missing; else
      it covers every present box and lies inside any rectangle that
      does: it is the smallest cover. */
  lemma {:induction false} ReduceBBoxesIsUnion(boxes: seq<Option<Rec>>)
    ensures ReduceBBoxes(boxes).None? <==> AllNone(boxes)
    ensures ReduceBBoxes(boxes).Some? ==> CoversAll(ReduceBBoxes(boxes).value, boxes)
    ensures ReduceBBoxes(boxes).Some? ==>
      forall b: Rec :: CoversAll(b, boxes) ==> ReduceBBoxes(boxes).value.CoveredBy(b)
  {
    if |boxes| > 0 {
      var front := boxes[..|boxes| - 1];
      var last := boxes[|boxes| - 1];
      ReduceBBoxesIsUnion(front);
      var u := ReduceBBoxes(front);
      assert forall i :: 0 <= i < |front| ==> front[i] == boxes[i];
      if u.Some? {
        forall b: Rec | CoversAll(b, boxes)
          ensures ReduceBBoxes(boxes).value.CoveredBy(b)
        {
          assert CoversAll(b, front);
        }
      }
      if u.None? && last.Some? {
        forall b: Rec | CoversAll(b, boxes)
          ensures ReduceBBoxes(boxes).value.CoveredBy(b)
        {
          assert boxes[|boxes| - 1] == last;
        }
      }
    }
  }

  // groups

  /** A layer as the map sees it: its name and its bounding box, if any. */
  datatype LayerEntry = LayerEntry(name: string, bboxrec: Option<Rec>)

  /** A group: its name and the layers it holds. Groups are compared by
      value; the map keeps their names distinct. */
  datatype Group = Group(name: string, layers: seq<LayerEntry>)

  function Names(gs: seq<Group>): (r: seq<string>)
    ensures |r| == |gs| && forall i :: 0 <= i < |gs| ==> r[i] == gs[i].name
  {
    seq(|gs|, i requires 0 <= i < |gs| => gs[i].name)
  }

  predicate DistinctNames(gs: seq<Group>)
  {
    forall i, j :: 0 <= i < j < |gs| ==> gs[i].name != gs[j].name
  }

  /** `list.index(x)`: the first position holding x. */
  function IndexOf<T(==)>(xs: seq<T>, x: T): (r: nat)
    requires x in xs
    ensures r < |xs| && xs[r] == x
    ensures forall j :: 0 <= j < r ==> xs[j] != x
  {
    if xs[0] == x then 0 else 1 + IndexOf(xs[1..], x)
  }

  /** `getGroupIndex`: the list position of a registered group, 0 for the
      POI group, and an exception for any other group. */
  function GroupIndex(groups: seq<Group>, poigroup: Option<Group>, g: Group): (r: Result<nat>)
    ensures r.Ok? <==> g in groups || poigroup == Some(g)
    ensures r.Ok? && g in groups ==> r.value < |groups| && groups[r.value] == g
    ensures r.Ok? && g !in groups ==> r.value == 0
    ensures r.Fail? ==> r.failure == RuntimeError
  {
    if g in groups then Ok(IndexOf(groups, g))
    else if poigroup == Some(g) then Ok(0)
    else Fail(RuntimeError)
  }

  /** With distinct names, each group's index is its position. */
  lemma GroupIndexOfPosition(groups: seq<Group>, poigroup: Option<Group>, i: nat)
    requires DistinctNames(groups) && i < |groups|
    ensures GroupIndex(groups, poigroup, groups[i]) == Ok(i)
  {
    var k := IndexOf(groups, groups[i]);
    assert groups[k].name == groups[i].name;
  }

  /** `getLayerByName`: the first layer with the name, if any. */
  function FindLayer(ls: seq<LayerEntry>, name: string): (r: Option<LayerEntry>)
    ensures r.None? <==> forall i :: 0 <= i < |ls| ==> ls[i].name != name
    ensures r.Some? ==> r.value in ls && r.value.name == name
  {
    if |ls| == 0 then None
    else if ls[0].name == name then Some(ls[0])
    else FindLayer(ls[1..], name)
  }

  /** The first group, in list order, holding a layer with the name, and
      that layer. */
  function FindInGroups(gs: seq<Group>, name: string): (r: Option<(LayerEntry, Group)>)
    ensures r.None? <==> forall i :: 0 <= i < |gs| ==> FindLayer(gs[i].layers, name).None?
    ensures r.Some? ==> r.value.1 in gs && r.value.0 in r.value.1.layers && r.value.0.name == name
  {
    if |gs| == 0 then None
    else match FindLayer(gs[0].layers, name)
      case Some(l) => Some((l, gs[0]))
      case None =>
        var t := FindInGroups(gs[1..], name);
        assert forall i :: 1 <= i < |gs| ==> gs[i] == gs[1..][i - 1];
        t
  }

  /** `getLayerAndGroupByName`: a layer of a group, with that group, or
      else a layer of the map outside the groups, with no group; a name
      found nowhere raises ValueError. */
  function LayerAndGroup(gs: seq<Group>, ls: seq<LayerEntry>, name: string): (r: Result<(LayerEntry, Option<Group>)>)
    ensures r.Fail? <==>
      (forall i :: 0 <= i < |gs| ==> FindLayer(gs[i].layers, name).None?) &&
      (forall i :: 0 <= i < |ls| ==> ls[i].name != name)
    ensures r.Fail? ==> r.failure == ValueError
    ensures r.Ok? ==> r.value.0.name == name
    ensures r.Ok? && r.value.1.Some? ==> r.value.1.value in gs && r.value.0 in r.value.1.value.layers
    ensures r.Ok? && r.value.1.None? ==> r.value.0 in ls && FindInGroups(gs, name).None?
  {
    match FindInGroups(gs, name)
    case Some(p) => Ok((p.0, Some(p.1)))
    case None =>
      match FindLayer(ls, name)
      case Some(l) => Ok((l, None))
      case None => Fail(ValueError)
  }

  // the map

  /** What `set_scale` is given: a number, or a sequence of numbers. */
  datatype ScaleArg = Scalar(v: real) | Vector(vs: seq<real>)

  /** The scale `set_scale` stores: a number is broadcast to both axes, a
      sequence is kept as given. */
  function ScaleOf(arg: ScaleArg): (r: seq<real>)
    ensures arg.Scalar? ==> |r| == 2 && r[0] == r[1] == arg.v
    ensures arg.Vector? ==> r == arg.vs
  {
    match arg
    case Scalar(v) => [v, v]
    case Vector(vs) => vs
  }

  class Map {
    /** The open mode; None until the map is opened and after it is closed. */
    var mode: Option<Layers.Mode>
    /** The layers of the layer configuration. */
    var layers: seq<LayerEntry>
    /** The layers of the POI configuration. */
    var poiLayers: seq<LayerEntry>
    var groups: seq<Group>
    var poigroup: Option<Group>
    /** The stored bounding box, with its y axis negated. */
    var bboxrec: Option<Rec>
    var scale: seq<real>

    constructor ()
      ensures mode == None && layers == [] && poiLayers == [] && groups == [] && poigroup == None
      ensures bboxrec == None && scale == [0.000009, 0.000009]
    {
      mode := None;
      layers := [];
      poiLayers := [];
      groups := [];
      poigroup := None;
      bboxrec := None;
      scale := [0.000009, 0.000009];
    }

    /** `set_scale`. */
    method SetScale(arg: ScaleArg)
      modifies this
      ensures scale == ScaleOf(arg)
      ensures mode == old(mode) && layers == old(layers) && poiLayers == old(poiLayers)
      ensures groups == old(groups) && poigroup == old(poigroup) && bboxrec == old(bboxrec)
    {
      scale := ScaleOf(arg);
    }

    /** `get_bboxrec`: the stored box with its y axis turned back. */
    function BBoxRec(): (r: Option<Rec>)
      reads this
      ensures r.None? <==> bboxrec.None?
      ensures r.Some? ==> r.value.NegY() == bboxrec.value
    {
      if bboxrec.None? then None
      else Some(bboxrec.value.NegY())
    }

    /** `set_bboxrec`: refused in read or append mode, once a layer
        exists, or for an argument that is not a rectangle (None here). */
    method SetBBoxRec(arg: Option<Rec>) returns (r: Result<()>)
      modifies this
      ensures r.Fail? <==> old(mode) == Some(Layers.Read) || old(mode) == Some(Layers.Append) || |old(layers)| > 0 || arg.None?
      ensures r.Fail? ==> r.failure == ValueError && bboxrec == old(bboxrec)
      ensures r.Ok? ==> bboxrec == Some(arg.value.NegY())
      ensures mode == old(mode) && layers == old(layers) && poiLayers == old(poiLayers)
      ensures groups == old(groups) && poigroup == old(poigroup) && scale == old(scale)
    {
      if mode == Some(Layers.Read) || mode == Some(Layers.Append) {
        return Fail(ValueError);
      }
      if |layers| > 0 {
        return Fail(ValueError);
      }
      if arg.None? {
        return Fail(ValueError);
      }
      bboxrec := Some(arg.value.NegY());
      r := Ok(());
    }

    /** The boxes of the map's layers, then of its POI layers. */
    function LayerBoxes(): (r: seq<Option<Rec>>)
      reads this
      ensures |r| == |layers| + |poiLayers|
      ensures forall i :: 0 <= i < |r| ==> r[i] == (layers + poiLayers)[i].bboxrec
    {
      seq(|layers| + |poiLayers|, i requires 0 <= i < |layers| + |poiLayers| reads this => (layers + poiLayers)[i].bboxrec)
    }

    /** `calculatebbox`: None when no layer has a box, else the smallest
        rectangle covering every layer box. */
    function CalculateBBox(): (r: Option<Rec>)
      reads this
      ensures r.None? <==> forall i :: 0 <= i < |layers + poiLayers| ==> (layers + poiLayers)[i].bboxrec.None?
      ensures r.Some? ==> CoversAll(r.value, LayerBoxes())
      ensures r.Some? ==> forall b: Rec :: CoversAll(b, LayerBoxes()) ==> r.value.CoveredBy(b)
    {
      var boxes := LayerBoxes();
      ReduceBBoxesIsUnion(boxes);
      ReduceBBoxes(boxes)
    }

    /** `addGroup`: a name already taken, or any group once the POI group
        exists, raises ValueError; otherwise the group is appended. */
    method AddGroup(g: Group) returns (r: Result<()>)
      modifies this
      ensures r.Ok? <==> g.name !in Names(old(groups)) && old(poigroup).None?
      ensures r.Ok? ==> groups == old(groups) + [g]
      ensures r.Fail? ==> r.failure == ValueError && groups == old(groups)
      ensures old(DistinctNames(groups)) ==> DistinctNames(groups)
      ensures mode == old(mode) && layers == old(layers) && poiLayers == old(poiLayers)
      ensures poigroup == old(poigroup) && bboxrec == old(bboxrec) && scale == old(scale)
    {
      if g.name in Names(groups) {
        return Fail(ValueError);
      }
      if poigroup.Some? {
        return Fail(ValueError);
      }
      groups := groups + [g];
      r := Ok(());
    }

    /** `getGroupIndex`. */
    function GetGroupIndex(g: Group): (r: Result<nat>)
      reads this
      ensures DistinctNames(groups) ==> forall i :: 0 <= i < |groups| && groups[i] == g ==> r == Ok(i)
      ensures r.Ok? <==> g in groups || poigroup == Some(g)
    {
      if DistinctNames(groups) then
        assert forall i :: 0 <= i < |groups| ==> GroupIndex(groups, poigroup, groups[i]) == Ok(i) by {
          forall i | 0 <= i < |groups| {
            GroupIndexOfPosition(groups, poigroup, i);
          }
        }
        GroupIndex(groups, poigroup, g)
      else GroupIndex(groups, poigroup, g)
    }

    /** `getLayerAndGroupByName`: the groups are searched in order, each
        one's layers in order, and then the map's own layers. */
    method GetLayerAndGroupByName(name: string) returns (r: Result<(LayerEntry, Option<Group>)>)
      ensures r == LayerAndGroup(groups, layers, name)
    {
      var i := 0;
      while i < |groups|
        invariant 0 <= i <= |groups|
        invariant FindInGroups(groups[i..], name) == FindInGroups(groups, name)
      {
        var found := FindLayerLoop(groups[i].layers, name);
        if found.Some? {
          return Ok((found.value, Some(groups[i])));
        }
        assert groups[i..][1..] == groups[i + 1..];
        i := i + 1;
      }
      var layer := FindLayerLoop(layers, name);
      if layer.Some? {
        return Ok((layer.value, None));
      }
      r := Fail(ValueError);
    }
  }

  /** The search loop of `getLayerByName` and of the inner loop of
      `getLayerAndGroupByName`. */
  method FindLayerLoop(ls: seq<LayerEntry>, name: string) returns (r: Option<LayerEntry>)
    ensures r == FindLayer(ls, name)
  {
    var j := 0;
    while j < |ls|
      invariant 0 <= j <= |ls|
      invariant FindLayer(ls[j..], name) == FindLayer(ls, name)
    {
      if ls[j].name == name {
        return Some(ls[j]);
      }
      assert ls[j..][1..] == ls[j + 1..];
      j := j + 1;
    }
    r := None;
  }
}
