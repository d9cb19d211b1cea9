/** The routing configuration of magellan/routing.py: the routing layers,
    the routing sets (nested selections of them, from the major roads of
    set 0 to every street of the last set), directions and speeds, the
    routing edge layers, and the `ROUTING` section written from them.
    A layer is named by its index in the map's layer list. */
module Routing {
  import opened Wrappers
  import opened PyStr
  import opened Chunks
  import Topo
  import Maps

  const LayerTypePolyline: int := 0xd

  // routing sets

  /** `minset`: the first routing set holding the layer, or None. */
  function MinSet(sets: seq<seq<nat>>, l: nat): (r: Option<nat>)
    ensures r.None? <==> forall j :: 0 <= j < |sets| ==> l !in sets[j]
    ensures r.Some? ==> r.value < |sets| && l in sets[r.value]
    ensures r.Some? ==> forall j :: 0 <= j < r.value ==> l !in sets[j]
  {
    if |sets| == 0 then None
    else if l in sets[0] then Some(0)
    else
      assert forall j :: 1 <= j < |sets| ==> sets[j] == sets[1..][j - 1];
      match MinSet(sets[1..], l)
      case None => None
      case Some(k) => Some(k + 1)
  }

  /** Where `routingsets[minset(layer):]` starts: a layer in no set
      slices from None, which is the whole list. */
  function Start(sets: seq<seq<nat>>, l: nat): nat
  {
    match MinSet(sets, l)
    case None => 0
    case Some(k) => k
  }

  /** The layer belongs to every set from its minimum set to the last. */
  predicate Closed(sets: seq<seq<nat>>, l: nat)
  {
    forall j :: Start(sets, l) <= j < |sets| ==> l in sets[j]
  }

  /** The sets with `l` appended to those from `start` on that lack it. */
  function AddMissing(sets: seq<seq<nat>>, l: nat, start: nat, end: nat): (r: seq<seq<nat>>)
    ensures |r| == |sets|
  {
    seq(|sets|, j requires 0 <= j < |sets| => if start <= j < end && l !in sets[j] then sets[j] + [l] else sets[j])
  }

  /** One layer of `updateRoutingSets`. */
  function FixLayer(sets: seq<seq<nat>>, l: nat): (r: seq<seq<nat>>)
    ensures |r| == |sets|
  {
    AddMissing(sets, l, Start(sets, l), |sets|)
  }

  /** `updateRoutingSets`: the layers in list order, each seeing the sets
      the earlier ones left. */
  function Fix(sets: seq<seq<nat>>, layers: seq<nat>): (r: seq<seq<nat>>)
    ensures |r| == |sets|
  {
    if |layers| == 0 then sets
    else FixLayer(Fix(sets, layers[..|layers| - 1]), layers[|layers| - 1])
  }

  /** Two lists of sets that agree on where `l` is give it the same
      minimum set. */
  lemma {:induction false} MinSetSame(a: seq<seq<nat>>, b: seq<seq<nat>>, l: nat)
    requires |a| == |b| && forall j :: 0 <= j < |a| ==> (l in a[j] <==> l in b[j])
    ensures MinSet(a, l) == MinSet(b, l)
  {
    if |a| > 0 && l !in a[0] {
      MinSetSame(a[1..], b[1..], l);
    }
  }

  /** Adding `l` changes where no other layer is. */
  lemma AddMissingOthers(sets: seq<seq<nat>>, l: nat, start: nat, end: nat, x: nat)
    requires x != l
    ensures forall j :: 0 <= j < |sets| ==> (x in AddMissing(sets, l, start, end)[j] <==> x in sets[j])
    ensures MinSet(AddMissing(sets, l, start, end), x) == MinSet(sets, x)
  {
    MinSetSame(AddMissing(sets, l, start, end), sets, x);
  }

  lemma FixLayerClosed(sets: seq<seq<nat>>, l: nat)
    ensures Closed(FixLayer(sets, l), l)
  {
    var r := FixLayer(sets, l);
    var s := Start(sets, l);
    assert forall j :: 0 <= j < |sets| ==> (l in r[j] <==> l in sets[j] || s <= j);
    match MinSet(sets, l)
    case None =>
      if |sets| > 0 {
        assert l in r[0];
      }
    case Some(k) =>
      assert l in r[k];
      assert forall j :: 0 <= j < k ==> l !in r[j];
  }

  /** A layer closed before another layer is fixed stays closed. */
  lemma ClosedKept(sets: seq<seq<nat>>, l: nat, x: nat)
    requires x != l && Closed(sets, x)
    ensures Closed(FixLayer(sets, l), x)
  {
    AddMissingOthers(sets, l, Start(sets, l), |sets|, x);
  }

  /** After `updateRoutingSets`, every routing layer is closed. */
  lemma {:induction false} FixClosed(sets: seq<seq<nat>>, layers: seq<nat>)
    ensures forall i :: 0 <= i < |layers| ==> Closed(Fix(sets, layers), layers[i])
  {
    if |layers| > 0 {
      var front := layers[..|layers| - 1];
      var l := layers[|layers| - 1];
      var f := Fix(sets, front);
      assert Fix(sets, layers) == FixLayer(f, l);
      FixClosed(sets, front);
      FixLayerClosed(f, l);
      forall i | 0 <= i < |layers|
        ensures Closed(FixLayer(f, l), layers[i])
      {
        if layers[i] != l {
          assert layers[i] == front[i];
          ClosedKept(f, l, layers[i]);
        }
      }
    }
  }

  /** Every member of every set is one of `layers`. */
  predicate MembersIn(sets: seq<seq<nat>>, layers: seq<nat>)
  {
    forall j, x :: 0 <= j < |sets| && x in sets[j] ==> x in layers
  }

  predicate AllClosed(sets: seq<seq<nat>>, layers: seq<nat>)
  {
    forall i :: 0 <= i < |layers| ==> Closed(sets, layers[i])
  }

  lemma FixLayerMembers(sets: seq<seq<nat>>, l: nat, all: seq<nat>)
    requires MembersIn(sets, all) && l in all
    ensures MembersIn(FixLayer(sets, l), all)
  {
    var r := FixLayer(sets, l);
    forall j, x | 0 <= j < |r| && x in r[j] ensures x in all {
      if x != l {
        AddMissingOthers(sets, l, Start(sets, l), |sets|, x);
      }
    }
  }

  /** `updateRoutingSets` adds only routing layers to the sets. */
  lemma {:induction false} FixMembers(sets: seq<seq<nat>>, layers: seq<nat>, all: seq<nat>)
    requires MembersIn(sets, all) && forall i :: 0 <= i < |layers| ==> layers[i] in all
    ensures MembersIn(Fix(sets, layers), all)
  {
    if |layers| > 0 {
      var front := layers[..|layers| - 1];
      assert forall i :: 0 <= i < |front| ==> front[i] == layers[i];
      FixMembers(sets, front, all);
      FixLayerMembers(Fix(sets, front), layers[|layers| - 1], all);
    }
  }

  /** `routingsets[start:]` with the layer appended to each. */
  function AppendFrom(sets: seq<seq<nat>>, l: nat, start: nat): (r: seq<seq<nat>>)
    ensures |r| == |sets|
  {
    seq(|sets|, j requires 0 <= j < |sets| => if start <= j then sets[j] + [l] else sets[j])
  }

  lemma AppendFromOthers(sets: seq<seq<nat>>, l: nat, start: nat, x: nat)
    requires x != l
    ensures forall j :: 0 <= j < |sets| ==> (x in AppendFrom(sets, l, start)[j] <==> x in sets[j])
    ensures MinSet(AppendFrom(sets, l, start), x) == MinSet(sets, x)
  {
    MinSetSame(AppendFrom(sets, l, start), sets, x);
  }

  /** Appending a layer to a tail of the sets leaves it closed, if it was
      closed or in no set before. */
  lemma AppendFromClosed(sets: seq<seq<nat>>, l: nat, start: nat)
    requires start < |sets| || |sets| == 0
    requires Closed(sets, l) || forall j :: 0 <= j < |sets| ==> l !in sets[j]
    ensures Closed(AppendFrom(sets, l, start), l)
  {
    var r := AppendFrom(sets, l, start);
    assert forall j :: 0 <= j < |sets| ==> (l in r[j] <==> l in sets[j] || start <= j);
    if |sets| > 0 {
      match MinSet(r, l)
      case None =>
        assert l in r[start];
      case Some(k) =>
        if MinSet(sets, l).Some? {
          var m := MinSet(sets, l).value;
          assert l in r[m];
        }
    }
  }

  /** Python's start index of `xs[start:]` on a list of length n. */
  function SliceStart(start: int, n: nat): (r: nat)
    ensures r <= n
    ensures 0 <= start <= n ==> r == start
    ensures start < 0 ==> r == if n + start < 0 then 0 else n + start
  {
    if start < 0 then (if n + start < 0 then 0 else n + start)
    else if start > n then n
    else start
  }

  /** The empty sets `addRoutingLayer` adds so that the target set exists. */
  function Pad(sets: seq<seq<nat>>, target: int): (r: seq<seq<nat>>)
    ensures target >= |sets| ==> |r| == target + 1
    ensures target < |sets| ==> r == sets
    ensures |sets| <= |r| && r[..|sets|] == sets
    ensures forall j :: |sets| <= j < |r| ==> r[j] == []
  {
    if target >= |sets| then sets + seq(target - |sets| + 1, _ => []) else sets
  }

  // routing edge layers

  /** A routing edge layer: its name, file name and index in the map. */
  datatype EdgeLayer = EdgeLayer(name: string, filename: string, index: nat)

  /** `createRoutingEdgeLayers`: one edge layer `Rte<i>` per routing set
      still lacking one, each appended to the map's layers. */
  function EdgeLayers(edges: seq<EdgeLayer>, nsets: nat, nmaplayers: nat): (r: seq<EdgeLayer>)
    ensures |r| == if |edges| >= nsets then |edges| else nsets
    ensures r[..|edges|] == edges
    ensures forall i :: |edges| <= i < |r| ==>
      r[i] == EdgeLayer("Rte" + NatStr(i), "rte" + NatStr(i), nmaplayers + i - |edges|)
  {
    if |edges| >= nsets then edges
    else
      edges + seq(nsets - |edges|, k requires 0 <= k < nsets - |edges| =>
        EdgeLayer("Rte" + NatStr(|edges| + k), "rte" + NatStr(|edges| + k), nmaplayers + k))
  }

  // the ROUTING section

  /** `cfg_writelist`: the count, a space, then the items joined by
      spaces, so that an empty list is written "0 ". */
  function CfgWriteList(l: seq<int>): (r: string)
    ensures |r| >= 2
  {
    IntStr(|l|) + " " + Join(Topo.IntStrs(l), ' ')
  }

  /** A non-empty list is written as `encodeintlist` writes it, so
      `decodeintlist` reads it back. */
  lemma CfgWriteListReadsBack(l: seq<int>)
    requires |l| > 0
    ensures CfgWriteList(l) == Maps.EncodeIntList(l)
    ensures Maps.DecodeIntList(CfgWriteList(l)) == Ok(l)
  {
    CfgWriteListEncoded(l);
    Maps.DecodeEncode(l);
  }

  lemma CfgWriteListEncoded(l: seq<int>)
    requires |l| > 0
    ensures CfgWriteList(l) == Maps.EncodeIntList(l)
  {
    var xs := Topo.IntStrs([|l|] + l);
    assert xs[1..] == Topo.IntStrs(l);
    assert |xs| > 1 && xs[0] == IntStr(|l|);
    assert Join(xs, ' ') == xs[0] + [' '] + Join(xs[1..], ' ');
  }

  /** The sort key of `layercmp`: Python 2 orders None before every number. */
  function Key(sets: seq<seq<nat>>, l: nat): int
  {
    match MinSet(sets, l)
    case None => -1
    case Some(k) => k
  }

  /** Stable insertion of x after every element whose key is not larger. */
  function Insert(sets: seq<seq<nat>>, x: nat, t: seq<nat>): (r: seq<nat>)
    ensures multiset(r) == multiset(t) + multiset{x}
    ensures |r| == |t| + 1
  {
    if |t| == 0 then [x]
    else if Key(sets, t[|t| - 1]) <= Key(sets, x) then t + [x]
    else
      var t0 := t[..|t| - 1];
      assert t == t0 + [t[|t| - 1]];
      Insert(sets, x, t0) + [t[|t| - 1]]
  }

  /** `routinglayers.sort(layercmp)`. */
  function SortByMinSet(sets: seq<seq<nat>>, ls: seq<nat>): (r: seq<nat>)
    ensures multiset(r) == multiset(ls)
  {
    if |ls| == 0 then []
    else
      assert ls == ls[..|ls| - 1] + [ls[|ls| - 1]];
      Insert(sets, ls[|ls| - 1], SortByMinSet(sets, ls[..|ls| - 1]))
  }

  predicate SortedBy(sets: seq<seq<nat>>, r: seq<nat>)
  {
    forall i, j :: 0 <= i < j < |r| ==> Key(sets, r[i]) <= Key(sets, r[j])
  }

  lemma {:induction false} InsertSorted(sets: seq<seq<nat>>, x: nat, t: seq<nat>)
    requires SortedBy(sets, t)
    ensures SortedBy(sets, Insert(sets, x, t))
  {
    if |t| > 0 && Key(sets, t[|t| - 1]) > Key(sets, x) {
      var t0 := t[..|t| - 1];
      var last := t[|t| - 1];
      InsertSorted(sets, x, t0);
      var u := Insert(sets, x, t0);
      assert multiset(u) == multiset(t0) + multiset{x};
      forall i | 0 <= i < |u|
        ensures Key(sets, u[i]) <= Key(sets, last)
      {
        assert u[i] in multiset(u);
        if u[i] != x {
          assert u[i] in multiset(t0);
          var k :| 0 <= k < |t0| && t0[k] == u[i];
          assert t0[k] == t[k];
        }
      }
    }
  }

  /** The sorted routing layers are the same layers, ordered by their
      minimum set. */
  lemma {:induction false} SortByMinSetSorted(sets: seq<seq<nat>>, ls: seq<nat>)
    ensures SortedBy(sets, SortByMinSet(sets, ls))
    ensures multiset(SortByMinSet(sets, ls)) == multiset(ls)
  {
    if |ls| > 0 {
      SortByMinSetSorted(sets, ls[..|ls| - 1]);
      InsertSorted(sets, ls[|ls| - 1], SortByMinSet(sets, ls[..|ls| - 1]));
    }
  }

  /** The sort is stable: layers already in minimum-set order keep their
      order. */
  lemma {:induction false} SortedUnchanged(sets: seq<seq<nat>>, ls: seq<nat>)
    requires SortedBy(sets, ls)
    ensures SortByMinSet(sets, ls) == ls
  {
    if |ls| > 0 {
      var front := ls[..|ls| - 1];
      SortedFront(sets, ls);
      SortedUnchanged(sets, front);
      InsertLast(sets, ls);
    }
  }

  lemma SortedFront(sets: seq<seq<nat>>, ls: seq<nat>)
    requires SortedBy(sets, ls) && |ls| > 0
    ensures SortedBy(sets, ls[..|ls| - 1])
  {
    var front := ls[..|ls| - 1];
    forall i, j | 0 <= i < j < |front|
      ensures Key(sets, front[i]) <= Key(sets, front[j])
    {
      assert front[i] == ls[i] && front[j] == ls[j];
    }
  }

  /** Inserting the last element of a sorted sequence into its front puts it
      back at the end. */
  lemma InsertLast(sets: seq<seq<nat>>, ls: seq<nat>)
    requires SortedBy(sets, ls) && |ls| > 0
    ensures Insert(sets, ls[|ls| - 1], ls[..|ls| - 1]) == ls
  {
    var front := ls[..|ls| - 1];
    if |front| > 0 {
      assert front[|front| - 1] == ls[|ls| - 2];
    }
    assert front + [ls[|ls| - 1]] == ls;
  }

  /** `' '.join([directions[layer] for layer in routinglayers])`: a layer
      without a direction raises KeyError. */
  function Directions(ls: seq<nat>, directions: map<nat, string>): (r: Result<string>)
    ensures r.Ok? <==> forall i :: 0 <= i < |ls| ==> ls[i] in directions
    ensures r.Fail? ==> r.failure == KeyError
  {
    if |ls| == 0 then Ok("")
    else
      var front :- Directions(ls[..|ls| - 1], directions);
      if ls[|ls| - 1] !in directions then Fail(KeyError)
      else if |ls| == 1 then Ok(directions[ls[0]])
      else Ok(front + " " + directions[ls[|ls| - 1]])
  }

  function SpeedKey(numden: string, l: nat): string
  {
    "SPEED_LAY_" + numden + "_" + NatStr(l)
  }

  /** The speed options of the layers in `order`, the order in which
      `speeds.items()` yields them. */
  function SetSpeeds(cfg: map<string, string>, speeds: map<nat, (int, int)>, order: seq<nat>): (r: map<string, string>)
    requires forall i :: 0 <= i < |order| ==> order[i] in speeds
  {
    if |order| == 0 then cfg
    else
      var l := order[|order| - 1];
      SetSpeeds(cfg, speeds, order[..|order| - 1])[SpeedKey("NUM", l) := IntStr(speeds[l].0)][SpeedKey("DEN", l) := IntStr(speeds[l].1)]
  }

  lemma SpeedKeysDiffer(a: string, b: string, l: nat, m: nat)
    requires (a == "NUM" || a == "DEN") && (b == "NUM" || b == "DEN")
    requires a != b || l != m
    ensures SpeedKey(a, l) != SpeedKey(b, m)
  {
    var p, q := SpeedKey(a, l), SpeedKey(b, m);
    if a != b {
      assert p[10] != q[10];
    } else if p == q {
      assert p[14..] == NatStr(l) && q[14..] == NatStr(m);
      NatStrValue(l);
      NatStrValue(m);
    }
  }

  /** Whatever the order of the dictionary, each layer's speed is written
      as its numerator and denominator options. */
  lemma {:induction false} SpeedOptionsAt(cfg: map<string, string>, speeds: map<nat, (int, int)>, order: seq<nat>, l: nat)
    requires forall i :: 0 <= i < |order| ==> order[i] in speeds
    requires l in order
    ensures SpeedKey("NUM", l) in SetSpeeds(cfg, speeds, order) && SpeedKey("DEN", l) in SetSpeeds(cfg, speeds, order)
    ensures SetSpeeds(cfg, speeds, order)[SpeedKey("NUM", l)] == IntStr(speeds[l].0)
    ensures SetSpeeds(cfg, speeds, order)[SpeedKey("DEN", l)] == IntStr(speeds[l].1)
  {
    var m := order[|order| - 1];
    if m != l {
      var front := order[..|order| - 1];
      assert l in front by {
        var k :| 0 <= k < |order| && order[k] == l;
        assert front[k] == l;
      }
      SpeedOptionsAt(cfg, speeds, front, l);
      SpeedKeysDiffer("NUM", "NUM", m, l);
      SpeedKeysDiffer("DEN", "NUM", m, l);
      SpeedKeysDiffer("NUM", "DEN", m, l);
      SpeedKeysDiffer("DEN", "DEN", m, l);
    } else {
      SpeedKeysDiffer("DEN", "NUM", l, l);
    }
  }

  function LayerIndices(edges: seq<EdgeLayer>): (r: seq<int>)
    ensures |r| == |edges| && forall i :: 0 <= i < |edges| ==> r[i] == edges[i].index
  {
    seq(|edges|, i requires 0 <= i < |edges| => edges[i].index)
  }

  /** The options `writecfg` sets, given the sorted routing layers. */
  function RoutingSection(cfg: map<string, string>, ls: seq<nat>, sets: seq<seq<nat>>,
                          directions: map<nat, string>, speeds: map<nat, (int, int)>, order: seq<nat>,
                          edges: seq<EdgeLayer>, alternate: seq<nat>, nprimary: Option<int>): (r: Result<map<string, string>>)
    requires forall i :: 0 <= i < |order| ==> order[i] in speeds
    ensures r.Ok? <==> forall i :: 0 <= i < |ls| ==> ls[i] in directions
  {
    var dirs :- Directions(ls, directions);
    var c1 := cfg["ROUTING_GRP" := CfgWriteList(ls)]["ROUTING_SETS" := CfgWriteList(SetLengths(sets))]["LAY_DIRS" := dirs];
    var c2 := SetSpeeds(c1, speeds, order);
    var c3 := c2["RDB_LAYERS" := Join(Topo.IntStrs(LayerIndices(edges)), ' ')]["ALT_LAYS" := CfgWriteList(alternate)];
    Ok(c3["PRIM_LS_QTY" := IntStr(if nprimary.Some? then nprimary.value else |ls|)])
  }

  function SetLengths(sets: seq<seq<nat>>): (r: seq<int>)
    ensures |r| == |sets| && forall i :: 0 <= i < |sets| ==> r[i] == |sets[i]|
  {
    seq(|sets|, i requires 0 <= i < |sets| => |sets[i]|)
  }

  // the configuration object

  class RoutingConfig {
    var routinglayers: seq<nat>
    var routingsets: seq<seq<nat>>
    var directions: map<nat, string>
    var routingedgelayers: seq<EdgeLayer>
    var alternatelayers: seq<nat>
    var speeds: map<nat, (int, int)>
    var nprimarylayers: Option<int>

    /** What every method keeps: an edge layer for at most every set,
        sets that hold only routing layers, and a direction and a speed
        for every routing layer. */
    predicate Valid()
      reads this
    {
      |routingedgelayers| <= |routingsets| &&
      MembersIn(routingsets, routinglayers) &&
      (forall l :: l in routinglayers ==> l in directions && l in speeds)
    }

    /** Three empty routing sets and nothing else. */
    constructor ()
      ensures routinglayers == [] && routingsets == [[], [], []] && directions == map[]
      ensures routingedgelayers == [] && alternatelayers == [] && speeds == map[] && nprimarylayers == None
      ensures Valid()
    {
      routinglayers := [];
      routingsets := [[], [], []];
      directions := map[];
      routingedgelayers := [];
      alternatelayers := [];
      speeds := map[];
      nprimarylayers := None;
    }

    /** `minset`. */
    function MinSetOf(l: nat): (r: Option<nat>)
      reads this
      ensures r.Some? ==> r.value < |routingsets| && l in routingsets[r.value]
      ensures r.Some? ==> forall j :: 0 <= j < r.value ==> l !in routingsets[j]
      ensures r.None? <==> forall j :: 0 <= j < |routingsets| ==> l !in routingsets[j]
    {
      MinSet(routingsets, l)
    }

    /** `updateRoutingSets`: every routing layer ends up in every set from
        its minimum set to the last. */
    method UpdateRoutingSets()
      modifies this
      ensures routingsets == Fix(old(routingsets), routinglayers)
      ensures forall i :: 0 <= i < |routinglayers| ==> Closed(routingsets, routinglayers[i])
      ensures routinglayers == old(routinglayers) && directions == old(directions) && speeds == old(speeds)
      ensures routingedgelayers == old(routingedgelayers) && alternatelayers == old(alternatelayers)
      ensures nprimarylayers == old(nprimarylayers)
      ensures old(Valid()) ==> Valid()
    {
      routingsets := FixLoop(routingsets, routinglayers);
      FixClosed(old(routingsets), routinglayers);
      if MembersIn(old(routingsets), routinglayers) {
        FixMembers(old(routingsets), routinglayers, routinglayers);
      }
    }

    /** `addRoutingLayer`: only a polyline layer is accepted; the sets are
        padded up to the target, made consistent, and the layer is added
        to the target set and every later one; the edge layers are
        completed and the direction and speed recorded. `nmaplayers` is
        the number of layers of the map, which grows by the edge layers
        created; the new number is returned. */
    method AddRoutingLayer(layer: nat, layertype: int, target: int, direction: string, speed: (int, int), nmaplayers: nat)
      returns (r: Result<nat>)
      modifies this
      ensures r.Fail? <==> layertype != LayerTypePolyline
      ensures r.Fail? ==> (r.failure == ValueError && routingsets == old(routingsets) && routinglayers == old(routinglayers)
        && directions == old(directions) && speeds == old(speeds) && routingedgelayers == old(routingedgelayers))
      ensures r.Ok? ==> (var sets := Fix(Pad(old(routingsets), target), old(routinglayers));
        routingsets == AppendFrom(sets, layer, SliceStart(target, |sets|))
        && routingedgelayers == EdgeLayers(old(routingedgelayers), |sets|, nmaplayers)
        && r.value == nmaplayers + |routingedgelayers| - |old(routingedgelayers)|)
      ensures r.Ok? ==> (routinglayers == old(routinglayers) + [layer]
        && directions == old(directions)[layer := direction] && speeds == old(speeds)[layer := speed])
      ensures alternatelayers == old(alternatelayers) && nprimarylayers == old(nprimarylayers)
      ensures r.Ok? && old(Valid()) ==> (Valid() && |routingedgelayers| == |routingsets|
        && forall i :: 0 <= i < |routinglayers| ==> Closed(routingsets, routinglayers[i]))
    {
      if layertype != LayerTypePolyline {
        return Fail(ValueError);
      }
      var padded := PadLoop(routingsets, target);
      var fixed := FixLoop(padded, routinglayers);
      var start := SliceStart(target, |fixed|);
      var sets := AppendLoop(fixed, layer, start);
      var edges, n := EdgeLoop(routingedgelayers, |sets|, nmaplayers);
      if MembersIn(routingsets, routinglayers) {
        AddedValid(routingsets, routinglayers, target, layer);
      }
      routingsets := sets;
      routinglayers := routinglayers + [layer];
      routingedgelayers := edges;
      directions := directions[layer := direction];
      speeds := speeds[layer := speed];
      r := Ok(n);
    }

    /** `writecfg`: the routing layers are first sorted by their minimum
        set, in place; the section is then written from them. `order` is
        the order in which the speed dictionary yields its layers. */
    method WriteCfg(cfg: map<string, string>, order: seq<nat>) returns (r: Result<map<string, string>>)
      requires forall i :: 0 <= i < |order| ==> order[i] in speeds
      modifies this
      ensures routinglayers == SortByMinSet(routingsets, old(routinglayers))
      ensures routingsets == old(routingsets) && directions == old(directions) && speeds == old(speeds)
      ensures routingedgelayers == old(routingedgelayers) && alternatelayers == old(alternatelayers)
      ensures nprimarylayers == old(nprimarylayers)
      ensures r == RoutingSection(cfg, routinglayers, routingsets, directions, speeds, order,
                                  routingedgelayers, alternatelayers, nprimarylayers)
    {
      routinglayers := SortByMinSet(routingsets, routinglayers);
      r := RoutingSection(cfg, routinglayers, routingsets, directions, speeds, order,
                          routingedgelayers, alternatelayers, nprimarylayers);
    }
  }

  /** The padding adds only empty sets. */
  lemma PadMembers(sets: seq<seq<nat>>, target: int, all: seq<nat>)
    requires MembersIn(sets, all)
    ensures MembersIn(Pad(sets, target), all)
  {
    var p := Pad(sets, target);
    forall j, x | 0 <= j < |p| && x in p[j] ensures x in all {
      if j < |sets| {
        assert p[j] == p[..|sets|][j];
      }
    }
  }

  lemma AppendFromMembers(sets: seq<seq<nat>>, l: nat, start: nat, all: seq<nat>)
    requires MembersIn(sets, all)
    ensures MembersIn(AppendFrom(sets, l, start), all + [l])
  {
    var r := AppendFrom(sets, l, start);
    forall j, x | 0 <= j < |r| && x in r[j] ensures x in all + [l] {
      if x != l {
        AppendFromOthers(sets, l, start, x);
      }
    }
  }

  /** Adding the new layer keeps every routing layer closed, the new one
      included. */
  lemma AppendFromAllClosed(sets: seq<seq<nat>>, l: nat, start: nat, layers: seq<nat>)
    requires start < |sets| || |sets| == 0
    requires MembersIn(sets, layers) && AllClosed(sets, layers)
    ensures AllClosed(AppendFrom(sets, l, start), layers + [l])
  {
    var r := AppendFrom(sets, l, start);
    var all := layers + [l];
    forall i | 0 <= i < |all|
      ensures Closed(r, all[i])
    {
      if all[i] != l {
        assert all[i] == layers[i];
        AppendFromOthers(sets, l, start, all[i]);
      } else {
        if exists j :: 0 <= j < |sets| && l in sets[j] {
          var j :| 0 <= j < |sets| && l in sets[j];
          assert l in layers;
          var k :| 0 <= k < |layers| && layers[k] == l;
          assert Closed(sets, layers[k]);
        }
        AppendFromClosed(sets, l, start);
      }
    }
  }

  /** The facts behind `AddRoutingLayer` keeping its invariant. */
  lemma AddedValid(sets0: seq<seq<nat>>, layers0: seq<nat>, target: int, layer: nat)
    requires MembersIn(sets0, layers0)
    ensures var f := Fix(Pad(sets0, target), layers0);
      var sets := AppendFrom(f, layer, SliceStart(target, |f|));
      MembersIn(sets, layers0 + [layer]) && AllClosed(sets, layers0 + [layer])
  {
    var p := Pad(sets0, target);
    var f := Fix(p, layers0);
    var s := SliceStart(target, |f|);
    PadMembers(sets0, target, layers0);
    FixMembers(p, layers0, layers0);
    FixClosed(p, layers0);
    AppendFromMembers(f, layer, s, layers0);
    AppendFromAllClosed(f, layer, s, layers0);
  }

  /** The padding loop of `addRoutingLayer`. */
  method PadLoop(sets: seq<seq<nat>>, target: int) returns (r: seq<seq<nat>>)
    ensures r == Pad(sets, target)
  {
    r := sets;
    if target >= |sets| {
      var i := 0;
      while i < target - |sets| + 1
        invariant 0 <= i <= target - |sets| + 1
        invariant r == sets + seq(i, _ => [])
      {
        r := r + [[]];
        i := i + 1;
      }
    }
  }

  /** The loops of `updateRoutingSets`. */
  method FixLoop(sets: seq<seq<nat>>, layers: seq<nat>) returns (r: seq<seq<nat>>)
    ensures r == Fix(sets, layers)
  {
    r := sets;
    var i := 0;
    while i < |layers|
      invariant 0 <= i <= |layers|
      invariant r == Fix(sets, layers[..i])
    {
      r := AddMissingLoop(r, layers[i], Start(r, layers[i]));
      TakeSucc(layers, i);
      i := i + 1;
    }
    TakeAll(layers);
  }

  /** `for rset in routingsets[start:]: if layer not in rset: rset.append(layer)`. */
  method AddMissingLoop(sets: seq<seq<nat>>, l: nat, start: nat) returns (r: seq<seq<nat>>)
    ensures r == AddMissing(sets, l, start, |sets|)
  {
    r := sets;
    var j := start;
    while j < |r|
      invariant |r| == |sets| && (start <= j <= |r| || j == start)
      invariant forall k :: 0 <= k < |r| ==> r[k] == if start <= k < j && l !in sets[k] then sets[k] + [l] else sets[k]
    {
      if l !in r[j] {
        r := r[j := r[j] + [l]];
      }
      j := j + 1;
    }
  }

  /** `for rset in routingsets[start:]: rset.append(layer)`. */
  method AppendLoop(sets: seq<seq<nat>>, l: nat, start: nat) returns (r: seq<seq<nat>>)
    requires start <= |sets|
    ensures r == AppendFrom(sets, l, start)
  {
    r := sets;
    var j := start;
    while j < |r|
      invariant start <= j <= |r| && |r| == |sets|
      invariant forall k :: 0 <= k < |r| ==> r[k] == if start <= k < j then sets[k] + [l] else sets[k]
    {
      r := r[j := r[j] + [l]];
      j := j + 1;
    }
  }

  /** The loop of `createRoutingEdgeLayers`; also returns the new number
      of map layers. */
  method EdgeLoop(edges: seq<EdgeLayer>, nsets: nat, nmaplayers: nat) returns (r: seq<EdgeLayer>, n: nat)
    ensures r == EdgeLayers(edges, nsets, nmaplayers)
    ensures n == nmaplayers + |r| - |edges|
  {
    r := edges;
    n := nmaplayers;
    if |edges| != nsets {
      var i := |edges|;
      while i < nsets
        invariant |edges| <= i <= nsets || (i == |edges| && nsets < |edges|)
        invariant |r| == i && r[..|edges|] == edges && n == nmaplayers + i - |edges|
        invariant forall k :: |edges| <= k < i ==>
          r[k] == EdgeLayer("Rte" + NatStr(k), "rte" + NatStr(k), nmaplayers + k - |edges|)
      {
        r := r + [EdgeLayer("Rte" + NatStr(i), "rte" + NatStr(i), n)];
        n := n + 1;
        i := i + 1;
      }
    }
  }

  /** The example of `writecfg`'s documentation: freeway (map layer 0),
      road (4) and streets (5) added to sets 0, 1 and 2 of a new
      configuration, whose three edge layers take map layers 1 to 3. */
  lemma WriteCfgExample()
    ensures var s1 := AppendFrom(Fix(Pad([[], [], []], 0), []), 0, 0);
      var s2 := AppendFrom(Fix(Pad(s1, 1), [0]), 4, 1);
      var s3 := AppendFrom(Fix(Pad(s2, 2), [0, 4]), 5, 2);
      s3 == [[0], [0, 4], [0, 4, 5]] &&
      CfgWriteList(SetLengths(s3)) == "3 1 2 3" &&
      CfgWriteList(SortByMinSet(s3, [0, 4, 5])) == "3 0 4 5"
  {
    ExampleFirst();
    ExampleSecond();
    ExampleThird();
    ExampleWritten();
  }

  lemma ExampleFirst()
    ensures AppendFrom(Fix(Pad([[], [], []], 0), []), 0, 0) == [[0], [0], [0]]
  {
    var p: seq<seq<nat>> := [[], [], []];
    assert Pad(p, 0) == p;
    var r := AppendFrom(p, 0, 0);
    assert r[0] == [0] && r[1] == [0] && r[2] == [0];
  }

  lemma ExampleSecond()
    ensures AppendFrom(Fix(Pad([[0], [0], [0]], 1), [0]), 4, 1) == [[0], [0, 4], [0, 4]]
  {
    var s1: seq<seq<nat>> := [[0], [0], [0]];
    assert Pad(s1, 1) == s1;
    assert [0][..0] == [];
    assert MinSet(s1, 0) == Some(0);
    var f := FixLayer(s1, 0);
    assert f[0] == [0] && f[1] == [0] && f[2] == [0];
    assert Fix(s1, [0]) == s1;
    var r := AppendFrom(s1, 4, 1);
    assert r[0] == [0] && r[1] == [0, 4] && r[2] == [0, 4];
  }

  lemma ExampleThird()
    ensures AppendFrom(Fix(Pad([[0], [0, 4], [0, 4]], 2), [0, 4]), 5, 2) == [[0], [0, 4], [0, 4, 5]]
  {
    var s2: seq<seq<nat>> := [[0], [0, 4], [0, 4]];
    assert Pad(s2, 2) == s2;
    assert [0, 4][..1] == [0] && [0][..0] == [];
    ThirdKeepsFreeway();
    assert Fix(s2, [0]) == s2;
    ThirdKeepsRoad();
    assert Fix(s2, [0, 4]) == s2;
    var r := AppendFrom(s2, 5, 2);
    assert r[0] == [0] && r[1] == [0, 4] && r[2] == [0, 4, 5];
  }

  lemma ThirdKeepsFreeway()
    ensures FixLayer([[0], [0, 4], [0, 4]], 0) == [[0], [0, 4], [0, 4]]
  {
    var s2: seq<seq<nat>> := [[0], [0, 4], [0, 4]];
    assert MinSet(s2, 0) == Some(0);
    var f := FixLayer(s2, 0);
    assert f[0] == [0] && f[1] == [0, 4] && f[2] == [0, 4];
  }

  lemma ThirdKeepsRoad()
    ensures FixLayer([[0], [0, 4], [0, 4]], 4) == [[0], [0, 4], [0, 4]]
  {
    var s2: seq<seq<nat>> := [[0], [0, 4], [0, 4]];
    assert MinSet(s2, 4) == Some(1);
    var g := FixLayer(s2, 4);
    assert g[0] == [0] && g[1] == [0, 4] && g[2] == [0, 4];
  }

  lemma ExampleWritten()
    ensures CfgWriteList(SetLengths([[0], [0, 4], [0, 4, 5]])) == "3 1 2 3"
    ensures CfgWriteList(SortByMinSet([[0], [0, 4], [0, 4, 5]], [0, 4, 5])) == "3 0 4 5"
  {
    var s3: seq<seq<nat>> := [[0], [0, 4], [0, 4, 5]];
    assert SetLengths(s3) == [1, 2, 3];
    ExampleOrder();
    ListWritten(1, 2, 3);
    assert DigitChar(1) == '1' && DigitChar(2) == '2' && DigitChar(3) == '3';
    ListWritten(0, 4, 5);
    assert DigitChar(0) == '0' && DigitChar(4) == '4' && DigitChar(5) == '5';
  }

  lemma ExampleOrder()
    ensures SortByMinSet([[0], [0, 4], [0, 4, 5]], [0, 4, 5]) == [0, 4, 5]
  {
    ExampleKeys();
    SortedUnchanged([[0], [0, 4], [0, 4, 5]], [0, 4, 5]);
  }

  lemma ExampleKeys()
    ensures Key([[0], [0, 4], [0, 4, 5]], 0) == 0
    ensures Key([[0], [0, 4], [0, 4, 5]], 4) == 1
    ensures Key([[0], [0, 4], [0, 4, 5]], 5) == 2
  {
    var s3: seq<seq<nat>> := [[0], [0, 4], [0, 4, 5]];
    assert 4 !in s3[0] && 5 !in s3[0] && 5 !in s3[1];
  }

  /** A three-item list of one-digit numbers is written as its digits. */
  lemma ListWritten(a: nat, b: nat, c: nat)
    requires a <= 9 && b <= 9 && c <= 9
    ensures CfgWriteList([a, b, c]) == ['3', ' ', DigitChar(a), ' ', DigitChar(b), ' ', DigitChar(c)]
  {
    assert IntStr(3) == "3";
    var x, y, z := [DigitChar(a)], [DigitChar(b)], [DigitChar(c)];
    assert IntStr(a) == x && IntStr(b) == y && IntStr(c) == z;
    var ws := Topo.IntStrs([a, b, c]);
    assert ws == [x, y, z];
    assert ws[1..] == [y, z] && ws[1..][1..] == [z];
    assert Join(ws, ' ') == x + [' '] + y + [' '] + z;
  }
}
