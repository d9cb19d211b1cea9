/** The node and edge bookkeeping of `build_routing_network` in
    magellan/routing.py: the layers each routing set adds, the routing
    nodes (the end vertices of those layers' polylines, each with the
    first set that reaches it), the routing edges cut from a polyline at
    its node vertices, and the per-node edge counts. A polyline is its
    list of vertices in discrete coordinates. */
module RoutingNetwork {
  import opened Wrappers
  import Routing
  import Chunks

  /** A vertex, in discrete coordinates. */
  type Pt = (int, int)

  // the layers each routing set adds

  /** `N.diff([Set()] + map(Set, routingsets))`: each set minus the one
      before it. */
  function DiffSets(sets: seq<seq<nat>>): (r: seq<set<nat>>)
    ensures |r| == |sets|
  {
    seq(|sets|, i requires 0 <= i < |sets| => set l | l in sets[i] && (i == 0 || l !in sets[i - 1]))
  }

  /** Once `updateRoutingSets` has closed the sets over a layer, the layer
      is added by exactly one set: its minimum set. */
  lemma DiffSetsMinSet(sets: seq<seq<nat>>, l: nat, i: nat)
    requires Routing.Closed(sets, l) && i < |sets|
    ensures l in DiffSets(sets)[i] <==> Routing.MinSet(sets, l) == Some(i)
  {
    var d := DiffSets(sets);
    match Routing.MinSet(sets, l)
    case None =>
    case Some(k) =>
      if i > k {
        assert l in sets[i - 1];
      }
  }

  // routing nodes

  /** The first and last vertices of the polylines `ps[..k]`. */
  function Ends(ps: seq<seq<Pt>>, k: nat): set<Pt>
    requires k <= |ps|
  {
    if k == 0 then {}
    else
      var p := ps[k - 1];
      Ends(ps, k - 1) + (if |p| == 0 then {} else {p[0], p[|p| - 1]})
  }

  /** `c` is an end vertex of a polyline that set `i` adds. */
  predicate EndOf(added: seq<seq<seq<Pt>>>, i: nat, c: Pt)
  {
    i < |added| && c in Ends(added[i], |added[i]|)
  }

  /** No polyline is empty: `coords[0]` of an empty one raises IndexError. */
  predicate AllNonEmpty(added: seq<seq<seq<Pt>>>)
  {
    forall i, j :: 0 <= i < |added| && 0 <= j < |added[i]| ==> |added[i][j]| > 0
  }

  /** One vertex met in set `i`: a new node gets `i`, a known one the
      smaller of the two. */
  function Meet(nodes: map<Pt, nat>, c: Pt, i: nat): map<Pt, nat>
  {
    nodes[c := if c in nodes then (if i < nodes[c] then i else nodes[c]) else i]
  }

  /** The first and then the last vertex of each of `ps[..k]`, met in set `i`. */
  function MeetLines(nodes: map<Pt, nat>, ps: seq<seq<Pt>>, k: nat, i: nat): map<Pt, nat>
    requires k <= |ps|
  {
    if k == 0 then nodes
    else
      var m := MeetLines(nodes, ps, k - 1, i);
      var p := ps[k - 1];
      if |p| == 0 then m else Meet(Meet(m, p[0], i), p[|p| - 1], i)
  }

  /** The node map after the sets `added[..n]`. */
  function NodesUpTo(added: seq<seq<seq<Pt>>>, n: nat): map<Pt, nat>
    requires n <= |added|
  {
    if n == 0 then map[]
    else MeetLines(NodesUpTo(added, n - 1), added[n - 1], |added[n - 1]|, n - 1)
  }

  /** Meeting the vertices of a later set adds them and leaves every
      known node's set alone. */
  lemma {:induction false} MeetLinesEffect(nodes: map<Pt, nat>, ps: seq<seq<Pt>>, k: nat, i: nat)
    requires k <= |ps|
    requires forall c :: c in nodes ==> nodes[c] <= i
    ensures forall c :: c in MeetLines(nodes, ps, k, i) <==> c in nodes || c in Ends(ps, k)
    ensures forall c :: c in MeetLines(nodes, ps, k, i) ==>
      MeetLines(nodes, ps, k, i)[c] == if c in nodes then nodes[c] else i
  {
    if k > 0 {
      MeetLinesEffect(nodes, ps, k - 1, i);
    }
  }

  /** The nodes are exactly the end vertices of the polylines, and each
      node's set is the first set in which it is an end vertex. */
  lemma {:induction false} NodesLeast(added: seq<seq<seq<Pt>>>, n: nat)
    requires n <= |added|
    ensures forall c :: c in NodesUpTo(added, n) <==> exists i :: 0 <= i < n && EndOf(added, i, c)
    ensures forall c :: c in NodesUpTo(added, n) ==>
      NodesUpTo(added, n)[c] < n && EndOf(added, NodesUpTo(added, n)[c], c)
    ensures forall c, i :: c in NodesUpTo(added, n) && 0 <= i < NodesUpTo(added, n)[c] ==> !EndOf(added, i, c)
  {
    if n > 0 {
      NodesLeast(added, n - 1);
      var m := NodesUpTo(added, n - 1);
      MeetLinesEffect(m, added[n - 1], |added[n - 1]|, n - 1);
      forall c | c in NodesUpTo(added, n)
        ensures exists i :: 0 <= i < n && EndOf(added, i, c)
      {
        if c !in m {
          assert EndOf(added, n - 1, c);
        }
      }
    }
  }

  /** The node-finding loops of `build_routing_network`, over the
      polylines each set adds (a set's layers in the order the caller
      lists them; `NodesLeast` shows the order does not matter). */
  method ComputeNodes(added: seq<seq<seq<Pt>>>) returns (r: Result<map<Pt, nat>>)
    ensures r.Fail? <==> !AllNonEmpty(added)
    ensures r.Fail? ==> r.failure == IndexError
    ensures r.Ok? ==> r.value == NodesUpTo(added, |added|)
  {
    var nodes: map<Pt, nat> := map[];
    var i := 0;
    while i < |added|
      invariant i <= |added|
      invariant nodes == NodesUpTo(added, i)
      invariant forall i', j :: 0 <= i' < i && 0 <= j < |added[i']| ==> |added[i'][j]| > 0
    {
      var k := 0;
      while k < |added[i]|
        invariant k <= |added[i]|
        invariant nodes == MeetLines(NodesUpTo(added, i), added[i], k, i)
        invariant forall j :: 0 <= j < k ==> |added[i][j]| > 0
      {
        var coords := added[i][k];
        if |coords| == 0 {
          return Fail(IndexError);
        }
        var ends := [coords[0], coords[|coords| - 1]];
        for e := 0 to 2
          invariant nodes == (if e == 0 then MeetLines(NodesUpTo(added, i), added[i], k, i)
                              else if e == 1 then Meet(MeetLines(NodesUpTo(added, i), added[i], k, i), coords[0], i)
                              else MeetLines(NodesUpTo(added, i), added[i], k + 1, i))
        {
          var coord := ends[e];
          if coord !in nodes {
            nodes := nodes[coord := i];
          } else {
            nodes := nodes[coord := if i < nodes[coord] then i else nodes[coord]];
          }
        }
        k := k + 1;
      }
      i := i + 1;
    }
    r := Ok(nodes);
  }

  // routing edges of one polyline

  /** A routing edge: its set, its start and end vertex in the polyline,
      and the edge numbers it takes at its start and end node. The
      orientations and the distance are not modelled. */
  datatype Edge = Edge(rset: nat, istart: nat, iend: nat, startIndex: nat, endIndex: nat)

  /** `nedges.get(c, 0)`. */
  function Count(m: map<Pt, nat>, c: Pt): nat
  {
    if c in m then m[c] else 0
  }

  /** Where the previous edge of set `r` ended: its start vertex in
      `istartvertex`, 0 before any. */
  function LastEnd(edges: seq<Edge>, r: nat): nat
  {
    if |edges| == 0 then 0
    else if edges[|edges| - 1].rset == r then edges[|edges| - 1].iend
    else LastEnd(edges[..|edges| - 1], r)
  }

  /** Each edge of a set starts where the set's previous edge ended, the
      first at vertex 0: the edges of one set form a path along the
      polyline. */
  predicate Chain(edges: seq<Edge>)
  {
    forall k :: 0 <= k < |edges| ==> edges[k].istart == LastEnd(edges[..k], edges[k].rset)
  }

  /** The edge runs forward along the polyline and numbers itself from
      the edge counts of its end nodes (one more at a start vertex that
      is not the polyline's first). */
  predicate Fits(coords: seq<Pt>, nedges: map<Pt, nat>, e: Edge)
  {
    e.istart < e.iend < |coords| &&
    e.startIndex == Count(nedges, coords[e.istart]) + (if e.istart > 0 then 1 else 0) &&
    e.endIndex == Count(nedges, coords[e.iend])
  }

  /** The (end vertex, set) of each edge `build_routing_network` cuts from
      vertices `1..j-1`: at each node vertex, one edge for each set from
      the node's set to the last. */
  function Slots(coords: seq<Pt>, nodes: map<Pt, nat>, nsets: nat, j: nat): seq<(nat, nat)>
    requires j <= |coords|
  {
    if j <= 1 then []
    else
      var front := Slots(coords, nodes, nsets, j - 1);
      if coords[j - 1] in nodes then front + SetRange(j - 1, nodes[coords[j - 1]], nsets) else front
  }

  /** `(v, r)` for each set `r` in `lo..hi-1`. */
  function SetRange(v: nat, lo: nat, hi: nat): (r: seq<(nat, nat)>)
    ensures |r| == if lo < hi then hi - lo else 0
    ensures forall t :: 0 <= t < |r| ==> r[t] == (v, lo + t)
  {
    if lo < hi then SetRange(v, lo, hi - 1) + [(v, hi - 1)] else []
  }

  /** An edge is cut for vertex `v` and set `r` exactly when `v` is a
      later vertex that is a node and `r` is the node's set or a later one. */
  lemma {:induction false} SlotsExactly(coords: seq<Pt>, nodes: map<Pt, nat>, nsets: nat, j: nat, v: nat, r: nat)
    requires j <= |coords|
    ensures (v, r) in Slots(coords, nodes, nsets, j) <==>
      1 <= v < j && coords[v] in nodes && nodes[coords[v]] <= r < nsets
  {
    if j > 1 {
      SlotsExactly(coords, nodes, nsets, j - 1, v, r);
      var s := if coords[j - 1] in nodes then SetRange(j - 1, nodes[coords[j - 1]], nsets) else [];
      if v == j - 1 && coords[v] in nodes && nodes[coords[v]] <= r < nsets {
        assert s[r - nodes[coords[v]]] == (v, r);
      }
    }
  }

  /** The end vertex and set of each edge, in order. */
  function Pairs(edges: seq<Edge>): (r: seq<(nat, nat)>)
    ensures |r| == |edges|
  {
    if |edges| == 0 then [] else Pairs(edges[..|edges| - 1]) + [(edges[|edges| - 1].iend, edges[|edges| - 1].rset)]
  }

  /** The vertices of a polyline that are routing vertices: vertex 0,
      then each later vertex among `1..j-1` that is a node. */
  function RoutingVertices(coords: seq<Pt>, nodes: map<Pt, nat>, j: nat): (r: seq<nat>)
    requires 1 <= j <= |coords|
    ensures |r| >= 1 && r[0] == 0
    ensures forall t :: 0 <= t < |r| ==> r[t] < j
    ensures Increasing(r)
    ensures forall v :: v in r <==> v == 0 || (1 <= v < j && coords[v] in nodes)
  {
    if j == 1 then [0]
    else
      var front := RoutingVertices(coords, nodes, j - 1);
      if coords[j - 1] in nodes then front + [j - 1] else front
  }

  predicate Increasing(rv: seq<nat>)
  {
    forall t, u :: 0 <= t < u < |rv| ==> rv[t] < rv[u]
  }

  lemma ChainAppend(edges: seq<Edge>, e: Edge)
    requires Chain(edges) && e.istart == LastEnd(edges, e.rset)
    ensures Chain(edges + [e])
  {
    var es := edges + [e];
    forall k | 0 <= k < |es|
      ensures es[k].istart == LastEnd(es[..k], es[k].rset)
    {
      if k < |edges| {
        assert es[..k] == edges[..k];
      } else {
        assert es[..k] == edges;
      }
    }
  }

  lemma LastEndAppend(edges: seq<Edge>, e: Edge, r: nat)
    ensures LastEnd(edges + [e], r) == if e.rset == r then e.iend else LastEnd(edges, r)
  {
    assert (edges + [e])[..|edges|] == edges;
  }

  lemma PairsAppend(edges: seq<Edge>, e: Edge)
    ensures Pairs(edges + [e]) == Pairs(edges) + [(e.iend, e.rset)]
  {
    assert (edges + [e])[..|edges|] == edges;
  }

  /** The edges the creation loop of `build_routing_network` cuts from one
      polyline, given the nodes, the edge counts before the polyline and
      the number of sets, and the routing vertices whose counts it then
      raises. Every edge fits, the edges of each set chain along the
      polyline from vertex 0, and there is one edge for each node vertex
      after the first and each set from the node's set on, in vertex
      order. */
  method PolylineEdges(coords: seq<Pt>, nodes: map<Pt, nat>, nedges: map<Pt, nat>, nsets: nat)
    returns (edges: seq<Edge>, rv: seq<nat>)
    requires |coords| > 0
    ensures forall k :: 0 <= k < |edges| ==> Fits(coords, nedges, edges[k])
    ensures Chain(edges)
    ensures Pairs(edges) == Slots(coords, nodes, nsets, |coords|)
    ensures rv == RoutingVertices(coords, nodes, |coords|)
  {
    var istartvertex: seq<nat> := seq(nsets, _ => 0);
    rv := [0];
    edges := [];
    var j := 1;
    while j < |coords|
      invariant 1 <= j <= |coords|
      invariant Cut(coords, nedges, nsets, edges, istartvertex)
      invariant forall r :: 0 <= r < nsets ==> istartvertex[r] < j
      invariant Pairs(edges) == Slots(coords, nodes, nsets, j)
      invariant rv == RoutingVertices(coords, nodes, j)
    {
      if coords[j] in nodes {
        rv := rv + [j];
        edges, istartvertex := NodeEdges(coords, nodes, nedges, nsets, j, edges, istartvertex);
      }
      j := j + 1;
    }
  }

  /** What the edge loops keep: `starts[r]` is where set `r`'s last edge
      ended, every edge fits, and each set's edges chain. */
  predicate Cut(coords: seq<Pt>, nedges: map<Pt, nat>, nsets: nat, edges: seq<Edge>, starts: seq<nat>)
  {
    |starts| == nsets &&
    (forall q :: 0 <= q < nsets ==> starts[q] == LastEnd(edges, q)) &&
    (forall k :: 0 <= k < |edges| ==> Fits(coords, nedges, edges[k])) &&
    Chain(edges)
  }

  /** Cutting the next edge of set `r` at vertex `j` keeps `Cut`. */
  lemma CutStep(coords: seq<Pt>, nedges: map<Pt, nat>, nsets: nat, edges: seq<Edge>, starts: seq<nat>, e: Edge)
    requires Cut(coords, nedges, nsets, edges, starts)
    requires e.rset < nsets && e.istart == starts[e.rset] && Fits(coords, nedges, e)
    ensures Cut(coords, nedges, nsets, edges + [e], starts[e.rset := e.iend])
  {
    ChainAppend(edges, e);
    forall q | 0 <= q < nsets {
      LastEndAppend(edges, e, q);
    }
  }

  lemma PairsStep(edges0: seq<Edge>, edges: seq<Edge>, e: Edge, lo: nat)
    requires lo <= e.rset && Pairs(edges) == Pairs(edges0) + SetRange(e.iend, lo, e.rset)
    ensures Pairs(edges + [e]) == Pairs(edges0) + SetRange(e.iend, lo, e.rset + 1)
  {
    PairsAppend(edges, e);
    assert SetRange(e.iend, lo, e.rset + 1) == SetRange(e.iend, lo, e.rset) + [(e.iend, e.rset)];
    Chunks.AppendAssoc(Pairs(edges0), SetRange(e.iend, lo, e.rset), [(e.iend, e.rset)]);
  }

  /** The invariant of the inner loop after the sets `lo..r-1`. */
  predicate Inner(coords: seq<Pt>, nedges: map<Pt, nat>, nsets: nat, j: nat, lo: nat, r: nat,
                  edges0: seq<Edge>, edges: seq<Edge>, starts: seq<nat>)
  {
    Cut(coords, nedges, nsets, edges, starts) &&
    Bounded(starts, nsets, j, r) &&
    Pairs(edges) == Pairs(edges0) + SetRange(j, lo, r)
  }

  /** No set's last end lies past vertex `j`, nor at it from set `r` on. */
  predicate Bounded(starts: seq<nat>, nsets: nat, j: nat, r: nat)
    requires |starts| == nsets
  {
    (forall q :: 0 <= q < nsets ==> starts[q] <= j) &&
    (forall q :: r <= q < nsets ==> starts[q] < j)
  }

  lemma BoundedStep(starts: seq<nat>, nsets: nat, j: nat, r: nat)
    requires |starts| == nsets && r < nsets && Bounded(starts, nsets, j, r)
    ensures Bounded(starts[r := j], nsets, j, r + 1)
  {
  }

  lemma InnerStep(coords: seq<Pt>, nedges: map<Pt, nat>, nsets: nat, j: nat, lo: nat, r: nat,
                  edges0: seq<Edge>, edges: seq<Edge>, starts: seq<nat>, e: Edge)
    requires Inner(coords, nedges, nsets, j, lo, r, edges0, edges, starts)
    requires lo <= r < nsets && j < |coords|
    requires e == Edge(r, starts[r], j, Count(nedges, coords[starts[r]]) + (if starts[r] > 0 then 1 else 0),
                       Count(nedges, coords[j]))
    ensures Inner(coords, nedges, nsets, j, lo, r + 1, edges0, edges + [e], starts[r := j])
  {
    CutStep(coords, nedges, nsets, edges, starts, e);
    PairsStep(edges0, edges, e, lo);
    BoundedStep(starts, nsets, j, r);
  }

  /** The inner loop: the edges ending at node vertex `j`, one per set
      from the node's set on, each starting at that set's previous end. */
  method NodeEdges(coords: seq<Pt>, nodes: map<Pt, nat>, nedges: map<Pt, nat>, nsets: nat, j: nat,
                   edges0: seq<Edge>, starts0: seq<nat>)
    returns (edges: seq<Edge>, starts: seq<nat>)
    requires 1 <= j < |coords| && coords[j] in nodes
    requires Cut(coords, nedges, nsets, edges0, starts0)
    requires forall r :: 0 <= r < nsets ==> starts0[r] < j
    ensures Cut(coords, nedges, nsets, edges, starts)
    ensures forall r :: 0 <= r < nsets ==> starts[r] <= j
    ensures Pairs(edges) == Pairs(edges0) + SetRange(j, nodes[coords[j]], nsets)
  {
    edges, starts := edges0, starts0;
    var endIndex := Count(nedges, coords[j]);
    var lo := nodes[coords[j]];
    var r := lo;
    while r < nsets
      invariant lo <= r && (r <= nsets || r == lo)
      invariant Inner(coords, nedges, nsets, j, lo, r, edges0, edges, starts)
    {
      var istart := starts[r];
      var nstart := Count(nedges, coords[istart]);
      var startIndex := if istart > 0 then nstart + 1 else nstart;
      var e := Edge(r, istart, j, startIndex, endIndex);
      InnerStep(coords, nedges, nsets, j, lo, r, edges0, edges, starts, e);
      edges := edges + [e];
      starts := starts[r := j];
      r := r + 1;
    }
  }

  // edge counts

  /** The edges a routing vertex `v` of an `n`-vertex polyline adds to its
      node: 2 inside the polyline, 1 at either end. */
  function Weight(v: nat, n: nat): nat
  {
    if 0 < v < n - 1 then 2 else 1
  }

  /** The edge counts after the routing vertices `rv[..k]`. */
  function Bumped(nedges: map<Pt, nat>, coords: seq<Pt>, rv: seq<nat>, k: nat): map<Pt, nat>
    requires k <= |rv| && forall t :: 0 <= t < |rv| ==> rv[t] < |coords|
  {
    if k == 0 then nedges
    else
      var m := Bumped(nedges, coords, rv, k - 1);
      var c := coords[rv[k - 1]];
      m[c := Count(m, c) + Weight(rv[k - 1], |coords|)]
  }

  /** What the routing vertices `rv[..k]` at `c` add up to. */
  function WeightAt(coords: seq<Pt>, rv: seq<nat>, k: nat, c: Pt): nat
    requires k <= |rv| && forall t :: 0 <= t < |rv| ==> rv[t] < |coords|
  {
    if k == 0 then 0
    else WeightAt(coords, rv, k - 1, c) + (if coords[rv[k - 1]] == c then Weight(rv[k - 1], |coords|) else 0)
  }

  /** Each node's count grows by the weights of the routing vertices at
      it, and the counted nodes are the old ones and those vertices. */
  lemma {:induction false} BumpedAt(nedges: map<Pt, nat>, coords: seq<Pt>, rv: seq<nat>, k: nat, c: Pt)
    requires k <= |rv| && forall t :: 0 <= t < |rv| ==> rv[t] < |coords|
    ensures Count(Bumped(nedges, coords, rv, k), c) == Count(nedges, c) + WeightAt(coords, rv, k, c)
    ensures c in Bumped(nedges, coords, rv, k) <==> c in nedges || exists t :: 0 <= t < k && coords[rv[t]] == c
  {
    if k > 0 {
      BumpedAt(nedges, coords, rv, k - 1, c);
    }
  }

  /** On a polyline that does not cross itself, each routing vertex is
      met once: its node gains 2 inside the polyline and 1 at an end, and
      a vertex that is not a routing vertex gains nothing. */
  lemma {:induction false} WeightAtSimple(coords: seq<Pt>, rv: seq<nat>, k: nat, v: nat)
    requires k <= |rv| && forall t :: 0 <= t < |rv| ==> rv[t] < |coords|
    requires Increasing(rv) && Simple(coords) && v < |coords|
    ensures WeightAt(coords, rv, k, coords[v]) == if v in rv[..k] then Weight(v, |coords|) else 0
  {
    if k > 0 {
      WeightAtSimple(coords, rv, k - 1, v);
      assert rv[..k] == rv[..k - 1] + [rv[k - 1]];
      if v in rv[..k - 1] {
        var t :| 0 <= t < k - 1 && rv[t] == v;
        assert rv[t] < rv[k - 1];
      }
    }
  }

  /** The polyline does not cross itself. */
  predicate Simple(coords: seq<Pt>)
  {
    forall a, b :: 0 <= a < b < |coords| ==> coords[a] != coords[b]
  }

  /** The count update after one polyline's edges. */
  method UpdateEdgeCounts(nedges: map<Pt, nat>, coords: seq<Pt>, rv: seq<nat>) returns (m: map<Pt, nat>)
    requires forall t :: 0 <= t < |rv| ==> rv[t] < |coords|
    ensures m == Bumped(nedges, coords, rv, |rv|)
  {
    m := nedges;
    for t := 0 to |rv|
      invariant m == Bumped(nedges, coords, rv, t)
    {
      var ivertex := rv[t];
      var vertex := coords[ivertex];
      var nvertices := if ivertex > 0 && ivertex < |coords| - 1 then 2 else 1;
      if vertex in m {
        m := m[vertex := m[vertex] + nvertices];
      } else {
        m := m[vertex := nvertices];
      }
    }
  }

  /** For a polyline that does not cross itself: its first and last
      vertex gain one edge each, an inner vertex that is a node gains
      two, and every other point keeps its count. */
  lemma SimplePolylineCounts(nedges: map<Pt, nat>, coords: seq<Pt>, nodes: map<Pt, nat>, v: nat)
    requires 2 <= |coords| && v < |coords|
    requires Simple(coords) && coords[|coords| - 1] in nodes
    ensures var rv := RoutingVertices(coords, nodes, |coords|);
      Count(Bumped(nedges, coords, rv, |rv|), coords[v]) == Count(nedges, coords[v]) +
        if v == 0 || v == |coords| - 1 then 1 else if coords[v] in nodes then 2 else 0
  {
    var rv := RoutingVertices(coords, nodes, |coords|);
    BumpedAt(nedges, coords, rv, |rv|, coords[v]);
    WeightAtSimple(coords, rv, |rv|, v);
    assert rv[..|rv|] == rv;
    assert v in rv <==> v == 0 || coords[v] in nodes;
  }
}
