/** `LayerParamEstimator` of magellan/Layer.py: the statistics a layer
    without a bounding box gathers while elements are added, the bounding
    box estimated from them, and the search for the number of cell levels
    (`calculateNlevels`), which sorts the elements into buckets keyed by
    cell number and checks every bucket against the size limits. */
module LayerEstimator {
  import opened Wrappers
  import opened Geometry
  import opened Bits
  import opened Arith
  import opened Quadtree
  import opened CellSearch
  import opened CellSearchFixed
  import opened Buckets

  /** Class constants of `LayerParamEstimator`. The data-size limit is in
      tenths of a byte, the unit of the size estimates. */
  const MaxCellElements: nat := 2000
  const MaxCellDataSize: nat := 100000
  const MaxNLevels: nat := 10

  /** One entry of `data`: an element's discrete bounding box, north up,
      and its estimated size in tenths of a byte. */
  datatype Item = Item(box: Rec, size: nat)

  function SumSizes(items: seq<Item>): nat
  {
    if |items| == 0 then 0 else SumSizes(items[..|items| - 1]) + items[|items| - 1].size
  }

  /** The test `checkcells` applies to one bucket. */
  predicate BucketOk(items: seq<Item>)
  {
    |items| <= MaxCellElements && SumSizes(items) <= MaxCellDataSize
  }

  /** A layer box the cell search can work with. */
  predicate Usable(layer: Option<Rec>)
  {
    layer.Some? && layer.value.Valid() && layer.value.Width() > 0 && layer.value.Height() > 0
  }

  /** What the cell search raises on a layer box it cannot work with: no
      box at all, or one of zero width or height. */
  function Unusable(layer: Option<Rec>): Failure
  {
    if layer.None? then AttributeError else ZeroDivisionError
  }

  /** The cell of an item at a level; its box is Y-negated into the
      layer's frame, as `Layer.addCellElement` does. */
  function CellOf(layer: Rec, it: Item, level: nat): int
    requires Usable(Some(layer))
  {
    MaxCellnoFixed(layer, it.box.NegY(), level).value
  }

  /** The cell functions of all levels. The search never groups by the
      cells of an unusable layer box, so any family serves for one. */
  function Cells(layer: Option<Rec>): nat -> Item -> int
  {
    if Usable(layer) then (level: nat) => (it: Item) => CellOf(layer.value, it, level)
    else (level: nat) => (it: Item) => 1
  }

  /** The cell `calculateNlevels` as written moves an item to: the search
      as written, given the layer's box, which is Y-negated, and the
      item's box as recorded, north up. */
  function CellOfAsWritten(layer: Rec, it: Item, level: nat): int
    requires Usable(Some(layer))
  {
    MaxCellno(layer, it.box, level).value
  }

  function CellsAsWritten(layer: Option<Rec>): nat -> Item -> int
  {
    if Usable(layer) then (level: nat) => (it: Item) => CellOfAsWritten(layer.value, it, level)
    else (level: nat) => (it: Item) => 1
  }

  /** The items whose cell at `level` is c, in their order. */
  function InCell(layer: Option<Rec>, items: seq<Item>, level: nat, c: int): (r: seq<Item>)
    ensures forall i :: 0 <= i < |r| ==> Cells(layer)(level)(r[i]) == c
  {
    Filter(Cells(layer)(level), items, c)
  }

  /** Every bucket passes when the items are grouped by their cells under
      f. */
  ghost predicate AllPass(f: Item -> int, data: seq<Item>)
  {
    forall c :: BucketOk(Filter(f, data, c))
  }

  /** The buckets tested at `level` pass; level -1 stands for the one
      bucket of cell 1 the search starts with. */
  ghost predicate Passes(cells: nat -> Item -> int, data: seq<Item>, level: int)
  {
    if level < 0 then BucketOk(data) else AllPass(cells(level), data)
  }

  /** The level whose grouping pass k of the search tests: the start
      bucket (-1) in pass 0, and after that the level the previous pass
      re-bucketed at. */
  function Tested(lag: bool, k: nat): int
  {
    if k == 0 then -1 else Built(lag, k - 1)
  }

  /** The level pass k re-buckets at when its buckets fail. As written
      (`lag`) it is the level of the pass itself, so the next pass, k + 1,
      tests the grouping of level k; corrected it is k + 1. */
  function Built(lag: bool, k: nat): nat
  {
    if lag then k else k + 1
  }

  /** The search of `calculateNlevels` from pass k on: pass k answers k
      when the buckets it tests pass. A layer box the cell search cannot
      use fails with `err` once the start bucket does not pass. When no
      pass succeeds, the message of the exception is formatted with an
      argument it has no place for, which raises TypeError. */
  ghost function Search(lag: bool, usable: bool, err: Failure, cells: nat -> Item -> int, data: seq<Item>, k: nat): Result<nat>
    decreases MaxNLevels - k
  {
    if k >= MaxNLevels then Fail(TypeError)
    else if Passes(cells, data, Tested(lag, k)) then Ok(k)
    else if !usable then Fail(err)
    else Search(lag, usable, err, cells, data, k + 1)
  }

  /** `calculateNlevels` as written, for a layer box and the recorded
      items: the passes lag one level behind, and the cells are those of
      the search as written on the un-negated item boxes. */
  ghost function NlevelsAsWritten(layer: Option<Rec>, data: seq<Item>): Result<nat>
  {
    Search(true, Usable(layer), Unusable(layer), CellsAsWritten(layer), data, 0)
  }

  /** The passes of `calculateNlevels` as written over the cells the layer
      stores its elements in: the lag of the loop on its own. */
  ghost function NlevelsLagged(layer: Option<Rec>, data: seq<Item>): Result<nat>
  {
    Search(true, Usable(layer), Unusable(layer), Cells(layer), data, 0)
  }

  /** `calculateNlevels` corrected. */
  ghost function Nlevels(layer: Option<Rec>, data: seq<Item>): Result<nat>
  {
    Search(false, Usable(layer), Unusable(layer), Cells(layer), data, 0)
  }

  // ----------------------------------------------------------- buckets

  lemma {:induction false} SumSplit(a: seq<Item>, b: seq<Item>)
    ensures SumSizes(a + b) == SumSizes(a) + SumSizes(b)
    decreases |b|
  {
    if |b| > 0 {
      assert (a + b)[..|a + b| - 1] == a + b[..|b| - 1];
      SumSplit(a, b[..|b| - 1]);
    } else {
      assert a + b == a;
    }
  }

  /** Taking out the item at j takes its size off the sum. */
  lemma {:induction false} SumRemove(b: seq<Item>, j: nat)
    requires j < |b|
    ensures SumSizes(b) == SumSizes(b[..j] + b[j + 1..]) + b[j].size
  {
    var x, it, y := b[..j], b[j], b[j + 1..];
    assert b == (x + [it]) + y;
    SumSplit(x + [it], y);
    SumSplit(x, [it]);
    SumSplit(x, y);
    SumOne(it);
  }

  lemma SumOne(it: Item)
    ensures SumSizes([it]) == it.size
  {
    assert [it][..0] == [];
  }

  /** Equal sums stay equal when the same items are taken from both. */
  lemma Cancel(a: multiset<Item>, b: multiset<Item>, x: multiset<Item>)
    requires a + x == b + x
    ensures a == b
  {
    assert forall y :: a[y] == (a + x)[y] - x[y];
    assert forall y :: b[y] == (b + x)[y] - x[y];
  }

  /** The summed size does not depend on the order of the items. */
  lemma {:induction false} SumPerm(a: seq<Item>, b: seq<Item>)
    requires multiset(a) == multiset(b)
    ensures SumSizes(a) == SumSizes(b)
    decreases |a|
  {
    if |a| > 0 {
      var a', x := a[..|a| - 1], a[|a| - 1];
      assert a == a' + [x];
      assert x in multiset(b);
      var j :| 0 <= j < |b| && b[j] == x;
      var b' := b[..j] + b[j + 1..];
      assert b == b[..j] + [x] + b[j + 1..];
      assert multiset(b) == multiset(b') + multiset{x};
      Cancel(multiset(a'), multiset(b'), multiset{x});
      SumPerm(a', b');
      SumRemove(b, j);
    }
  }

  /** On grouped buckets the test of `checkcells` is the test of every
      cell's part of the data. */
  lemma GroupedPasses(f: Item -> int, m: map<int, seq<Item>>, keys: seq<int>, data: seq<Item>)
    requires Grouped(f, m, keys, data)
    ensures (forall c :: c in m ==> BucketOk(m[c])) <==> AllPass(f, data)
  {
    forall c
      ensures (c in m ==> BucketOk(m[c])) <==> BucketOk(Filter(f, data, c))
    {
      BucketIsFilter(f, m, keys, data, c);
      if c in m {
        var cell := Filter(f, data, c);
        assert |m[c]| == |multiset(m[c])|;
        assert |cell| == |multiset(cell)|;
        SumPerm(m[c], cell);
      }
    }
  }

  /** What `checkcells` answers on the buckets of a pass: the start
      bucket (level -1) or the grouping of a level. On a grouping, the
      bucket of cell 1 holds the items of cell 1. */
  lemma CheckedPasses(cells: nat -> Item -> int, m: map<int, seq<Item>>, keys: seq<int>, data: seq<Item>, level: int)
    requires KeyOrder(m, keys)
    requires level < 0 ==> 1 in m && m[1] == data && keys == [1]
    requires level >= 0 ==> Grouped(cells(level), m, keys, data)
    ensures (forall c :: c in m ==> BucketOk(m[c])) <==> Passes(cells, data, level)
    ensures level >= 0 ==> multiset(m[1]) == multiset(Filter(cells(level), data, 1))
  {
    if level >= 0 {
      GroupedPasses(cells(level), m, keys, data);
      BucketIsFilter(cells(level), m, keys, data, 1);
    } else {
      forall c | c in m
        ensures c == 1
      {
        assert c in keys;
      }
    }
  }

  /** At level 0 every item is in cell 1, so the grouping of level 0 is
      the start bucket. */
  lemma LevelZeroGrouping(layer: Option<Rec>, data: seq<Item>)
    requires Usable(layer)
    ensures Passes(Cells(layer), data, 0) <==> Passes(Cells(layer), data, -1)
  {
    var f := Cells(layer)(0);
    forall i | 0 <= i < |data|
      ensures f(data[i]) == 1
    {
      LevelZeroCell(layer.value, data[i].box.NegY());
    }
    FilterAll(f, data, 1);
    assert BucketOk([]);
  }

  // ---------------------------------------------------------- methods

  /** `checkcells`: every bucket holds at most MaxCellElements items of
      summed size at most MaxCellDataSize. The buckets are visited in the
      order of `keys`; the answer does not depend on it. */
  method CheckCells(buckets: map<int, seq<Item>>, keys: seq<int>) returns (ok: bool)
    requires KeyOrder(buckets, keys)
    ensures ok <==> forall c :: c in buckets ==> BucketOk(buckets[c])
  {
    var j := 0;
    while j < |keys|
      invariant 0 <= j <= |keys|
      invariant forall i :: 0 <= i < j ==> BucketOk(buckets[keys[i]])
    {
      var items := buckets[keys[j]];
      if |items| > MaxCellElements {
        NotAllOk(buckets, keys[j]);
        return false;
      }
      var cellsize := CellSize(items);
      if cellsize > MaxCellDataSize {
        NotAllOk(buckets, keys[j]);
        return false;
      }
      j := j + 1;
    }
    forall c | c in buckets
      ensures BucketOk(buckets[c])
    {
      assert c in keys;
      var i :| 0 <= i < |keys| && keys[i] == c;
    }
    return true;
  }

  /** One bucket over the bounds fails the whole check. */
  lemma NotAllOk(buckets: map<int, seq<Item>>, c: int)
    requires c in buckets && !BucketOk(buckets[c])
    ensures !(forall d :: d in buckets ==> BucketOk(buckets[d]))
  {
  }

  /** The inner loop of `checkcells`: the summed size of a bucket. */
  method CellSize(items: seq<Item>) returns (cellsize: int)
    ensures cellsize == SumSizes(items)
  {
    cellsize := 0;
    var i := 0;
    while i < |items|
      invariant 0 <= i <= |items|
      invariant cellsize == SumSizes(items[..i])
    {
      assert items[..i + 1][..i] == items[..i];
      cellsize := cellsize + items[i].size;
      i := i + 1;
    }
    assert items[..i] == items;
  }

  /** Popping the item at index i of bucket c leaves the items held less
      that one item. */
  lemma PopTotal(m: map<int, seq<Item>>, keys: seq<int>, c: int, i: nat)
    requires KeyOrder(m, keys) && c in m && i < |m[c]|
    ensures Total(m[c := m[c][..i] + m[c][i + 1..]], keys) + multiset{m[c][i]} == Total(m, keys)
  {
    var it, rest := m[c][i], m[c][..i] + m[c][i + 1..];
    assert m[c] == m[c][..i] + [it] + m[c][i + 1..];
    assert multiset(m[c]) == multiset(rest) + multiset{it};
    TotalUpdate(m, keys, c, rest);
    Cancel(Total(m[c := rest], keys) + multiset{it}, Total(m, keys), multiset(rest));
  }

  /** Appending an item to the bucket of n adds it to the items held. */
  lemma PushTotal(m: map<int, seq<Item>>, keys: seq<int>, n: int, it: Item)
    requires KeyOrder(m, keys) && n in m
    ensures Total(m[n := m[n] + [it]], keys) == Total(m, keys) + multiset{it}
  {
    TotalUpdate(m, keys, n, m[n] + [it]);
    Cancel(Total(m[n := m[n] + [it]], keys), Total(m, keys) + multiset{it}, multiset(m[n]));
  }

  /** A new bucket of n holding one item adds that item. */
  lemma PushNewTotal(m: map<int, seq<Item>>, keys: seq<int>, n: int, it: Item)
    requires KeyOrder(m, keys) && n !in m
    ensures KeyOrder(m[n := [it]], keys + [n])
    ensures Total(m[n := [it]], keys + [n]) == Total(m, keys) + multiset{it}
  {
    KeyOrderAdd(m, keys, n, [it]);
    TotalAppend(m, keys, n, [it]);
    assert multiset([it]) == multiset{it};
  }

  /** One step of the re-bucketing: the item at index i of bucket c moves
      to the end of the bucket of cell n, which is added after the other
      keys when it is new. */
  lemma MoveKeepsTotal(m: map<int, seq<Item>>, keys: seq<int>, c: int, i: nat, n: int)
    requires KeyOrder(m, keys) && c in m && i < |m[c]| && n != c
    ensures var keys' := if n in m then keys else keys + [n];
      KeyOrder(Moved(m, c, i, n), keys') && Total(Moved(m, c, i, n), keys') == Total(m, keys)
  {
    var m1 := m[c := m[c][..i] + m[c][i + 1..]];
    PopTotal(m, keys, c, i);
    assert KeyOrder(m1, keys);
    if n in m {
      PushTotal(m1, keys, n, m[c][i]);
    } else {
      PushNewTotal(m1, keys, n, m[c][i]);
      assert [] + [m[c][i]] == [m[c][i]];
    }
  }

  /** The inner loop of the re-bucketing: bucket c is walked from its
      last item to its first, and an item whose cell under `cell` differs
      from c is popped and appended to the bucket of its cell, which is
      created when missing. Afterwards bucket c holds only items of cell
      c, and every bucket that held only items of its cell, or is new,
      still does. */
  method SettleBucket(cell: Item -> int, m0: map<int, seq<Item>>, keys0: seq<int>, c: int)
    returns (m: map<int, seq<Item>>, keys: seq<int>)
    requires KeyOrder(m0, keys0) && c in m0
    ensures KeyOrder(m, keys) && (forall d :: d in m0 ==> d in m)
    ensures Settled(cell, m, c)
    ensures forall d :: d in m && d != c && (d in m0 ==> Settled(cell, m0, d)) ==> Settled(cell, m, d)
    ensures Total(m, keys) == Total(m0, keys0)
  {
    m, keys := m0, keys0;
    var i := |m[c]|;
    while i > 0
      invariant c in m && 0 <= i <= |m[c]|
      invariant KeyOrder(m, keys) && (forall d :: d in m0 ==> d in m)
      invariant forall k :: i <= k < |m[c]| ==> cell(m[c][k]) == c
      invariant forall d :: d in m && d != c && (d in m0 ==> Settled(cell, m0, d)) ==> Settled(cell, m, d)
      invariant Total(m, keys) == Total(m0, keys0)
    {
      i := i - 1;
      var n := cell(m[c][i]);
      if n != c {
        MoveKeepsTotal(m, keys, c, i, n);
        SettleStep(cell, m0, m, c, i, n);
        if n !in m {
          keys := keys + [n];
        }
        m := Moved(m, c, i, n);
      }
    }
  }

  /** Re-bucketed lists that held the items of `data` group them. */
  lemma RebucketGroups(f: Item -> int, m0: map<int, seq<Item>>, keys0: seq<int>,
                       m: map<int, seq<Item>>, keys: seq<int>, data: seq<Item>)
    requires KeyOrder(m0, keys0) && 1 in m0 && Total(m0, keys0) == multiset(data)
    requires KeyOrder(m, keys) && (forall d :: d in m0 ==> d in m)
    requires forall c :: c in m ==> Settled(f, m, c)
    requires Total(m, keys) == Total(m0, keys0)
    ensures Grouped(f, m, keys, data)
  {
  }

  /** The re-bucketing pass of `calculateNlevels`, with `cell` the cell
      search at the level of the pass: every bucket that existed when the
      pass began is settled in turn. Afterwards every item sits in the
      bucket of its cell. */
  method Rebucket(cell: Item -> int, m0: map<int, seq<Item>>, keys0: seq<int>)
    returns (m: map<int, seq<Item>>, keys: seq<int>)
    requires KeyOrder(m0, keys0)
    ensures KeyOrder(m, keys) && (forall d :: d in m0 ==> d in m)
    ensures forall c :: c in m ==> Settled(cell, m, c)
    ensures Total(m, keys) == Total(m0, keys0)
  {
    m, keys := m0, keys0;
    var j := 0;
    while j < |keys0|
      invariant 0 <= j <= |keys0|
      invariant KeyOrder(m, keys) && (forall d :: d in m0 ==> d in m)
      invariant forall c :: c in m && c !in keys0[j..] ==> Settled(cell, m, c)
      invariant Total(m, keys) == Total(m0, keys0)
    {
      assert keys0[j..] == [keys0[j]] + keys0[j + 1..];
      m, keys := SettleBucket(cell, m, keys, keys0[j]);
      j := j + 1;
    }
  }

  /** The buckets at the start of pass k of the search: the start
      bucket of cell 1 in pass 0, and after that the items grouped at the
      level the previous pass re-bucketed at. */
  ghost predicate AtPass(lag: bool, usable: bool, cells: nat -> Item -> int, data: seq<Item>, k: nat,
                         m: map<int, seq<Item>>, keys: seq<int>)
  {
    KeyOrder(m, keys) && 1 in m
    && (k == 0 ==> m[1] == data && keys == [1])
    && (k > 0 ==> usable && Grouped(cells(Built(lag, k - 1)), m, keys, data))
  }

  /** What `checkcells` answers in pass k, and what cell 1 holds then. */
  lemma AtPassChecked(lag: bool, usable: bool, cells: nat -> Item -> int, data: seq<Item>, k: nat,
                      m: map<int, seq<Item>>, keys: seq<int>)
    requires AtPass(lag, usable, cells, data, k, m, keys)
    ensures (forall c :: c in m ==> BucketOk(m[c])) <==> Passes(cells, data, Tested(lag, k))
    ensures k == 0 ==> m[1] == data
    ensures k > 0 ==> multiset(m[1]) == multiset(Filter(cells(Built(lag, k - 1)), data, 1))
  {
    CheckedPasses(cells, m, keys, data, Tested(lag, k));
  }

  /** The re-bucketing that ends a failed pass k: the items are grouped by
      their cells at `Built(lag, k)`, ready for pass k + 1. */
  method NextPass(lag: bool, usable: bool, cells: nat -> Item -> int, ghost data: seq<Item>, k: nat,
                  m0: map<int, seq<Item>>, keys0: seq<int>)
    returns (m: map<int, seq<Item>>, keys: seq<int>)
    requires usable && AtPass(lag, usable, cells, data, k, m0, keys0)
    ensures AtPass(lag, usable, cells, data, k + 1, m, keys)
  {
    if k == 0 {
      TotalOne(data);
    }
    m, keys := Rebucket(cells(Built(lag, k)), m0, keys0);
    RebucketGroups(cells(Built(lag, k)), m0, keys0, m, keys, data);
  }

  /** The loop of `calculateNlevels`, for the cell functions `cells` of a
      layer box, where `usable` tells whether the cell search can work
      with the box and `err` is what it raises when it cannot. Each pass
      checks the buckets and, when they fail, re-buckets at the level
      `Built(lag, k)`. Besides the answer it returns what the bucket of
      cell 1 holds at the end. */
  method SearchLoop(lag: bool, usable: bool, err: Failure, cells: nat -> Item -> int, data: seq<Item>)
    returns (r: Result<nat>, first: seq<Item>)
    ensures r == Search(lag, usable, err, cells, data, 0)
    ensures r == Ok(0) ==> first == data
    ensures r.Ok? && r.value > 0 ==> multiset(first) == multiset(Filter(cells(Built(lag, r.value - 1)), data, 1))
  {
    var buckets, keys := map[1 := data], [1];
    var k := 0;
    while k < MaxNLevels
      invariant k <= MaxNLevels
      invariant Search(lag, usable, err, cells, data, k) == Search(lag, usable, err, cells, data, 0)
      invariant AtPass(lag, usable, cells, data, k, buckets, keys)
    {
      var ok := CheckCells(buckets, keys);
      AtPassChecked(lag, usable, cells, data, k, buckets, keys);
      if ok {
        return Ok(k), buckets[1];
      }
      if !usable {
        return Fail(err), buckets[1];
      }
      buckets, keys := NextPass(lag, usable, cells, data, k, buckets, keys);
      k := k + 1;
    }
    return Fail(TypeError), buckets[1];
  }

  /** The running corners: the componentwise minimum of `start` and the
      lower corners of the boxes, and the maximum of `start` and the upper
      corners. */
  function LowCorner(start: Pt, data: seq<Item>): Pt
  {
    if |data| == 0 then start
    else
      var p := LowCorner(start, data[..|data| - 1]);
      var c := data[|data| - 1].box.c1;
      Pt(Min(p.x, c.x), Min(p.y, c.y))
  }

  function HighCorner(start: Pt, data: seq<Item>): Pt
  {
    if |data| == 0 then start
    else
      var p := HighCorner(start, data[..|data| - 1]);
      var c := data[|data| - 1].box.c2;
      Pt(Max(p.x, c.x), Max(p.y, c.y))
  }

  /** The running corners bound every box. */
  lemma {:induction false} CornersBound(ne: Pt, sw: Pt, data: seq<Item>)
    ensures forall i :: 0 <= i < |data| ==> data[i].box.CoveredBy(Rec(LowCorner(ne, data), HighCorner(sw, data)))
  {
    if |data| > 0 {
      CornersBound(ne, sw, data[..|data| - 1]);
      assert forall i :: 0 <= i < |data| - 1 ==> data[..|data| - 1][i] == data[i];
    }
  }

  /** Once the low corner has moved, the box `calculateDBBox` gives from
      valid element boxes is valid. */
  lemma EstimateValid(ne: Pt, sw: Pt, data: seq<Item>)
    requires forall i :: 0 <= i < |data| ==> data[i].box.Valid()
    requires LowCorner(ne, data) != ne
    ensures Rec(LowCorner(ne, data), HighCorner(sw, data)).Valid()
  {
    assert |data| > 0;
    CornersBound(ne, sw, data);
    assert data[0].box.CoveredBy(Rec(LowCorner(ne, data), HighCorner(sw, data)));
  }

  /** The low corner stays at its start exactly when no box reaches below
      it on either axis. */
  lemma {:induction false} LowCornerUnmoved(ne: Pt, data: seq<Item>)
    ensures LowCorner(ne, data) == ne
            <==> forall i :: 0 <= i < |data| ==> data[i].box.c1.x >= ne.x && data[i].box.c1.y >= ne.y
  {
    if |data| > 0 {
      LowCornerUnmoved(ne, data[..|data| - 1]);
      assert forall i :: 0 <= i < |data| - 1 ==> data[..|data| - 1][i] == data[i];
      var p := LowCorner(ne, data[..|data| - 1]);
      assert p.x <= ne.x && p.y <= ne.y by {
        LowCornerBelow(ne, data[..|data| - 1]);
      }
    }
  }

  lemma {:induction false} LowCornerBelow(ne: Pt, data: seq<Item>)
    ensures LowCorner(ne, data).x <= ne.x && LowCorner(ne, data).y <= ne.y
  {
    if |data| > 0 {
      LowCornerBelow(ne, data[..|data| - 1]);
    }
  }

  /** The union of the boxes of a non-empty list. */
  function UnionAll(data: seq<Item>): Rec
    requires |data| > 0
  {
    if |data| == 1 then data[0].box else UnionAll(data[..|data| - 1]).Union(data[|data| - 1].box)
  }

  /** With every box inside the world rectangle from sw to ne, the running
      corners of a non-empty list are the union of its boxes. */
  lemma {:induction false} CornersAreUnion(ne: Pt, sw: Pt, data: seq<Item>)
    requires |data| > 0
    requires forall i :: 0 <= i < |data| ==> data[i].box.Valid() && data[i].box.CoveredBy(Rec(sw, ne))
    ensures Rec(LowCorner(ne, data), HighCorner(sw, data)) == UnionAll(data)
  {
    if |data| > 1 {
      assert forall i :: 0 <= i < |data| - 1 ==> data[..|data| - 1][i] == data[i];
      CornersAreUnion(ne, sw, data[..|data| - 1]);
    } else {
      assert data[..0] == [];
    }
  }

  class LayerParamEstimator {
    var data: seq<Item>
    var dbboxmin: Pt
    var dbboxmax: Pt
    /** The discrete images of (180, 90) and (-180, -90), the start values
        of the running corners. */
    const worldne: Pt
    const worldsw: Pt

    ghost predicate Valid()
      reads this
    {
      dbboxmin == LowCorner(worldne, data) && dbboxmax == HighCorner(worldsw, data)
    }

    constructor(ne: Pt, sw: Pt)
      ensures worldne == ne && worldsw == sw && data == [] && Valid()
    {
      worldne, worldsw := ne, sw;
      data := [];
      dbboxmin, dbboxmax := ne, sw;
    }

    /** `addCellElement`: the corners take in the element's box and its
        box and size estimate are recorded. */
    method AddCellElement(box: Rec, size: nat)
      modifies this
      ensures data == old(data) + [Item(box, size)]
      ensures dbboxmin == Pt(Min(old(dbboxmin).x, box.c1.x), Min(old(dbboxmin).y, box.c1.y))
      ensures dbboxmax == Pt(Max(old(dbboxmax).x, box.c2.x), Max(old(dbboxmax).y, box.c2.y))
      ensures old(Valid()) ==> Valid()
    {
      dbboxmin := Pt(Min(box.c1.x, dbboxmin.x), Min(box.c1.y, dbboxmin.y));
      dbboxmax := Pt(Max(box.c2.x, dbboxmax.x), Max(box.c2.y, dbboxmax.y));
      data := data + [Item(box, size)];
      assert data[..|data| - 1] == old(data);
    }

    /** `calculateDBBox`: no box while the low corner is still the start
        value, else the box of the running corners. */
    function CalculateDBBox(): (r: Option<Rec>)
      reads this
      ensures r.None? <==> dbboxmin == worldne
      ensures r.Some? ==> r.value.c1 == dbboxmin && r.value.c2 == dbboxmax
    {
      if dbboxmin == worldne then None else Some(Rec(dbboxmin, dbboxmax))
    }

    /** `calculateNlevels` as written. The start bucket is the list `data`
        itself, so the items the re-bucketing pops from cell 1 leave
        `data`. */
    method CalculateNlevelsAsWritten(layer: Option<Rec>) returns (r: Result<nat>)
      modifies this
      ensures r == NlevelsAsWritten(layer, old(data))
      ensures dbboxmin == old(dbboxmin) && dbboxmax == old(dbboxmax)
      ensures r == Ok(0) ==> data == old(data)
      ensures r.Ok? && r.value > 0 ==> multiset(data) == multiset(Filter(CellsAsWritten(layer)(r.value - 1), old(data), 1))
    {
      var first;
      r, first := SearchLoop(true, Usable(layer), Unusable(layer), CellsAsWritten(layer), data);
      data := first;
    }

    /** `calculateNlevels` with the re-bucketing of each pass done at the
        level the next pass tests. */
    method CalculateNlevels(layer: Option<Rec>) returns (r: Result<nat>)
      modifies this
      ensures r == Nlevels(layer, old(data))
      ensures dbboxmin == old(dbboxmin) && dbboxmax == old(dbboxmax)
      ensures r == Ok(0) ==> data == old(data)
      ensures r.Ok? && r.value > 0 ==> multiset(data) == multiset(InCell(layer, old(data), r.value, 1))
    {
      r, data := SearchLoop(false, Usable(layer), Unusable(layer), Cells(layer), data);
    }
  }

  // -------------------------------------------------------- properties

  ghost function Later(r: Result<nat>): Result<nat>
  {
    if r.Ok? then (if r.value + 1 < MaxNLevels then Ok(r.value + 1) else Fail(TypeError)) else r
  }

  /** Items that fit one cell need no levels, in both searches; an
      estimator that was never fed, as with `addCellElement` as written,
      is one such. */
  lemma OneBucketNoLevels(layer: Option<Rec>, data: seq<Item>)
    requires |data| <= MaxCellElements && SumSizes(data) <= MaxCellDataSize
    ensures NlevelsAsWritten(layer, data) == Ok(0) && Nlevels(layer, data) == Ok(0)
  {
  }

  /** From level 1 on, the as-written search one level later answers what
      the corrected search answers, one level later. */
  lemma {:induction false} LagFrom(usable: bool, err: Failure, cells: nat -> Item -> int, data: seq<Item>, k: nat)
    requires usable && 1 <= k
    ensures Search(true, usable, err, cells, data, k + 1) == Later(Search(false, usable, err, cells, data, k))
    decreases MaxNLevels - k
  {
    if k < MaxNLevels && !Passes(cells, data, k) {
      LagFrom(usable, err, cells, data, k + 1);
    }
  }

  /** A search from pass k answers no level below k. */
  lemma {:induction false} SearchFrom(lag: bool, usable: bool, err: Failure, cells: nat -> Item -> int, data: seq<Item>, k: nat)
    ensures Search(lag, usable, err, cells, data, k).Ok? ==> k <= Search(lag, usable, err, cells, data, k).value < MaxNLevels
    decreases MaxNLevels - k
  {
    if k < MaxNLevels && !Passes(cells, data, Tested(lag, k)) && usable {
      SearchFrom(lag, usable, err, cells, data, k + 1);
    }
  }

  /** When the grouping of level 0 passes exactly when the start bucket
      does, the as-written search never stops at level 1, and otherwise
      stops one level after the corrected one. */
  lemma SearchLag(usable: bool, err: Failure, cells: nat -> Item -> int, data: seq<Item>)
    requires usable ==> (Passes(cells, data, 0) <==> Passes(cells, data, -1))
    ensures Search(true, usable, err, cells, data, 0) != Ok(1)
    ensures Search(false, usable, err, cells, data, 0) == Ok(0) ==> Search(true, usable, err, cells, data, 0) == Ok(0)
    ensures Search(false, usable, err, cells, data, 0) != Ok(0) ==>
      Search(true, usable, err, cells, data, 0) == Later(Search(false, usable, err, cells, data, 0))
  {
    if usable && !Passes(cells, data, -1) {
      assert Search(false, usable, err, cells, data, 0) == Search(false, usable, err, cells, data, 1);
      assert Tested(true, 1) == 0;
      assert Search(true, usable, err, cells, data, 1) == Search(true, usable, err, cells, data, 2);
      LagFrom(usable, err, cells, data, 1);
      SearchFrom(false, usable, err, cells, data, 1);
    }
  }

  /** The as-written search never stops at level 1, and otherwise stops
      one level after the corrected one: the buckets it tests at level k
      were built at level k - 1. */
  lemma NlevelsLag(layer: Option<Rec>, data: seq<Item>)
    ensures NlevelsLagged(layer, data) != Ok(1)
    ensures Nlevels(layer, data) == Ok(0) ==> NlevelsLagged(layer, data) == Ok(0)
    ensures Nlevels(layer, data) != Ok(0) ==> NlevelsLagged(layer, data) == Later(Nlevels(layer, data))
  {
    if Usable(layer) {
      LevelZeroGrouping(layer, data);
    }
    SearchLag(Usable(layer), Unusable(layer), Cells(layer), data);
  }

  /** From level k on, the corrected search returns the first level whose
      buckets pass, and fails with TypeError exactly when none does. */
  lemma {:induction false} SearchIsFirst(usable: bool, err: Failure, cells: nat -> Item -> int, data: seq<Item>, k: nat)
    requires usable && 1 <= k
    ensures Search(false, usable, err, cells, data, k).Ok? ==>
      var j := Search(false, usable, err, cells, data, k).value;
      k <= j < MaxNLevels && Passes(cells, data, j)
      && forall l :: k <= l < j ==> !Passes(cells, data, l)
    ensures Search(false, usable, err, cells, data, k) == Fail(TypeError)
            <==> forall l :: k <= l < MaxNLevels ==> !Passes(cells, data, l)
    ensures Search(false, usable, err, cells, data, k) != Fail(err) || err == TypeError
    decreases MaxNLevels - k
  {
    if k < MaxNLevels && !Passes(cells, data, k) {
      SearchIsFirst(usable, err, cells, data, k + 1);
    }
  }

  /** The corrected search from level 0, when the grouping of level 0
      passes exactly when the start bucket does: it returns the smallest
      level whose buckets pass. It fails with `err` exactly when the box
      is unusable and the start bucket does not pass, and with TypeError
      exactly when the box is usable and no level passes. */
  lemma SearchFromZero(usable: bool, err: Failure, cells: nat -> Item -> int, data: seq<Item>)
    requires usable ==> (Passes(cells, data, 0) <==> Passes(cells, data, -1))
    requires err != TypeError
    ensures Search(false, usable, err, cells, data, 0).Ok? ==>
      var j := Search(false, usable, err, cells, data, 0).value;
      j < MaxNLevels && Passes(cells, data, if j == 0 then -1 else j)
      && forall l :: 0 <= l < j ==> !Passes(cells, data, l)
    ensures Search(false, usable, err, cells, data, 0) == Fail(TypeError)
            <==> usable && forall l :: 0 <= l < MaxNLevels ==> !Passes(cells, data, l)
    ensures Search(false, usable, err, cells, data, 0) == Fail(err) <==> !usable && !Passes(cells, data, -1)
  {
    if usable && !Passes(cells, data, -1) {
      SearchIsFirst(usable, err, cells, data, 1);
    }
  }

  /** The corrected `calculateNlevels` returns the smallest level whose
      buckets pass, and raises only when no level below MaxNLevels passes
      or the layer box cannot be used. */
  lemma NlevelsIsFirst(layer: Option<Rec>, data: seq<Item>)
    ensures Nlevels(layer, data).Ok? ==>
      var j := Nlevels(layer, data).value;
      j < MaxNLevels && Passes(Cells(layer), data, if j == 0 then -1 else j)
      && forall l :: 0 <= l < j ==> !Passes(Cells(layer), data, l)
    ensures Nlevels(layer, data) == Fail(TypeError)
            <==> Usable(layer) && forall l :: 0 <= l < MaxNLevels ==> !Passes(Cells(layer), data, l)
    ensures Nlevels(layer, data) == Fail(Unusable(layer)) <==> !Usable(layer) && !Passes(Cells(layer), data, -1)
  {
    if Usable(layer) {
      LevelZeroGrouping(layer, data);
    }
    SearchFromZero(Usable(layer), Unusable(layer), Cells(layer), data);
  }

  /** From pass k on, the as-written search answers one past the first
      level from k - 1 on whose grouping passes, and fails with TypeError
      exactly when none below MaxNLevels - 1 does. */
  lemma {:induction false} LaggedIsFirst(usable: bool, err: Failure, cells: nat -> Item -> int, data: seq<Item>, k: nat)
    requires usable && 1 <= k
    ensures Search(true, usable, err, cells, data, k).Ok? ==>
      var j := Search(true, usable, err, cells, data, k).value;
      k <= j < MaxNLevels && Passes(cells, data, j - 1)
      && forall l :: k - 1 <= l < j - 1 ==> !Passes(cells, data, l)
    ensures Search(true, usable, err, cells, data, k) == Fail(TypeError)
            <==> forall l :: k - 1 <= l < MaxNLevels - 1 ==> !Passes(cells, data, l)
    decreases MaxNLevels - k
  {
    if k < MaxNLevels {
      if Passes(cells, data, k - 1) {
        assert Search(true, usable, err, cells, data, k) == Ok(k);
      } else {
        assert Search(true, usable, err, cells, data, k) == Search(true, usable, err, cells, data, k + 1);
        LaggedIsFirst(usable, err, cells, data, k + 1);
      }
    }
  }

  /** `calculateNlevels` as written answers 0 exactly when all items fit
      one bucket, and otherwise one past the first level whose grouping
      by the as-written cells passes; it raises TypeError when none below
      MaxNLevels - 1 passes, and the error of an unusable box when the
      items do not fit one bucket. */
  lemma NlevelsAsWrittenIsFirst(layer: Option<Rec>, data: seq<Item>)
    ensures NlevelsAsWritten(layer, data) == Ok(0) <==> BucketOk(data)
    ensures NlevelsAsWritten(layer, data).Ok? && NlevelsAsWritten(layer, data).value > 0 ==>
      var j := NlevelsAsWritten(layer, data).value;
      j < MaxNLevels && Passes(CellsAsWritten(layer), data, j - 1)
      && forall l :: 0 <= l < j - 1 ==> !Passes(CellsAsWritten(layer), data, l)
    ensures NlevelsAsWritten(layer, data) == Fail(TypeError)
            <==> Usable(layer) && !BucketOk(data)
                 && forall l :: 0 <= l < MaxNLevels - 1 ==> !Passes(CellsAsWritten(layer), data, l)
    ensures NlevelsAsWritten(layer, data) == Fail(Unusable(layer)) <==> !Usable(layer) && !BucketOk(data)
  {
    if Usable(layer) && !BucketOk(data) {
      LaggedIsFirst(true, Unusable(layer), CellsAsWritten(layer), data, 1);
    }
  }

  /** The as-written cells read the north-up item boxes against the
      Y-negated layer box. At level 0, where the layer's own cells put
      every item in cell 1, an item below the layer's top edge and one on
      it fall in two cells, so two items too large for one bucket pass at
      level 0 and the search answers 1, which the lag alone never does.
      Layer 0..8 by -8..0, items 1..2 by 1..2 and 1..2 by 7..8. */
  lemma UnnegatedBoxesAnswerOne(layer: Option<Rec>, data: seq<Item>)
    requires layer == Some(Rec(Pt(0, -8), Pt(8, 0)))
    requires data == [Item(Rec(Pt(1, 1), Pt(2, 2)), 60000), Item(Rec(Pt(1, 7), Pt(2, 8)), 60000)]
    ensures NlevelsAsWritten(layer, data) == Ok(1)
    ensures NlevelsLagged(layer, data) != Ok(1)
  {
    var l := layer.value;
    BelowEdgeCell(l, data[0]);
    OnEdgeCell(l, data[1]);
    var f := CellsAsWritten(layer)(0);
    assert f(data[0]) == 2 && f(data[1]) == 6;
    forall c
      ensures BucketOk(Filter(f, data, c))
    {
      PairParts(f, data[0], data[1], c);
    }
    PairParts(f, data[0], data[1], 0);
    assert Search(true, true, Unusable(layer), CellsAsWritten(layer), data, 1) == Ok(1);
    NlevelsLag(layer, data);
  }

  /** The bucket of c of two items, and their summed size. */
  lemma PairParts(f: Item -> int, x: Item, y: Item, c: int)
    ensures Filter(f, [x, y], c) == (if f(x) == c then [x] else []) + (if f(y) == c then [y] else [])
    ensures SumSizes([x, y]) == x.size + y.size
  {
    var s := [x, y];
    assert s[..|s| - 1] == [x] && s[|s| - 1] == y;
    assert [x][..0] == [];
    assert Filter(f, [x], c) == Filter(f, [], c) + (if f(x) == c then [x] else []);
    assert SumSizes([x]) == SumSizes([]) + x.size;
  }

  lemma BelowEdgeCell(l: Rec, it: Item)
    requires l == Rec(Pt(0, -8), Pt(8, 0)) && it.box == Rec(Pt(1, 1), Pt(2, 2))
    ensures CellOfAsWritten(l, it, 0) == 2
  {
    assert Pow2(0) == 1 && Pow2(1) == 2 && TotCells(-1) == 0;
    var a := Relative(l, it.box);
    assert a == Rec(Pt(1, 9), Pt(2, 10));
    assert !WrapsIn(a, 8, 8, 0, 0);
    assert LevelChoice(a, 8, 8, 0) == (0, false);
    assert 9 * Pow2(1) + 0 * 8 == 1 * 16 + 2;
    DivAdd(1, 2, 16);
    assert ChosenAddress(a, 8, 8, 0) == Address(0, false, 0, 1);
  }

  lemma OnEdgeCell(l: Rec, it: Item)
    requires l == Rec(Pt(0, -8), Pt(8, 0)) && it.box == Rec(Pt(1, 7), Pt(2, 8))
    ensures CellOfAsWritten(l, it, 0) == 6
  {
    assert Pow2(0) == 1 && Pow2(1) == 2 && TotCells(-1) == 0;
    var b := Relative(l, it.box);
    assert b == Rec(Pt(1, 15), Pt(2, 16));
    assert WrapsIn(b, 8, 8, 0, 0) && !WrapsIn(b, 8, 8, 0, 1);
    assert LevelChoice(b, 8, 8, 0) == (0, true);
    assert 15 * Pow2(1) + 1 * 8 == 2 * 16 + 6;
    DivAdd(2, 6, 16);
    assert ChosenAddress(b, 8, 8, 0) == Address(0, true, 0, 2);
  }
}
