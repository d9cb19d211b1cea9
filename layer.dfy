/** The `Layer` object of magellan/Layer.py as far as it keeps cells:
    the cells it has modified and the cells it has opened, the list of
    cell numbers in use, the object count, the shelf its shelve cells
    share, and the estimator a layer without a bounding box feeds. The
    cell stores are the `CellState` values of module Cells; the layer
    file appears as the cell blocks stored under their cell numbers. */
module Layers {
  import opened Wrappers
  import Bits
  import opened PyStruct
  import opened Geometry
  import opened Quadtree
  import opened CellSearchFixed
  import opened CellCodec
  import opened CellElement
  import opened ElementBounds
  import opened CellRecords
  import opened Cells
  import opened LayerEstimator

  /** The modes `open` takes: 'r', 'w' and 'a'. */
  datatype Mode = Read | Write | Append

  predicate NoDups(s: seq<int>)
  {
    forall i, j :: 0 <= i < j < |s| ==> s[i] != s[j]
  }

  /** The name `Layer.__init__` gives the layer files: the map number is
      put in front unless the name starts with it, and the result may
      have at most 8 characters. */
  function LayerFilename(mapnumstr: string, filename: string): (r: Result<string>)
    ensures r.Ok? ==> |r.value| <= 8 && mapnumstr <= r.value
    ensures r.Ok? ==> r.value == filename || r.value == mapnumstr + filename
    ensures r.Fail? ==> r.failure == RuntimeError
  {
    var name := if mapnumstr <= filename then filename else mapnumstr + filename;
    if |name| > 8 then Fail(RuntimeError) else Ok(name)
  }

  /** A name already given keeps itself, and a name that starts with the
      map number is taken as it is. */
  lemma FilenameIdempotent(mapnumstr: string, filename: string)
    ensures LayerFilename(mapnumstr, filename).Ok? ==>
      LayerFilename(mapnumstr, LayerFilename(mapnumstr, filename).value) == LayerFilename(mapnumstr, filename)
    ensures mapnumstr <= filename && |filename| <= 8 ==> LayerFilename(mapnumstr, filename) == Ok(filename)
  {
  }

  /** The box `Cell.setbbox` gives a cell: its extents when the layer has
      a box. */
  function CellBox(dbbox: Option<Rec>, c: int): (r: Option<Rec>)
    ensures r.Some? <==> dbbox.Some?
    ensures dbbox.Some? && c == 1 ==> r == dbbox
  {
    if dbbox.None? then None
    else
      CellOneIsLayer(dbbox.value);
      Some(CellExtents(dbbox.value, c))
  }

  /** The cell `addCellElement` files an element in: the cell given or
      the deepest cell holding the element's Y-negated box when the layer
      has a box; cell 1 otherwise, which only a layer without levels
      accepts. Without a box the element's box still has to exist, as
      the estimator takes it. */
  function Target(dbbox: Option<Rec>, nlevels: int, e: Element, given: Option<int>): (r: Result<int>)
    requires dbbox.Some? ==> dbbox.value.Valid()
    ensures dbbox.None? ==> (r.Ok? <==> nlevels <= 0 && ElementBox(e).Ok?) && (r.Ok? ==> r.value == 1)
    ensures dbbox.None? && nlevels > 0 ==> r == Fail(ValueError)
    ensures dbbox.Some? && given.Some? ==> r == Ok(given.value)
    ensures dbbox.Some? && given.None? && r.Ok? ==> 1 <= r.value <= TotCells(nlevels)
    ensures dbbox.Some? && given.None? && ElementBox(e).Ok? ==>
      r == MaxCellnoFixed(dbbox.value, ElementBox(e).value.NegY(), nlevels)
    ensures dbbox.Some? && given.None? && ElementBox(e).Fail? ==> r == Fail(ElementBox(e).failure)
  {
    if dbbox.Some? then
      if given.Some? then Ok(given.value)
      else
        var box :- ElementBox(e);
        MaxCellnoFixed(dbbox.value, box.NegY(), nlevels)
    else if nlevels > 0 then Fail(ValueError)
    else
      var box :- ElementBox(e);
      Ok(1)
  }

  /** An element whose Y-negated box lies inside a layer box that halves
      evenly down to the deepest level goes to a cell that covers it. */
  lemma TargetCovers(dbbox: Rec, nlevels: nat, e: Element)
    requires dbbox.Valid() && dbbox.Width() > 0 && dbbox.Height() > 0
    requires dbbox.Width() % Bits.Pow2(nlevels + 1) == 0 && dbbox.Height() % Bits.Pow2(nlevels + 1) == 0
    requires ElementBox(e).Ok? && ElementBox(e).value.NegY().CoveredBy(dbbox)
    ensures Target(Some(dbbox), nlevels, e, None).Ok?
    ensures ElementBox(e).value.NegY().CoveredBy(CellExtents(dbbox, Target(Some(dbbox), nlevels, e, None).value))
  {
    MaxCellnoFixedCovers(dbbox, ElementBox(e).value.NegY(), nlevels);
  }

  /** What calling an element's `bboxrec` raises: the error of computing
      the box, or else TypeError, since the rectangle it yields cannot be
      called. */
  function CalledBoxFailure(e: Element): Failure
  {
    if ElementBox(e).Fail? then ElementBox(e).failure else TypeError
  }

  /** The element of an element whose box exists has a size estimate. */
  lemma BoxedHasSize(e: Element)
    requires ElementBox(e).Ok?
    ensures EstimateSize(e).Ok?
  {
  }

  /** A modified cell is the object the cache holds for it, and every
      cached cell keeps its invariant over the shelf. */
  ghost predicate CacheOk(modified: map<int, CellState>, cache: map<int, CellState>, shelf: map<Key, Entry>)
  {
    (forall c :: c in modified ==> c in cache && cache[c] == modified[c])
    && (forall c :: c in cache ==> StoreOk(cache[c], c, shelf))
  }

  /** Storing cell c, new or changed, with a shelf changed only at c's
      keys keeps the invariant and the elements of every other cached
      cell. A modified cell is the same object as the cached one, so it
      changes along. */
  lemma CacheSet(modified: map<int, CellState>, cache: map<int, CellState>, shelf: map<Key, Entry>,
                 c: int, cell: CellState, shelf2: map<Key, Entry>)
    requires CacheOk(modified, cache, shelf)
    requires StoreOk(cell, c, shelf2) && SameOutside(shelf, shelf2, c)
    ensures CacheOk(if c in modified then modified[c := cell] else modified, cache[c := cell], shelf2)
    ensures forall d :: d in cache && d != c ==> Listing(cache[d], d, shelf2) == Listing(cache[d], d, shelf)
  {
    forall d | d in cache && d != c
      ensures StoreOk(cache[d], d, shelf2) && Listing(cache[d], d, shelf2) == Listing(cache[d], d, shelf)
    {
      OtherCellKept(cache[d], d, shelf, shelf2, c);
    }
  }

  /** The elements of cells whose contents are `parts`, cell after cell,
      as `getCellElements` yields them: the first cell that cannot be
      read stops it with its failure. */
  function Flatten(parts: seq<Result<seq<Entry>>>): (r: Result<seq<Entry>>)
    ensures r.Ok? <==> forall j :: 0 <= j < |parts| ==> parts[j].Ok?
  {
    if |parts| == 0 then Ok([])
    else
      var a :- Flatten(parts[..|parts| - 1]);
      var b :- parts[|parts| - 1];
      Ok(a + b)
  }

  /** A failure among the first n cells is the failure of them all. */
  lemma {:induction false} FlattenStops(parts: seq<Result<seq<Entry>>>, n: nat)
    requires n <= |parts| && Flatten(parts[..n]).Fail?
    ensures Flatten(parts) == Flatten(parts[..n])
    decreases |parts| - n
  {
    if n < |parts| {
      var m := |parts| - 1;
      assert parts[..m][..n] == parts[..n];
      FlattenStops(parts[..m], n);
    } else {
      assert parts[..n] == parts;
    }
  }

  /** A cell outside the common shelf keeps its elements whatever the
      shelf holds. */
  lemma OwnStore(cell: CellState, c: int, shelf: map<Key, Entry>, shelf2: map<Key, Entry>)
    requires !cell.Common? && StoreOk(cell, c, shelf)
    ensures StoreOk(cell, c, shelf2) && Listing(cell, c, shelf2) == Listing(cell, c, shelf)
  {
  }

  /** What reading a stored cell with a box it was not written with
      does to its elements: a point written relative to the cell corner
      `org` and read relative to `org2` comes back moved by the
      difference of the corners (with y flipped, as stored), so it comes
      back where it was only when the corners agree. */
  lemma PointReadWithOtherCorner(org: Pt, org2: Pt, e: Element, big: bool)
    requires e.Point? && Encodable(RelBox(org, PointBox(e.coord)))
    requires 0 <= e.objtype < 0x100 && SlotValue(e.textslot) < 0x1_0000_0000 && CellCodec.Index(SlotValue(e.textslot)) < 0x1_0000
    ensures var back := DeserializePoint(org2, SerializePoint(org, e, big).value, big);
      back.Ok? && back.value.coord == Pt(e.coord.x + (org2.x - org.x), e.coord.y - (org2.y - org.y))
      && (back.value.coord == e.coord <==> org2 == org)
  {
    var d := SerializePoint(org, e, big).value;
    PointRoundTrip(org, e, big);
    var bb := DecodeBBox(d, big).value;
    var off := ReadU8(bb.1).value;
    var ot := ReadU8(off.1).value;
    var ts := DecodeTextslot(ot.1, big, Some(off.0), true).value;
    assert DeserializePoint(org, d, big) == Ok(Point(ToAbs(org, bb.0.c1), ot.0, ts.0));
    assert DeserializePoint(org2, d, big) == Ok(Point(ToAbs(org2, bb.0.c1), ot.0, ts.0));
  }

  /** What `read_index` and `read_header` take from the files of a layer
      opened for reading or appending: the cell numbers of the index, the
      cell blocks they locate, and the box, levels and object count of
      the header. */
  datatype LayerFile = LayerFile(index: seq<int>, blocks: map<int, seq<byte>>, dbbox: Rec, nlevels: int, nobjects: int)

  /** What a layer holds besides its cells: the settings the cell
      operations read but do not change. */
  datatype Settings = Settings(mode: Option<Mode>, dbbox: Option<Rec>, nlevels: int, stored: map<int, seq<byte>>)

  class Layer {
    const layertype: int
    const big: bool
    /** `map.inmemory`: new cells of a layer being written are kept in
        memory rather than in a shelf. */
    const inmemory: bool
    const estimator: LayerParamEstimator
    /** The element decoder of the layer's type and byte order, for the
        box a cell has. */
    const decode: Option<Rec> -> seq<byte> -> Result<Element>
    var mode: Option<Mode>
    /** The layer's discrete box, Y-negated; None while it has none. */
    var dbbox: Option<Rec>
    var nlevels: int
    var nobjects: int
    var cellnumbers: seq<int>
    var modifiedcells: map<int, CellState>
    /** `cellcache`, which never evicts in this model. */
    var cellcache: map<int, CellState>
    /** The cell blocks of the layer file, by cell number, after
        unpacking: what `cellfilepos` locates. */
    var stored: map<int, seq<byte>>
    /** `Layer.shelf`, shared by the CellCommonShelve cells. */
    var shelf: map<Key, Entry>

    /** A modified cell is the object the cache holds for it; every
        cached cell keeps its invariant; a cell number is listed once. */
    ghost predicate Valid()
      reads this
    {
      CacheOk(modifiedcells, cellcache, shelf)
      && NoDups(cellnumbers)
      && (dbbox.Some? ==> dbbox.value.Valid())
    }

    function Config(): Settings
      reads this
    {
      Settings(mode, dbbox, nlevels, stored)
    }

    constructor (layertype: int, big: bool, inmemory: bool, dbbox: Option<Rec>, nlevels: int, ne: Pt, sw: Pt)
      requires dbbox.Some? ==> dbbox.value.Valid()
      ensures this.layertype == layertype && this.big == big && this.inmemory == inmemory
      ensures Config() == Settings(None, dbbox, nlevels, map[])
      ensures nobjects == 0 && cellnumbers == [] && modifiedcells == map[] && cellcache == map[] && shelf == map[]
      ensures estimator.data == [] && EstimatorOk()
      ensures forall box, d :: decode(box)(d) == DecodeElement(layertype, box, d, big)
      ensures Valid()
    {
      this.layertype, this.big, this.inmemory := layertype, big, inmemory;
      estimator := new LayerParamEstimator(ne, sw);
      decode := box => Decoder(layertype, box, big);
      mode, this.dbbox, this.nlevels, nobjects := None, dbbox, nlevels, 0;
      cellnumbers, modifiedcells, cellcache, stored, shelf := [], map[], map[], map[], map[];
    }

    /** The store `getCell` makes for a cell it has not met: in memory,
        except while writing a layer of a map not kept in memory, when a
        layer without levels gives each cell its own shelve and a layer
        with levels uses the common shelf. */
    function NewCell(): (r: CellState)
      reads this
      ensures Count(r) == 0
      ensures mode != Some(Write) || inmemory ==> r == Mem([])
    {
      if mode == Some(Write) && !inmemory then
        if nlevels == 0 then Shelved(map[], [], 0) else Common([], 0)
      else Mem([])
    }

    /** What the layer file stores for cell c, read with the cell's box:
        nothing when the file has no block for it. */
    function Stored(c: int): Result<seq<Entry>>
      reads this
    {
      if c in stored then ReadCell(decode(CellBox(dbbox, c)), c, stored[c], big) else Ok([])
    }

    /** A new cell for number c: empty, or holding what the layer file
        stores for it. */
    function Built(c: int): (r: Result<(CellState, map<Key, Entry>)>)
      reads this
      ensures r.Ok? ==> StoreOk(r.value.0, c, r.value.1) && SameOutside(shelf, r.value.1, c)
      ensures r.Ok? <==> Stored(c).Ok?
      ensures r.Ok? ==> Listing(r.value.0, c, r.value.1) == Stored(c).value
      ensures r.Fail? ==> r.failure == Stored(c).failure
    {
      var empty := NewCell();
      if c !in stored then Ok((empty, shelf))
      else
        var es :- ReadCell(decode(CellBox(dbbox, c)), c, stored[c], big);
        DeSerializedLists(empty, c, shelf, es);
        assert SameOutside(shelf, DeSerialized(empty, c, shelf, es).1, c) by {
          if !empty.Mem? { AddAllInside(empty, c, shelf, es); }
        }
        Ok(DeSerialized(empty, c, shelf, es))
    }

    /** What cell c holds: the elements of its store when it is cached,
        else what the layer file stores for it. */
    ghost function Contents(c: int): Result<seq<Entry>>
      requires Valid()
      reads this
    {
      if c in cellcache then Ok(Listing(cellcache[c], c, shelf)) else Stored(c)
    }

    /** `clearCells` as written: the cells, the file positions and the
        cell numbers are dropped; the object count stays. */
    method ClearCellsAsWritten()
      modifies this
      ensures modifiedcells == map[] && cellcache == map[] && stored == map[] && cellnumbers == []
      ensures mode == old(mode) && dbbox == old(dbbox) && nlevels == old(nlevels)
      ensures nobjects == old(nobjects) && shelf == old(shelf)
      ensures old(Valid()) ==> Valid() && forall c :: Contents(c) == Ok([])
    {
      modifiedcells, cellcache, stored, cellnumbers := map[], map[], map[], [];
    }

    /** `clearCells` with the count of objects dropped along with the
        cells, so that re-adding them counts each once. */
    method ClearCells()
      modifies this
      ensures modifiedcells == map[] && cellcache == map[] && stored == map[] && cellnumbers == []
      ensures mode == old(mode) && dbbox == old(dbbox) && nlevels == old(nlevels)
      ensures nobjects == 0 && shelf == old(shelf)
      ensures old(Valid()) ==> Valid() && forall c :: Contents(c) == Ok([])
    {
      ClearCellsAsWritten();
      nobjects := 0;
    }

    /** `getCell`: a modified cell, else a cached one, else a new one
        (filled from the layer file when it stores the cell), which is
        then cached. What any cell holds does not change. */
    method GetCell(c: int) returns (r: Result<CellState>)
      requires Valid()
      modifies this
      ensures Valid() && Config() == old(Config())
      ensures nobjects == old(nobjects) && cellnumbers == old(cellnumbers) && modifiedcells == old(modifiedcells)
      ensures forall c' :: Contents(c') == old(Contents(c'))
      ensures r.Fail? <==> old(Contents(c)).Fail?
      ensures r.Fail? ==> r.failure == old(Contents(c)).failure && cellcache == old(cellcache) && shelf == old(shelf)
      ensures r.Ok? ==> cellcache == old(cellcache)[c := r.value]
      ensures c in old(cellcache) ==> r == Ok(old(cellcache[c])) && shelf == old(shelf)
    {
      if c in modifiedcells {
        return Ok(modifiedcells[c]);
      }
      if c in cellcache {
        return Ok(cellcache[c]);
      }
      r := LoadCell(c);
    }

    /** The part of `getCell` that makes a cell it has not met and caches
        it. */
    method LoadCell(c: int) returns (r: Result<CellState>)
      requires Valid() && c !in cellcache
      modifies this
      ensures Valid() && Config() == old(Config())
      ensures nobjects == old(nobjects) && cellnumbers == old(cellnumbers) && modifiedcells == old(modifiedcells)
      ensures forall c' :: Contents(c') == old(Contents(c'))
      ensures r.Fail? <==> old(Contents(c)).Fail?
      ensures r.Fail? ==> r.failure == old(Contents(c)).failure && cellcache == old(cellcache) && shelf == old(shelf)
      ensures r.Ok? ==> cellcache == old(cellcache)[c := r.value]
    {
      var b := BuildCell(c);
      if b.Fail? {
        return Fail(b.failure);
      }
      CacheSet(modifiedcells, cellcache, shelf, c, b.value.0, b.value.1);
      cellcache, shelf := cellcache[c := b.value.0], b.value.1;
      r := Ok(b.value.0);
    }

    /** The new cell `getCell` makes, deserialized from the layer file
        when the file stores it. */
    method BuildCell(c: int) returns (r: Result<(CellState, map<Key, Entry>)>)
      ensures r == Built(c)
    {
      var cell := NewCell();
      if c !in stored {
        return Ok((cell, shelf));
      }
      var es := DeserializeCell(decode(CellBox(dbbox, c)), c, stored[c], big);
      if es.Fail? {
        return Fail(es.failure);
      }
      r := Ok(DeSerialized(cell, c, shelf, es.value));
    }

    /** `markCellModified`: cell c, fetched, joins the modified cells. */
    method MarkCellModified(c: int) returns (r: Result<()>)
      requires Valid()
      modifies this
      ensures Valid() && Config() == old(Config())
      ensures nobjects == old(nobjects) && cellnumbers == old(cellnumbers)
      ensures forall c' :: Contents(c') == old(Contents(c'))
      ensures r.Fail? <==> old(Contents(c)).Fail?
      ensures r.Fail? ==> r.failure == old(Contents(c)).failure && modifiedcells == old(modifiedcells)
      ensures r.Ok? ==> c in cellcache && modifiedcells == old(modifiedcells)[c := cellcache[c]]
    {
      var got := GetCell(c);
      if got.Fail? {
        return Fail(got.failure);
      }
      modifiedcells := modifiedcells[c := got.value];
      r := Ok(());
    }

    /** `getCellElement((c, j))`: index j of cell c, counted from the end
        when negative. */
    method GetCellElement(c: int, j: int) returns (r: Result<Entry>)
      requires Valid()
      modifies this
      ensures Valid() && Config() == old(Config())
      ensures nobjects == old(nobjects) && cellnumbers == old(cellnumbers) && modifiedcells == old(modifiedcells)
      ensures forall c' :: Contents(c') == old(Contents(c'))
      ensures r == (var l :- old(Contents(c)); var k :- PyIndex(j, |l|); Ok(l[k]))
    {
      var got := GetCell(c);
      if got.Fail? {
        return Fail(got.failure);
      }
      if PyIndex(j, Count(got.value)).Ok? {
        GetIsListing(got.value, c, shelf, j);
      }
      r := Get(got.value, shelf, j);
    }

    /** `updateCellElement((c, j), e)`: index j of cell c is replaced by
        e. The cell is not marked modified; a modified cell changes along
        with the cached one. */
    method UpdateCellElement(c: int, j: int, e: Entry) returns (r: Result<()>)
      requires Valid()
      modifies this
      ensures Valid() && Config() == old(Config())
      ensures nobjects == old(nobjects) && cellnumbers == old(cellnumbers)
      ensures r.Fail? <==> old(Contents(c)).Fail? || PyIndex(j, |old(Contents(c)).value|).Fail?
      ensures old(Contents(c)).Fail? ==> r == Fail(old(Contents(c)).failure)
      ensures old(Contents(c)).Ok? && r.Fail? ==> r.failure == IndexError
      ensures r.Ok? ==> Contents(c) == Ok(old(Contents(c)).value[PyIndex(j, |old(Contents(c)).value|).value := e])
      ensures forall c' :: c' != c || r.Fail? ==> Contents(c') == old(Contents(c'))
      ensures c in old(modifiedcells) && r.Ok? ==> c in cellcache && modifiedcells == old(modifiedcells)[c := cellcache[c]]
      ensures c !in old(modifiedcells) || r.Fail? ==> modifiedcells == old(modifiedcells)
    {
      var got := GetCell(c);
      if got.Fail? {
        return Fail(got.failure);
      }
      r := ReplaceIn(c, j, e);
    }

    /** `cell.updateElement(j, e)` on cached cell c. */
    method ReplaceIn(c: int, j: int, e: Entry) returns (r: Result<()>)
      requires Valid() && c in cellcache
      modifies this
      ensures Valid() && Config() == old(Config())
      ensures nobjects == old(nobjects) && cellnumbers == old(cellnumbers)
      ensures r.Fail? <==> PyIndex(j, |old(Contents(c)).value|).Fail?
      ensures r.Fail? ==> r.failure == IndexError
      ensures r.Ok? ==> Contents(c) == Ok(old(Contents(c)).value[PyIndex(j, |old(Contents(c)).value|).value := e])
      ensures forall c' :: c' != c || r.Fail? ==> Contents(c') == old(Contents(c'))
      ensures c in old(modifiedcells) && r.Ok? ==> c in cellcache && modifiedcells == old(modifiedcells)[c := cellcache[c]]
      ensures c !in old(modifiedcells) || r.Fail? ==> modifiedcells == old(modifiedcells)
    {
      var cell := cellcache[c];
      var u := Update(cell, shelf, j, e);
      if u.Fail? {
        return Fail(u.failure);
      }
      UpdateReplaces(cell, c, shelf, j, e);
      ShelfChangesInside(cell, c, shelf, e, j);
      CacheSet(modifiedcells, cellcache, shelf, c, u.value.0, u.value.1);
      cellcache, shelf := cellcache[c := u.value.0], u.value.1;
      if c in modifiedcells {
        modifiedcells := modifiedcells[c := u.value.0];
      }
      r := Ok(());
    }

    /** What `addCellElement` answers for entry e: the cell the element
        went to and its index there, or the exception raised. */
    ghost function AddOutcome(e: Entry, given: Option<int>): Result<(int, nat)>
      requires Valid()
      reads this
    {
      if mode != Some(Write) && mode != Some(Append) then Fail(ValueError)
      else
        var c :- Target(dbbox, nlevels, e.elem, given);
        var l :- Contents(c);
        if |l| >= 0x1_0000 then Fail(AssertionError) else Ok((c, |l|))
    }

    /** The cell `addCellElement` appends entry e to, when it gets that
        far: an index too large to return is raised only afterwards. */
    ghost function Landing(e: Entry, given: Option<int>): Option<int>
      requires Valid()
      reads this
    {
      if mode != Some(Write) && mode != Some(Append) then None
      else
        match Target(dbbox, nlevels, e.elem, given)
        case Fail(_) => None
        case Ok(c) => if Contents(c).Ok? then Some(c) else None
    }

    /** Whether `addCellElement` feeds the estimator: a layer opened for
        writing that has no box and takes the element in cell 1. */
    ghost predicate Feeds(e: Entry)
      reads this
    {
      (mode == Some(Write) || mode == Some(Append)) && dbbox.None? && nlevels <= 0 && ElementBox(e.elem).Ok?
    }

    /** The part of `addCellElement` from `getCell` on: entry x, already
        stamped with cell number c, is appended to cell c. */
    method FileElement(c: int, x: Entry) returns (r: Result<nat>)
      requires Valid() && x.cellnum == Some(c)
      modifies this
      ensures Valid() && Config() == old(Config())
      ensures nobjects == old(nobjects) && cellnumbers == old(cellnumbers)
      ensures r.Fail? <==> old(Contents(c)).Fail?
      ensures r.Fail? ==> r.failure == old(Contents(c)).failure && modifiedcells == old(modifiedcells)
      ensures r.Ok? ==> r.value == |old(Contents(c)).value| && Contents(c) == Ok(old(Contents(c)).value + [x])
      ensures forall c' :: c' != c || r.Fail? ==> Contents(c') == old(Contents(c'))
      ensures r.Ok? ==> c in cellcache
      ensures r.Ok? ==> modifiedcells == if c in old(modifiedcells) then old(modifiedcells)[c := cellcache[c]] else old(modifiedcells)
    {
      var got := GetCell(c);
      if got.Fail? {
        return Fail(got.failure);
      }
      var n := AppendTo(c, x);
      r := Ok(n);
    }

    /** `cell.addCellElement` on cached cell c. */
    method AppendTo(c: int, x: Entry) returns (n: nat)
      requires Valid() && x.cellnum == Some(c) && c in cellcache
      modifies this
      ensures Valid() && Config() == old(Config())
      ensures nobjects == old(nobjects) && cellnumbers == old(cellnumbers)
      ensures n == |old(Contents(c)).value| && Contents(c) == Ok(old(Contents(c)).value + [x])
      ensures forall c' :: c' != c ==> Contents(c') == old(Contents(c'))
      ensures c in cellcache
        && modifiedcells == if c in old(modifiedcells) then old(modifiedcells)[c := cellcache[c]] else old(modifiedcells)
    {
      var cell := cellcache[c];
      var a := Add(cell, c, shelf, x);
      AddAppends(cell, c, shelf, x);
      ShelfChangesInside(cell, c, shelf, x, 0);
      CacheSet(modifiedcells, cellcache, shelf, c, a.cell, a.shelf);
      cellcache, shelf := cellcache[c := a.cell], a.shelf;
      if c in modifiedcells {
        modifiedcells := modifiedcells[c := a.cell];
      }
      n := a.index;
    }

    /** The part of `addCellElement` before `getCell`: the cell the
        element goes to, and the estimator fed when the layer has no box
        yet. */
    method Route(e: Entry, given: Option<int>) returns (t: Result<int>)
      requires Valid() && (mode == Some(Write) || mode == Some(Append))
      modifies estimator
      ensures t == Target(dbbox, nlevels, e.elem, given)
      ensures estimator.data == old(estimator.data)
        + if Feeds(e) then [Item(ElementBox(e.elem).value, EstimateSize(e.elem).value)] else []
      ensures old(EstimatorOk()) ==> EstimatorOk()
    {
      t := Target(dbbox, nlevels, e.elem, given);
      if t.Ok? && dbbox.None? {
        BoxedHasSize(e.elem);
        estimator.AddCellElement(ElementBox(e.elem).value, EstimateSize(e.elem).value);
      }
    }

    /** The end of `addCellElement`: cell c is marked modified, listed
        when new, and the object count goes up. */
    method Register(c: int)
      requires Valid() && c in cellcache
      modifies this
      ensures Valid() && Config() == old(Config()) && cellcache == old(cellcache) && shelf == old(shelf)
      ensures modifiedcells == old(modifiedcells)[c := cellcache[c]] && nobjects == old(nobjects) + 1
      ensures cellnumbers == old(cellnumbers) + if c in old(cellnumbers) then [] else [c]
      ensures forall c' :: Contents(c') == old(Contents(c'))
    {
      modifiedcells, nobjects := modifiedcells[c := cellcache[c]], nobjects + 1;
      if c !in cellnumbers {
        cellnumbers := cellnumbers + [c];
      }
    }

    /** `addCellElement`: the element is stamped with its cell number and
        appended to its cell, which is then marked modified and listed;
        the object count goes up by one. No other cell changes, and an
        element whose index does not fit 16 bits stays filed although
        the call raises. */
    method AddCellElement(e: Entry, given: Option<int>) returns (r: Result<(int, nat)>)
      requires Valid()
      modifies this, estimator
      ensures Valid() && Config() == old(Config())
      ensures r == old(AddOutcome(e, given))
      ensures old(Landing(e, given)).Some? ==>
        var c := old(Landing(e, given)).value; Contents(c) == Ok(old(Contents(c)).value + [Stamped(e, c)])
      ensures forall c' :: Some(c') != old(Landing(e, given)) ==> Contents(c') == old(Contents(c'))
      ensures r.Ok? ==> r.value.0 in modifiedcells && nobjects == old(nobjects) + 1
      ensures r.Ok? ==> cellnumbers == old(cellnumbers) + (if r.value.0 in old(cellnumbers) then [] else [r.value.0])
      ensures r.Fail? ==> nobjects == old(nobjects) && cellnumbers == old(cellnumbers)
      ensures estimator.data == old(estimator.data)
        + if old(Feeds(e)) then [Item(ElementBox(e.elem).value, EstimateSize(e.elem).value)] else []
      ensures old(EstimatorOk()) ==> EstimatorOk()
      ensures r.Ok? ==> old(Landing(e, given)) == Some(r.value.0) && ReadsAt(r.value, Stamped(e, r.value.0))
      ensures forall c :: old(Contents(c)).Ok? ==> Contents(c).Ok? && old(Contents(c)).value <= Contents(c).value
    {
      if mode != Some(Write) && mode != Some(Append) {
        return Fail(ValueError);
      }
      var t := Route(e, given);
      if t.Fail? {
        return Fail(t.failure);
      }
      r := FileCounted(t.value, Stamped(e, t.value));
    }

    /** The part of `addCellElement` from `getCell` on, with the index
        check and the counting that follow the append: entry x, stamped
        with cell number c, goes to the end of cell c. */
    method FileCounted(c: int, x: Entry) returns (r: Result<(int, nat)>)
      requires Valid() && x.cellnum == Some(c)
      modifies this
      ensures Valid() && Config() == old(Config())
      ensures r == (var l := old(Contents(c));
                    if l.Fail? then Fail(l.failure) else if |l.value| >= 0x1_0000 then Fail(AssertionError) else Ok((c, |l.value|)))
      ensures old(Contents(c)).Ok? ==> Contents(c) == Ok(old(Contents(c)).value + [x])
      ensures forall c' :: c' != c || old(Contents(c)).Fail? ==> Contents(c') == old(Contents(c'))
      ensures r.Ok? ==> c in modifiedcells && nobjects == old(nobjects) + 1
      ensures r.Ok? ==> cellnumbers == old(cellnumbers) + (if c in old(cellnumbers) then [] else [c])
      ensures r.Fail? ==> nobjects == old(nobjects) && cellnumbers == old(cellnumbers)
      ensures r.Ok? ==> ReadsAt(r.value, x)
    {
      var n := FileElement(c, x);
      if n.Fail? {
        return Fail(n.failure);
      }
      if n.value >= 0x1_0000 {
        return Fail(AssertionError);
      }
      Register(c);
      r := Ok((c, n.value));
    }

    /** Whether the layer is open for writing or appending. */
    predicate Writable()
      reads this
    {
      mode == Some(Write) || mode == Some(Append)
    }

    /** What `addCellElement` as written answers for entry e. With a
        layer box and no cell number it calls the element's `bboxrec`,
        a property whose value, a rectangle, cannot be called: TypeError,
        once computing that value has not raised first.
        Without a box a layer with levels raises ValueError, and one
        without levels hands the element to the estimator, which reads
        its `dbboxrec`, an attribute no element has: AttributeError.
        Only a cell number given to a layer with a box gets through. */
    ghost function AddOutcomeAsWritten(e: Entry, given: Option<int>): Result<(int, nat)>
      requires Valid()
      reads this
    {
      if !Writable() then Fail(ValueError)
      else if dbbox.None? then Fail(if nlevels > 0 then ValueError else AttributeError)
      else if given.None? then Fail(CalledBoxFailure(e.elem))
      else AddOutcome(e, given)
    }

    /** `addCellElement` as written: every call without a cell number,
        and every call on a layer without a box, raises before anything
        changes; a cell number given to a layer with a box files the
        element as `AddCellElement` does. The estimator is never fed. */
    method AddCellElementAsWritten(e: Entry, given: Option<int>) returns (r: Result<(int, nat)>)
      requires Valid()
      modifies this, estimator
      ensures Valid() && Config() == old(Config())
      ensures r == old(AddOutcomeAsWritten(e, given))
      ensures estimator.data == old(estimator.data)
      ensures !(old(Writable()) && old(dbbox).Some? && given.Some?) ==> unchanged(this) && unchanged(estimator)
      ensures old(Writable()) && old(dbbox).Some? && given.Some? ==>
        (old(Landing(e, given)).Some? ==>
          var c := old(Landing(e, given)).value; Contents(c) == Ok(old(Contents(c)).value + [Stamped(e, c)]))
        && (forall c' :: Some(c') != old(Landing(e, given)) ==> Contents(c') == old(Contents(c')))
        && (r.Ok? ==> ReadsAt(r.value, Stamped(e, r.value.0)) && nobjects == old(nobjects) + 1)
        && (r.Fail? ==> nobjects == old(nobjects) && cellnumbers == old(cellnumbers))
      ensures old(EstimatorOk()) ==> EstimatorOk()
    {
      if !Writable() {
        return Fail(ValueError);
      }
      if dbbox.None? {
        if nlevels > 0 {
          return Fail(ValueError);
        }
        return Fail(AttributeError);
      }
      if given.None? {
        return Fail(CalledBoxFailure(e.elem));
      }
      r := AddCellElement(e, given);
    }

    /** Adding an element to a writable layer with a box and cell number
        None is refused as written, where the corrected `AddCellElement`
        files it in the cell its box gives it. */
    lemma AsWrittenRefusesBoxed(e: Entry)
      requires Valid() && Writable() && dbbox.Some?
      requires AddOutcome(e, None).Ok?
      ensures AddOutcomeAsWritten(e, None) == Fail(TypeError)
      ensures AddOutcome(e, None).value.0 == Target(dbbox, nlevels, e.elem, None).value
    {
    }
  

    /** The estimator's corners match what it was fed, and every box it
        was fed is valid. */
    ghost predicate EstimatorOk()
      reads estimator
    {
      estimator.Valid() && forall i :: 0 <= i < |estimator.data| ==> estimator.data[i].box.Valid()
    }

    /** Index i of cell c reads x: what a reference `(c, i)` that
        `addCellElement` returned addresses. */
    ghost predicate ReadsAt(ref: (int, nat), x: Entry)
      requires Valid()
      reads this
    {
      var l := Contents(ref.0);
      l.Ok? && ref.1 < |l.value| && l.value[ref.1] == x
    }

    /** What cell c holds when the cells not yet opened are read with the
        cell boxes of layer box `box`. */
    ghost function ContentsUnder(box: Option<Rec>, c: int): Result<seq<Entry>>
      requires Valid()
      reads this
    {
      if c in cellcache then Ok(Listing(cellcache[c], c, shelf))
      else if c in stored then ReadCell(decode(CellBox(box, c)), c, stored[c], big)
      else Ok([])
    }

    /** What the cells cs hold, read with layer box `box`. */
    ghost function ContentsOf(box: Option<Rec>, cs: seq<int>): (r: seq<Result<seq<Entry>>>)
      requires Valid()
      reads this
      ensures |r| == |cs| && forall j :: 0 <= j < |cs| ==> r[j] == ContentsUnder(box, cs[j])
    {
      if |cs| == 0 then [] else [ContentsUnder(box, cs[0])] + ContentsOf(box, cs[1..])
    }

    /** `open(mode)` on a layer no cell has been read from yet: reading
        or appending takes the cell numbers and cell blocks of the index
        and the box, levels and object count of the header; writing a map
        not kept in memory starts an empty shelf. */
    method Open(m: Mode, file: LayerFile)
      requires Valid() && cellcache == map[] && modifiedcells == map[]
      requires m != Write ==> NoDups(file.index) && file.dbbox.Valid()
      modifies this
      ensures Valid() && mode == Some(m) && cellcache == map[] && modifiedcells == map[]
      ensures m == Write ==> dbbox == old(dbbox) && nlevels == old(nlevels) && nobjects == old(nobjects)
                             && cellnumbers == old(cellnumbers) && stored == old(stored)
                             && shelf == (if inmemory then old(shelf) else map[])
      ensures m != Write ==> dbbox == Some(file.dbbox) && nlevels == file.nlevels && nobjects == file.nobjects
                             && cellnumbers == file.index && stored == file.blocks && shelf == old(shelf)
    {
      mode := Some(m);
      if m == Write {
        if !inmemory {
          shelf := map[];
        }
      } else {
        cellnumbers, stored := file.index, file.blocks;
        dbbox, nlevels, nobjects := Some(file.dbbox), file.nlevels, file.nobjects;
      }
    }

    /** `[e for e in getCellElements()]`: the elements of the listed
        cells, cell after cell, or the failure of the first cell that
        cannot be read. What any cell holds does not change. */
    method GatherElements() returns (r: Result<seq<Entry>>)
      requires Valid()
      modifies this
      ensures Valid() && Config() == old(Config())
      ensures nobjects == old(nobjects) && cellnumbers == old(cellnumbers) && modifiedcells == old(modifiedcells)
      ensures forall c :: Contents(c) == old(Contents(c))
      ensures r == Flatten(old(ContentsOf(dbbox, cellnumbers)))
    {
      ghost var parts := ContentsOf(dbbox, cellnumbers);
      var all: seq<Entry> := [];
      var i := 0;
      while i < |cellnumbers|
        invariant 0 <= i <= |cellnumbers|
        invariant Valid() && Config() == old(Config())
        invariant nobjects == old(nobjects) && cellnumbers == old(cellnumbers) && modifiedcells == old(modifiedcells)
        invariant forall c :: Contents(c) == old(Contents(c))
        invariant Flatten(parts[..i]) == Ok(all)
      {
        var es := ElementsOf(cellnumbers[i]);
        assert parts[..i + 1][..i] == parts[..i];
        if es.Fail? {
          FlattenStops(parts, i + 1);
          return Fail(es.failure);
        }
        all := all + es.value;
        i := i + 1;
      }
      assert parts[..i] == parts;
      r := Ok(all);
    }

    /** `getCell(c).getCellElements()`: what cell c holds, fetched. */
    method ElementsOf(c: int) returns (r: Result<seq<Entry>>)
      requires Valid()
      modifies this
      ensures Valid() && Config() == old(Config())
      ensures nobjects == old(nobjects) && cellnumbers == old(cellnumbers) && modifiedcells == old(modifiedcells)
      ensures forall c' :: Contents(c') == old(Contents(c'))
      ensures r == old(Contents(c)) && r == old(ContentsUnder(dbbox, c))
    {
      var got := GetCell(c);
      if got.Fail? {
        return Fail(got.failure);
      }
      r := Ok(Listing(got.value, c, shelf));
    }

    /** The loop of `set_dbboxrec` in append mode that adds the gathered
        elements again: each lands in the cell the layer box gives it and
        reads back at the reference returned. */
    method ReAddAll(all: seq<Entry>) returns (r: Result<seq<(int, nat)>>)
      requires Valid()
      modifies this, estimator
      ensures Valid() && Config() == old(Config())
      ensures r.Ok? ==> |r.value| == |all| && nobjects == old(nobjects) + |all|
      ensures r.Ok? ==> forall k :: 0 <= k < |all| ==> ReadsAt(r.value[k], Stamped(all[k], r.value[k].0))
    {
      var refs: seq<(int, nat)> := [];
      var k := 0;
      while k < |all|
        invariant 0 <= k <= |all| && |refs| == k
        invariant Valid() && Config() == old(Config())
        invariant nobjects == old(nobjects) + k
        invariant forall j :: 0 <= j < k ==> ReadsAt(refs[j], Stamped(all[j], refs[j].0))
      {
        var ref := AddCellElement(all[k], None);
        if ref.Fail? {
          return Fail(ref.failure);
        }
        refs := refs + [ref.value];
        k := k + 1;
      }
      r := Ok(refs);
    }

    /** The `dbboxrec` setter, with the elements of an appended layer
        gathered while its cells are still read with the old box, and the
        object count restarted before they are added again. Raises in
        read mode. Returns where the re-added elements went. */
    method SetDBBoxRec(drec: Rec) returns (r: Result<seq<(int, nat)>>)
      requires Valid() && drec.Valid()
      modifies this, estimator
      ensures Valid() && mode == old(mode) && nlevels == old(nlevels)
      ensures old(mode) == Some(Read) ==> r == Fail(ValueError) && unchanged(this)
      ensures old(mode) != Some(Read) ==> dbbox == Some(drec.NegY())
      ensures old(mode) != Some(Read) && old(mode) != Some(Append) ==>
        r == Ok([]) && cellcache == old(cellcache) && modifiedcells == old(modifiedcells) && shelf == old(shelf)
        && stored == old(stored) && cellnumbers == old(cellnumbers) && nobjects == old(nobjects)
      ensures old(mode) == Some(Append) ==>
        var all := Flatten(old(ContentsOf(dbbox, cellnumbers)));
        (all.Fail? ==> r == Fail(all.failure))
        && (r.Ok? ==> all.Ok? && |r.value| == |all.value| && nobjects == |all.value|
                      && forall k :: 0 <= k < |r.value| ==> ReadsAt(r.value[k], Stamped(all.value[k], r.value[k].0)))
    {
      if mode == Some(Read) {
        return Fail(ValueError);
      }
      var gathered: Result<seq<Entry>> := Ok([]);
      if mode == Some(Append) {
        gathered := GatherElements();
      }
      dbbox := Some(drec.NegY());
      if mode != Some(Append) {
        return Ok([]);
      }
      if gathered.Fail? {
        return Fail(gathered.failure);
      }
      ClearCells();
      r := ReAddAll(gathered.value);
    }

    /** The `dbboxrec` setter in the order written, with the elements
        added again through the corrected `AddCellElement`: in append
        mode the elements are gathered after the box has changed, so
        cells not yet opened are read with the new cell boxes, and the
        object count is kept while they are added again. */
    method SetDBBoxRecNewBoxFirst(drec: Rec) returns (r: Result<seq<(int, nat)>>)
      requires Valid() && drec.Valid()
      modifies this, estimator
      ensures Valid() && mode == old(mode) && nlevels == old(nlevels)
      ensures old(mode) == Some(Read) ==> r == Fail(ValueError) && unchanged(this)
      ensures old(mode) != Some(Read) ==> dbbox == Some(drec.NegY())
      ensures old(mode) != Some(Read) && old(mode) != Some(Append) ==>
        r == Ok([]) && cellcache == old(cellcache) && modifiedcells == old(modifiedcells) && shelf == old(shelf)
        && stored == old(stored) && cellnumbers == old(cellnumbers) && nobjects == old(nobjects)
      ensures old(mode) == Some(Append) ==>
        var all := Flatten(old(ContentsOf(Some(drec.NegY()), cellnumbers)));
        (all.Fail? ==> r == Fail(all.failure))
        && (r.Ok? ==> all.Ok? && |r.value| == |all.value| && nobjects == old(nobjects) + |all.value|
                      && forall k :: 0 <= k < |r.value| ==> ReadsAt(r.value[k], Stamped(all.value[k], r.value[k].0)))
    {
      if mode == Some(Read) {
        return Fail(ValueError);
      }
      ghost var parts := ContentsOf(Some(drec.NegY()), cellnumbers);
      dbbox := Some(drec.NegY());
      if mode != Some(Append) {
        return Ok([]);
      }
      assert ContentsOf(dbbox, cellnumbers) == parts;
      var gathered := GatherElements();
      if gathered.Fail? {
        return Fail(gathered.failure);
      }
      ClearCellsAsWritten();
      r := ReAddAll(gathered.value);
    }
  

    /** The loop of `set_dbboxrec` as written, which adds each gathered
        element without a cell number: its first pass raises, so it
        stops there having changed nothing, and only an empty list gets
        through. */
    method ReAddAllAsWritten(all: seq<Entry>) returns (r: Result<seq<(int, nat)>>)
      requires Valid()
      modifies this, estimator
      ensures |all| == 0 ==> r == Ok([])
      ensures |all| > 0 ==> old(AddOutcomeAsWritten(all[0], None)).Fail? && r == Fail(old(AddOutcomeAsWritten(all[0], None)).failure)
      ensures unchanged(this) && unchanged(estimator)
    {
      if |all| == 0 {
        return Ok([]);
      }
      var ref := AddCellElementAsWritten(all[0], None);
      r := Fail(ref.failure);
    }

    /** The `dbboxrec` setter as written. In append mode the elements are
        gathered with the new box, the cells cleared with the object count
        kept, and the first element added again raises, TypeError unless
        computing its box raises first: the layer is left without cells. */
    method SetDBBoxRecAsWritten(drec: Rec) returns (r: Result<seq<(int, nat)>>)
      requires Valid() && drec.Valid()
      modifies this, estimator
      ensures Valid() && mode == old(mode) && nlevels == old(nlevels)
      ensures old(mode) == Some(Read) ==> r == Fail(ValueError) && unchanged(this)
      ensures old(mode) != Some(Read) ==> dbbox == Some(drec.NegY())
      ensures old(mode) != Some(Read) && old(mode) != Some(Append) ==>
        r == Ok([]) && cellcache == old(cellcache) && modifiedcells == old(modifiedcells) && shelf == old(shelf)
        && stored == old(stored) && cellnumbers == old(cellnumbers) && nobjects == old(nobjects)
      ensures old(mode) == Some(Append) ==>
        var all := Flatten(old(ContentsOf(Some(drec.NegY()), cellnumbers)));
        (all.Fail? ==> r == Fail(all.failure))
        && (all.Ok? && |all.value| == 0 ==> r == Ok([]))
        && (all.Ok? && |all.value| > 0 ==> r == Fail(CalledBoxFailure(all.value[0].elem)) && cellnumbers == [] && nobjects == old(nobjects)
                                            && forall c :: Contents(c) == Ok([]))
    {
      if mode == Some(Read) {
        return Fail(ValueError);
      }
      ghost var parts := ContentsOf(Some(drec.NegY()), cellnumbers);
      dbbox := Some(drec.NegY());
      if mode != Some(Append) {
        return Ok([]);
      }
      assert ContentsOf(dbbox, cellnumbers) == parts;
      var gathered := GatherElements();
      if gathered.Fail? {
        return Fail(gathered.failure);
      }
      ClearCellsAsWritten();
      r := ReAddAllAsWritten(gathered.value);
    }

    /** Cell 1 can be emptied into the other cells: it is not a cell of
        the common shelf holding elements, whose keys the re-added
        elements could take over, and the layer file does not store it
        unopened. */
    ghost predicate CellOneMovable()
      reads this
    {
      (1 in cellcache ==> !cellcache[1].Common? || Count(cellcache[1]) == 0)
      && (1 !in cellcache ==> 1 !in stored)
    }

    /** The loop of `optimize` over the detached old cell 1: its elements
        are popped from the last to the first and each is added again,
        its new reference recorded under its old one. */
    method MoveOut(cell1: CellState) returns (r: Result<map<(int, int), (int, nat)>>)
      requires Valid() && StoreOk(cell1, 1, shelf) && (cell1.Common? ==> Count(cell1) == 0)
      modifies this, estimator
      ensures Valid() && Config() == old(Config())
      ensures r.Ok? ==> nobjects == old(nobjects) + Count(cell1)
      ensures r.Ok? ==> forall k :: k in r.value <==> k.0 == 1 && 0 <= k.1 < Count(cell1)
      ensures r.Ok? ==> forall i :: 0 <= i < Count(cell1) ==>
        ReadsAt(r.value[(1, i)], Stamped(old(Listing(cell1, 1, shelf))[i], r.value[(1, i)].0))
    {
      ghost var l := Listing(cell1, 1, shelf);
      var cell := cell1;
      var remap: map<(int, int), (int, nat)> := map[];
      var i := Count(cell1);
      while i > 0
        invariant 0 <= i <= |l| == Count(cell1)
        invariant Valid() && Config() == old(Config())
        invariant nobjects == old(nobjects) + (|l| - i)
        invariant cell.Common? ==> i == 0
        invariant Count(cell) == i && StoreOk(cell, 1, shelf) && Listing(cell, 1, shelf) == l[..i]
        invariant forall k :: k in remap <==> k.0 == 1 && i <= k.1 < |l|
        invariant forall j :: i <= j < |l| ==> ReadsAt(remap[(1, j)], Stamped(l[j], remap[(1, j)].0))
      {
        var moved;
        cell, moved := MoveLast(cell, i);
        if moved.Fail? {
          return Fail(moved.failure);
        }
        remap := remap[(1, i - 1) := moved.value];
        i := i - 1;
      }
      r := Ok(remap);
    }
  

    /** One step of that loop: `oldcell1.pop(i - 1)`, whose element is
        then added again. A cell outside the common shelf pops without
        touching the shelf. */
    method MoveLast(cell: CellState, i: nat) returns (rest: CellState, r: Result<(int, nat)>)
      requires Valid() && !cell.Common? && StoreOk(cell, 1, shelf) && 0 < i == Count(cell)
      modifies this, estimator
      ensures Valid() && Config() == old(Config())
      ensures !rest.Common? && Count(rest) == i - 1 && StoreOk(rest, 1, shelf)
      ensures Listing(rest, 1, shelf) == old(Listing(cell, 1, shelf))[..i - 1]
      ensures r.Ok? ==> nobjects == old(nobjects) + 1
      ensures r.Ok? ==> ReadsAt(r.value, Stamped(old(Listing(cell, 1, shelf))[i - 1], r.value.0))
      ensures forall c :: old(Contents(c)).Ok? ==> Contents(c).Ok? && old(Contents(c)).value <= Contents(c).value
    {
      ghost var l := Listing(cell, 1, shelf);
      var p := PopAt(cell, shelf, i - 1);
      PopRemoves(cell, 1, shelf, i - 1);
      assert p.shelf == shelf && l[..i - 1] == RemoveAt(l, i - 1);
      rest := p.cell;
      ghost var before := shelf;
      r := AddCellElement(p.result.value, None);
      OwnStore(rest, 1, before, shelf);
    }
  

    /** `optimize`: a layer being written that has no box yet gets the box
        its estimator gives and the number of levels the element boxes
        need within it; with levels, the elements of cell 1 are moved,
        last first, to the cells the levels give them, with the object
        count restarted so that each counts once. Returns the new
        reference of each element of cell 1 under its old one. */
    method Optimize() returns (r: Result<map<(int, int), (int, nat)>>)
      requires Valid() && EstimatorOk() && CellOneMovable()
      modifies this, estimator
      ensures Valid() && mode == old(mode)
      ensures old(mode) != Some(Write) || old(dbbox).Some? ==> r == Ok(map[]) && unchanged(this) && unchanged(estimator)
      ensures old(mode) == Some(Write) && old(dbbox).None? ==>
        dbbox == (var est := old(estimator.CalculateDBBox()); if est.Some? then Some(est.value.NegY()) else None)
      ensures old(mode) == Some(Write) && old(dbbox).None? ==>
        var n := Nlevels(dbbox, old(estimator.data));
        (n.Fail? ==> r == Fail(n.failure)) && (r.Ok? ==> n == Ok(nlevels))
      ensures old(mode) == Some(Write) && old(dbbox).None? && r.Ok? && nlevels == 0 ==>
        r.value == map[] && nobjects == old(nobjects) && cellnumbers == old(cellnumbers)
      ensures old(mode) == Some(Write) && old(dbbox).None? && r.Ok? && nlevels > 0 ==>
        old(Contents(1)).Ok? &&
        var l := old(Contents(1)).value;
        nobjects == |l| && (forall k :: k in r.value <==> k.0 == 1 && 0 <= k.1 < |l|)
        && forall i :: 0 <= i < |l| ==> ReadsAt(r.value[(1, i)], Stamped(l[i], r.value[(1, i)].0))
    {
      r := Optimized(true);
    }

    /** `optimize` with the elements moved through the corrected
        `AddCellElement` but `clearCells` as written, which keeps the
        object count, so the moved elements are counted a second time. */
    method OptimizeKeepingCount() returns (r: Result<map<(int, int), (int, nat)>>)
      requires Valid() && EstimatorOk() && CellOneMovable()
      modifies this, estimator
      ensures Valid() && mode == old(mode)
      ensures old(mode) != Some(Write) || old(dbbox).Some? ==> r == Ok(map[]) && unchanged(this) && unchanged(estimator)
      ensures old(mode) == Some(Write) && old(dbbox).None? ==>
        dbbox == (var est := old(estimator.CalculateDBBox()); if est.Some? then Some(est.value.NegY()) else None)
      ensures old(mode) == Some(Write) && old(dbbox).None? ==>
        var n := Nlevels(dbbox, old(estimator.data));
        (n.Fail? ==> r == Fail(n.failure)) && (r.Ok? ==> n == Ok(nlevels))
      ensures old(mode) == Some(Write) && old(dbbox).None? && r.Ok? && nlevels == 0 ==>
        r.value == map[] && nobjects == old(nobjects) && cellnumbers == old(cellnumbers)
      ensures old(mode) == Some(Write) && old(dbbox).None? && r.Ok? && nlevels > 0 ==>
        old(Contents(1)).Ok? &&
        var l := old(Contents(1)).value;
        nobjects == old(nobjects) + |l| && (forall k :: k in r.value <==> k.0 == 1 && 0 <= k.1 < |l|)
        && forall i :: 0 <= i < |l| ==> ReadsAt(r.value[(1, i)], Stamped(l[i], r.value[(1, i)].0))
    {
      r := Optimized(false);
    }

    /** `optimize` as written. The estimator gives the box and, with the
        search as written, the number of levels; when there are levels
        and cell 1 holds elements, the cells are cleared with the object
        count kept and the first element popped from the old cell 1 is
        added again without a cell number, which raises: TypeError, or
        the error of computing the element's box, when the layer got a
        box, ValueError when it did not. */
    method OptimizeAsWritten() returns (r: Result<map<(int, int), (int, nat)>>)
      requires Valid() && EstimatorOk() && CellOneMovable()
      modifies this, estimator
      ensures Valid() && mode == old(mode)
      ensures old(mode) != Some(Write) || old(dbbox).Some? ==> r == Ok(map[]) && unchanged(this) && unchanged(estimator)
      ensures old(mode) == Some(Write) && old(dbbox).None? ==>
        dbbox == (var est := old(estimator.CalculateDBBox()); if est.Some? then Some(est.value.NegY()) else None)
      ensures old(mode) == Some(Write) && old(dbbox).None? ==>
        var n := NlevelsAsWritten(dbbox, old(estimator.data));
        (n.Fail? ==> r == Fail(n.failure)) && (n.Ok? ==> nlevels == n.value)
      ensures old(mode) == Some(Write) && old(dbbox).None? && NlevelsAsWritten(dbbox, old(estimator.data)).Ok? ==>
        old(Contents(1)).Ok? && nobjects == old(nobjects)
        && r == if nlevels > 0 && |old(Contents(1)).value| > 0
                then Fail(if dbbox.Some? then CalledBoxFailure(old(Contents(1)).value[|old(Contents(1)).value| - 1].elem) else ValueError)
                else Ok(map[])
    {
      if mode != Some(Write) || dbbox.Some? {
        return Ok(map[]);
      }
      var n := EstimateLevels(true);
      if n.Fail? {
        return Fail(n.failure);
      }
      var cell1 := GetCell(1);
      assert cell1.Ok?;
      r := Ok(map[]);
      if nlevels > 0 {
        ClearCellsAsWritten();
        if Count(cell1.value) > 0 {
          // The first pass of the loop over the old cell 1: its last
          // element is popped and added again, which raises.
          var p := PopAt(cell1.value, shelf, Count(cell1.value) - 1);
          PopRemoves(cell1.value, 1, shelf, Count(cell1.value) - 1);
          var moved := AddCellElementAsWritten(p.result.value, None);
          r := Fail(moved.failure);
        }
      }
    }

    /** The body of `optimize`, with `restart` telling whether clearing
        the cells restarts the object count. */
    method Optimized(restart: bool) returns (r: Result<map<(int, int), (int, nat)>>)
      requires Valid() && EstimatorOk() && CellOneMovable()
      modifies this, estimator
      ensures Valid() && mode == old(mode)
      ensures old(mode) != Some(Write) || old(dbbox).Some? ==> r == Ok(map[]) && unchanged(this) && unchanged(estimator)
      ensures old(mode) == Some(Write) && old(dbbox).None? ==>
        dbbox == (var est := old(estimator.CalculateDBBox()); if est.Some? then Some(est.value.NegY()) else None)
      ensures old(mode) == Some(Write) && old(dbbox).None? ==>
        var n := Nlevels(dbbox, old(estimator.data));
        (n.Fail? ==> r == Fail(n.failure)) && (r.Ok? ==> n == Ok(nlevels))
      ensures old(mode) == Some(Write) && old(dbbox).None? && r.Ok? && nlevels == 0 ==>
        r.value == map[] && nobjects == old(nobjects) && cellnumbers == old(cellnumbers)
      ensures old(mode) == Some(Write) && old(dbbox).None? && r.Ok? && nlevels > 0 ==>
        old(Contents(1)).Ok? &&
        var l := old(Contents(1)).value;
        nobjects == (if restart then 0 else old(nobjects)) + |l|
        && (forall k :: k in r.value <==> k.0 == 1 && 0 <= k.1 < |l|)
        && forall i :: 0 <= i < |l| ==> ReadsAt(r.value[(1, i)], Stamped(l[i], r.value[(1, i)].0))
    {
      if mode != Some(Write) || dbbox.Some? {
        return Ok(map[]);
      }
      var n := EstimateLevels(false);
      if n.Fail? {
        return Fail(n.failure);
      }
      r := SpreadCellOne(restart);
    }

    /** The start of `optimize`: the layer takes the box the estimator
        gives, set as the `dbboxrec` setter does in write mode, and the
        number of levels the search finds for it, as written (`lagged`)
        or corrected. The cells are left as they are. */
    method EstimateLevels(lagged: bool) returns (n: Result<nat>)
      requires Valid() && EstimatorOk() && CellOneMovable() && mode == Some(Write) && dbbox.None?
      modifies this, estimator
      ensures Valid() && CellOneMovable() && mode == old(mode)
      ensures dbbox == (var est := old(estimator.CalculateDBBox()); if est.Some? then Some(est.value.NegY()) else None)
      ensures n == (if lagged then NlevelsAsWritten(dbbox, old(estimator.data)) else Nlevels(dbbox, old(estimator.data)))
      ensures n.Ok? ==> nlevels == n.value
      ensures Contents(1) == old(Contents(1))
      ensures cellcache == old(cellcache) && modifiedcells == old(modifiedcells) && shelf == old(shelf)
      ensures stored == old(stored) && cellnumbers == old(cellnumbers) && nobjects == old(nobjects)
    {
      TakeEstimatedBox();
      if lagged {
        n := estimator.CalculateNlevelsAsWritten(dbbox);
      } else {
        n := estimator.CalculateNlevels(dbbox);
      }
      if n.Ok? {
        nlevels := n.value;
      }
    }

    /** The box the estimator gives, set as the `dbboxrec` setter does in
        write mode; no box when the estimator was never fed. */
    method TakeEstimatedBox()
      requires Valid() && EstimatorOk() && CellOneMovable() && mode == Some(Write) && dbbox.None?
      modifies this
      ensures Valid() && CellOneMovable() && mode == old(mode) && nlevels == old(nlevels)
      ensures dbbox == (var est := estimator.CalculateDBBox(); if est.Some? then Some(est.value.NegY()) else None)
      ensures Contents(1) == old(Contents(1))
      ensures cellcache == old(cellcache) && modifiedcells == old(modifiedcells) && shelf == old(shelf)
      ensures stored == old(stored) && cellnumbers == old(cellnumbers) && nobjects == old(nobjects)
    {
      ghost var c1 := Contents(1);
      var est := estimator.CalculateDBBox();
      if est.Some? {
        EstimateValid(estimator.worldne, estimator.worldsw, estimator.data);
        dbbox := Some(est.value.NegY());
      }
      assert Contents(1) == c1;
    }

    /** The end of `optimize`: cell 1 is fetched and, when the layer has
        levels, the cells are cleared and the elements of the old cell 1
        moved out of it. */
    method SpreadCellOne(restart: bool) returns (r: Result<map<(int, int), (int, nat)>>)
      requires Valid() && CellOneMovable()
      modifies this, estimator
      ensures Valid() && mode == old(mode) && dbbox == old(dbbox) && nlevels == old(nlevels)
      ensures nlevels <= 0 ==> r == Ok(map[]) && nobjects == old(nobjects) && cellnumbers == old(cellnumbers)
      ensures nlevels > 0 && r.Ok? ==>
        old(Contents(1)).Ok? &&
        var l := old(Contents(1)).value;
        nobjects == (if restart then 0 else old(nobjects)) + |l|
        && (forall k :: k in r.value <==> k.0 == 1 && 0 <= k.1 < |l|)
        && forall i :: 0 <= i < |l| ==> ReadsAt(r.value[(1, i)], Stamped(l[i], r.value[(1, i)].0))
    {
      var cell1 := GetCell(1);
      assert cell1.Ok?;
      r := Ok(map[]);
      if nlevels > 0 {
        if restart {
          ClearCells();
        } else {
          ClearCellsAsWritten();
        }
        r := MoveOut(cell1.value);
      }
    }
  }
}
