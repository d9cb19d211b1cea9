/** The four cell stores of magellan/Cell.py. A cell state as a value
    (`CellState`) and the operations on it are the specification; the
    classes at the end of the module are the stores themselves, each
    proved against those operations. */
module Cells {
  import opened Wrappers
  import opened PyStruct
  import opened Geometry
  import opened CellElement
  import opened CellRecords

  /** A shelf key: `str(n)` of a CellShelve, `'%d/%d' % (cellnum, n)` of a
      CellCommonShelve. */
  datatype Key = Plain(n: int) | Slashed(cellnum: int, n: int)

  /** Python's reading of index i into a list of length len: a negative
      index counts from the end; outside the list it is an IndexError. */
  function PyIndex(i: int, len: nat): (r: Result<nat>)
    ensures r.Ok? <==> 0 <= i + len && i < len
    ensures r.Ok? ==> r.value < len && r.value == (if i < 0 then i + len else i)
    ensures r.Fail? ==> r.failure == IndexError
  {
    if i + len < 0 || len <= i then Fail(IndexError) else if i < 0 then Ok(i + len) else Ok(i)
  }

  /** `list.pop(k)` on the list. */
  function RemoveAt<T>(s: seq<T>, k: nat): (r: seq<T>)
    requires k < |s|
    ensures |r| == |s| - 1
    ensures forall i :: 0 <= i < |r| ==> r[i] == if i < k then s[i] else s[i + 1]
  {
    s[..k] + s[k + 1..]
  }

  /** The copy of an element `addCellElement` keeps: its cell number set
      to the cell's. */
  function Stamped(e: Entry, cellnum: int): Entry
  {
    e.(cellnum := Some(cellnum))
  }

  function Lookup(m: map<Key, Entry>, k: Key): (r: Result<Entry>)
  {
    if k in m then Ok(m[k]) else Fail(KeyError)
  }

  // ------------------------------------------------------ cell states

  /** The state of a cell: the list of a CellInMemory, the own store, key
      list and key counter of a CellShelve, or the key list and counter of
      a CellCommonShelve, whose elements live in the layer's shared shelf. */
  datatype CellState =
    | Mem(elements: seq<Entry>)
    | Shelved(store: map<Key, Entry>, keys: seq<Key>, maxkey: nat)
    | Common(keys: seq<Key>, maxkey: nat)

  /** `len(cell)`: the list, the CellShelve's store, or the key list. */
  function Length(c: CellState): nat
  {
    match c
    case Mem(es) => |es|
    case Shelved(store, _, _) => |store|
    case Common(keys, _) => |keys|
  }

  /** The positions an index into the cell addresses. */
  function Count(c: CellState): nat
  {
    if c.Mem? then |c.elements| else |c.keys|
  }

  /** The elements of a shelve cell, looked up in order of its keys. */
  function Lookups(m: map<Key, Entry>, keys: seq<Key>): (r: seq<Entry>)
    requires forall i :: 0 <= i < |keys| ==> keys[i] in m
    ensures |r| == |keys|
  {
    seq(|keys|, i requires 0 <= i < |keys| => m[keys[i]])
  }

  predicate Distinct(keys: seq<Key>)
  {
    forall i, j :: 0 <= i < j < |keys| ==> keys[i] != keys[j]
  }

  /** Every key was drawn from the counter before its current value, has
      the shape the cell's kind gives it, and is filed in m. */
  predicate KeysFiled(keys: seq<Key>, maxkey: nat, shape: Option<int>, m: map<Key, Entry>)
  {
    Distinct(keys)
    && forall i :: 0 <= i < |keys| ==>
         0 <= keys[i].n < maxkey && keys[i] in m
         && keys[i] == (if shape.None? then Plain(keys[i].n) else Slashed(shape.value, keys[i].n))
  }

  /** The invariant of a cell numbered cellnum: the keys of a shelve cell
      are distinct, never reach the counter, and are filed; a CellShelve's
      store holds nothing else. */
  predicate StoreOk(c: CellState, cellnum: int, shelf: map<Key, Entry>)
  {
    match c
    case Mem(_) => true
    case Shelved(store, keys, maxkey) =>
      KeysFiled(keys, maxkey, None, store) && forall k :: k in store ==> k in keys
    case Common(keys, maxkey) => KeysFiled(keys, maxkey, Some(cellnum), shelf)
  }

  /** The elements of the cell in order, when it keeps its invariant. */
  function Listing(c: CellState, cellnum: int, shelf: map<Key, Entry>): (r: seq<Entry>)
    requires StoreOk(c, cellnum, shelf)
    ensures |r| == Count(c)
  {
    match c
    case Mem(es) => es
    case Shelved(store, keys, _) => Lookups(store, keys)
    case Common(keys, _) => Lookups(shelf, keys)
  }

  /** A cell as `getCell` makes it: empty. */
  function Fresh(kind: CellState): (r: CellState)
    ensures Count(r) == 0 && Length(r) == 0
  {
    match kind
    case Mem(_) => Mem([])
    case Shelved(_, _, _) => Shelved(map[], [], 0)
    case Common(_, _) => Common([], 0)
  }

  // ------------------------------------------------------- operations

  /** A cell, the shelf and the index `addCellElement` returns. */
  datatype Added = Added(cell: CellState, shelf: map<Key, Entry>, index: nat)

  /** `addCellElement`: a CellInMemory appends the stamped copy; a shelve
      cell files the element under a key drawn from its counter and
      appends the key. The index returned is the new position. */
  function Add(c: CellState, cellnum: int, shelf: map<Key, Entry>, e: Entry): (r: Added)
    ensures r.index == Count(c) && Count(r.cell) == Count(c) + 1
    ensures r.cell.Mem? == c.Mem? && r.cell.Shelved? == c.Shelved? && r.cell.Common? == c.Common?
    ensures !c.Common? ==> r.shelf == shelf
  {
    match c
    case Mem(es) => Added(Mem(es + [Stamped(e, cellnum)]), shelf, |es|)
    case Shelved(store, keys, m) => Added(Shelved(store[Plain(m) := e], keys + [Plain(m)], m + 1), shelf, |keys|)
    case Common(keys, m) =>
      Added(Common(keys + [Slashed(cellnum, m)], m + 1), shelf[Slashed(cellnum, m) := e], |keys|)
  }

  /** `getCellElement`: the element at a list index. */
  function Get(c: CellState, shelf: map<Key, Entry>, j: int): (r: Result<Entry>)
    ensures PyIndex(j, Count(c)).Fail? ==> r == Fail(IndexError)
  {
    var k :- PyIndex(j, Count(c));
    match c
    case Mem(es) => Ok(es[k])
    case Shelved(store, keys, _) => Lookup(store, keys[k])
    case Common(keys, _) => Lookup(shelf, keys[k])
  }

  /** A cell, the shelf and the outcome of `pop`. */
  datatype Popped = Popped(cell: CellState, shelf: map<Key, Entry>, result: Result<Entry>)

  /** `pop`: the element at a list index leaves the list, or the key
      leaves the key list and then the element leaves the store. */
  function PopAt(c: CellState, shelf: map<Key, Entry>, j: int): (r: Popped)
    ensures PyIndex(j, Count(c)).Fail? ==> r == Popped(c, shelf, Fail(IndexError))
    ensures PyIndex(j, Count(c)).Ok? ==> Count(r.cell) + 1 == Count(c)
    ensures r.cell.Mem? == c.Mem? && r.cell.Shelved? == c.Shelved? && r.cell.Common? == c.Common?
  {
    match PyIndex(j, Count(c))
    case Fail(f) => Popped(c, shelf, Fail(f))
    case Ok(k) =>
      match c
      case Mem(es) => Popped(Mem(RemoveAt(es, k)), shelf, Ok(es[k]))
      case Shelved(store, keys, m) => Popped(Shelved(store - {keys[k]}, RemoveAt(keys, k), m), shelf, Lookup(store, keys[k]))
      case Common(keys, m) => Popped(Common(RemoveAt(keys, k), m), shelf - {keys[k]}, Lookup(shelf, keys[k]))
  }

  /** `updateElement` of CellShelve as written: the element is filed
      under `str(i)` whatever key position i holds. The other stores
      replace the element at the list index. */
  function UpdateAsWritten(c: CellState, shelf: map<Key, Entry>, j: int, e: Entry)
    : (r: Result<(CellState, map<Key, Entry>)>)
    ensures c.Shelved? ==> r == Ok((c.(store := c.store[Plain(j) := e]), shelf))
  {
    if c.Shelved? then Ok((c.(store := c.store[Plain(j) := e]), shelf)) else Update(c, shelf, j, e)
  }

  /** `updateElement` as the shared-shelf store does it: the element at
      the list index is replaced, for a CellShelve in its own store under
      the key at that index. */
  function Update(c: CellState, shelf: map<Key, Entry>, j: int, e: Entry): (r: Result<(CellState, map<Key, Entry>)>)
    ensures r.Fail? <==> PyIndex(j, Count(c)).Fail?
    ensures r.Fail? ==> r.failure == IndexError
    ensures r.Ok? ==> Count(r.value.0) == Count(c)
  {
    var k :- PyIndex(j, Count(c));
    match c
    case Mem(es) => Ok((Mem(es[k := e]), shelf))
    case Shelved(store, keys, m) => Ok((Shelved(store[keys[k] := e], keys, m), shelf))
    case Common(keys, m) => Ok((c, shelf[keys[k] := e]))
  }

  /** The shelve cells' element generator from position i up to n: the
      key at each position (an IndexError past the key list), then its
      element (a KeyError when it is not filed). */
  function ListFrom(m: map<Key, Entry>, keys: seq<Key>, i: nat, n: nat): (r: Result<seq<Entry>>)
    ensures r.Ok? ==> |r.value| == if i <= n then n - i else 0
    decreases n - i
  {
    if n <= i then Ok([])
    else if |keys| <= i then Fail(IndexError)
    else if keys[i] !in m then Fail(KeyError)
    else
      var more :- ListFrom(m, keys, i + 1, n);
      Ok([m[keys[i]]] + more)
  }

  /** `getCellElements`: a CellShelve generates as many elements as its
      store holds, a CellCommonShelve as many as its key list. */
  function Elements(c: CellState, shelf: map<Key, Entry>): Result<seq<Entry>>
  {
    match c
    case Mem(es) => Ok(es)
    case Shelved(store, keys, _) => ListFrom(store, keys, 0, |store|)
    case Common(keys, _) => ListFrom(shelf, keys, 0, |keys|)
  }

  /** The `serialize` loop of the shelve cells: each key's element looked
      up, serialized and framed, in key order. */
  function KeyedRecords(enc: Element -> Result<seq<byte>>, m: map<Key, Entry>, keys: seq<Key>, big: bool)
    : (r: Result<seq<byte>>)
    decreases |keys|
  {
    if |keys| == 0 then Ok([])
    else
      var e :- Lookup(m, keys[0]);
      var payload :- enc(e.elem);
      var rec :- FrameRecord(payload, big);
      var more :- KeyedRecords(enc, m, keys[1..], big);
      Ok(rec + more)
  }

  lemma KeyedRecordsCons(enc: Element -> Result<seq<byte>>, m: map<Key, Entry>, keys: seq<Key>, big: bool)
    requires |keys| > 0
    ensures KeyedRecords(enc, m, keys, big)
      == if keys[0] !in m then Fail(KeyError)
         else var p := RecordBytes(enc, m[keys[0]].elem, big);
           if p.Fail? then Fail(p.failure) else Prefixed(p.value, KeyedRecords(enc, m, keys[1..], big))
  {
  }

  lemma KeyedBytesOf(enc: Element -> Result<seq<byte>>, count: int, m: map<Key, Entry>, keys: seq<Key>, big: bool)
    requires CellHeader(count, big).Ok?
    ensures var b := Prefixed(CellHeader(count, big).value, KeyedRecords(enc, m, keys, big));
      KeyedBytes(enc, count, m, keys, big) == if b.Ok? then Ok(WordAlign(b.value)) else b
  {
  }

  /** `serialize`: the header with `len(cell)`, the records, word
      alignment. */
  function Serialized(enc: Element -> Result<seq<byte>>, c: CellState, shelf: map<Key, Entry>, big: bool)
    : (r: Result<seq<byte>>)
    ensures r.Ok? ==> |r.value| % 2 == 0 && |r.value| >= 4 && GetU16(r.value, big) == Length(c) && GetU16(r.value[2..], big) == 0
  {
    match c
    case Mem(es) => CellBytes(enc, |es|, es, big)
    case Shelved(store, keys, _) => KeyedBytes(enc, |store|, store, keys, big)
    case Common(keys, _) => KeyedBytes(enc, |keys|, shelf, keys, big)
  }

  function KeyedBytes(enc: Element -> Result<seq<byte>>, count: int, m: map<Key, Entry>, keys: seq<Key>, big: bool)
    : (r: Result<seq<byte>>)
    ensures r.Ok? ==> |r.value| % 2 == 0 && |r.value| >= 4 && GetU16(r.value, big) == count && GetU16(r.value[2..], big) == 0
  {
    var h :- CellHeader(count, big);
    var body :- KeyedRecords(enc, m, keys, big);
    var r := WordAlign(h + body);
    assert r[..4] == h && r[2..][..2] == h[2..];
    Ok(r)
  }

  /** What a cell files for an added element: the stamped copy in
      memory, the element itself on a shelf. */
  function Filed(c: CellState, cellnum: int, e: Entry): Entry
  {
    if c.Mem? then Stamped(e, cellnum) else e
  }

  /** `deSerialize` of the shelve cells as `addCellElement` of each entry
      read, in order. */
  function AddAll(c: CellState, cellnum: int, shelf: map<Key, Entry>, es: seq<Entry>): (r: (CellState, map<Key, Entry>))
    ensures Count(r.0) == Count(c) + |es|
    ensures r.0.Mem? == c.Mem? && r.0.Shelved? == c.Shelved? && r.0.Common? == c.Common?
    decreases |es|
  {
    if |es| == 0 then (c, shelf)
    else
      var a := Add(c, cellnum, shelf, es[0]);
      AddAll(a.cell, cellnum, a.shelf, es[1..])
  }

  /** CellShelve's `deSerialize` loop as written: entry i is filed under
      `str(i)`; the key list and the counter are left as they were. */
  function FileAll(store: map<Key, Entry>, es: seq<Entry>, i: nat): (r: map<Key, Entry>)
    ensures forall k :: k in r <==> k in store || (k.Plain? && i <= k.n < |es|)
    ensures forall k :: k in r ==> r[k] == if k.Plain? && i <= k.n < |es| then es[k.n] else store[k]
    decreases |es| - i
  {
    if |es| <= i then store else FileAll(store[Plain(i) := es[i]], es, i + 1)
  }

  /** `deSerialize` as written, given the entries `_deserialize` read. */
  function DeSerializedAsWritten(c: CellState, cellnum: int, shelf: map<Key, Entry>, es: seq<Entry>)
    : (r: (CellState, map<Key, Entry>))
    ensures c.Shelved? ==> r.0 == c.(store := FileAll(c.store, es, 0)) && r.1 == shelf
  {
    match c
    case Mem(_) => (Mem(es), shelf)
    case Shelved(store, keys, m) => (Shelved(FileAll(store, es, 0), keys, m), shelf)
    case Common(_, _) => AddAll(c, cellnum, shelf, es)
  }

  /** `deSerialize`: CellInMemory takes the entries read as its list; the
      shelve cells add each one, which is what CellCommonShelve does. */
  function DeSerialized(c: CellState, cellnum: int, shelf: map<Key, Entry>, es: seq<Entry>)
    : (r: (CellState, map<Key, Entry>))
    ensures r.0.Mem? == c.Mem? && r.0.Shelved? == c.Shelved? && r.0.Common? == c.Common?
  {
    if c.Mem? then (Mem(es), shelf) else AddAll(c, cellnum, shelf, es)
  }

  // ------------------------------------------------------------ lemmas

  function KeySet(keys: seq<Key>): set<Key>
  {
    set k | k in keys
  }

  lemma {:induction false} DistinctCard(keys: seq<Key>)
    requires Distinct(keys)
    ensures |KeySet(keys)| == |keys|
    decreases |keys|
  {
    if |keys| > 0 {
      var rest := keys[1..];
      forall i, j | 0 <= i < j < |rest|
        ensures rest[i] != rest[j]
      {
        assert rest[i] == keys[i + 1] && rest[j] == keys[j + 1];
      }
      DistinctCard(rest);
      assert KeySet(keys) == KeySet(rest) + {keys[0]};
      assert keys[0] !in KeySet(rest);
    }
  }

  /** A cell that keeps its invariant has as many elements as positions:
      `len` of a CellShelve, which counts its store, agrees with its key
      list. */
  lemma LengthIsCount(c: CellState, cellnum: int, shelf: map<Key, Entry>)
    requires StoreOk(c, cellnum, shelf)
    ensures Length(c) == Count(c)
  {
    if c.Shelved? {
      assert c.store.Keys == KeySet(c.keys);
      DistinctCard(c.keys);
    }
  }

  /** A cell that keeps its invariant reads its elements at the
      indices. */
  lemma GetIsListing(c: CellState, cellnum: int, shelf: map<Key, Entry>, j: int)
    requires StoreOk(c, cellnum, shelf) && PyIndex(j, Count(c)).Ok?
    ensures Get(c, shelf, j) == Ok(Listing(c, cellnum, shelf)[PyIndex(j, Count(c)).value])
  {
  }

  lemma AddShelved(store: map<Key, Entry>, keys: seq<Key>, m: nat, cellnum: int, shelf: map<Key, Entry>, e: Entry)
    requires StoreOk(Shelved(store, keys, m), cellnum, shelf)
    ensures StoreOk(Shelved(store[Plain(m) := e], keys + [Plain(m)], m + 1), cellnum, shelf)
    ensures Lookups(store[Plain(m) := e], keys + [Plain(m)]) == Lookups(store, keys) + [e]
  {
    var ks := keys + [Plain(m)];
    assert forall i :: 0 <= i < |keys| ==> ks[i] == keys[i] && keys[i] != Plain(m);
    assert KeysFiled(ks, m + 1, None, store[Plain(m) := e]);
  }

  lemma AddCommon(keys: seq<Key>, m: nat, cellnum: int, shelf: map<Key, Entry>, e: Entry)
    requires StoreOk(Common(keys, m), cellnum, shelf)
    ensures StoreOk(Common(keys + [Slashed(cellnum, m)], m + 1), cellnum, shelf[Slashed(cellnum, m) := e])
    ensures Lookups(shelf[Slashed(cellnum, m) := e], keys + [Slashed(cellnum, m)]) == Lookups(shelf, keys) + [e]
  {
    var ks := keys + [Slashed(cellnum, m)];
    assert forall i :: 0 <= i < |keys| ==> ks[i] == keys[i] && keys[i] != Slashed(cellnum, m);
    assert KeysFiled(ks, m + 1, Some(cellnum), shelf[Slashed(cellnum, m) := e]);
  }

  lemma AddKeeps(c: CellState, cellnum: int, shelf: map<Key, Entry>, e: Entry)
    requires StoreOk(c, cellnum, shelf)
    ensures var r := Add(c, cellnum, shelf, e);
      StoreOk(r.cell, cellnum, r.shelf)
      && Listing(r.cell, cellnum, r.shelf) == Listing(c, cellnum, shelf) + [Filed(c, cellnum, e)]
  {
    match c
    case Mem(_) =>
    case Shelved(store, keys, m) => AddShelved(store, keys, m, cellnum, shelf, e);
    case Common(keys, m) => AddCommon(keys, m, cellnum, shelf, e);
  }

  /** Adding keeps the invariant (a fresh key is never one in use) and
      appends what the cell files to its elements; the index returned
      reads it back and every other index reads what it read before. */
  lemma AddAppends(c: CellState, cellnum: int, shelf: map<Key, Entry>, e: Entry)
    requires StoreOk(c, cellnum, shelf)
    ensures var r := Add(c, cellnum, shelf, e);
      StoreOk(r.cell, cellnum, r.shelf)
      && Listing(r.cell, cellnum, r.shelf) == Listing(c, cellnum, shelf) + [Filed(c, cellnum, e)]
      && Get(r.cell, r.shelf, r.index) == Ok(Filed(c, cellnum, e))
      && forall j :: 0 <= j < Count(c) ==> Get(r.cell, r.shelf, j) == Get(c, shelf, j)
  {
    var r := Add(c, cellnum, shelf, e);
    AddKeeps(c, cellnum, shelf, e);
    var before, after := Listing(c, cellnum, shelf), Listing(r.cell, cellnum, r.shelf);
    GetIsListing(r.cell, cellnum, r.shelf, r.index);
    forall j | 0 <= j < Count(c)
      ensures Get(r.cell, r.shelf, j) == Get(c, shelf, j)
    {
      GetIsListing(r.cell, cellnum, r.shelf, j);
      GetIsListing(c, cellnum, shelf, j);
      assert after[j] == before[j];
    }
  }

  /** A cell's invariant and elements depend on the shared shelf only
      through the keys of its own number. */
  lemma ShelfFrame(c: CellState, cellnum: int, shelf: map<Key, Entry>, shelf2: map<Key, Entry>)
    requires StoreOk(c, cellnum, shelf)
    requires forall k :: k in shelf && k == Slashed(cellnum, k.n) ==> k in shelf2 && shelf2[k] == shelf[k]
    ensures StoreOk(c, cellnum, shelf2) && Listing(c, cellnum, shelf2) == Listing(c, cellnum, shelf)
  {
    if c.Common? {
      assert forall i :: 0 <= i < |c.keys| ==> c.keys[i] in shelf2 && shelf2[c.keys[i]] == shelf[c.keys[i]];
    }
  }

  /** Two shelves agree on every key of a cell other than c. */
  ghost predicate SameOutside(shelf: map<Key, Entry>, shelf2: map<Key, Entry>, c: int)
  {
    forall k: Key :: k.Slashed? && k.cellnum != c ==>
      (k in shelf <==> k in shelf2) && (k in shelf ==> shelf[k] == shelf2[k])
  }

  /** What happens to the shelf for cell c leaves every other cell as it
      was: its invariant, its elements and what each index reads. */
  lemma OtherCellKept(cell: CellState, other: int, shelf: map<Key, Entry>, shelf2: map<Key, Entry>, c: int)
    requires StoreOk(cell, other, shelf) && other != c && SameOutside(shelf, shelf2, c)
    ensures StoreOk(cell, other, shelf2) && Listing(cell, other, shelf2) == Listing(cell, other, shelf)
    ensures forall j :: Get(cell, shelf2, j) == Get(cell, shelf, j)
  {
    ShelfFrame(cell, other, shelf, shelf2);
  }

  /** Adding, popping, updating and deSerializing in cell c touch the
      shelf only at keys of cell c. */
  lemma ShelfChangesInside(cell: CellState, c: int, shelf: map<Key, Entry>, e: Entry, j: int)
    requires StoreOk(cell, c, shelf)
    ensures SameOutside(shelf, Add(cell, c, shelf, e).shelf, c)
    ensures SameOutside(shelf, PopAt(cell, shelf, j).shelf, c)
    ensures Update(cell, shelf, j, e).Ok? ==> SameOutside(shelf, Update(cell, shelf, j, e).value.1, c)
  {
  }

  lemma {:induction false} AddAllInside(cell: CellState, c: int, shelf: map<Key, Entry>, es: seq<Entry>)
    requires StoreOk(cell, c, shelf)
    ensures SameOutside(shelf, AddAll(cell, c, shelf, es).1, c)
    decreases |es|
  {
    if |es| > 0 {
      var a := Add(cell, c, shelf, es[0]);
      ShelfChangesInside(cell, c, shelf, es[0], 0);
      AddKeeps(cell, c, shelf, es[0]);
      AddAllInside(a.cell, c, a.shelf, es[1..]);
    }
  }

  lemma RemoveAtDistinct(keys: seq<Key>, k: nat)
    requires Distinct(keys) && k < |keys|
    ensures Distinct(RemoveAt(keys, k))
    ensures forall i :: 0 <= i < |keys| - 1 ==> RemoveAt(keys, k)[i] != keys[k]
  {
    var ks := RemoveAt(keys, k);
    forall i, j | 0 <= i < j < |ks|
      ensures ks[i] != ks[j]
    {
      var i', j' := if i < k then i else i + 1, if j < k then j else j + 1;
      assert ks[i] == keys[i'] && ks[j] == keys[j'] && i' < j';
    }
  }

  lemma LookupsRemoveAt(m: map<Key, Entry>, m2: map<Key, Entry>, keys: seq<Key>, k: nat)
    requires k < |keys| && forall i :: 0 <= i < |keys| ==> keys[i] in m
    requires forall i :: 0 <= i < |keys| - 1 ==> RemoveAt(keys, k)[i] in m2 && m2[RemoveAt(keys, k)[i]] == m[RemoveAt(keys, k)[i]]
    ensures Lookups(m2, RemoveAt(keys, k)) == RemoveAt(Lookups(m, keys), k)
  {
    var a, b := Lookups(m2, RemoveAt(keys, k)), RemoveAt(Lookups(m, keys), k);
    forall i | 0 <= i < |a|
      ensures a[i] == b[i]
    {
      if i < k {
        assert b[i] == Lookups(m, keys)[i];
      } else {
        assert b[i] == Lookups(m, keys)[i + 1];
      }
    }
  }

  /** Removing a key from the key list and from the map it is filed in
      keeps the others filed. */
  lemma KeysFiledRemove(keys: seq<Key>, maxkey: nat, shape: Option<int>, m: map<Key, Entry>, k: nat)
    requires KeysFiled(keys, maxkey, shape, m) && k < |keys|
    ensures KeysFiled(RemoveAt(keys, k), maxkey, shape, m - {keys[k]})
    ensures Lookups(m - {keys[k]}, RemoveAt(keys, k)) == RemoveAt(Lookups(m, keys), k)
  {
    var ks := RemoveAt(keys, k);
    RemoveAtDistinct(keys, k);
    assert forall i :: 0 <= i < |ks| ==> ks[i] in m - {keys[k]};
    LookupsRemoveAt(m, m - {keys[k]}, keys, k);
  }

  lemma PopShelved(store: map<Key, Entry>, keys: seq<Key>, m: nat, cellnum: int, shelf: map<Key, Entry>, k: nat)
    requires StoreOk(Shelved(store, keys, m), cellnum, shelf) && k < |keys|
    ensures StoreOk(Shelved(store - {keys[k]}, RemoveAt(keys, k), m), cellnum, shelf)
    ensures Lookups(store - {keys[k]}, RemoveAt(keys, k)) == RemoveAt(Lookups(store, keys), k)
  {
    KeysFiledRemove(keys, m, None, store, k);
    assert keys == keys[..k] + [keys[k]] + keys[k + 1..];
    forall key | key in store - {keys[k]}
      ensures key in RemoveAt(keys, k)
    {
      assert key in keys && key != keys[k];
    }
  }

  /** Popping an index returns its element and removes exactly that one
      from the cell's elements, keeping the invariant. */
  lemma PopRemoves(c: CellState, cellnum: int, shelf: map<Key, Entry>, j: int)
    requires StoreOk(c, cellnum, shelf) && PyIndex(j, Count(c)).Ok?
    ensures var r := PopAt(c, shelf, j); var k := PyIndex(j, Count(c)).value;
      r.result == Ok(Listing(c, cellnum, shelf)[k]) && StoreOk(r.cell, cellnum, r.shelf)
      && Listing(r.cell, cellnum, r.shelf) == RemoveAt(Listing(c, cellnum, shelf), k)
  {
    var k := PyIndex(j, Count(c)).value;
    match c
    case Mem(_) =>
    case Shelved(store, keys, m) => PopShelved(store, keys, m, cellnum, shelf, k);
    case Common(keys, m) => KeysFiledRemove(keys, m, Some(cellnum), shelf, k);
  }

  /** An update at a valid index replaces exactly that element. */
  lemma UpdateReplaces(c: CellState, cellnum: int, shelf: map<Key, Entry>, j: int, e: Entry)
    requires StoreOk(c, cellnum, shelf) && PyIndex(j, Count(c)).Ok?
    ensures var u := Update(c, shelf, j, e);
      u.Ok? && StoreOk(u.value.0, cellnum, u.value.1)
      && Listing(u.value.0, cellnum, u.value.1) == Listing(c, cellnum, shelf)[PyIndex(j, Count(c)).value := e]
  {
    var k := PyIndex(j, Count(c)).value;
    var u := Update(c, shelf, j, e);
    match c
    case Mem(_) =>
    case Shelved(store, keys, m) =>
      assert forall i :: 0 <= i < |keys| && i != k ==> keys[i] != keys[k];
      assert Lookups(u.value.0.store, keys) == Lookups(store, keys)[k := e];
    case Common(keys, m) =>
      assert forall i :: 0 <= i < |keys| && i != k ==> keys[i] != keys[k];
      assert Lookups(u.value.1, keys) == Lookups(shelf, keys)[k := e];
  }

  lemma {:induction false} ListFromLookups(m: map<Key, Entry>, keys: seq<Key>, i: nat)
    requires forall k :: 0 <= k < |keys| ==> keys[k] in m
    requires i <= |keys|
    ensures ListFrom(m, keys, i, |keys|) == Ok(Lookups(m, keys)[i..])
    decreases |keys| - i
  {
    if i < |keys| {
      ListFromLookups(m, keys, i + 1);
      assert Lookups(m, keys)[i..] == [m[keys[i]]] + Lookups(m, keys)[i + 1..];
    }
  }

  /** A cell that keeps its invariant generates all its elements in order,
      whatever its kind. */
  lemma ElementsIsListing(c: CellState, cellnum: int, shelf: map<Key, Entry>)
    requires StoreOk(c, cellnum, shelf)
    ensures Elements(c, shelf) == Ok(Listing(c, cellnum, shelf))
  {
    LengthIsCount(c, cellnum, shelf);
    match c
    case Mem(_) =>
    case Shelved(store, keys, _) => ListFromLookups(store, keys, 0);
    case Common(keys, _) => ListFromLookups(shelf, keys, 0);
  }

  lemma {:induction false} KeyedRecordsLookups(enc: Element -> Result<seq<byte>>, m: map<Key, Entry>, keys: seq<Key>,
                                               big: bool)
    requires forall k :: 0 <= k < |keys| ==> keys[k] in m
    ensures KeyedRecords(enc, m, keys, big) == EncodeRecords(enc, Lookups(m, keys), big)
    decreases |keys|
  {
    if |keys| > 0 {
      var rest := keys[1..];
      KeyedRecordsLookups(enc, m, rest, big);
      assert Lookups(m, keys)[1..] == Lookups(m, rest);
      EncodeRecordsCons(enc, Lookups(m, keys), big);
    }
  }

  /** A cell that keeps its invariant serializes as the cell block of its
      elements, whatever its kind. */
  lemma SerializedIsCellBytes(enc: Element -> Result<seq<byte>>, c: CellState, cellnum: int, shelf: map<Key, Entry>,
                              big: bool)
    requires StoreOk(c, cellnum, shelf)
    ensures Serialized(enc, c, shelf, big) == CellBytes(enc, Count(c), Listing(c, cellnum, shelf), big)
  {
    LengthIsCount(c, cellnum, shelf);
    match c
    case Mem(_) =>
    case Shelved(store, keys, _) => KeyedRecordsLookups(enc, store, keys, big);
    case Common(keys, _) => KeyedRecordsLookups(enc, shelf, keys, big);
  }

  /** Whatever its kind, a cell whose elements each read back serializes
      to a block that `_deserialize` reads as those elements, numbered in
      order in the cell's number. */
  lemma CellStateRoundTrip(enc: Element -> Result<seq<byte>>, dec: seq<byte> -> Result<Element>, c: CellState,
                           cellnum: int, shelf: map<Key, Entry>, big: bool, out: seq<Element>)
    requires StoreOk(c, cellnum, shelf) && ReadsBack(enc, dec, Listing(c, cellnum, shelf), big, out)
    requires Count(c) < 0x1_0000
    ensures Serialized(enc, c, shelf, big).Ok?
    ensures ReadCell(dec, cellnum, Serialized(enc, c, shelf, big).value, big) == Ok(Numbered(out, cellnum, 0))
  {
    SerializedIsCellBytes(enc, c, cellnum, shelf, big);
    CellRoundTrip(enc, dec, cellnum, Listing(c, cellnum, shelf), big, out);
  }

  /** Adding entries one by one keeps a shelve cell's invariant and
      appends them to its elements. */
  lemma {:induction false} AddAllAppends(c: CellState, cellnum: int, shelf: map<Key, Entry>, es: seq<Entry>)
    requires StoreOk(c, cellnum, shelf) && !c.Mem?
    ensures var r := AddAll(c, cellnum, shelf, es);
      StoreOk(r.0, cellnum, r.1) && Listing(r.0, cellnum, r.1) == Listing(c, cellnum, shelf) + es
    decreases |es|
  {
    if |es| > 0 {
      var a := Add(c, cellnum, shelf, es[0]);
      var before := Listing(c, cellnum, shelf);
      AddKeeps(c, cellnum, shelf, es[0]);
      AddAllAppends(a.cell, cellnum, a.shelf, es[1..]);
      assert AddAll(c, cellnum, shelf, es) == AddAll(a.cell, cellnum, a.shelf, es[1..]);
      assert before + [es[0]] + es[1..] == before + es;
    } else {
      assert Listing(c, cellnum, shelf) + es == Listing(c, cellnum, shelf);
    }
  }

  /** After `deSerialize` the cell's elements are the entries read (after
      those it held, for a shelve cell), and the invariant holds. */
  lemma DeSerializedLists(c: CellState, cellnum: int, shelf: map<Key, Entry>, es: seq<Entry>)
    requires StoreOk(c, cellnum, shelf)
    ensures var r := DeSerialized(c, cellnum, shelf, es);
      StoreOk(r.0, cellnum, r.1)
      && Listing(r.0, cellnum, r.1) == if c.Mem? then es else Listing(c, cellnum, shelf) + es
  {
    if !c.Mem? {
      AddAllAppends(c, cellnum, shelf, es);
    }
  }

  /** CellShelve's `deSerialize` as written files the entries under
      `str(i)` but registers no key: a fresh cell given one entry has
      length 1, yet its index 0 and its element list raise IndexError. */
  lemma ShelveDeSerializeLosesKeys(cellnum: int, shelf: map<Key, Entry>, e: Entry)
    ensures var r := DeSerializedAsWritten(Shelved(map[], [], 0), cellnum, shelf, [e]);
      Length(r.0) == 1 && Get(r.0, r.1, 0) == Fail(IndexError) && Elements(r.0, r.1) == Fail(IndexError)
  {
    var r := DeSerializedAsWritten(Shelved(map[], [], 0), cellnum, shelf, [e]);
    assert r.0.store == map[Plain(0) := e];
  }

  /** CellShelve's `updateElement` as written: after two adds and a pop of
      index 0, updating index 0 files the new element under "0", which no
      position holds; index 0 still reads the old element, the store grows
      past the key list and listing the elements raises IndexError. */
  lemma ShelveUpdateMissesKey(cellnum: int, shelf: map<Key, Entry>, e0: Entry, e1: Entry, x: Entry)
    ensures var c1 := Add(Shelved(map[], [], 0), cellnum, shelf, e0).cell;
      var c2 := Add(c1, cellnum, shelf, e1).cell;
      var c3 := PopAt(c2, shelf, 0).cell;
      var u := UpdateAsWritten(c3, shelf, 0, x).value.0;
      Get(c3, shelf, 0) == Ok(e1) && Get(u, shelf, 0) == Ok(e1) && Length(u) == 2
      && Elements(u, shelf) == Fail(IndexError)
  {
    var c1 := Add(Shelved(map[], [], 0), cellnum, shelf, e0).cell;
    var c2 := Add(c1, cellnum, shelf, e1).cell;
    var c3 := PopAt(c2, shelf, 0).cell;
    assert c3 == Shelved(map[Plain(1) := e1], [Plain(1)], 2);
    var u := UpdateAsWritten(c3, shelf, 0, x).value.0;
    assert u.store == map[Plain(1) := e1, Plain(0) := x];
  }

  /** The CellCommonShelve doctest: two elements added to cell 1 are filed
      under "1/0" and "1/1" and read back in order. */
  lemma CommonShelveKeys(shelf: map<Key, Entry>, e0: Entry, e1: Entry)
    ensures var a := Add(Common([], 0), 1, shelf, e0);
      var b := Add(a.cell, 1, a.shelf, e1);
      b.cell.keys == [Slashed(1, 0), Slashed(1, 1)]
      && Get(b.cell, b.shelf, 0) == Ok(e0) && Get(b.cell, b.shelf, 1) == Ok(e1)
  {
  }

  // ----------------------------------------------------- CellTempfile

  /** `_serialize_cellelement`: the framed record of an element. */
  function RecordBytes(enc: Element -> Result<seq<byte>>, e: Element, big: bool): (r: Result<seq<byte>>)
    ensures r.Ok? ==> enc(e).Ok? && r == FrameRecord(enc(e).value, big)
  {
    var payload :- enc(e);
    FrameRecord(payload, big)
  }

  /** Writing data at the start of a file: it replaces as many bytes as it
      has. */
  function Overwrite(file: seq<byte>, data: seq<byte>): (r: seq<byte>)
    ensures |r| == if |data| < |file| then |file| else |data|
    ensures r[..|data|] == data && r[|data|..] == if |data| < |file| then file[|data|..] else []
  {
    if |data| < |file| then data + file[|data|..] else data
  }

  /** `serialize` of a CellTempfile: the header with the counted elements
      before the file's contents, word aligned. */
  function TempfileBytes(count: int, file: seq<byte>, big: bool): (r: Result<seq<byte>>)
    ensures r.Ok? <==> 0 <= count < 0x1_0000
    ensures r.Ok? ==> |r.value| % 2 == 0 && |r.value| >= |file| + 4 && r.value[4..|file| + 4] == file
    ensures r.Ok? ==> GetU16(r.value, big) == count && GetU16(r.value[2..], big) == 0
  {
    var h :- CellHeader(count, big);
    var r := WordAlign(h + file);
    assert r[..|h + file|] == h + file;
    assert r[..4] == (h + file)[..4] == h;
    assert r[2..][0] == h[2..][0] && r[2..][1] == h[2..][1];
    assert r[4..|file| + 4] == (h + file)[4..];
    Ok(r)
  }

  /** `getCellElement` of a CellTempfile: the last index is served from
      the element kept by the last add, any other by reading the whole
      cell back. */
  function TempfileGet(dec: seq<byte> -> Result<Element>, cellnum: int, file: seq<byte>, count: nat,
                       last: Option<Entry>, j: int, big: bool): (r: Result<Entry>)
    ensures j == count - 1 && last.Some? ==> r == Ok(last.value)
  {
    if j == count - 1 && last.Some? then Ok(last.value)
    else
      var data :- TempfileBytes(count, file, big);
      var es :- ReadCell(dec, cellnum, data, big);
      var k :- PyIndex(j, |es|);
      Ok(es[k])
  }

  /** Appending an entry's record to the records of a list of entries
      gives the records of the longer list. */
  lemma {:induction false} EncodeRecordsSnoc(enc: Element -> Result<seq<byte>>, es: seq<Entry>, e: Entry, big: bool)
    requires EncodeRecords(enc, es, big).Ok?
    ensures var rec := RecordBytes(enc, e.elem, big);
      EncodeRecords(enc, es + [e], big) == if rec.Ok? then Ok(EncodeRecords(enc, es, big).value + rec.value) else rec
    decreases |es|
  {
    var s := es + [e];
    EncodeRecordsCons(enc, s, big);
    if |es| == 0 {
      assert s[1..] == [] && s[0] == e;
      assert EncodeRecords(enc, es, big) == Ok([]) && EncodeRecords(enc, s[1..], big) == Ok([]);
      var rec := RecordBytes(enc, e.elem, big);
      if rec.Ok? {
        assert rec.value + [] == [] + rec.value;
      }
    } else {
      assert s[1..] == es[1..] + [e] && s[0] == es[0];
      EncodeRecordsCons(enc, es, big);
      EncodeRecordsSnoc(enc, es[1..], e, big);
      var first := FrameRecord(enc(es[0].elem).value, big).value;
      var more := EncodeRecords(enc, es[1..], big).value;
      assert EncodeRecords(enc, es, big) == Ok(first + more);
      var rec := RecordBytes(enc, e.elem, big);
      if rec.Ok? {
        assert EncodeRecords(enc, s[1..], big) == Ok(more + rec.value);
        assert EncodeRecords(enc, s, big) == Ok(first + (more + rec.value));
        assert first + (more + rec.value) == first + more + rec.value;
      } else {
        assert EncodeRecords(enc, s[1..], big) == rec;
      }
    }
  }

  /** A CellTempfile whose file holds the records of es, counted, reads
      back as their elements numbered in order: its bytes are the cell
      block of es. */
  lemma TempfileRoundTrip(enc: Element -> Result<seq<byte>>, dec: seq<byte> -> Result<Element>, cellnum: int,
                          es: seq<Entry>, big: bool, out: seq<Element>)
    requires ReadsBack(enc, dec, es, big, out) && |es| < 0x1_0000
    ensures EncodeRecords(enc, es, big).Ok?
    ensures TempfileBytes(|es|, EncodeRecords(enc, es, big).value, big) == CellBytes(enc, |es|, es, big)
    ensures ReadCell(dec, cellnum, TempfileBytes(|es|, EncodeRecords(enc, es, big).value, big).value, big)
            == Ok(Numbered(out, cellnum, 0))
  {
    CellRoundTrip(enc, dec, cellnum, es, big, out);
  }

  /** The last index of a CellTempfile is served from the kept element,
      not from the file: when the file holds the records of es and the
      last add kept x, index |es|-1 gives x, while reading the cell back
      numbers that element |es|-1 and gives the decoded element. */
  lemma TempfileLastIsKept(enc: Element -> Result<seq<byte>>, dec: seq<byte> -> Result<Element>, cellnum: int,
                           es: seq<Entry>, big: bool, out: seq<Element>, x: Entry)
    requires ReadsBack(enc, dec, es, big, out) && 0 < |es| < 0x1_0000
    ensures EncodeRecords(enc, es, big).Ok?
    ensures var file := EncodeRecords(enc, es, big).value;
      var read := ReadCell(dec, cellnum, TempfileBytes(|es|, file, big).value, big);
      TempfileGet(dec, cellnum, file, |es|, Some(x), |es| - 1, big) == Ok(x)
      && read.Ok? && read.value[|es| - 1] == Entry(out[|es| - 1], Some(cellnum), Some(|es| - 1))
  {
    TempfileRoundTrip(enc, dec, cellnum, es, big, out);
    var numbered := Numbered(out, cellnum, 0);
    assert |out| == |es| && numbered[|es| - 1] == Entry(out[|es| - 1], Some(cellnum), Some(|es| - 1));
  }

  // ------------------------------------------------------------ loops

  /** The shelve cells' element generator, drained into a list. */
  method ListKeyed(m: map<Key, Entry>, keys: seq<Key>, n: nat) returns (r: Result<seq<Entry>>)
    ensures r == ListFrom(m, keys, 0, n)
  {
    var out: seq<Entry> := [];
    var i := 0;
    PrefixedNil(ListFrom(m, keys, 0, n));
    while i < n
      invariant 0 <= i <= n
      invariant Prefixed(out, ListFrom(m, keys, i, n)) == ListFrom(m, keys, 0, n)
      decreases n - i
    {
      if |keys| <= i {
        return Fail(IndexError);
      }
      if keys[i] !in m {
        return Fail(KeyError);
      }
      PrefixedTwice(out, [m[keys[i]]], ListFrom(m, keys, i + 1, n));
      out := out + [m[keys[i]]];
      i := i + 1;
    }
    assert out + [] == out;
    return Ok(out);
  }

  /** The `serialize` loop of the shelve cells. */
  method SerializeKeyed(enc: Element -> Result<seq<byte>>, count: int, m: map<Key, Entry>, keys: seq<Key>, big: bool)
    returns (r: Result<seq<byte>>)
    ensures r == KeyedBytes(enc, count, m, keys, big)
  {
    var header := CellHeader(count, big);
    if header.Fail? {
      return Fail(header.failure);
    }
    var data := header.value;
    var i := 0;
    KeyedBytesOf(enc, count, m, keys, big);
    PrefixedNil(KeyedRecords(enc, m, keys, big));
    while i < |keys|
      invariant 0 <= i <= |keys|
      invariant Prefixed(data, KeyedRecords(enc, m, keys[i..], big)) == Prefixed(header.value, KeyedRecords(enc, m, keys, big))
    {
      assert keys[i..][1..] == keys[i + 1..];
      KeyedRecordsCons(enc, m, keys[i..], big);
      if keys[i] !in m {
        return Fail(KeyError);
      }
      var rec := RecordBytes(enc, m[keys[i]].elem, big);
      if rec.Fail? {
        return Fail(rec.failure);
      }
      PrefixedTwice(data, rec.value, KeyedRecords(enc, m, keys[i + 1..], big));
      data := data + rec.value;
      i := i + 1;
    }
    assert keys[i..] == [] && data + [] == data;
    assert KeyedRecords(enc, m, keys[i..], big) == Ok([]);
    return Ok(WordAlign(data));
  }

  // ---------------------------------------------------------- classes

  /** `Layer.shelf`: the shelf the CellCommonShelve cells of a layer
      share. */
  class Shelf {
    var entries: map<Key, Entry>

    constructor ()
      ensures entries == map[]
    {
      entries := map[];
    }
  }

  /** `CellInMemory`: the elements in a list. The box is the cell's
      discrete bounding box, which the element codecs are relative to. */
  class CellInMemory {
    const cellnum: int
    const box: Option<Rec>
    const layertype: int
    const big: bool
    var cellelements: seq<Entry>

    function State(): CellState
      reads this
    {
      Mem(cellelements)
    }

    constructor (cellnum: int, box: Option<Rec>, layertype: int, big: bool)
      ensures this.cellnum == cellnum && this.box == box && this.layertype == layertype && this.big == big
      ensures cellelements == []
    {
      this.cellnum, this.box, this.layertype, this.big := cellnum, box, layertype, big;
      cellelements := [];
    }

    method AddCellElement(e: Entry) returns (n: nat)
      modifies this
      ensures var a := Add(old(State()), cellnum, map[], e); State() == a.cell && n == a.index
    {
      cellelements := cellelements + [Stamped(e, cellnum)];
      n := |cellelements| - 1;
    }

    method Pop(j: int) returns (r: Result<Entry>)
      modifies this
      ensures var p := PopAt(old(State()), map[], j); State() == p.cell && r == p.result
    {
      var k := PyIndex(j, |cellelements|);
      if k.Fail? {
        return Fail(k.failure);
      }
      r := Ok(cellelements[k.value]);
      cellelements := RemoveAt(cellelements, k.value);
    }

    method GetCellElements() returns (r: seq<Entry>)
      ensures Elements(State(), map[]) == Ok(r)
    {
      r := cellelements;
    }

    method GetCellElement(j: int) returns (r: Result<Entry>)
      ensures r == Get(State(), map[], j)
    {
      var k := PyIndex(j, |cellelements|);
      if k.Fail? {
        return Fail(k.failure);
      }
      r := Ok(cellelements[k.value]);
    }

    method DeSerialize(data: seq<byte>) returns (r: Result<()>)
      modifies this
      ensures var d := ReadCell(Decoder(layertype, box, big), cellnum, data, big);
        if d.Ok? then r == Ok(()) && State() == DeSerialized(old(State()), cellnum, map[], d.value).0
        else r == Fail(d.failure) && State() == old(State())
    {
      var d := DeserializeCell(Decoder(layertype, box, big), cellnum, data, big);
      if d.Fail? {
        return Fail(d.failure);
      }
      cellelements := d.value;
      r := Ok(());
    }

    method UpdateElement(j: int, e: Entry) returns (r: Result<()>)
      modifies this
      ensures var u := Update(old(State()), map[], j, e);
        if u.Ok? then r == Ok(()) && State() == u.value.0 else r == Fail(u.failure) && State() == old(State())
    {
      var k := PyIndex(j, |cellelements|);
      if k.Fail? {
        return Fail(k.failure);
      }
      cellelements := cellelements[k.value := e];
      r := Ok(());
    }

    method Serialize() returns (r: Result<seq<byte>>)
      ensures r == Serialized(Encoder(box, big), State(), map[], big)
    {
      r := SerializeCell(Encoder(box, big), |cellelements|, cellelements, big);
    }
  }

  /** `CellTempfile`: the records in a temporary file, the count of adds,
      and the element of the last add. */
  class CellTempfile {
    const cellnum: int
    const box: Option<Rec>
    const layertype: int
    const big: bool
    var file: seq<byte>
    var ncellelements: nat
    var lastcellelement: Option<Entry>

    constructor (cellnum: int, box: Option<Rec>, layertype: int, big: bool)
      ensures this.cellnum == cellnum && this.box == box && this.layertype == layertype && this.big == big
      ensures file == [] && ncellelements == 0 && lastcellelement == None
    {
      this.cellnum, this.box, this.layertype, this.big := cellnum, box, layertype, big;
      file, ncellelements, lastcellelement := [], 0, None;
    }

    /** The count goes up before the record is made, so an element that
        cannot be serialized still counts. */
    method AddCellElement(e: Entry) returns (r: Result<nat>)
      modifies this
      ensures ncellelements == old(ncellelements) + 1
      ensures var rec := RecordBytes(Encoder(box, big), Stamped(e, cellnum).elem, big);
        if rec.Ok? then
          file == old(file) + rec.value && lastcellelement == Some(Stamped(e, cellnum)) && r == Ok(old(ncellelements))
        else
          file == old(file) && lastcellelement == old(lastcellelement) && r == Fail(rec.failure)
    {
      ncellelements := ncellelements + 1;
      var stamped := Stamped(e, cellnum);
      var rec := RecordBytes(Encoder(box, big), stamped.elem, big);
      if rec.Fail? {
        return Fail(rec.failure);
      }
      file := file + rec.value;
      lastcellelement := Some(stamped);
      r := Ok(ncellelements - 1);
    }

    method Serialize() returns (r: Result<seq<byte>>)
      ensures r == TempfileBytes(ncellelements, file, big)
    {
      var header := CellHeader(ncellelements, big);
      if header.Fail? {
        return Fail(header.failure);
      }
      r := Ok(WordAlign(header.value + file));
    }

    method GetCellElements() returns (r: Result<seq<Entry>>)
      ensures var data := TempfileBytes(ncellelements, file, big);
        r == if data.Ok? then ReadCell(Decoder(layertype, box, big), cellnum, data.value, big) else Fail(data.failure)
    {
      var data := Serialize();
      if data.Fail? {
        return Fail(data.failure);
      }
      r := DeserializeCell(Decoder(layertype, box, big), cellnum, data.value, big);
    }

    method GetCellElement(j: int) returns (r: Result<Entry>)
      ensures r == TempfileGet(Decoder(layertype, box, big), cellnum, file, ncellelements, lastcellelement, j, big)
    {
      if j == ncellelements - 1 && lastcellelement.Some? {
        return Ok(lastcellelement.value);
      }
      var es := GetCellElements();
      if es.Fail? {
        return Fail(es.failure);
      }
      var k := PyIndex(j, |es.value|);
      if k.Fail? {
        return Fail(k.failure);
      }
      r := Ok(es.value[k.value]);
    }

    /** The bytes given are written over the start of the file; the count
        and the kept element stay as they were. */
    method DeSerialize(data: seq<byte>)
      modifies this
      ensures file == Overwrite(old(file), data)
      ensures ncellelements == old(ncellelements) && lastcellelement == old(lastcellelement)
    {
      file := Overwrite(file, data);
    }

    method UpdateElement(j: int, e: Entry) returns (r: Result<()>)
      ensures r == Fail(RuntimeError)
    {
      r := Fail(RuntimeError);
    }
  }

  /** `CellShelve`: the elements in a store of the cell's own, filed
      under keys drawn from a counter and listed in a key list. Updates
      and deSerialize are the corrected ones (see `UpdateAsWritten`,
      `DeSerializedAsWritten`). */
  class CellShelve {
    const cellnum: int
    const box: Option<Rec>
    const layertype: int
    const big: bool
    var store: map<Key, Entry>
    var cellelementkeys: seq<Key>
    var maxkey: nat

    function State(): CellState
      reads this
    {
      Shelved(store, cellelementkeys, maxkey)
    }

    constructor (cellnum: int, box: Option<Rec>, layertype: int, big: bool)
      ensures this.cellnum == cellnum && this.box == box && this.layertype == layertype && this.big == big
      ensures State() == Shelved(map[], [], 0)
    {
      this.cellnum, this.box, this.layertype, this.big := cellnum, box, layertype, big;
      store, cellelementkeys, maxkey := map[], [], 0;
    }

    method AddCellElement(e: Entry) returns (n: nat)
      modifies this
      ensures var a := Add(old(State()), cellnum, map[], e); State() == a.cell && n == a.index
    {
      var key := Plain(maxkey);
      maxkey := maxkey + 1;
      store := store[key := e];
      cellelementkeys := cellelementkeys + [key];
      n := |cellelementkeys| - 1;
    }

    method Pop(j: int) returns (r: Result<Entry>)
      modifies this
      ensures var p := PopAt(old(State()), map[], j); State() == p.cell && r == p.result
    {
      var k := PyIndex(j, |cellelementkeys|);
      if k.Fail? {
        return Fail(k.failure);
      }
      var key := cellelementkeys[k.value];
      cellelementkeys := RemoveAt(cellelementkeys, k.value);
      r := Lookup(store, key);
      store := store - {key};
    }

    method GetCellElements() returns (r: Result<seq<Entry>>)
      ensures r == Elements(State(), map[])
    {
      r := ListKeyed(store, cellelementkeys, |store|);
    }

    method GetCellElement(j: int) returns (r: Result<Entry>)
      ensures r == Get(State(), map[], j)
    {
      var k := PyIndex(j, |cellelementkeys|);
      if k.Fail? {
        return Fail(k.failure);
      }
      r := Lookup(store, cellelementkeys[k.value]);
    }

    /** Each entry read is added; on a decoding failure nothing is. */
    method DeSerialize(data: seq<byte>) returns (r: Result<()>)
      modifies this
      ensures var d := ReadCell(Decoder(layertype, box, big), cellnum, data, big);
        if d.Ok? then r == Ok(()) && State() == DeSerialized(old(State()), cellnum, map[], d.value).0
        else r == Fail(d.failure) && State() == old(State())
    {
      var d := DeserializeCell(Decoder(layertype, box, big), cellnum, data, big);
      if d.Fail? {
        return Fail(d.failure);
      }
      var es := d.value;
      var i := 0;
      while i < |es|
        invariant 0 <= i <= |es|
        invariant AddAll(State(), cellnum, map[], es[i..]) == AddAll(old(State()), cellnum, map[], es)
      {
        assert es[i..][0] == es[i] && es[i..][1..] == es[i + 1..];
        var _ := AddCellElement(es[i]);
        i := i + 1;
      }
      return Ok(());
    }

    method UpdateElement(j: int, e: Entry) returns (r: Result<()>)
      modifies this
      ensures var u := Update(old(State()), map[], j, e);
        if u.Ok? then r == Ok(()) && State() == u.value.0 else r == Fail(u.failure) && State() == old(State())
    {
      var k := PyIndex(j, |cellelementkeys|);
      if k.Fail? {
        return Fail(k.failure);
      }
      store := store[cellelementkeys[k.value] := e];
      r := Ok(());
    }

    method Serialize() returns (r: Result<seq<byte>>)
      ensures r == Serialized(Encoder(box, big), State(), map[], big)
    {
      r := SerializeKeyed(Encoder(box, big), |store|, store, cellelementkeys, big);
    }
  }

  /** `CellCommonShelve`: the elements in the shelf shared by the cells
      of a layer, filed under keys `cellnum/n`; the cell keeps the key
      list and the counter. */
  class CellCommonShelve {
    const cellnum: int
    const box: Option<Rec>
    const layertype: int
    const big: bool
    const shelf: Shelf
    var cellelementkeys: seq<Key>
    var maxkey: nat

    function State(): CellState
      reads this
    {
      Common(cellelementkeys, maxkey)
    }

    constructor (cellnum: int, box: Option<Rec>, layertype: int, big: bool, shelf: Shelf)
      ensures this.cellnum == cellnum && this.box == box && this.layertype == layertype && this.big == big
      ensures this.shelf == shelf && State() == Common([], 0)
    {
      this.cellnum, this.box, this.layertype, this.big, this.shelf := cellnum, box, layertype, big, shelf;
      cellelementkeys, maxkey := [], 0;
    }

    method AddCellElement(e: Entry) returns (n: nat)
      modifies this, shelf
      ensures var a := Add(old(State()), cellnum, old(shelf.entries), e);
        State() == a.cell && shelf.entries == a.shelf && n == a.index
    {
      var key := Slashed(cellnum, maxkey);
      maxkey := maxkey + 1;
      shelf.entries := shelf.entries[key := e];
      cellelementkeys := cellelementkeys + [key];
      n := |cellelementkeys| - 1;
    }

    method Pop(j: int) returns (r: Result<Entry>)
      modifies this, shelf
      ensures var p := PopAt(old(State()), old(shelf.entries), j);
        State() == p.cell && shelf.entries == p.shelf && r == p.result
    {
      var k := PyIndex(j, |cellelementkeys|);
      if k.Fail? {
        return Fail(k.failure);
      }
      var key := cellelementkeys[k.value];
      cellelementkeys := RemoveAt(cellelementkeys, k.value);
      r := Lookup(shelf.entries, key);
      shelf.entries := shelf.entries - {key};
    }

    method GetCellElements() returns (r: Result<seq<Entry>>)
      ensures r == Elements(State(), shelf.entries)
    {
      r := ListKeyed(shelf.entries, cellelementkeys, |cellelementkeys|);
    }

    method GetCellElement(j: int) returns (r: Result<Entry>)
      ensures r == Get(State(), shelf.entries, j)
    {
      var k := PyIndex(j, |cellelementkeys|);
      if k.Fail? {
        return Fail(k.failure);
      }
      r := Lookup(shelf.entries, cellelementkeys[k.value]);
    }

    method DeSerialize(data: seq<byte>) returns (r: Result<()>)
      modifies this, shelf
      ensures var d := ReadCell(Decoder(layertype, box, big), cellnum, data, big);
        if d.Ok? then
          r == Ok(()) && (State(), shelf.entries) == DeSerialized(old(State()), cellnum, old(shelf.entries), d.value)
        else r == Fail(d.failure) && State() == old(State()) && shelf.entries == old(shelf.entries)
    {
      var d := DeserializeCell(Decoder(layertype, box, big), cellnum, data, big);
      if d.Fail? {
        return Fail(d.failure);
      }
      var es := d.value;
      var i := 0;
      while i < |es|
        invariant 0 <= i <= |es|
        invariant AddAll(State(), cellnum, shelf.entries, es[i..]) == AddAll(old(State()), cellnum, old(shelf.entries), es)
      {
        assert es[i..][0] == es[i] && es[i..][1..] == es[i + 1..];
        var _ := AddCellElement(es[i]);
        i := i + 1;
      }
      return Ok(());
    }

    method UpdateElement(j: int, e: Entry) returns (r: Result<()>)
      modifies shelf
      ensures var u := Update(old(State()), old(shelf.entries), j, e);
        if u.Ok? then r == Ok(()) && shelf.entries == u.value.1 else r == Fail(u.failure) && shelf.entries == old(shelf.entries)
    {
      var k := PyIndex(j, |cellelementkeys|);
      if k.Fail? {
        return Fail(k.failure);
      }
      shelf.entries := shelf.entries[cellelementkeys[k.value] := e];
      r := Ok(());
    }

    method Serialize() returns (r: Result<seq<byte>>)
      ensures r == Serialized(Encoder(box, big), State(), shelf.entries, big)
    {
      r := SerializeKeyed(Encoder(box, big), |cellelementkeys|, shelf.entries, cellelementkeys, big);
    }
  }
}
