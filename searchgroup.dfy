/** magellan/SearchGroup.py: search groups, the sorted lists of named
    features a map can be searched by. A group lists its member layers with
    the object types used in each, numbers those object types through the
    layers, keeps its features sorted on a name key, and writes them as rows
    of a main table (name slot, object type, cell element references) with
    an extra table for features that have more than one reference. */
module SearchGroup {
  import opened Wrappers
  import opened PyStr
  import opened Bits
  import DBUtil
  import Chunks

  // ---------------------------------------------------------------------
  // textslot_cmp and getFeatureByCellElement
  // ---------------------------------------------------------------------

  /** A text slot holds the row of the text in its low 24 bits and the
      offset within the row above them. */
  const RowRange: nat := 0x100_0000

  /** Python's cmp on integers. */
  function Cmp(a: int, b: int): (r: int)
    ensures r < 0 <==> a < b
    ensures r == 0 <==> a == b
  {
    if a < b then -1 else if a == b then 0 else 1
  }

  /** `textslot_cmp`: equal slots are 0, None comes first, and two slots
      compare as the pairs (row, offset). */
  function TextslotCmp(x: Option<nat>, y: Option<nat>): int
  {
    if x == y then 0
    else if x.None? then -1
    else if y.None? then 1
    else if x.value % RowRange != y.value % RowRange then Cmp(x.value % RowRange, y.value % RowRange)
    else Cmp(x.value / RowRange, y.value / RowRange)
  }

  /** Slot x is stored before slot y: an earlier row, or the same row at
      a smaller offset. */
  predicate SlotBefore(x: nat, y: nat)
  {
    x % RowRange < y % RowRange || (x % RowRange == y % RowRange && x / RowRange < y / RowRange)
  }

  /** A slot is its row and its offset: two slots that agree on both are
      the same. */
  lemma SlotParts(x: nat, y: nat)
    requires x % RowRange == y % RowRange && x / RowRange == y / RowRange
    ensures x == y
  {
    assert x == RowRange * (x / RowRange) + x % RowRange;
    assert y == RowRange * (y / RowRange) + y % RowRange;
  }

  /** textslot_cmp is a total order: negative exactly when the first slot
      is stored before the second, zero exactly for equal slots, positive
      exactly when the second is stored first; None sorts before every slot. */
  lemma TextslotOrder(x: nat, y: nat)
    ensures TextslotCmp(Some(x), Some(y)) < 0 <==> SlotBefore(x, y)
    ensures TextslotCmp(Some(x), Some(y)) == 0 <==> x == y
    ensures TextslotCmp(Some(x), Some(y)) > 0 <==> SlotBefore(y, x)
    ensures TextslotCmp(None, Some(x)) < 0 && TextslotCmp(Some(x), None) > 0
  {
    if x % RowRange == y % RowRange && x / RowRange == y / RowRange {
      SlotParts(x, y);
    }
  }

  /** The main table's slot column in stored order. */
  predicate SlotsSorted(slots: seq<nat>)
  {
    forall i, j :: 0 <= i < j < |slots| ==> slots[i] == slots[j] || SlotBefore(slots[i], slots[j])
  }

  /** The linear search for intervals of fewer than four rows: the first
      row from i to stop holding the slot, or "Textslot not found". */
  function Scan(slots: seq<nat>, ts: nat, i: nat, stop: int): (r: Result<nat>)
    requires stop < |slots|
    ensures r.Ok? ==> i <= r.value <= stop && slots[r.value] == ts
    ensures r.Ok? ==> forall j :: i <= j < r.value ==> slots[j] != ts
    ensures r.Fail? <==> forall j :: i <= j <= stop ==> slots[j] != ts
    ensures r.Fail? ==> r.failure == RuntimeError
    decreases stop + 1 - i
  {
    if stop < i then Fail(RuntimeError)
    else if slots[i] == ts then Ok(i)
    else Scan(slots, ts, i + 1, stop)
  }

  /** The recursive search of rows start..stop: a linear scan below four
      rows, otherwise the middle row and then one half, chosen by
      textslot_cmp. */
  function Find(slots: seq<nat>, ts: nat, start: nat, stop: int): (r: Result<nat>)
    requires stop < |slots|
    ensures r.Ok? ==> start <= r.value <= stop && slots[r.value] == ts
    ensures r.Fail? ==> r.failure == RuntimeError
    decreases stop + 1 - start
  {
    if stop - start + 1 < 4 then Scan(slots, ts, start, stop)
    else
      var mid := (start + stop) / 2;
      if ts == slots[mid] then Ok(mid)
      else if TextslotCmp(Some(ts), Some(slots[mid])) < 0 then Find(slots, ts, start, mid - 1)
      else Find(slots, ts, mid + 1, stop)
  }

  /** On a sorted slot column the search finds every slot the rows start..stop hold. */
  lemma {:induction false} FindComplete(slots: seq<nat>, ts: nat, start: nat, stop: int, k: nat)
    requires SlotsSorted(slots) && stop < |slots|
    requires start <= k <= stop && slots[k] == ts
    ensures Find(slots, ts, start, stop).Ok?
    decreases stop + 1 - start
  {
    if stop - start + 1 >= 4 {
      var mid := (start + stop) / 2;
      if ts != slots[mid] {
        TextslotOrder(ts, slots[mid]);
        if TextslotCmp(Some(ts), Some(slots[mid])) < 0 {
          assert k < mid;
          FindComplete(slots, ts, start, mid - 1, k);
        } else {
          assert mid < k;
          FindComplete(slots, ts, mid + 1, stop, k);
        }
      }
    }
  }

  /** The modes a group is opened in: not yet opened (None), 'r', 'w', 'a'. */
  datatype Mode = Unopened | ReadOnly | Write | Append

  /** What `getFeatureByCellElement` gives: outside read-only mode it
      returns (does not raise) a ValueError object; for a cell element
      without text, None; otherwise the row index of the feature. */
  datatype Lookup = ReturnedError | NoText | Found(index: nat)

  function GetFeatureByCellElement(mode: Mode, slots: seq<nat>, textslot: Option<nat>): (r: Result<Lookup>)
    ensures r == Ok(ReturnedError) <==> mode != ReadOnly
    ensures mode == ReadOnly ==> (r == Ok(NoText) <==> textslot.None? || textslot.value == 0xff00_0000)
    ensures r.Ok? && r.value.Found? ==> r.value.index < |slots| && textslot == Some(slots[r.value.index])
    ensures r.Fail? ==> r.failure == RuntimeError
  {
    if mode != ReadOnly then Ok(ReturnedError)
    else if textslot.None? || textslot.value == 0xff00_0000 then Ok(NoText)
    else
      var f := Find(slots, textslot.value, 0, |slots| - 1);
      if f.Fail? then Fail(f.failure) else Ok(Found(f.value))
  }

  /** In read-only mode, on a sorted slot column, a cell element whose slot
      is in the column is found at a row holding it, and one whose slot is
      not raises "Textslot not found". */
  lemma CellElementFound(slots: seq<nat>, ts: nat)
    requires SlotsSorted(slots) && ts != 0xff00_0000
    ensures ts in slots ==> GetFeatureByCellElement(ReadOnly, slots, Some(ts)).Ok?
    ensures ts !in slots ==> GetFeatureByCellElement(ReadOnly, slots, Some(ts)) == Fail(RuntimeError)
  {
    if ts in slots {
      var k :| 0 <= k < |slots| && slots[k] == ts;
      FindComplete(slots, ts, 0, |slots| - 1, k);
    }
  }

  /** The recursive search as the source writes it, with its loop for
      short intervals. */
  method FindSlot(slots: seq<nat>, ts: nat, start: nat, stop: int) returns (r: Result<nat>)
    requires stop < |slots|
    ensures r == Find(slots, ts, start, stop)
    decreases stop + 1 - start
  {
    if stop - start + 1 < 4 {
      var i := start;
      while i <= stop
        invariant start <= i && Scan(slots, ts, i, stop) == Scan(slots, ts, start, stop)
        decreases stop + 1 - i
      {
        if slots[i] == ts {
          return Ok(i);
        }
        i := i + 1;
      }
      return Fail(RuntimeError);
    }
    var mid := (start + stop) / 2;
    if ts == slots[mid] {
      return Ok(mid);
    } else if TextslotCmp(Some(ts), Some(slots[mid])) < 0 {
      r := FindSlot(slots, ts, start, mid - 1);
    } else {
      r := FindSlot(slots, ts, mid + 1, stop);
    }
  }

  // ---------------------------------------------------------------------
  // Feature and GroupNormal._insert
  // ---------------------------------------------------------------------

  /** A keyword attribute of a feature: a string or an integer. */
  datatype Value = Text(s: string) | Num(n: int)

  /** `Feature`: the layer, the cell element references and the keyword
      attributes. */
  datatype Feature = Feature(layerindex: int, refs: seq<(int, int)>, attributes: map<string, Value>)

  /** The `Feature` constructor: an empty name raises, and `len` of an
      integer name raises TypeError. */
  function NewFeature(layerindex: int, refs: seq<(int, int)>, attributes: map<string, Value>): (r: Result<Feature>)
    ensures r.Ok? <==> "name" !in attributes || (attributes["name"].Text? && |attributes["name"].s| > 0)
    ensures r.Ok? ==> r.value == Feature(layerindex, refs, attributes)
    ensures r.Fail? ==> (r.failure == RuntimeError <==> "name" in attributes && attributes["name"] == Text(""))
  {
    if "name" !in attributes then Ok(Feature(layerindex, refs, attributes))
    else
      match attributes["name"]
      case Num(_) => Fail(TypeError)
      case Text(name) => if |name| == 0 then Fail(RuntimeError) else Ok(Feature(layerindex, refs, attributes))
  }

  /** `FeatureNormal(layerindex, refs, name, objtype)`. */
  function NewFeatureNormal(layerindex: int, refs: seq<(int, int)>, name: string, objtype: int): (r: Result<Feature>)
    ensures r.Ok? <==> |name| > 0
    ensures r.Ok? ==> r.value.layerindex == layerindex && r.value.refs == refs
                      && r.value.attributes == map["name" := Text(name), "objtype" := Num(objtype)]
  {
    NewFeature(layerindex, refs, map["name" := Text(name), "objtype" := Num(objtype)])
  }

  /** Python's `<` on byte strings: the first differing character decides,
      and a proper prefix comes first. */
  predicate StrLess(a: string, b: string)
  {
    if |a| == 0 then |b| > 0
    else if |b| == 0 then false
    else if a[0] != b[0] then a[0] < b[0]
    else StrLess(a[1..], b[1..])
  }

  lemma {:induction false} StrLessIrreflexive(a: string)
    ensures !StrLess(a, a)
  {
    if |a| > 0 {
      StrLessIrreflexive(a[1..]);
    }
  }

  /** Any two strings are equal or ordered one way, never both ways. */
  lemma {:induction false} StrLessTotal(a: string, b: string)
    ensures a == b || StrLess(a, b) || StrLess(b, a)
    ensures !(StrLess(a, b) && StrLess(b, a))
  {
    if |a| > 0 && |b| > 0 && a[0] == b[0] {
      StrLessTotal(a[1..], b[1..]);
      if a[1..] == b[1..] {
        assert a == [a[0]] + a[1..] && b == [b[0]] + b[1..];
      }
    }
  }

  lemma {:induction false} StrLessTransitive(a: string, b: string, c: string)
    requires StrLess(a, b) && StrLess(b, c)
    ensures StrLess(a, c)
  {
    if |a| > 0 && a[0] == b[0] && b[0] == c[0] {
      StrLessTransitive(a[1..], b[1..], c[1..]);
    }
  }

  /** A key not above b that is below c: keys[i] <= keys[j] with x < keys[i]
      gives x < keys[j]. */
  lemma StrLessThrough(x: string, y: string, z: string)
    requires StrLess(x, y) && !StrLess(z, y)
    ensures StrLess(x, z)
  {
    StrLessTotal(y, z);
    if y != z {
      StrLessTransitive(x, y, z);
    }
  }

  /** An entry of the feature list: the sort key and the feature. */
  type Item = (string, Feature)

  predicate KeysSorted(items: seq<Item>)
  {
    forall i, j :: 0 <= i < j < |items| ==> !StrLess(items[j].0, items[i].0)
  }

  /** `bisect.bisect_right` on the keys between lo and hi. */
  function BisectRight(items: seq<Item>, key: string, lo: nat, hi: nat): (r: nat)
    requires lo <= hi <= |items|
    ensures lo <= r <= hi
    decreases hi - lo
  {
    if lo < hi then
      var mid := (lo + hi) / 2;
      if StrLess(key, items[mid].0) then BisectRight(items, key, lo, mid)
      else BisectRight(items, key, mid + 1, hi)
    else lo
  }

  /** On sorted keys, bisect_right stops after every key not above the new
      one and before every key above it. */
  lemma {:induction false} BisectRightSplits(items: seq<Item>, key: string, lo: nat, hi: nat)
    requires KeysSorted(items) && lo <= hi <= |items|
    requires forall i :: 0 <= i < lo ==> !StrLess(key, items[i].0)
    requires forall i :: hi <= i < |items| ==> StrLess(key, items[i].0)
    ensures var r := BisectRight(items, key, lo, hi);
            && (forall i :: 0 <= i < r ==> !StrLess(key, items[i].0))
            && (forall i :: r <= i < |items| ==> StrLess(key, items[i].0))
    decreases hi - lo
  {
    if lo < hi {
      var mid := (lo + hi) / 2;
      if StrLess(key, items[mid].0) {
        forall i | mid <= i < |items|
          ensures StrLess(key, items[i].0)
        {
          if i > mid {
            StrLessThrough(key, items[mid].0, items[i].0);
          }
        }
        BisectRightSplits(items, key, lo, mid);
      } else {
        forall i | 0 <= i <= mid
          ensures !StrLess(key, items[i].0)
        {
          if i < mid && StrLess(key, items[i].0) {
            StrLessThrough(key, items[i].0, items[mid].0);
          }
        }
        BisectRightSplits(items, key, mid + 1, hi);
      }
    }
  }

  /** The key of a named feature: the character of its sort hash, then the
      name. */
  function NameKey(name: string): (key: string)
    requires |name| > 0
    ensures |key| == |name| + 1 && key[1..] == name && key[0] as int <= 37
  {
    [DBUtil.CharHash(DBUtil.Upper(name[0])) as char] + name
  }

  /** The list after inserting key and feature where bisect_right puts it. */
  function InsertAt(items: seq<Item>, key: string, f: Feature): seq<Item>
  {
    var i := BisectRight(items, key, 0, |items|);
    items[..i] + [(key, f)] + items[i..]
  }

  /** `_insert`: a feature whose name is empty (or an integer 0) is not
      inserted and None is returned; any other name must be a string; the
      new entry goes in by bisect_right on its key and its index is
      returned. A feature without a name raises KeyError. */
  function Insert(items: seq<Item>, f: Feature): (r: Result<(Option<nat>, seq<Item>)>)
    ensures r.Ok? && r.value.0.None? ==> r.value.1 == items
    ensures r.Ok? && r.value.0.Some? ==>
      r.value.0.value <= |items| && |r.value.1| == |items| + 1 && r.value.1[r.value.0.value].1 == f
    ensures r.Fail? <==> "name" !in f.attributes || (f.attributes["name"].Num? && f.attributes["name"].n != 0)
  {
    if "name" !in f.attributes then Fail(KeyError)
    else
      match f.attributes["name"]
      case Num(n) => if n == 0 then Ok((None, items)) else Fail(TypeError)
      case Text(name) =>
        if |name| == 0 then Ok((None, items))
        else
          var key := NameKey(name);
          var i := BisectRight(items, key, 0, |items|);
          Ok((Some(i), items[..i] + [(key, f)] + items[i..]))
  }

  /** Inserting keeps the list sorted on its keys and adds exactly the new
      entry: nothing is lost or duplicated, and every earlier entry with
      the same key stays before it. */
  lemma InsertKeepsSorted(items: seq<Item>, f: Feature)
    requires KeysSorted(items) && Insert(items, f).Ok? && Insert(items, f).value.0.Some?
    ensures var (i, after) := Insert(items, f).value;
            && KeysSorted(after)
            && multiset(after) == multiset(items) + multiset{after[i.value]}
            && after[..i.value] == items[..i.value] && after[i.value + 1..] == items[i.value..]
            && forall j :: 0 <= j < i.value ==> !StrLess(after[i.value].0, after[j].0)
  {
    var key := NameKey(f.attributes["name"].s);
    var i := BisectRight(items, key, 0, |items|);
    BisectRightSplits(items, key, 0, |items|);
    SortedAt(items, (key, f), i);
    var after := items[..i] + [(key, f)] + items[i..];
    assert after[..i] == items[..i];
    assert after[i + 1..] == items[i..];
    assert items == items[..i] + items[i..];
  }

  /** An entry put between the keys not above it and those above it keeps
      the keys sorted. */
  lemma SortedAt(items: seq<Item>, item: Item, i: nat)
    requires KeysSorted(items) && i <= |items|
    requires forall j :: 0 <= j < i ==> !StrLess(item.0, items[j].0)
    requires forall j :: i <= j < |items| ==> StrLess(item.0, items[j].0)
    ensures KeysSorted(items[..i] + [item] + items[i..])
  {
    var after := items[..i] + [item] + items[i..];
    forall a, b | 0 <= a < b < |after|
      ensures !StrLess(after[b].0, after[a].0)
    {
      if a < i && b == i {
      } else if a == i && b > i {
        StrLessTotal(item.0, after[b].0);
      }
    }
  }

  // ---------------------------------------------------------------------
  // Object type indexes
  // ---------------------------------------------------------------------

  /** One member layer of a group: the layer's number and the object types
      of it the group uses. */
  datatype LayerEntry = LayerEntry(number: int, objtypes: seq<int>)

  /** The first member entry from k on with the given layer number. */
  function FirstLayer(layers: seq<LayerEntry>, number: int, k: nat): (r: Option<nat>)
    requires k <= |layers|
    ensures r.Some? ==> k <= r.value < |layers| && layers[r.value].number == number
    ensures r.Some? ==> forall j :: k <= j < r.value ==> layers[j].number != number
    ensures r.None? ==> forall j :: k <= j < |layers| ==> layers[j].number != number
    decreases |layers| - k
  {
    if k == |layers| then None
    else if layers[k].number == number then Some(k)
    else FirstLayer(layers, number, k + 1)
  }

  /** How many object types the first k entries hold: the index of the
      first object type of entry k. */
  function Offset(layers: seq<LayerEntry>, k: nat): nat
    requires k <= |layers|
  {
    if k == 0 then 0 else |layers[0].objtypes| + Offset(layers[1..], k - 1)
  }

  lemma {:induction false} OffsetSnoc(layers: seq<LayerEntry>, k: nat)
    requires k < |layers|
    ensures Offset(layers, k + 1) == Offset(layers, k) + |layers[k].objtypes|
  {
    if k > 0 {
      OffsetSnoc(layers[1..], k - 1);
    }
  }

  /** Offsets depend only on the object type counts of the entries before. */
  lemma {:induction false} OffsetPrefix(a: seq<LayerEntry>, b: seq<LayerEntry>, k: nat)
    requires k <= |a| && k <= |b|
    requires forall j :: 0 <= j < k ==> |a[j].objtypes| == |b[j].objtypes|
    ensures Offset(a, k) == Offset(b, k)
  {
    if k > 0 {
      OffsetPrefix(a[1..], b[1..], k - 1);
    }
  }

  /** `list.index`: the first position of x. */
  function IndexOf(xs: seq<int>, x: int): (i: nat)
    requires x in xs
    ensures i < |xs| && xs[i] == x && forall j :: 0 <= j < i ==> xs[j] != x
  {
    if xs[0] == x then 0 else 1 + IndexOf(xs[1..], x)
  }

  /** `getObjtypeIndex(layernumber, objtype)`: in the first entry of the
      layer, the index of the object type counted through all entries; an
      object type the entry lacks is appended to it, except in read-only
      mode, which raises ValueError; a layer the group lacks gives None. */
  function ObjtypeIndex(layers: seq<LayerEntry>, number: int, objtype: int, mode: Mode): (r: Result<Option<(nat, seq<LayerEntry>)>>)
    ensures r.Fail? ==> r.failure == ValueError && mode == ReadOnly
    ensures r.Ok? && r.value.None? <==> forall j :: 0 <= j < |layers| ==> layers[j].number != number
  {
    var k := FirstLayer(layers, number, 0);
    if k.None? then Ok(None)
    else
      var l := layers[k.value];
      if objtype in l.objtypes then Ok(Some((Offset(layers, k.value) + IndexOf(l.objtypes, objtype), layers)))
      else if mode == ReadOnly then Fail(ValueError)
      else Ok(Some((Offset(layers, k.value) + |l.objtypes|, layers[k.value := l.(objtypes := l.objtypes + [objtype])])))
  }

  /** Python list indexing, negative indexes counting from the end. */
  function PyIndex(xs: seq<int>, i: int): (r: Result<int>)
    ensures r.Ok? <==> -|xs| <= i < |xs|
    ensures r.Fail? ==> r.failure == IndexError
    ensures 0 <= i < |xs| ==> r == Ok(xs[i])
  {
    if 0 <= i < |xs| then Ok(xs[i])
    else if -|xs| <= i < 0 then Ok(xs[|xs| + i])
    else Fail(IndexError)
  }

  /** `getLayerAndObjtypeFromObjtypeIndex`: the entry whose object types
      the index falls among and the object type there; an index past them
      all raises ValueError. */
  function LayerAndObjtype(layers: seq<LayerEntry>, i: int): (r: Result<(int, int)>)
    decreases |layers|
  {
    if |layers| == 0 then Fail(ValueError)
    else if i < |layers[0].objtypes| then
      var o := PyIndex(layers[0].objtypes, i);
      if o.Fail? then Fail(o.failure) else Ok((layers[0].number, o.value))
    else LayerAndObjtype(layers[1..], i - |layers[0].objtypes|)
  }

  /** The index of object type p of entry k decodes to that entry's layer
      and that object type. */
  lemma {:induction false} ObjtypeAt(layers: seq<LayerEntry>, k: nat, p: nat)
    requires k < |layers| && p < |layers[k].objtypes|
    ensures LayerAndObjtype(layers, Offset(layers, k) + p) == Ok((layers[k].number, layers[k].objtypes[p]))
  {
    if k > 0 {
      ObjtypeAt(layers[1..], k - 1, p);
    }
  }

  /** Every index `getObjtypeIndex` hands out decodes, in the entries it
      leaves, to the layer and object type it was asked for. */
  lemma IndexDecodes(layers: seq<LayerEntry>, number: int, objtype: int, mode: Mode)
    requires ObjtypeIndex(layers, number, objtype, mode).Ok? && ObjtypeIndex(layers, number, objtype, mode).value.Some?
    ensures var (i, after) := ObjtypeIndex(layers, number, objtype, mode).value.value;
            LayerAndObjtype(after, i) == Ok((number, objtype))
  {
    var k := FirstLayer(layers, number, 0).value;
    var (i, after) := ObjtypeIndex(layers, number, objtype, mode).value.value;
    OffsetPrefix(layers, after, k);
    if objtype in layers[k].objtypes {
      ObjtypeAt(layers, k, IndexOf(layers[k].objtypes, objtype));
    } else {
      ObjtypeAt(after, k, |layers[k].objtypes|);
    }
  }

  /** An index below the object types of all entries decodes; one at or
      past their number raises ValueError. */
  lemma {:induction false} DecodeRange(layers: seq<LayerEntry>, i: nat)
    ensures LayerAndObjtype(layers, i).Ok? <==> i < Offset(layers, |layers|)
    ensures LayerAndObjtype(layers, i).Fail? ==> LayerAndObjtype(layers, i).failure == ValueError
  {
    if |layers| > 0 {
      DecodeRange(layers[1..], if i < |layers[0].objtypes| then 0 else i - |layers[0].objtypes|);
    }
  }

  // ---------------------------------------------------------------------
  // initFromIni and updateIni
  // ---------------------------------------------------------------------

  /** The tokens of one entry in the GROUPS line: the layer number and its
      object types in parentheses, with a lone 0 for an entry without any. */
  function EntryTokens(l: LayerEntry): (r: seq<string>)
    ensures |r| >= 3 && r[1] == "(" && r[|r| - 1] == ")"
  {
    [IntStr(l.number), "("] + (if |l.objtypes| == 0 then ["0"] else IntStrs(l.objtypes)) + [")"]
  }

  function IntStrs(xs: seq<int>): (r: seq<string>)
    ensures |r| == |xs| && forall i :: 0 <= i < |r| ==> r[i] == IntStr(xs[i])
  {
    if |xs| == 0 then [] else [IntStr(xs[0])] + IntStrs(xs[1..])
  }

  /** The tokens of the entries, in order. */
  function LayerTokens(layers: seq<LayerEntry>): (r: seq<string>)
    ensures FreeOf(r, ' ')
  {
    if |layers| == 0 then [] else EntryTokens(layers[0]) + LayerTokens(layers[1..])
  }

  lemma {:induction false} LayerTokensSnoc(layers: seq<LayerEntry>, l: LayerEntry)
    ensures LayerTokens(layers + [l]) == LayerTokens(layers) + EntryTokens(l)
  {
    if |layers| == 0 {
      assert layers + [l] == [l];
    } else {
      assert (layers + [l])[1..] == layers[1..] + [l];
      LayerTokensSnoc(layers[1..], l);
    }
  }

  /** The GROUPS entry `updateIni` writes: the name, the number of entries
      and the tokens of each entry, separated by spaces. */
  function GroupConfig(name: string, layers: seq<LayerEntry>): string
  {
    Join([name, IntStr(|layers|)] + LayerTokens(layers), ' ')
  }

  /** An entry as `initFromIni` reads it back: an empty object type list
      was written as "( 0 )". */
  function Normalized(layers: seq<LayerEntry>): (r: seq<LayerEntry>)
    ensures |r| == |layers|
    ensures forall i :: 0 <= i < |r| ==>
      r[i].number == layers[i].number
      && r[i].objtypes == (if |layers[i].objtypes| == 0 then [0] else layers[i].objtypes)
  {
    if |layers| == 0 then [] else [NormalEntry(layers[0])] + Normalized(layers[1..])
  }

  /** The object types of an entry up to its ")" and the tokens after it:
      a missing ")" raises IndexError, a token that is not an integer
      ValueError. */
  function ParseObjtypes(tok: seq<string>): (r: Result<(seq<int>, seq<string>)>)
    ensures r.Ok? ==> |r.value.1| < |tok|
  {
    if |tok| == 0 then Fail(IndexError)
    else if tok[0] == ")" then Ok(([], tok[1..]))
    else
      var v := ParseInt(tok[0]);
      if v.Fail? then Fail(v.failure)
      else
        var rest := ParseObjtypes(tok[1..]);
        if rest.Fail? then rest else Ok(([v.value] + rest.value.0, rest.value.1))
  }

  /** The entries read so far and the exception that stopped the reading,
      if one did: the source appends each entry to the group as it goes. */
  datatype Parsed = Parsed(layers: seq<LayerEntry>, error: Option<Failure>)

  /** The loop over n entries: a layer number, then "(" and object types up
      to ")" or no object types at all. */
  function ParseLayers(tok: seq<string>, n: int): (r: Parsed)
    ensures r.error.None? ==> |r.layers| == (if n < 0 then 0 else n)
    decreases if n < 0 then 0 else n
  {
    if n <= 0 then Parsed([], None)
    else if |tok| == 0 then Parsed([], Some(IndexError))
    else
      var number := ParseInt(tok[0]);
      if number.Fail? then Parsed([], Some(number.failure))
      else if |tok| == 1 then Parsed([], Some(IndexError))
      else if tok[1] == "(" then
        var objs := ParseObjtypes(tok[2..]);
        if objs.Fail? then Parsed([], Some(objs.failure))
        else
          var more := ParseLayers(objs.value.1, n - 1);
          Parsed([LayerEntry(number.value, objs.value.0)] + more.layers, more.error)
      else
        var more := ParseLayers(tok[1..], n - 1);
        Parsed([LayerEntry(number.value, [])] + more.layers, more.error)
  }

  /** `initFromIni` on the GROUPS entry of the group: the name is the first
      token, set before anything can fail; a missing or bad count raises
      with the old entries kept; otherwise the entries are read afresh. */
  function ReadGroupConfig(value: string, layers: seq<LayerEntry>): (r: (string, Parsed))
    ensures r.0 == Split(value, ' ')[0]
  {
    var tok := Split(value, ' ');
    if |tok| < 2 then (tok[0], Parsed(layers, Some(IndexError)))
    else
      var n := ParseInt(tok[1]);
      if n.Fail? then (tok[0], Parsed(layers, Some(n.failure)))
      else (tok[0], ParseLayers(tok[2..], n.value))
  }

  lemma {:induction false} ObjtypesReadBack(xs: seq<int>, rest: seq<string>)
    ensures ParseObjtypes(IntStrs(xs) + [")"] + rest) == Ok((xs, rest))
  {
    var tok := IntStrs(xs) + [")"] + rest;
    if |xs| == 0 {
      assert tok == [")"] + rest;
    } else {
      assert tok[0] == IntStr(xs[0]);
      assert tok[1..] == IntStrs(xs[1..]) + [")"] + rest;
      ParseIntStr(xs[0]);
      ObjtypesReadBack(xs[1..], rest);
      assert [xs[0]] + xs[1..] == xs;
    }
  }

  /** The entry an object type list normalises to. */
  function NormalEntry(l: LayerEntry): LayerEntry
  {
    if |l.objtypes| == 0 then l.(objtypes := [0]) else l
  }

  lemma EntryReadBack(l: LayerEntry, after: seq<string>, n: int)
    requires n > 0
    ensures ParseLayers(EntryTokens(l) + after, n)
      == var more := ParseLayers(after, n - 1); Parsed([NormalEntry(l)] + more.layers, more.error)
  {
    var objs := NormalEntry(l).objtypes;
    var tok := EntryTokens(l) + after;
    EntryTokensParts(l, after);
    ParseIntStr(l.number);
    ObjtypesReadBack(objs, after);
    LayersListStep(tok, n, objs, after);
  }

  lemma EntryTokensParts(l: LayerEntry, after: seq<string>)
    ensures var tok := EntryTokens(l) + after;
      |tok| >= 2 && tok[0] == IntStr(l.number) && tok[1] == "("
      && tok[2..] == IntStrs(NormalEntry(l).objtypes) + [")"] + after
  {
    var head := [IntStr(l.number), "("];
    var tail := IntStrs(NormalEntry(l).objtypes) + [")"];
    assert EntryTokens(l) == head + tail by {
      if |l.objtypes| == 0 {
        assert IntStrs([0]) == ["0"];
      }
    }
    Chunks.AppendAssoc(head, tail, after);
    assert (head + (tail + after))[2..] == tail + after;
  }

  lemma {:induction false} LayersReadBack(layers: seq<LayerEntry>, rest: seq<string>)
    ensures ParseLayers(LayerTokens(layers) + rest, |layers|) == Parsed(Normalized(layers), None)
  {
    if |layers| > 0 {
      var after := LayerTokens(layers[1..]) + rest;
      assert LayerTokens(layers) + rest == EntryTokens(layers[0]) + after;
      EntryReadBack(layers[0], after, |layers|);
      LayersReadBack(layers[1..], rest);
    }
  }

  /** `initFromIni` reads back what `updateIni` wrote: the name, when it
      holds no space, and the entries, each empty object type list read as
      the lone 0 it was written as. */
  lemma IniRoundTrip(name: string, layers: seq<LayerEntry>, old_layers: seq<LayerEntry>)
    requires ' ' !in name
    ensures ReadGroupConfig(GroupConfig(name, layers), old_layers) == (name, Parsed(Normalized(layers), None))
  {
    var toks := [name, IntStr(|layers|)] + LayerTokens(layers);
    assert FreeOf(toks, ' ');
    SplitJoin(toks, ' ');
    ParseIntStr(|layers|);
    assert toks[2..] == LayerTokens(layers) + [];
    LayersReadBack(layers, []);
  }

  // ---------------------------------------------------------------------
  // The tables `close` writes and `_getFeatureByIndex` reads
  // ---------------------------------------------------------------------

  /** What `close` takes from a feature: the text slot `appendText` gave
      its name, its object type index (None when its layer is not in the
      group) and its cell element references. */
  datatype Written = Written(textslot: int, objtype: Option<int>, refs: seq<(int, int)>)

  /** A row of the main table: NAME_REF and CELL_NUM are 'I' fields,
      N_IN_C an 'H' and OBJ_TYPE a 'B'. */
  datatype MainRow = MainRow(nameRef: nat, cellNum: nat, nInC: nat, objType: nat)

  /** A row of the table of further references (CELL_NUM 'I', N_IN_C 'H'). */
  datatype AddRow = AddRow(cellNum: nat, nInC: nat)

  /** The rows written so far and the exception that stopped `close`, if
      one did: the rows before it stay written. */
  datatype Tables = Tables(main: seq<MainRow>, add: seq<AddRow>, error: Option<Failure>)

  predicate FitsI(v: int) { 0 <= v < 0x1_0000_0000 }
  predicate FitsH(v: int) { 0 <= v < 0x1_0000 }
  predicate FitsB(v: int) { 0 <= v < 0x100 }

  /** The marker in CELL_NUM of a feature whose references are in the
      further-references table. */
  const Indirect: nat := 0x8000_0000

  /** One further-reference row per reference, N_IN_C one past the index
      in the cell; a value outside its field raises struct.error after the
      rows before it were written. */
  function AddRefs(add: seq<AddRow>, refs: seq<(int, int)>): (r: (seq<AddRow>, Option<Failure>))
    ensures add <= r.0 && |r.0| <= |add| + |refs|
    ensures r.1.None? <==> forall i :: 0 <= i < |refs| ==> FitsI(refs[i].0) && FitsH(refs[i].1 + 1)
    ensures r.1.None? ==> |r.0| == |add| + |refs| && forall i :: 0 <= i < |refs| ==>
      r.0[|add| + i].cellNum == refs[i].0 && r.0[|add| + i].nInC == refs[i].1 + 1
    ensures r.1.Some? ==> r.1 == Some(StructError)
    decreases |refs|
  {
    if |refs| == 0 then (add, None)
    else if !FitsI(refs[0].0) || !FitsH(refs[0].1 + 1) then (add, Some(StructError))
    else
      var r := AddRefs(add + [AddRow(refs[0].0, refs[0].1 + 1)], refs[1..]);
      assert forall i :: 1 <= i < |refs| ==> refs[i] == refs[1..][i - 1];
      r
  }

  /** The rows of one feature: NAME_REF, OBJ_TYPE, then a lone reference
      in the row itself or the marker, the count and the further rows. */
  function WriteFeature(t: Tables, w: Written): (r: Tables)
    requires t.error.None?
    ensures t.main <= r.main && t.add <= r.add
    ensures r.error.None? ==> |r.main| == |t.main| + 1
    ensures r.error.Some? ==> r.main == t.main
  {
    if !FitsI(w.textslot) || w.objtype.None? || !FitsB(w.objtype.value) then t.(error := Some(StructError))
    else if |w.refs| == 1 then
      var ref := w.refs[0];
      if !FitsI(ref.0) || !FitsH(ref.1 + 1) then t.(error := Some(StructError))
      else Tables(t.main + [MainRow(w.textslot, ref.0, ref.1 + 1, w.objtype.value)], t.add, None)
    else
      var cell := Or(Indirect, |t.add| + 1);
      if !FitsI(cell) || !FitsH(|w.refs|) then t.(error := Some(StructError))
      else
        var (add, err) := AddRefs(t.add, w.refs);
        if err.Some? then Tables(t.main, add, err)
        else Tables(t.main + [MainRow(w.textslot, cell, |w.refs|, w.objtype.value)], add, None)
  }

  /** `close` on empty tables: the features in order. */
  function CloseRows(ws: seq<Written>): (r: Tables)
    ensures r.error.None? ==> |r.main| == |ws|
  {
    if |ws| == 0 then Tables([], [], None)
    else
      var t := CloseRows(ws[..|ws| - 1]);
      if t.error.Some? then t else WriteFeature(t, ws[|ws| - 1])
  }

  lemma {:induction false} CloseRowsPrefix(ws: seq<Written>, k: nat)
    requires k <= |ws| && CloseRows(ws).error.None?
    ensures CloseRows(ws[..k]).error.None?
    ensures CloseRows(ws[..k]).main <= CloseRows(ws).main && CloseRows(ws[..k]).add <= CloseRows(ws).add
    decreases |ws| - k
  {
    if k < |ws| {
      var prev := ws[..|ws| - 1];
      assert ws[..k] == prev[..k];
      CloseRowsPrefix(prev, k);
    } else {
      assert ws[..k] == ws;
    }
  }

  /** Whether CELL_NUM carries the marker (`& 0x80000000`). */
  predicate IsIndirect(cellNum: nat)
  {
    (cellNum / Indirect) % 2 == 1
  }

  /** The further rows from `first` on, `n` of them; a row outside the
      table is modelled as IndexError. */
  function ReadAdds(add: seq<AddRow>, first: int, n: nat): (r: Result<seq<(int, int)>>)
    ensures r.Ok? ==> |r.value| == n
    decreases n
  {
    if n == 0 then Ok([])
    else if first < 0 || first >= |add| then Fail(IndexError)
    else
      var rest := ReadAdds(add, first + 1, n - 1);
      if rest.Fail? then rest else Ok([(add[first].cellNum, add[first].nInC - 1)] + rest.value)
  }

  /** The references of a main row. */
  function DecodeRefs(row: MainRow, add: seq<AddRow>): Result<seq<(int, int)>>
  {
    if IsIndirect(row.cellNum) then ReadAdds(add, row.cellNum % RowRange - 1, row.nInC)
    else Ok([(row.cellNum, row.nInC - 1)])
  }

  /** `_getFeatureByIndex`: the object type and its layer from OBJ_TYPE,
      the name from the auxiliary text at NAME_REF, then the references.
      The layer index the feature gets is the layer number of its entry. */
  function FeatureAt(main: seq<MainRow>, add: seq<AddRow>, aux: seq<string>, layers: seq<LayerEntry>, index: nat): (r: Result<Feature>)
    ensures index >= |main| ==> r == Fail(IndexError)
    ensures r.Ok? ==>
      index < |main| && DecodeRefs(main[index], add).Ok?
      && r.value.refs == DecodeRefs(main[index], add).value
      && LayerAndObjtype(layers, main[index].objType).Ok?
      && var lo := LayerAndObjtype(layers, main[index].objType).value;
        r.value.layerindex == lo.0 && "objtype" in r.value.attributes && r.value.attributes["objtype"] == Num(lo.1)
  {
    if index >= |main| then Fail(IndexError)
    else
      var row := main[index];
      var lo := LayerAndObjtype(layers, row.objType);
      if lo.Fail? then Fail(lo.failure)
      else
        var name := DBUtil.LookupText(aux, row.nameRef % RowRange, row.nameRef / RowRange, Some('\0'), None);
        if name.Fail? then Fail(name.failure)
        else if name.value.None? then assert false; Fail(RuntimeError)
        else
          var refs := DecodeRefs(row, add);
          if refs.Fail? then Fail(refs.failure)
          else NewFeatureNormal(lo.value.0, refs.value, name.value.value, lo.value.1)
  }

  /** The further rows from `first` on hold the references. */
  predicate RowsHold(add: seq<AddRow>, first: nat, refs: seq<(int, int)>)
  {
    first + |refs| <= |add|
    && forall i :: 0 <= i < |refs| ==> add[first + i].cellNum == refs[i].0 && add[first + i].nInC == refs[i].1 + 1
  }

  lemma RowsHoldTail(add: seq<AddRow>, first: nat, refs: seq<(int, int)>)
    requires RowsHold(add, first, refs) && |refs| > 0
    ensures RowsHold(add, first + 1, refs[1..])
    ensures add[first].cellNum == refs[0].0 && add[first].nInC - 1 == refs[0].1
  {
    forall i | 0 <= i < |refs| - 1
      ensures add[first + 1 + i].cellNum == refs[1..][i].0 && add[first + 1 + i].nInC == refs[1..][i].1 + 1
    {
      assert add[first + 1 + i] == add[first + (i + 1)];
    }
    assert add[first + 0] == add[first];
  }

  lemma {:induction false} ReadAddsBack(add: seq<AddRow>, first: nat, refs: seq<(int, int)>)
    requires RowsHold(add, first, refs)
    ensures ReadAdds(add, first, |refs|) == Ok(refs)
    decreases |refs|
  {
    if |refs| > 0 {
      RowsHoldTail(add, first, refs);
      ReadAddsBack(add, first + 1, refs[1..]);
      assert [refs[0]] + refs[1..] == refs;
    }
  }

  lemma Pow2At31()
    ensures Pow2(31) == Indirect
  {
    Pow2Values();
    assert Pow2(32) == 2 * Pow2(31);
  }

  /** The marker and a further-row number up to 2^24 keep apart. */
  lemma IndirectMarker(addrow: nat)
    requires addrow <= RowRange
    ensures Or(Indirect, addrow) == Indirect + addrow && IsIndirect(Indirect + addrow)
    ensures addrow < RowRange ==> (Indirect + addrow) % RowRange == addrow
  {
    Pow2At31();
    OrShiftedAt(1, addrow, 31, Indirect);
    assert (Indirect + addrow) / Indirect == 1;
    assert Indirect + addrow == 0x80 * RowRange + addrow;
  }

  /** The row `WriteFeature` adds for a feature whose references go to
      further rows reads them back. */
  lemma IndirectReadsBack(t: Tables, w: Written)
    requires t.error.None? && |w.refs| != 1
    requires var r := WriteFeature(t, w); r.error.None? && |r.add| < RowRange
    ensures var r := WriteFeature(t, w); DecodeRefs(r.main[|t.main|], r.add) == Ok(w.refs)
  {
    var r := WriteFeature(t, w);
    IndirectMarker(|t.add| + 1);
    var (add, err) := AddRefs(t.add, w.refs);
    assert r.add == add && r.main[|t.main|].nInC == |w.refs|;
    if |w.refs| > 0 {
      ReadAddsBack(r.add, |t.add|, w.refs);
    }
  }

  /** The row `WriteFeature` adds holds the text slot, the object type
      index and the references of the feature. */
  lemma WriteReadsBack(t: Tables, w: Written)
    requires t.error.None?
    requires var r := WriteFeature(t, w); r.error.None? && |r.add| < RowRange
    requires |w.refs| == 1 ==> w.refs[0].0 < Indirect
    ensures var r := WriteFeature(t, w); var row := r.main[|t.main|];
      row.nameRef == w.textslot && w.objtype == Some(row.objType) && DecodeRefs(row, r.add) == Ok(w.refs)
  {
    if |w.refs| != 1 {
      IndirectReadsBack(t, w);
    } else {
      var row := WriteFeature(t, w).main[|t.main|];
      assert row.cellNum == w.refs[0].0 && !IsIndirect(row.cellNum);
      assert [w.refs[0]] == w.refs;
    }
  }

  /** The row `close` writes for the last feature reads back its references. */
  lemma LastReadsBack(ws: seq<Written>, t: Tables)
    requires |ws| > 0 && t == CloseRows(ws) && t.error.None? && |t.add| < RowRange
    requires var w := ws[|ws| - 1]; |w.refs| == 1 ==> w.refs[0].0 < Indirect
    ensures var w := ws[|ws| - 1]; var row := t.main[|ws| - 1];
      row.nameRef == w.textslot && w.objtype == Some(row.objType) && DecodeRefs(row, t.add) == Ok(w.refs)
  {
    var prev := CloseRows(ws[..|ws| - 1]);
    assert t == WriteFeature(prev, ws[|ws| - 1]);
    WriteReadsBack(prev, ws[|ws| - 1]);
  }

  /** What `_getFeatureByIndex` reads from a row `close` wrote: the text
      slot, the object type index and the references of that feature, as
      long as a lone reference's cell number leaves the marker bit clear
      and the further rows are numbered in the 24 bits CELL_NUM has for
      them. */
  lemma CloseReadsBack(ws: seq<Written>, i: nat)
    requires i < |ws| && CloseRows(ws).error.None? && |CloseRows(ws).add| < RowRange
    requires forall j :: 0 <= j < |ws| && |ws[j].refs| == 1 ==> ws[j].refs[0].0 < Indirect
    ensures var t := CloseRows(ws); var row := t.main[i];
      row.nameRef == ws[i].textslot && ws[i].objtype == Some(row.objType) && DecodeRefs(row, t.add) == Ok(ws[i].refs)
  {
    var t := CloseRows(ws);
    var part := ws[..i + 1];
    CloseRowsPrefix(ws, i + 1);
    var tp := CloseRows(part);
    assert part[|part| - 1] == ws[i];
    LastReadsBack(part, tp);
    var row := t.main[i];
    assert row == tp.main[i];
    if IsIndirect(row.cellNum) {
      var first := row.cellNum % RowRange - 1;
      assert ReadAdds(tp.add, first, row.nInC) == Ok(ws[i].refs);
      ReadAddsPrefix(tp.add, t.add, first, row.nInC);
    }
  }

  lemma {:induction false} ReadAddsPrefix(add: seq<AddRow>, more: seq<AddRow>, first: int, n: nat)
    requires add <= more && ReadAdds(add, first, n).Ok?
    ensures ReadAdds(more, first, n) == ReadAdds(add, first, n)
    decreases n
  {
    if n > 0 {
      ReadAddsPrefix(add, more, first + 1, n - 1);
    }
  }

  /** A feature read back from the rows `close` wrote is the feature with
      the references written, the name at its text slot and the layer and
      object type its index stands for. */
  lemma FeatureReadsBack(ws: seq<Written>, aux: seq<string>, layers: seq<LayerEntry>, i: nat, name: string)
    requires i < |ws| && CloseRows(ws).error.None? && |CloseRows(ws).add| < RowRange
    requires forall j :: 0 <= j < |ws| && |ws[j].refs| == 1 ==> ws[j].refs[0].0 < Indirect
    requires ws[i].objtype.Some? && LayerAndObjtype(layers, ws[i].objtype.value).Ok? && ws[i].textslot >= 0
    requires DBUtil.LookupText(aux, ws[i].textslot % RowRange, ws[i].textslot / RowRange, Some('\0'), None) == Ok(Some(name))
    ensures var lo := LayerAndObjtype(layers, ws[i].objtype.value).value;
      FeatureAt(CloseRows(ws).main, CloseRows(ws).add, aux, layers, i) == NewFeatureNormal(lo.0, ws[i].refs, name, lo.1)
  {
    CloseReadsBack(ws, i);
  }

  /** Once a feature fails, `close` stops: the tables stay as they were. */
  lemma {:induction false} CloseRowsStops(ws: seq<Written>, k: nat)
    requires k <= |ws| && CloseRows(ws[..k]).error.Some?
    ensures CloseRows(ws) == CloseRows(ws[..k])
    decreases |ws| - k
  {
    if k == |ws| {
      assert ws[..k] == ws;
    } else {
      var prev := ws[..|ws| - 1];
      assert prev[..k] == ws[..k];
      CloseRowsStops(prev, k);
    }
  }

  lemma CloseRowsStep(ws: seq<Written>, k: nat)
    requires k < |ws|
    ensures var t := CloseRows(ws[..k]);
      CloseRows(ws[..k + 1]) == if t.error.Some? then t else WriteFeature(t, ws[k])
  {
    assert ws[..k + 1][..k] == ws[..k];
  }

  /** The loop of `close` that writes the rows, feature by feature, on
      empty tables. */
  method WriteTables(ws: seq<Written>) returns (t: Tables)
    ensures t == CloseRows(ws)
  {
    t := Tables([], [], None);
    for i := 0 to |ws|
      invariant CloseRows(ws[..i]) == t && t.error.None?
    {
      CloseRowsStep(ws, i);
      t := WriteRows(t, ws[i]);
      if t.error.Some? {
        CloseRowsStops(ws, i + 1);
        return;
      }
    }
    assert ws[..|ws|] == ws;
  }

  /** The body of that loop for one feature; `addrow` counts the further
      rows written. */
  method WriteRows(t: Tables, w: Written) returns (r: Tables)
    requires t.error.None?
    ensures r == WriteFeature(t, w)
  {
    var main, add, addrow := t.main, t.add, |t.add|;
    if !FitsI(w.textslot) || w.objtype.None? || !FitsB(w.objtype.value) {
      return Tables(main, add, Some(StructError));
    }
    if |w.refs| == 1 {
      if !FitsI(w.refs[0].0) || !FitsH(w.refs[0].1 + 1) {
        return Tables(main, add, Some(StructError));
      }
      return Tables(main + [MainRow(w.textslot, w.refs[0].0, w.refs[0].1 + 1, w.objtype.value)], add, None);
    }
    var cell := Or(Indirect, addrow + 1);
    if !FitsI(cell) || !FitsH(|w.refs|) {
      return Tables(main, add, Some(StructError));
    }
    for j := 0 to |w.refs|
      invariant AddRefs(t.add, w.refs) == AddRefs(add, w.refs[j..]) && addrow == |add|
    {
      var cref := w.refs[j];
      if !FitsI(cref.0) || !FitsH(cref.1 + 1) {
        return Tables(main, add, Some(StructError));
      }
      assert w.refs[j..][1..] == w.refs[j + 1..];
      add := add + [AddRow(cref.0, cref.1 + 1)];
      addrow := addrow + 1;
    }
    return Tables(main + [MainRow(w.textslot, cell, |w.refs|, w.objtype.value)], add, None);
  }

  // ---------------------------------------------------------------------
  // The group object
  // ---------------------------------------------------------------------

  /** The state of a parse that stops at an exception: the entries read
      before it, then what the rest of the parse gives. */
  function After(layers: seq<LayerEntry>, p: Parsed): Parsed
  {
    Parsed(layers + p.layers, p.error)
  }

  lemma LayerTokensGrow(layers: seq<LayerEntry>, k: nat)
    requires k < |layers|
    ensures LayerTokens(layers[..k + 1]) == LayerTokens(layers[..k]) + EntryTokens(layers[k])
  {
    assert layers[..k + 1] == layers[..k] + [layers[k]];
    LayerTokensSnoc(layers[..k], layers[k]);
  }

  lemma ObjtypesAfterNone(r: Result<(seq<int>, seq<string>)>)
    ensures ObjtypesAfter([], r) == r
  {
    if r.Ok? {
      assert [] + r.value.0 == r.value.0;
    }
  }

  lemma AfterEmpty(layers: seq<LayerEntry>, e: Option<Failure>)
    ensures After(layers, Parsed([], e)) == Parsed(layers, e)
  {
    assert layers + [] == layers;
  }

  lemma AfterAssoc(a: seq<LayerEntry>, b: seq<LayerEntry>, p: Parsed)
    ensures After(a, After(b, p)) == After(a + b, p)
  {
    assert a + (b + p.layers) == a + b + p.layers;
  }

  lemma EntryTokensAre(l: LayerEntry, objtypelist: seq<string>)
    requires objtypelist == if |IntStrs(l.objtypes)| == 0 then ["0"] else IntStrs(l.objtypes)
    ensures [IntStr(l.number)] + ["("] + objtypelist + [")"] == EntryTokens(l)
  {
  }

  /** The tokens of one more entry extend the config written so far. */
  lemma UpdateStep(head: seq<string>, layers: seq<LayerEntry>, k: nat, toks: seq<string>)
    requires k < |layers| && toks == head + LayerTokens(layers[..k])
    ensures toks + EntryTokens(layers[k]) == head + LayerTokens(layers[..k + 1])
  {
    LayerTokensGrow(layers, k);
    Chunks.AppendAssoc(head, LayerTokens(layers[..k]), EntryTokens(layers[k]));
  }

  lemma LayersListStep(tok: seq<string>, m: int, objs: seq<int>, rest: seq<string>)
    requires m > 0 && |tok| >= 2 && ParseInt(tok[0]).Ok? && tok[1] == "("
    requires ParseObjtypes(tok[2..]) == Ok((objs, rest))
    ensures ParseLayers(tok, m) == After([LayerEntry(ParseInt(tok[0]).value, objs)], ParseLayers(rest, m - 1))
  {
  }

  lemma LayersPlainStep(tok: seq<string>, m: int)
    requires m > 0 && |tok| >= 2 && ParseInt(tok[0]).Ok? && tok[1] != "("
    ensures ParseLayers(tok, m) == After([LayerEntry(ParseInt(tok[0]).value, [])], ParseLayers(tok[1..], m - 1))
  {
  }

  lemma ObjtypesStep(objtypes: seq<int>, tok: seq<string>)
    requires |tok| > 0 && tok[0] != ")" && ParseInt(tok[0]).Ok?
    ensures ObjtypesAfter(objtypes, ParseObjtypes(tok)) == ObjtypesAfter(objtypes + [ParseInt(tok[0]).value], ParseObjtypes(tok[1..]))
  {
    ObjtypesCons(tok);
    ObjtypesAfterAssoc(objtypes, [ParseInt(tok[0]).value], ParseObjtypes(tok[1..]));
  }

  lemma ObjtypesCons(tok: seq<string>)
    requires |tok| > 0 && tok[0] != ")" && ParseInt(tok[0]).Ok?
    ensures ParseObjtypes(tok) == ObjtypesAfter([ParseInt(tok[0]).value], ParseObjtypes(tok[1..]))
  {
  }

  lemma ObjtypesAfterAssoc(a: seq<int>, b: seq<int>, r: Result<(seq<int>, seq<string>)>)
    ensures ObjtypesAfter(a, ObjtypesAfter(b, r)) == ObjtypesAfter(a + b, r)
  {
    if r.Ok? {
      Chunks.AppendAssoc(a, b, r.value.0);
    }
  }

  /** The object types read before the rest of the list. */
  function ObjtypesAfter(objtypes: seq<int>, r: Result<(seq<int>, seq<string>)>): Result<(seq<int>, seq<string>)>
  {
    if r.Fail? then r else Ok((objtypes + r.value.0, r.value.1))
  }

  /** A GroupNormal: its member layer entries and, while it is written,
      its features with their name keys, sorted on the keys. */
  class Group {
    var mode: Mode
    var name: string
    var layers: seq<LayerEntry>
    var items: seq<Item>

    constructor (name: string)
      ensures mode == Unopened && this.name == name && layers == [] && items == []
    {
      mode := Unopened;
      this.name := name;
      layers := [];
      items := [];
    }

    /** `hasLayer`. */
    predicate HasLayer(number: int)
      reads this
    {
      FirstLayer(layers, number, 0).Some?
    }

    /** `addLayer`: a layer the group lacks joins it with no object types. */
    method AddLayer(number: int)
      modifies this
      ensures HasLayer(number)
      ensures layers == if old(HasLayer(number)) then old(layers) else old(layers) + [LayerEntry(number, [])]
      ensures mode == old(mode) && name == old(name) && items == old(items)
    {
      if !HasLayer(number) {
        layers := layers + [LayerEntry(number, [])];
        assert layers[|layers| - 1].number == number;
      }
    }

    /** `getObjtypeIndex`, the loop over the entries with the running
        offset. */
    method GetObjtypeIndex(number: int, objtype: int) returns (r: Result<Option<nat>>)
      modifies this
      ensures var spec := ObjtypeIndex(old(layers), number, objtype, mode);
        && (spec.Fail? ==> r == Fail(spec.failure) && layers == old(layers))
        && (spec.Ok? && spec.value.None? ==> r == Ok(None) && layers == old(layers))
        && (spec.Ok? && spec.value.Some? ==> r == Ok(Some(spec.value.value.0)) && layers == spec.value.value.1)
      ensures mode == old(mode) && name == old(name) && items == old(items)
    {
      var idx := 0;
      var k := 0;
      while k < |layers|
        invariant k <= |layers| && idx == Offset(layers, k) && layers == old(layers)
        invariant mode == old(mode) && name == old(name) && items == old(items)
        invariant FirstLayer(layers, number, 0) == FirstLayer(layers, number, k)
      {
        var l := layers[k];
        if l.number == number {
          if objtype in l.objtypes {
            return Ok(Some(idx + IndexOf(l.objtypes, objtype)));
          }
          if mode == ReadOnly {
            return Fail(ValueError);
          }
          layers := layers[k := l.(objtypes := l.objtypes + [objtype])];
          return Ok(Some(idx + |l.objtypes| + 1 - 1));
        }
        OffsetSnoc(layers, k);
        idx := idx + |l.objtypes|;
        k := k + 1;
      }
      return Ok(None);
    }

    /** `getLayerAndObjtypeFromObjtypeIndex`, the loop with the running
        offset; the layer is given by its number. */
    method GetLayerAndObjtype(i: int) returns (r: Result<(int, int)>)
      ensures r == LayerAndObjtype(layers, i)
    {
      var idx := 0;
      for k := 0 to |layers|
        invariant LayerAndObjtype(layers[k..], i - idx) == LayerAndObjtype(layers, i)
      {
        var l := layers[k];
        var newidx := idx + |l.objtypes|;
        if i < newidx {
          var o := PyIndex(l.objtypes, i - idx);
          if o.Fail? {
            return Fail(o.failure);
          }
          return Ok((l.number, o.value));
        }
        assert layers[k..][1..] == layers[k + 1..];
        idx := newidx;
      }
      return Fail(ValueError);
    }

    /** `_insert`. */
    method InsertFeature(f: Feature) returns (r: Result<Option<nat>>)
      modifies this
      ensures var spec := Insert(old(items), f);
        && (spec.Fail? ==> r == Fail(spec.failure) && items == old(items))
        && (spec.Ok? ==> r == Ok(spec.value.0) && items == spec.value.1)
      ensures mode == old(mode) && name == old(name) && layers == old(layers)
    {
      var spec := Insert(items, f);
      if spec.Fail? {
        return Fail(spec.failure);
      }
      items := spec.value.1;
      return Ok(spec.value.0);
    }

    /** `addFeature` of a GroupNormal: refused in read-only mode; the
        feature's object type gets its index, joining its entry if new, and
        the feature is inserted by name. */
    method AddFeature(f: Feature) returns (r: Result<Option<nat>>)
      requires "objtype" in f.attributes && f.attributes["objtype"].Num?
      modifies this
      ensures old(mode) == ReadOnly ==> r == Fail(ValueError) && layers == old(layers) && items == old(items)
      ensures old(mode) != ReadOnly ==>
        var spec := ObjtypeIndex(old(layers), f.layerindex, f.attributes["objtype"].n, mode);
        && spec.Ok?
        && layers == (if spec.value.Some? then spec.value.value.1 else old(layers))
        && var ins := Insert(old(items), f);
        && (ins.Fail? ==> r == Fail(ins.failure) && items == old(items))
        && (ins.Ok? ==> r == Ok(ins.value.0) && items == ins.value.1)
      ensures mode == old(mode) && name == old(name)
    {
      if mode == ReadOnly {
        return Fail(ValueError);
      }
      var index := GetObjtypeIndex(f.layerindex, f.attributes["objtype"].n);
      r := InsertFeature(f);
    }

    /** `updateIni`: the GROUPS entry of the group. */
    method UpdateIni() returns (config: string)
      ensures config == GroupConfig(name, layers)
    {
      var toks := [name, IntStr(|layers|)];
      ghost var head := toks;
      for k := 0 to |layers|
        invariant toks == head + LayerTokens(layers[..k])
      {
        var l := layers[k];
        var objtypelist := IntStrs(l.objtypes);
        if |objtypelist| == 0 {
          objtypelist := ["0"];
        }
        var entry := [IntStr(l.number)] + ["("] + objtypelist + [")"];
        EntryTokensAre(l, objtypelist);
        UpdateStep(head, layers, k, toks);
        toks := toks + entry;
      }
      assert layers[..|layers|] == layers;
      config := Join(toks, ' ');
    }

    /** `initFromIni`: the entries are read afresh, token by token; the
        exception that stops it is returned, the entries read before it
        kept. */
    method InitFromIni(value: string) returns (err: Option<Failure>)
      modifies this
      ensures var (n, p) := ReadGroupConfig(value, old(layers)); name == n && layers == p.layers && err == p.error
      ensures mode == old(mode) && items == old(items)
    {
      var tok := Split(value, ' ');
      name := tok[0];
      if |tok| < 2 {
        return Some(IndexError);
      }
      var nlayers := ParseInt(tok[1]);
      if nlayers.Fail? {
        return Some(nlayers.failure);
      }
      tok := tok[2..];
      ghost var nm := name;
      ghost var spec := ParseLayers(tok, nlayers.value);
      layers := [];
      var i := 0;
      while i < nlayers.value
        invariant 0 <= i && (nlayers.value >= 0 ==> i <= nlayers.value)
        invariant spec == After(layers, ParseLayers(tok, nlayers.value - i))
        invariant mode == old(mode) && items == old(items) && name == nm
        decreases nlayers.value - i
      {
        ghost var outer := tok;
        ghost var m := nlayers.value - i;
        ghost var before := layers;
        if |tok| == 0 {
          AfterEmpty(layers, Some(IndexError));
          return Some(IndexError);
        }
        var number := ParseInt(tok[0]);
        if number.Fail? {
          AfterEmpty(layers, Some(number.failure));
          return Some(number.failure);
        }
        if |tok| == 1 {
          AfterEmpty(layers, Some(IndexError));
          return Some(IndexError);
        }
        var objtypes := [];
        if tok[1] == "(" {
          tok := tok[2..];
          ghost var inner := ParseObjtypes(tok);
          ObjtypesAfterNone(inner);
          while true
            invariant inner == ObjtypesAfter(objtypes, ParseObjtypes(tok))
            invariant mode == old(mode) && items == old(items) && name == nm && layers == before
            decreases |tok|
          {
            if |tok| == 0 {
              AfterEmpty(layers, Some(IndexError));
              return Some(IndexError);
            }
            if tok[0] == ")" {
              break;
            }
            var v := ParseInt(tok[0]);
            if v.Fail? {
              AfterEmpty(layers, Some(v.failure));
              return Some(v.failure);
            }
            ObjtypesStep(objtypes, tok);
            objtypes := objtypes + [v.value];
            tok := tok[1..];
          }
          assert objtypes + [] == objtypes;
          tok := tok[1..];
          LayersListStep(outer, m, objtypes, tok);
        } else {
          tok := tok[1..];
          LayersPlainStep(outer, m);
        }
        AfterAssoc(layers, [LayerEntry(number.value, objtypes)], ParseLayers(tok, m - 1));
        layers := layers + [LayerEntry(number.value, objtypes)];
        i := i + 1;
      }
      AfterEmpty(layers, None);
      return None;
    }
  }
}
