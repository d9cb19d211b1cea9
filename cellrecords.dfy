/** The byte layout of a cell block (magellan/Cell.py): a header of two
    16-bit words, the element count and a zero skip count, then one
    record per element — a 16-bit size word and the element's bytes —
    and a zero byte when needed to end on a word boundary. */
module CellRecords {
  import opened Wrappers
  import opened PyStruct
  import opened Geometry
  import opened CellCodec
  import opened CellElement
  import opened PolylineCodec
  import opened AreaCodec
  import opened RoutingEdge
  import opened ElementBounds

  /** A cell element as a cell holds it: the element with its `cellnum`
      and `numincell` attributes. */
  datatype Entry = Entry(elem: Element, cellnum: Option<int>, numincell: Option<nat>)

  /** t is a key of `cellElementTypeMap`. */
  predicate KnownType(t: int)
  {
    t == 11 || t == 12 || t == 13 || t == 15 || t == 16 || t == 17
  }

  // ------------------------------------------------------------ records

  /** The coordinate bytes a precision selector leaves out of the size
      word: the field size of each of its four 2-bit precisions. */
  function SelectorBytes(sel: byte): (n: nat)
    ensures n <= 16
  {
    DSize(sel % 4) + DSize(sel / 4 % 4) + DSize(sel / 16 % 4) + DSize(sel / 64)
  }

  /** `_serialize_cellelement`: the size word, which is the length of the
      element's bytes less the selector's field sizes plus 17, then the
      bytes. The selector is the first byte, so none is an IndexError. */
  function FrameRecord(payload: seq<byte>, big: bool): (r: Result<seq<byte>>)
    ensures |payload| == 0 ==> r == Fail(IndexError)
    ensures r.Ok? <==> |payload| > 0 && |payload| + 17 - SelectorBytes(payload[0]) < 0x1_0000
    ensures r.Ok? ==> |r.value| == |payload| + 2 && r.value[2..] == payload
  {
    if |payload| == 0 then Fail(IndexError)
    else
      var w :- PackU16(|payload| - SelectorBytes(payload[0]) + 17, big);
      Ok(w + payload)
  }

  /** Python's reading of a slice bound n on a sequence of length len: a
      negative bound counts from the end, and both ends are clipped. */
  function SliceBound(n: int, len: nat): (k: nat)
    ensures k <= len
    ensures 0 <= n <= len ==> k == n
  {
    if n < 0 then (if len + n < 0 then 0 else len + n) else if n > len then len else n
  }

  /** One turn of the `_deserialize` loop: the size word and the selector
      (`unpack("HB")`, a StructError on fewer than three bytes), then the
      record `data[0:size]` and what follows it, `data[size:]`. */
  function ReadRecord(data: seq<byte>, big: bool): (r: Result<(seq<byte>, seq<byte>)>)
    ensures r.Ok? <==> |data| >= 3
    ensures r.Ok? ==> r.value.0 + r.value.1 == data[2..]
  {
    if |data| < 3 then Fail(StructError)
    else
      var rest := data[2..];
      var k := SliceBound(GetU16(data, big) - 17 + SelectorBytes(data[2]), |rest|);
      Ok((rest[..k], rest[k..]))
  }

  /** A framed record reads back as the bytes it frames, whatever follows
      it. */
  lemma RecordRoundTrip(payload: seq<byte>, big: bool, tail: seq<byte>)
    requires FrameRecord(payload, big).Ok?
    ensures ReadRecord(FrameRecord(payload, big).value + tail, big) == Ok((payload, tail))
  {
    var framed := FrameRecord(payload, big).value;
    var data := framed + tail;
    var size := |payload| - SelectorBytes(payload[0]) + 17;
    assert framed[..2] == U16(size, big);
    assert data[..2] == framed[..2];
    assert GetU16(data, big) == GetU16(data[..2], big) == size;
    assert data[2..] == payload + tail;
  }

  // ------------------------------------------------------------ elements

  /** `cellelement.serialize(cell, bigendian)` in a cell whose box is
      `box` (its `_dbbox`): coordinates become relative to the box's lower
      corner. A label serializes to None, whose length is a TypeError; a
      cell without a box has no corner (AttributeError) once the
      element's bounds are taken. */
  function ElementBytes(box: Option<Rec>, e: Element, big: bool): (r: Result<seq<byte>>)
    ensures r.Ok? ==> box.Some? && HasBounds(e) && !e.Label?
    ensures e.Label? ==> r == Fail(TypeError)
  {
    if e.Label? then Fail(TypeError)
    else if box.None? then (if ElementBox(e).Fail? then Fail(ElementBox(e).failure) else Fail(AttributeError))
    else
      var org := box.value.c1;
      match e
      case POI(_, _, _, _) => SerializePOI(org, e, big)
      case Point(_, _, _) => SerializePoint(org, e, big)
      case Area(rings, _, _, _) =>
        if |rings| == 0 || !RingsNonEmpty(rings) then Fail(ValueError)
        else EncodeArea(RelBox(org, AreaBounds(rings)), RelRings(org, rings), e.objtype, e.textslot,
                        |e.excess| == 0, big)
      case Polyline(_, _, _, _, _, _) => SerializePolyline(org, e, big)
      case Routing(_, _, _, _, _, _, _, _, _, _, _, _, _, _, _, _) => SerializeRouting(org, e, big)
  }

  /** `cellElementTypeMap[layertype]()` followed by `deSerialize(cell,
      data, bigendian)`: an unknown layer type is a KeyError; a label
      reads nothing and stays without a position; the other decoders need
      the cell's lower corner. */
  function DecodeElement(layertype: int, box: Option<Rec>, data: seq<byte>, big: bool): (r: Result<Element>)
    ensures !KnownType(layertype) ==> r == Fail(KeyError)
    ensures layertype == 15 ==> r == Ok(Label(None))
  {
    if !KnownType(layertype) then Fail(KeyError)
    else if layertype == 15 then Ok(Label(None))
    else if box.None? then Fail(AttributeError)
    else
      var org := box.value.c1;
      if layertype == 16 then DeserializePOI(org, data, big)
      else if layertype == 11 then DeserializePoint(org, data, big)
      else if layertype == 12 then DeserializeArea(org, data, big)
      else if layertype == 13 then DeserializePolyline(org, data, big)
      else DeserializeRouting(org, data, big)
  }

  /** Decoding gives an element of the layer's class. */
  lemma DecodedTypecode(layertype: int, box: Option<Rec>, data: seq<byte>, big: bool)
    ensures var r := DecodeElement(layertype, box, data, big); r.Ok? ==> Typecode(r.value) == layertype
  {
    var r := DecodeElement(layertype, box, data, big);
    if !KnownType(layertype) || layertype == 15 || box.None? {
    } else if layertype == 16 {
      assert r == DeserializePOI(box.value.c1, data, big);
      TypeOfPOI(box.value.c1, data, big);
    } else if layertype == 11 {
      assert r == DeserializePoint(box.value.c1, data, big);
      TypeOfPoint(box.value.c1, data, big);
    } else if layertype == 12 {
      assert r == DeserializeArea(box.value.c1, data, big);
      TypeOfArea(box.value.c1, data, big);
    } else if layertype == 13 {
      assert r == DeserializePolyline(box.value.c1, data, big);
      TypeOfPolyline(box.value.c1, data, big);
    } else {
      assert r == DeserializeRouting(box.value.c1, data, big);
      TypeOfRouting(box.value.c1, data, big);
    }
  }

  lemma TypecodeOfKind(e: Element)
    ensures e.POI? ==> Typecode(e) == 16
    ensures e.Point? ==> Typecode(e) == 11
    ensures e.Area? ==> Typecode(e) == 12
    ensures e.Polyline? ==> Typecode(e) == 13
    ensures e.Routing? ==> Typecode(e) == 17
  {
  }

  lemma TypeOfPOI(org: Pt, data: seq<byte>, big: bool)
    ensures var d := DeserializePOI(org, data, big); d.Ok? ==> Typecode(d.value) == 16
  {
    var d := DeserializePOI(org, data, big);
    if d.Ok? {
      TypecodeOfKind(d.value);
    }
  }

  lemma TypeOfPoint(org: Pt, data: seq<byte>, big: bool)
    ensures var d := DeserializePoint(org, data, big); d.Ok? ==> Typecode(d.value) == 11
  {
    var d := DeserializePoint(org, data, big);
    if d.Ok? {
      TypecodeOfKind(d.value);
    }
  }

  lemma TypeOfArea(org: Pt, data: seq<byte>, big: bool)
    ensures var d := DeserializeArea(org, data, big); d.Ok? ==> Typecode(d.value) == 12
  {
    var d := DeserializeArea(org, data, big);
    if d.Ok? {
      TypecodeOfKind(d.value);
    }
  }

  lemma TypeOfPolyline(org: Pt, data: seq<byte>, big: bool)
    ensures var d := DeserializePolyline(org, data, big); d.Ok? ==> Typecode(d.value) == 13
  {
    var d := DeserializePolyline(org, data, big);
    if d.Ok? {
      TypecodeOfKind(d.value);
    }
  }

  lemma TypeOfRouting(org: Pt, data: seq<byte>, big: bool)
    ensures var d := DeserializeRouting(org, data, big); d.Ok? ==> Typecode(d.value) == 17
  {
    var d := DeserializeRouting(org, data, big);
    if d.Ok? {
      TypecodeOfKind(d.value);
    }
  }

  /** `checkcellelement`: the element must be of the layer's class. */
  function CheckCellElement(layertype: int, e: Element): (r: Result<()>)
    ensures !KnownType(layertype) ==> r == Fail(KeyError)
    ensures KnownType(layertype) ==> (r.Ok? <==> Typecode(e) == layertype)
    ensures r.Fail? && KnownType(layertype) ==> r.failure == ValueError
  {
    if !KnownType(layertype) then Fail(KeyError)
    else if Typecode(e) != layertype then Fail(ValueError)
    else Ok(())
  }

  // --------------------------------------------------------------- cells

  /** The element serializer of a cell whose box is `box`. */
  function Encoder(box: Option<Rec>, big: bool): Element -> Result<seq<byte>>
  {
    e => ElementBytes(box, e, big)
  }

  /** The element decoder of a cell whose box is `box` in a layer of type
      `layertype`. */
  function Decoder(layertype: int, box: Option<Rec>, big: bool): seq<byte> -> Result<Element>
  {
    d => DecodeElement(layertype, box, d, big)
  }

  /** `pack("2H", count, 0)`. */
  function CellHeader(count: int, big: bool): (r: Result<seq<byte>>)
    ensures r.Ok? <==> 0 <= count < 0x1_0000
    ensures r.Ok? ==> |r.value| == 4 && GetU16(r.value, big) == count && GetU16(r.value[2..], big) == 0
  {
    var c :- PackU16(count, big);
    assert c == (c + U16(0, big))[..2];
    Ok(c + U16(0, big))
  }

  /** "Align to word boundary": one zero byte after an odd length. */
  function WordAlign(data: seq<byte>): (r: seq<byte>)
    ensures |r| % 2 == 0 && |data| <= |r| <= |data| + 1 && r[..|data|] == data
  {
    if |data| % 2 != 0 then data + [0] else data
  }

  /** The framed records of the entries' elements, in order. */
  function EncodeRecords(enc: Element -> Result<seq<byte>>, es: seq<Entry>, big: bool): (r: Result<seq<byte>>)
    decreases |es|
  {
    if |es| == 0 then Ok([])
    else
      var payload :- enc(es[0].elem);
      var rec :- FrameRecord(payload, big);
      var more :- EncodeRecords(enc, es[1..], big);
      Ok(rec + more)
  }

  /** `serialize`: the header with the count the cell gives, the records
      of its entries in order, and word alignment. */
  function CellBytes(enc: Element -> Result<seq<byte>>, count: int, es: seq<Entry>, big: bool): (r: Result<seq<byte>>)
    ensures r.Ok? <==> 0 <= count < 0x1_0000 && EncodeRecords(enc, es, big).Ok?
    ensures r.Ok? ==> |r.value| % 2 == 0 && |r.value| >= 4
    ensures r.Ok? ==> GetU16(r.value, big) == count && GetU16(r.value[2..], big) == 0
  {
    var h :- CellHeader(count, big);
    var body :- EncodeRecords(enc, es, big);
    var r := WordAlign(h + body);
    assert r[..4] == h && r[2..][..2] == h[2..];
    Ok(r)
  }

  /** `prefix` put before the value of a successful result. */
  function Prefixed<T>(prefix: seq<T>, r: Result<seq<T>>): Result<seq<T>>
  {
    if r.Ok? then Ok(prefix + r.value) else Fail(r.failure)
  }

  lemma PrefixedNil<T>(r: Result<seq<T>>)
    ensures Prefixed([], r) == r
  {
    if r.Ok? {
      assert [] + r.value == r.value;
    }
  }

  lemma PrefixedTwice<T>(a: seq<T>, b: seq<T>, r: Result<seq<T>>)
    ensures Prefixed(a, Prefixed(b, r)) == Prefixed(a + b, r)
  {
    if r.Ok? {
      assert a + (b + r.value) == a + b + r.value;
    }
  }

  /** The first record of a list of entries. */
  lemma EncodeRecordsCons(enc: Element -> Result<seq<byte>>, es: seq<Entry>, big: bool)
    requires |es| > 0
    ensures var p := enc(es[0].elem);
      EncodeRecords(enc, es, big)
      == if p.Fail? then Fail(p.failure)
         else if FrameRecord(p.value, big).Fail? then Fail(FrameRecord(p.value, big).failure)
         else Prefixed(FrameRecord(p.value, big).value, EncodeRecords(enc, es[1..], big))
  {
  }

  /** A cell's bytes are the header before its records, word aligned. */
  lemma CellBytesOf(enc: Element -> Result<seq<byte>>, count: int, es: seq<Entry>, big: bool)
    requires CellHeader(count, big).Ok?
    ensures var b := Prefixed(CellHeader(count, big).value, EncodeRecords(enc, es, big));
      CellBytes(enc, count, es, big) == if b.Ok? then Ok(WordAlign(b.value)) else b
  {
  }

  /** The serialize loop: the header, then one framed record per entry,
      then the alignment byte. */
  method SerializeCell(enc: Element -> Result<seq<byte>>, count: int, es: seq<Entry>, big: bool)
    returns (r: Result<seq<byte>>)
    ensures r == CellBytes(enc, count, es, big)
  {
    var header := CellHeader(count, big);
    if header.Fail? {
      return Fail(header.failure);
    }
    var data := header.value;
    var i := 0;
    CellBytesOf(enc, count, es, big);
    PrefixedNil(EncodeRecords(enc, es, big));
    while i < |es|
      invariant 0 <= i <= |es|
      invariant Prefixed(data, EncodeRecords(enc, es[i..], big)) == Prefixed(header.value, EncodeRecords(enc, es, big))
    {
      assert es[i..][1..] == es[i + 1..];
      EncodeRecordsCons(enc, es[i..], big);
      var payload := enc(es[i].elem);
      if payload.Fail? {
        return Fail(payload.failure);
      }
      var rec := FrameRecord(payload.value, big);
      if rec.Fail? {
        return Fail(rec.failure);
      }
      PrefixedTwice(data, rec.value, EncodeRecords(enc, es[i + 1..], big));
      data := data + rec.value;
      i := i + 1;
    }
    assert es[i..] == [] && data + [] == data;
    assert EncodeRecords(enc, es[i..], big) == Ok([]);
    return Ok(WordAlign(data));
  }

  /** Records i up to n of `_deserialize`, each numbered and given the
      cell's number. */
  function ReadRecords(dec: seq<byte> -> Result<Element>, cellnum: int, data: seq<byte>, big: bool, i: nat, n: nat)
    : (r: Result<seq<Entry>>)
    ensures r.Ok? ==> |r.value| == if i <= n then n - i else 0
    decreases n - i
  {
    if i >= n then Ok([])
    else
      var rec :- ReadRecord(data, big);
      var e :- dec(rec.0);
      var more :- ReadRecords(dec, cellnum, rec.1, big, i + 1, n);
      Ok([Entry(e, Some(cellnum), Some(i))] + more)
  }

  /** Each entry carries the cell's number and its position, counted
      from i. */
  predicate NumberedFrom(es: seq<Entry>, cellnum: int, i: nat)
  {
    forall j :: 0 <= j < |es| ==> es[j].cellnum == Some(cellnum) && es[j].numincell == Some(i + j)
  }

  lemma NumberedFromCons(x: Entry, es: seq<Entry>, cellnum: int, i: nat)
    requires x.cellnum == Some(cellnum) && x.numincell == Some(i) && NumberedFrom(es, cellnum, i + 1)
    ensures NumberedFrom([x] + es, cellnum, i)
  {
    var r := [x] + es;
    forall j | 0 <= j < |r| ensures r[j].cellnum == Some(cellnum) && r[j].numincell == Some(i + j) {
      if j > 0 {
        assert r[j] == es[j - 1];
      }
    }
  }

  /** Every record read carries the cell's number and its own position,
      counted from i. */
  lemma {:induction false} ReadRecordsStamped(dec: seq<byte> -> Result<Element>, cellnum: int, data: seq<byte>, big: bool, i: nat, n: nat)
    ensures var r := ReadRecords(dec, cellnum, data, big, i, n); r.Ok? ==> NumberedFrom(r.value, cellnum, i)
    decreases n - i
  {
    if i < n {
      ReadRecordsCons(dec, cellnum, data, big, i, n);
      var rec := ReadRecord(data, big);
      if rec.Ok? && dec(rec.value.0).Ok? {
        ReadRecordsStamped(dec, cellnum, rec.value.1, big, i + 1, n);
        var more := ReadRecords(dec, cellnum, rec.value.1, big, i + 1, n);
        if more.Ok? {
          NumberedFromCons(Entry(dec(rec.value.0).value, Some(cellnum), Some(i)), more.value, cellnum, i);
        }
      }
    }
  }

  /** The first of records i up to n. */
  lemma ReadRecordsCons(dec: seq<byte> -> Result<Element>, cellnum: int, data: seq<byte>, big: bool, i: nat, n: nat)
    requires i < n
    ensures var rec := ReadRecord(data, big);
      ReadRecords(dec, cellnum, data, big, i, n)
      == if rec.Fail? then Fail(rec.failure)
         else if dec(rec.value.0).Fail? then Fail(dec(rec.value.0).failure)
         else Prefixed([Entry(dec(rec.value.0).value, Some(cellnum), Some(i))],
                       ReadRecords(dec, cellnum, rec.value.1, big, i + 1, n))
  {
  }

  /** `_deserialize`: a StructError before a whole header, an exception
      for a packed cell (nonzero skip count), else the counted records,
      numbered from 0 in the cell's number. */
  function ReadCell(dec: seq<byte> -> Result<Element>, cellnum: int, data: seq<byte>, big: bool): (r: Result<seq<Entry>>)
    ensures |data| < 4 ==> r == Fail(StructError)
    ensures |data| >= 4 && GetU16(data[2..], big) != 0 ==> r == Fail(RuntimeError)
    ensures r.Ok? ==> |r.value| == GetU16(data, big)
    ensures r.Ok? ==> NumberedFrom(r.value, cellnum, 0)
  {
    if |data| < 4 then Fail(StructError)
    else if GetU16(data[2..], big) != 0 then Fail(RuntimeError)
    else
      ReadRecordsStamped(dec, cellnum, data[4..], big, 0, GetU16(data, big));
      ReadRecords(dec, cellnum, data[4..], big, 0, GetU16(data, big))
  }

  /** The `_deserialize` loop. */
  method DeserializeCell(dec: seq<byte> -> Result<Element>, cellnum: int, data0: seq<byte>, big: bool)
    returns (r: Result<seq<Entry>>)
    ensures r == ReadCell(dec, cellnum, data0, big)
  {
    if |data0| < 4 {
      return Fail(StructError);
    }
    var n, skip := GetU16(data0, big), GetU16(data0[2..], big);
    if skip != 0 {
      return Fail(RuntimeError);
    }
    var data := data0[4..];
    var entries: seq<Entry> := [];
    var i := 0;
    ghost var want := ReadCell(dec, cellnum, data0, big);
    assert want == ReadRecords(dec, cellnum, data, big, 0, n);
    PrefixedNil(ReadRecords(dec, cellnum, data, big, i, n));
    while i < n
      invariant 0 <= i <= n
      invariant Prefixed(entries, ReadRecords(dec, cellnum, data, big, i, n)) == want
      decreases n - i
    {
      ReadRecordsCons(dec, cellnum, data, big, i, n);
      var rec := ReadRecord(data, big);
      if rec.Fail? {
        return Fail(rec.failure);
      }
      var e := dec(rec.value.0);
      if e.Fail? {
        return Fail(e.failure);
      }
      PrefixedTwice(entries, [Entry(e.value, Some(cellnum), Some(i))], ReadRecords(dec, cellnum, rec.value.1, big, i + 1, n));
      entries := entries + [Entry(e.value, Some(cellnum), Some(i))];
      data := rec.value.1;
      i := i + 1;
    }
    assert entries + [] == entries;
    return Ok(entries);
  }

  /** When every element the decoder gives is of the layer's class, so is
      every element of the records it reads. */
  lemma {:induction false} RecordsOfType(dec: seq<byte> -> Result<Element>, layertype: int, cellnum: int,
                                         data: seq<byte>, big: bool, i: nat, n: nat)
    requires forall d :: dec(d).Ok? ==> Typecode(dec(d).value) == layertype
    ensures var r := ReadRecords(dec, cellnum, data, big, i, n);
      r.Ok? ==> forall j :: 0 <= j < |r.value| ==> Typecode(r.value[j].elem) == layertype
    decreases n - i
  {
    if i < n && |data| >= 3 {
      ReadRecordsCons(dec, cellnum, data, big, i, n);
      RecordsOfType(dec, layertype, cellnum, ReadRecord(data, big).value.1, big, i + 1, n);
    }
  }

  /** Every element a cell of a layer reads is of the layer's class. */
  lemma CellOfLayerType(layertype: int, box: Option<Rec>, cellnum: int, data: seq<byte>, big: bool)
    ensures var r := ReadCell(Decoder(layertype, box, big), cellnum, data, big);
      r.Ok? ==> forall j :: 0 <= j < |r.value| ==> Typecode(r.value[j].elem) == layertype
  {
    var dec := Decoder(layertype, box, big);
    forall d | dec(d).Ok?
      ensures Typecode(dec(d).value) == layertype
    {
      DecodedTypecode(layertype, box, d, big);
    }
    if |data| >= 4 {
      RecordsOfType(dec, layertype, cellnum, data[4..], big, 0, GetU16(data, big));
    }
  }

  // ---------------------------------------------------------- round trip

  /** e serializes to a record that decodes as d. */
  predicate RecordReadsBack(enc: Element -> Result<seq<byte>>, dec: seq<byte> -> Result<Element>, e: Element, big: bool,
                            d: Element)
  {
    enc(e).Ok? && FrameRecord(enc(e).value, big).Ok? && dec(enc(e).value) == Ok(d)
  }

  /** Every entry's element serializes to a record that decodes as the
      element of `out` at its index. */
  predicate ReadsBack(enc: Element -> Result<seq<byte>>, dec: seq<byte> -> Result<Element>, es: seq<Entry>, big: bool,
                      out: seq<Element>)
  {
    |out| == |es| && forall i :: 0 <= i < |es| ==> RecordReadsBack(enc, dec, es[i].elem, big, out[i])
  }

  /** Entries as `_deserialize` makes them: numbered from i in cell cellnum. */
  function Numbered(out: seq<Element>, cellnum: int, i: nat): (r: seq<Entry>)
    ensures |r| == |out|
  {
    seq(|out|, j requires 0 <= j < |out| => Entry(out[j], Some(cellnum), Some(i + j)))
  }

  lemma NumberedCons(out: seq<Element>, cellnum: int, i: nat)
    requires |out| > 0
    ensures Numbered(out, cellnum, i) == [Entry(out[0], Some(cellnum), Some(i))] + Numbered(out[1..], cellnum, i + 1)
  {
    var a := Numbered(out, cellnum, i);
    var b := [Entry(out[0], Some(cellnum), Some(i))] + Numbered(out[1..], cellnum, i + 1);
    forall j | 0 <= j < |a|
      ensures a[j] == b[j]
    {
      if j > 0 {
        assert b[j] == Numbered(out[1..], cellnum, i + 1)[j - 1];
      }
    }
  }

  lemma ReadsBackTail(enc: Element -> Result<seq<byte>>, dec: seq<byte> -> Result<Element>, es: seq<Entry>,
                      big: bool, out: seq<Element>)
    requires ReadsBack(enc, dec, es, big, out) && |es| > 0
    ensures ReadsBack(enc, dec, es[1..], big, out[1..])
  {
    assert forall k :: 0 <= k < |es| - 1 ==> es[1..][k] == es[k + 1] && out[1..][k] == out[k + 1];
  }

  /** Reading a framed record that decodes as d, before records that
      read as `rest`. */
  lemma RecordStep(enc: Element -> Result<seq<byte>>, dec: seq<byte> -> Result<Element>, cellnum: int, e: Element,
                   d: Element, big: bool, i: nat, n: nat, more: seq<byte>, tail: seq<byte>, rest: seq<Entry>)
    requires RecordReadsBack(enc, dec, e, big, d) && i < n
    requires ReadRecords(dec, cellnum, more + tail, big, i + 1, n) == Ok(rest)
    ensures ReadRecords(dec, cellnum, FrameRecord(enc(e).value, big).value + more + tail, big, i, n)
            == Ok([Entry(d, Some(cellnum), Some(i))] + rest)
  {
    var payload := enc(e).value;
    var rec := FrameRecord(payload, big).value;
    assert rec + more + tail == rec + (more + tail);
    RecordRoundTrip(payload, big, more + tail);
    ReadRecordsCons(dec, cellnum, rec + (more + tail), big, i, n);
  }

  /** The records of entries whose first element reads back. */
  lemma EncodeReadsBackCons(enc: Element -> Result<seq<byte>>, dec: seq<byte> -> Result<Element>, es: seq<Entry>,
                            big: bool, d: Element)
    requires |es| > 0 && RecordReadsBack(enc, dec, es[0].elem, big, d) && EncodeRecords(enc, es[1..], big).Ok?
    ensures EncodeRecords(enc, es, big)
            == Ok(FrameRecord(enc(es[0].elem).value, big).value + EncodeRecords(enc, es[1..], big).value)
  {
  }

  /** The first entry's record before the records of the others. */
  lemma RoundTripStep(enc: Element -> Result<seq<byte>>, dec: seq<byte> -> Result<Element>, cellnum: int,
                      es: seq<Entry>, big: bool, out: seq<Element>, i: nat, n: nat, tail: seq<byte>)
    requires ReadsBack(enc, dec, es, big, out) && |es| > 0 && n == i + |es|
    requires EncodeRecords(enc, es[1..], big).Ok?
    requires ReadRecords(dec, cellnum, EncodeRecords(enc, es[1..], big).value + tail, big, i + 1, n)
             == Ok(Numbered(out[1..], cellnum, i + 1))
    ensures EncodeRecords(enc, es, big).Ok?
    ensures ReadRecords(dec, cellnum, EncodeRecords(enc, es, big).value + tail, big, i, n) == Ok(Numbered(out, cellnum, i))
  {
    assert RecordReadsBack(enc, dec, es[0].elem, big, out[0]);
    EncodeReadsBackCons(enc, dec, es, big, out[0]);
    RecordStep(enc, dec, cellnum, es[0].elem, out[0], big, i, n, EncodeRecords(enc, es[1..], big).value, tail,
               Numbered(out[1..], cellnum, i + 1));
    NumberedCons(out, cellnum, i);
  }

  lemma {:induction false} RecordsRoundTrip(enc: Element -> Result<seq<byte>>, dec: seq<byte> -> Result<Element>,
                                            cellnum: int, es: seq<Entry>, big: bool, out: seq<Element>, i: nat,
                                            n: nat, tail: seq<byte>)
    requires ReadsBack(enc, dec, es, big, out) && n == i + |es|
    ensures EncodeRecords(enc, es, big).Ok?
    ensures ReadRecords(dec, cellnum, EncodeRecords(enc, es, big).value + tail, big, i, n) == Ok(Numbered(out, cellnum, i))
    decreases |es|
  {
    if |es| > 0 {
      ReadsBackTail(enc, dec, es, big, out);
      RecordsRoundTrip(enc, dec, cellnum, es[1..], big, out[1..], i + 1, n, tail);
      RoundTripStep(enc, dec, cellnum, es, big, out, i, n, tail);
    } else {
      assert Numbered(out, cellnum, i) == [];
    }
  }

  /** A cell of entries whose elements each read back decodes to those
      elements, numbered in order, in the cell's number. */
  lemma CellRoundTrip(enc: Element -> Result<seq<byte>>, dec: seq<byte> -> Result<Element>, cellnum: int,
                      es: seq<Entry>, big: bool, out: seq<Element>)
    requires ReadsBack(enc, dec, es, big, out) && |es| < 0x1_0000
    ensures CellBytes(enc, |es|, es, big).Ok?
    ensures ReadCell(dec, cellnum, CellBytes(enc, |es|, es, big).value, big) == Ok(Numbered(out, cellnum, 0))
  {
    var h := CellHeader(|es|, big).value;
    RecordsRoundTrip(enc, dec, cellnum, es, big, out, 0, |es|, []);
    var body := EncodeRecords(enc, es, big).value;
    var data := CellBytes(enc, |es|, es, big).value;
    var pad := data[|h + body|..];
    assert data == h + body + pad;
    assert data[4..] == body + pad;
    RecordsRoundTrip(enc, dec, cellnum, es, big, out, 0, |es|, pad);
  }

  /** Point elements whose box fits the record format read back from a
      point layer's cell, with an absent text slot still absent. */
  lemma PointsReadBack(b: Rec, es: seq<Entry>, big: bool)
    requires forall i :: 0 <= i < |es| ==>
               (es[i].elem.Point? && Encodable(RelBox(b.c1, PointBox(es[i].elem.coord)))
                && 0 <= es[i].elem.objtype < 0x100 && SlotValue(es[i].elem.textslot) < 0x1_0000_0000
                && Index(SlotValue(es[i].elem.textslot)) < 0x1_0000)
    ensures ReadsBack(Encoder(Some(b), big), Decoder(11, Some(b), big), es, big,
                      seq(|es|, i requires 0 <= i < |es| =>
                        Point(es[i].elem.coord, es[i].elem.objtype, Normalized(es[i].elem.textslot))))
  {
    forall i | 0 <= i < |es|
      ensures RecordReadsBack(Encoder(Some(b), big), Decoder(11, Some(b), big), es[i].elem, big,
                              Point(es[i].elem.coord, es[i].elem.objtype, Normalized(es[i].elem.textslot)))
    {
      PointRoundTrip(b.c1, es[i].elem, big);
    }
  }
}
