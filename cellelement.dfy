/** The cell elements of magellan/CellElement.py as values, the mapping
    between absolute layer coordinates and coordinates relative to the
    owning cell, and the POI and point record codecs. */
module CellElement {
  import opened Wrappers
  import opened PyStruct
  import opened Geometry
  import opened CellCodec
  import opened Chunks

  /** One geometry record. Coordinates are discrete absolute layer
      coordinates with y growing northwards; a text slot is None or a
      32-bit value (offset byte, 24-bit index). `excess` holds raw bytes
      appended after a polyline or an area. */
  datatype Element =
    | POI(coord: Pt, categoryid: int, subcategoryid: int, textslot: Option<nat>)
    | Point(coord: Pt, objtype: int, textslot: Option<nat>)
    | Label(position: Option<Pt>)
    | Area(rings: seq<seq<Pt>>, objtype: int, textslot: Option<nat>, excess: seq<byte>)
    | Polyline(coords: seq<Pt>, objtype: int, textslot: Option<nat>, unk: Option<byte>,
               routingvertexindices: seq<nat>, excess: seq<byte>)
    | Routing(coords: seq<Pt>, layernumref: int, cellnumref: int, numincellref: int,
              ivertices: (int, int), bidirectional: bool, reversedir: bool,
              edgeindices: (int, int), orientations: (int, int),
              segmentflags: Option<int>, speedcat: Option<int>, segmenttype: Option<int>,
              distance: int, restrictions: seq<int>, unk1: int, unk2: int)

  /** The `typecode` class attribute of each element class. */
  function Typecode(e: Element): (code: nat)
    ensures code in {11, 12, 13, 15, 16, 17}
  {
    if e.POI? then 16
    else if e.Point? then 11
    else if e.Label? then 15
    else if e.Area? then 12
    else if e.Polyline? then 13
    else 17
  }

  /** `Cell.absToRelCoords` applied to (x, -y): the y axis is flipped and
      the cell's lower corner `org` becomes the origin. */
  function ToRel(org: Pt, p: Pt): (v: Pt)
    ensures ToAbs(org, v) == p
  {
    Pt(p.x - org.x, -p.y - org.y)
  }

  /** `Cell.relToAbsCoords` followed by flipping y back. */
  function ToAbs(org: Pt, v: Pt): Pt
  {
    Pt(v.x + org.x, -(v.y + org.y))
  }

  lemma ToRelOfAbs(org: Pt, v: Pt)
    ensures ToRel(org, ToAbs(org, v)) == v
  {
  }

  /** The vertex list a serializer works on. */
  function Rels(org: Pt, ps: seq<Pt>): (vs: seq<Pt>)
    ensures |vs| == |ps|
    ensures forall i :: 0 <= i < |ps| ==> vs[i] == ToRel(org, ps[i])
  {
    seq(|ps|, i requires 0 <= i < |ps| => ToRel(org, ps[i]))
  }

  /** The coordinates a deserializer stores. */
  function Abss(org: Pt, vs: seq<Pt>): (ps: seq<Pt>)
    ensures |ps| == |vs|
    ensures forall i :: 0 <= i < |vs| ==> ps[i] == ToAbs(org, vs[i])
  {
    seq(|vs|, i requires 0 <= i < |vs| => ToAbs(org, vs[i]))
  }

  lemma AbssOfRels(org: Pt, ps: seq<Pt>)
    ensures Abss(org, Rels(org, ps)) == ps
  {
  }

  /** The bounding box `_serialize_bbox` writes for absolute bounds `b`:
      the corners (minx, -maxy) and (maxx, -miny) made cell relative. */
  function RelBox(org: Pt, b: Rec): (r: Rec)
    ensures b.Valid() ==> r.Valid()
    ensures r.Width() == b.Width() && r.Height() == b.Height()
  {
    Rec(ToRel(org, b.UL()), ToRel(org, b.LR()))
  }

  /** A point lies in `b` exactly when its relative position lies in the
      relative box. */
  lemma RelBoxContains(org: Pt, b: Rec, p: Pt)
    ensures b.Contains(p) <==> RelBox(org, b).Contains(ToRel(org, p))
  {
  }

  lemma RelBoxUnion(org: Pt, a: Rec, b: Rec)
    ensures RelBox(org, a.Union(b)) == RelBox(org, a).Union(RelBox(org, b))
  {
  }

  /** Making the bounds relative is the same as bounding the relative
      vertices. */
  lemma {:induction false} RelBoxBounds(org: Pt, ps: seq<Pt>)
    requires |ps| > 0
    ensures RelBox(org, Bounds(ps)) == Bounds(Rels(org, ps))
  {
    if |ps| > 1 {
      var n := |ps| - 1;
      RelBoxBounds(org, ps[..n]);
      assert Rels(org, ps)[..n] == Rels(org, ps[..n]);
      RelBoxUnion(org, Bounds(ps[..n]), Rec(ps[n], ps[n]));
    }
  }

  /** The bounds of a point element. */
  function PointBox(p: Pt): (b: Rec)
    ensures b.Valid() && b.Contains(p) && b.Width() == 0 && b.Height() == 0
  {
    Rec(p, p)
  }

  // ---------------------------------------------------------------- POI

  /** `CellElementPOI.serialize`: bounding box, category and subcategory
      bytes, then the text slot with its offset byte, in last position,
      with a one-byte index allowed. */
  function SerializePOI(org: Pt, e: Element, big: bool): (r: Result<seq<byte>>)
    requires e.POI?
    ensures r.Ok? <==> Encodable(RelBox(org, PointBox(e.coord))) && 0 <= e.categoryid < 0x100
                       && 0 <= e.subcategoryid < 0x100 && SlotValue(e.textslot) < 0x1_0000_0000
    ensures r.Ok? ==> |r.value| <= 17 + 2 + 5
  {
    var bb :- EncodeBBox(RelBox(org, PointBox(e.coord)), big);
    var cat :- PackU8(e.categoryid);
    var sub :- PackU8(e.subcategoryid);
    var ts :- EncodeTextslotAsWritten(e.textslot, big, false, true, true);
    Ok(bb + cat + sub + ts)
  }

  /** `CellElementPOI.deSerialize`: the position is the lower corner of
      the decoded box. */
  function DeserializePOI(org: Pt, data: seq<byte>, big: bool): (r: Result<Element>)
    ensures r.Ok? ==> r.value.POI? && 0 <= r.value.categoryid < 0x100
                      && 0 <= r.value.subcategoryid < 0x100 && r.value.textslot != Some(NoText)
  {
    var bb :- DecodeBBox(data, big);
    var cat :- ReadU8(bb.1);
    var sub :- ReadU8(cat.1);
    var ts :- DecodeTextslot(sub.1, big, None, true);
    Ok(POI(ToAbs(org, bb.0.c1), cat.0, sub.0, ts.0))
  }

  /** Every POI the serializer accepts whose text index fits 16 bits reads
      back, with the sentinel slot read as None. */
  lemma POIRoundTrip(org: Pt, e: Element, big: bool)
    requires e.POI? && Encodable(RelBox(org, PointBox(e.coord)))
    requires 0 <= e.categoryid < 0x100 && 0 <= e.subcategoryid < 0x100
    requires SlotValue(e.textslot) < 0x1_0000_0000 && Index(SlotValue(e.textslot)) < 0x1_0000
    ensures SerializePOI(org, e, big).Ok?
    ensures DeserializePOI(org, SerializePOI(org, e, big).value, big)
            == Ok(POI(e.coord, e.categoryid, e.subcategoryid, Normalized(e.textslot)))
  {
    var b := RelBox(org, PointBox(e.coord));
    var bb := EncodeBBox(b, big).value;
    var ts := EncodeTextslotAsWritten(e.textslot, big, false, true, true).value;
    var tail := [e.categoryid as byte] + ([e.subcategoryid as byte] + ts);
    SerializePOIShape(org, e, big);
    BBoxRoundTrip(b, big, tail);
    TextslotAsWrittenAgrees(e.textslot, big, false, true, true);
    TextslotLastRoundTrip(e.textslot, big, true);
    assert ToAbs(org, b.c1) == e.coord;
    DeserializePOIOf(org, bb + tail, b, e.categoryid, e.subcategoryid, ts, big);
  }

  lemma SerializePOIShape(org: Pt, e: Element, big: bool)
    requires e.POI? && Encodable(RelBox(org, PointBox(e.coord)))
    requires 0 <= e.categoryid < 0x100 && 0 <= e.subcategoryid < 0x100 && SlotValue(e.textslot) < 0x1_0000_0000
    ensures SerializePOI(org, e, big).value
            == EncodeBBox(RelBox(org, PointBox(e.coord)), big).value
               + ([e.categoryid as byte] + ([e.subcategoryid as byte] + EncodeTextslotAsWritten(e.textslot, big, false, true, true).value))
  {
    var bb := EncodeBBox(RelBox(org, PointBox(e.coord)), big).value;
    var c, d := [e.categoryid as byte], [e.subcategoryid as byte];
    var ts := EncodeTextslotAsWritten(e.textslot, big, false, true, true).value;
    assert SerializePOI(org, e, big).value == bb + c + d + ts;
    AppendAssoc(bb + c, d, ts);
    AppendAssoc(bb, c, d + ts);
  }

  /** Reading a POI whose box and slot decode: the bytes between them are
      the two category bytes. */
  lemma DeserializePOIOf(org: Pt, data: seq<byte>, b: Rec, cat: byte, sub: byte, ts: seq<byte>, big: bool)
    requires DecodeBBox(data, big) == Ok((b, [cat] + ([sub] + ts)))
    requires DecodeTextslot(ts, big, None, true).Ok?
    ensures DeserializePOI(org, data, big)
            == Ok(POI(ToAbs(org, b.c1), cat, sub, DecodeTextslot(ts, big, None, true).value.0))
  {
    ReadByte(cat, [sub] + ts);
    ReadByte(sub, ts);
  }

  lemma ReadByte(v: byte, rest: seq<byte>)
    ensures ReadU8([v] + rest) == Ok((v, rest))
  {
    assert ([v] + rest)[1..] == rest;
  }

  // -------------------------------------------------------------- Point

  /** `CellElementPoint.serialize`: bounding box, the slot's offset byte,
      the object type, then the slot's index in last position. */
  function SerializePoint(org: Pt, e: Element, big: bool): (r: Result<seq<byte>>)
    requires e.Point?
    ensures r.Ok? <==> Encodable(RelBox(org, PointBox(e.coord))) && 0 <= e.objtype < 0x100
                       && SlotValue(e.textslot) < 0x1_0000_0000
    ensures r.Ok? ==> |r.value| <= 17 + 2 + 4
  {
    var bb :- EncodeBBox(RelBox(org, PointBox(e.coord)), big);
    var off :- EncodeTextslotOffset(e.textslot, true);
    var ot :- PackU8(e.objtype);
    // An index in last position without its offset byte is always encodable.
    var ts := EncodeTextslotAsWritten(e.textslot, big, true, true, false).value;
    Ok(bb + off + ot + ts)
  }

  /** `CellElementPoint.deSerialize`: the offset byte read after the box
      becomes the top byte of the slot whose index ends the record. */
  function DeserializePoint(org: Pt, data: seq<byte>, big: bool): (r: Result<Element>)
    ensures r.Ok? ==> r.value.Point? && 0 <= r.value.objtype < 0x100 && r.value.textslot != Some(NoText)
  {
    var bb :- DecodeBBox(data, big);
    var off :- ReadU8(bb.1);
    var ot :- ReadU8(off.1);
    var ts :- DecodeTextslot(ot.1, big, Some(off.0), true);
    Ok(Point(ToAbs(org, bb.0.c1), ot.0, ts.0))
  }

  /** Every point the serializer accepts whose text index fits 16 bits
      reads back. */
  lemma PointRoundTrip(org: Pt, e: Element, big: bool)
    requires e.Point? && Encodable(RelBox(org, PointBox(e.coord)))
    requires 0 <= e.objtype < 0x100
    requires SlotValue(e.textslot) < 0x1_0000_0000 && Index(SlotValue(e.textslot)) < 0x1_0000
    ensures SerializePoint(org, e, big).Ok?
    ensures DeserializePoint(org, SerializePoint(org, e, big).value, big)
            == Ok(Point(e.coord, e.objtype, Normalized(e.textslot)))
  {
    var b := RelBox(org, PointBox(e.coord));
    var t := SlotValue(e.textslot);
    var bb := EncodeBBox(b, big).value;
    var ts := EncodeTextslotAsWritten(e.textslot, big, true, true, false).value;
    var tail := [Offset(t)] + ([e.objtype as byte] + ts);
    assert SerializePoint(org, e, big).value == bb + [Offset(t)] + [e.objtype as byte] + ts;
    AppendAssoc(bb + [Offset(t)], [e.objtype as byte], ts);
    AppendAssoc(bb, [Offset(t)], [e.objtype as byte] + ts);
    BBoxRoundTrip(b, big, tail);
    TextslotAsWrittenAgrees(e.textslot, big, true, true, false);
    TextslotIndexRoundTrip(e.textslot, big, false);
    assert ToAbs(org, b.c1) == e.coord;
    DeserializePointOf(org, bb + tail, b, Offset(t), e.objtype as byte, ts, big);
  }

  /** Reading a point whose box and slot decode: the offset byte and the
      object type lie between them. */
  lemma DeserializePointOf(org: Pt, data: seq<byte>, b: Rec, off: byte, ot: byte, ts: seq<byte>, big: bool)
    requires DecodeBBox(data, big) == Ok((b, [off] + ([ot] + ts)))
    requires DecodeTextslot(ts, big, Some(off), true).Ok?
    ensures DeserializePoint(org, data, big)
            == Ok(Point(ToAbs(org, b.c1), ot, DecodeTextslot(ts, big, Some(off), true).value.0))
  {
    ReadByte(off, [ot] + ts);
    ReadByte(ot, ts);
  }
}
