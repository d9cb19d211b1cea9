/** Field codecs shared by every record kind of magellan/CellElement.py:
    adaptive-precision coordinates, the bounding-box header and text-slot
    references. */
module CellCodec {
  import opened Wrappers
  import opened PyStruct
  import opened Geometry
  import opened Arith

  /** Bytes written for each of the four precision codes. */
  function DSize(prec: nat): nat
    requires prec < 4
  {
    [4, 2, 1, 0][prec]
  }

  /** Values a code can hold: below 2^32, 2^16, 2^8 and exactly 0. */
  function Cap(prec: nat): nat
    requires prec < 4
  {
    [0x1_0000_0000, 0x1_0000, 0x100, 1][prec]
  }

  /** The precision code `_encodecoord` picks for a non-negative value. */
  function CoordCode(c: nat): (prec: nat)
    ensures prec < 4
  {
    if c == 0 then 3 else if c < 0x100 then 2 else if c < 0x1_0000 then 1 else 0
  }

  /** The bytes written for c under its code. */
  function CoordBytes(c: nat, big: bool): seq<byte>
    requires c < 0x1_0000_0000
  {
    if c == 0 then [] else if c < 0x100 then [c] else if c < 0x1_0000 then U16(c, big) else U32(c, big)
  }

  /** `_encodecoord`: the narrowest code that holds c, and c in that many
      bytes. Negative values and values from 2^32 on raise ValueError. */
  function EncodeCoord(c: int, big: bool): (r: Result<(nat, seq<byte>)>)
    ensures r.Ok? <==> 0 <= c < 0x1_0000_0000
    ensures r.Ok? ==> r.value.0 < 4 && |r.value.1| == DSize(r.value.0)
    ensures r.Ok? ==> c < Cap(r.value.0) && (r.value.0 < 3 ==> Cap(r.value.0 + 1) <= c)
  {
    if c < 0 || c >= 0x1_0000_0000 then Fail(ValueError)
    else Ok((CoordCode(c), CoordBytes(c, big)))
  }

  /** `_decodecoord`: reads DSize(prec) bytes; code 3 reads nothing and
      gives 0. */
  function DecodeCoord(prec: nat, data: seq<byte>, big: bool): (r: Result<(nat, seq<byte>)>)
    requires prec < 4
    ensures r.Ok? <==> |data| >= DSize(prec)
    ensures r.Ok? ==> r.value.1 == data[DSize(prec)..] && r.value.0 < Cap(prec)
  {
    if prec == 3 then Ok((0, data))
    else if prec == 2 then ReadU8(data)
    else if prec == 1 then ReadU16(data, big)
    else ReadU32(data, big)
  }

  /** A coordinate decodes to itself and consumes exactly its own bytes. */
  lemma CoordRoundTrip(c: int, big: bool, rest: seq<byte>)
    requires 0 <= c < 0x1_0000_0000
    ensures DecodeCoord(EncodeCoord(c, big).value.0, EncodeCoord(c, big).value.1 + rest, big) == Ok((c, rest))
  {
    var e := EncodeCoord(c, big).value;
    var data := e.1 + rest;
    assert data[..|e.1|] == e.1 && data[|e.1|..] == rest;
    if 0x100 <= c < 0x1_0000 {
      ReadU16Prefix(c, big, rest);
    } else if e.0 == 0 {
      ReadU32Prefix(c, big, rest);
    }
  }

  /** `_serialize_bbox` for an already cell-relative rectangle: a selector
      byte holding the codes of x, y, width and height in bit pairs 0-1,
      2-3, 4-5 and 6-7 (the fields never overlap, so the ORs are sums),
      then the four fields in that order. */
  function EncodeBBox(b: Rec, big: bool): (r: Result<seq<byte>>)
    ensures r.Ok? <==> Encodable(b)
  {
    var x :- EncodeCoord(b.c1.x, big);
    var y :- EncodeCoord(b.c1.y, big);
    var w :- EncodeCoord(b.Width(), big);
    var h :- EncodeCoord(b.Height(), big);
    Ok([x.0 + 4 * y.0 + 16 * w.0 + 64 * h.0] + x.1 + y.1 + w.1 + h.1)
  }

  /** `_deserialize_bbox`. The selector is read as a signed byte; the bit
      pairs of a negative value are those of the unsigned byte, since
      Python's >> and & act on two's complement. */
  function DecodeBBox(data: seq<byte>, big: bool): (r: Result<(Rec, seq<byte>)>)
    ensures r.Ok? ==> r.value.0.Valid() && |r.value.1| < |data|
  {
    var s :- ReadU8(data);
    var sel := GetS8(s.0);
    DecodeFields(sel % 4, (sel / 4) % 4, (sel / 16) % 4, (sel / 64) % 4, s.1, big)
  }

  /** The four fields after the selector: corner, then width and height. */
  function DecodeFields(p0: nat, p1: nat, p2: nat, p3: nat, data: seq<byte>, big: bool): (r: Result<(Rec, seq<byte>)>)
    requires p0 < 4 && p1 < 4 && p2 < 4 && p3 < 4
    ensures r.Ok? ==> r.value.0.Valid() && |r.value.1| <= |data|
  {
    var x :- DecodeCoord(p0, data, big);
    var y :- DecodeCoord(p1, x.1, big);
    var w :- DecodeCoord(p2, y.1, big);
    var h :- DecodeCoord(p3, w.1, big);
    Ok((Rec(Pt(x.0, y.0), Pt(x.0 + w.0, y.0 + h.0)), h.1))
  }

  lemma SelectorFields(p0: nat, p1: nat, p2: nat, p3: nat)
    requires p0 < 4 && p1 < 4 && p2 < 4 && p3 < 4
    ensures var sel := GetS8(p0 + 4 * p1 + 16 * p2 + 64 * p3);
      sel % 4 == p0 && (sel / 4) % 4 == p1 && (sel / 16) % 4 == p2 && (sel / 64) % 4 == p3
  {
    var v := p0 + 4 * p1 + 16 * p2 + 64 * p3;
    var o := if v < 0x80 then 0 else 1;
    var sel := GetS8(v);
    assert sel == v - 0x100 * o;
    var a, b, c := p1 + 4 * p2 + 16 * (p3 - 4 * o), p2 + 4 * (p3 - 4 * o), p3 - 4 * o;
    assert sel == a * 4 + p0 && sel == b * 16 + (p0 + 4 * p1) && sel == c * 64 + (p0 + 4 * p1 + 16 * p2);
    DivAdd(a, p0, 4);
    DivAdd(b, p1, 4);
    DivAdd(b, p0 + 4 * p1, 16);
    DivAdd(c, p2, 4);
    DivAdd(c, p0 + 4 * p1 + 16 * p2, 64);
    DivAdd(-o, p3, 4);
  }

  lemma FieldsChain(p0: nat, p1: nat, p2: nat, p3: nat, s0: seq<byte>, s1: seq<byte>, s2: seq<byte>, s3: seq<byte>,
                    x: nat, y: nat, w: nat, h: nat, big: bool, rest: seq<byte>)
    requires p0 < 4 && p1 < 4 && p2 < 4 && p3 < 4
    requires DecodeCoord(p0, s0, big) == Ok((x, s1)) && DecodeCoord(p1, s1, big) == Ok((y, s2))
    requires DecodeCoord(p2, s2, big) == Ok((w, s3)) && DecodeCoord(p3, s3, big) == Ok((h, rest))
    ensures DecodeFields(p0, p1, p2, p3, s0, big) == Ok((Rec(Pt(x, y), Pt(x + w, y + h)), rest))
  {
  }

  lemma Regroup(e0: seq<byte>, e1: seq<byte>, e2: seq<byte>, e3: seq<byte>, rest: seq<byte>)
    ensures e0 + e1 + e2 + e3 + rest == e0 + (e1 + (e2 + (e3 + rest)))
  {
  }

  lemma FieldsRoundTrip(x: nat, y: nat, w: nat, h: nat, big: bool, rest: seq<byte>)
    requires x < 0x1_0000_0000 && y < 0x1_0000_0000 && w < 0x1_0000_0000 && h < 0x1_0000_0000
    ensures DecodeFields(CoordCode(x), CoordCode(y), CoordCode(w), CoordCode(h),
                         CoordBytes(x, big) + CoordBytes(y, big) + CoordBytes(w, big) + CoordBytes(h, big) + rest, big)
              == Ok((Rec(Pt(x, y), Pt(x + w, y + h)), rest))
  {
    var ex, ey, ew, eh := EncodeCoord(x, big).value, EncodeCoord(y, big).value,
                          EncodeCoord(w, big).value, EncodeCoord(h, big).value;
    CoordRoundTrip(x, big, ey.1 + (ew.1 + (eh.1 + rest)));
    CoordRoundTrip(y, big, ew.1 + (eh.1 + rest));
    CoordRoundTrip(w, big, eh.1 + rest);
    CoordRoundTrip(h, big, rest);
    Regroup(ex.1, ey.1, ew.1, eh.1, rest);
    FieldsChain(ex.0, ey.0, ew.0, eh.0, ex.1 + (ey.1 + (ew.1 + (eh.1 + rest))), ey.1 + (ew.1 + (eh.1 + rest)),
                ew.1 + (eh.1 + rest), eh.1 + rest, x, y, w, h, big, rest);
  }

  lemma DecodeBBoxFront(p0: nat, p1: nat, p2: nat, p3: nat, tail: seq<byte>, big: bool)
    requires p0 < 4 && p1 < 4 && p2 < 4 && p3 < 4
    ensures DecodeBBox([p0 + 4 * p1 + 16 * p2 + 64 * p3] + tail, big) == DecodeFields(p0, p1, p2, p3, tail, big)
  {
    var v := p0 + 4 * p1 + 16 * p2 + 64 * p3;
    SelectorFields(p0, p1, p2, p3);
    assert ([v] + tail)[1..] == tail;
    assert ReadU8([v] + tail) == Ok((v, tail));
  }

  lemma RegroupHead(a: seq<byte>, e0: seq<byte>, e1: seq<byte>, e2: seq<byte>, e3: seq<byte>, rest: seq<byte>)
    ensures a + e0 + e1 + e2 + e3 + rest == a + (e0 + e1 + e2 + e3 + rest)
  {
  }

  lemma EncodeBBoxShape(x: nat, y: nat, w: nat, h: nat, big: bool)
    requires x < 0x1_0000_0000 && y < 0x1_0000_0000 && w < 0x1_0000_0000 && h < 0x1_0000_0000
    ensures EncodeBBox(Rec(Pt(x, y), Pt(x + w, y + h)), big)
            == Ok([CoordCode(x) + 4 * CoordCode(y) + 16 * CoordCode(w) + 64 * CoordCode(h)]
                  + CoordBytes(x, big) + CoordBytes(y, big) + CoordBytes(w, big) + CoordBytes(h, big))
  {
    var b := Rec(Pt(x, y), Pt(x + w, y + h));
    assert b.Width() == w && b.Height() == h;
    assert EncodeCoord(x, big) == Ok((CoordCode(x), CoordBytes(x, big)));
    assert EncodeCoord(y, big) == Ok((CoordCode(y), CoordBytes(y, big)));
    assert EncodeCoord(w, big) == Ok((CoordCode(w), CoordBytes(w, big)));
    assert EncodeCoord(h, big) == Ok((CoordCode(h), CoordBytes(h, big)));
  }

  lemma DecodeBBoxOf(p0: nat, p1: nat, p2: nat, p3: nat, e0: seq<byte>, e1: seq<byte>, e2: seq<byte>, e3: seq<byte>,
                     rest: seq<byte>, big: bool, r: Rec)
    requires p0 < 4 && p1 < 4 && p2 < 4 && p3 < 4
    requires DecodeFields(p0, p1, p2, p3, e0 + e1 + e2 + e3 + rest, big) == Ok((r, rest))
    ensures DecodeBBox([p0 + 4 * p1 + 16 * p2 + 64 * p3] + e0 + e1 + e2 + e3 + rest, big) == Ok((r, rest))
  {
    RegroupHead([p0 + 4 * p1 + 16 * p2 + 64 * p3], e0, e1, e2, e3, rest);
    DecodeBBoxFront(p0, p1, p2, p3, e0 + e1 + e2 + e3 + rest, big);
  }

  lemma BBoxPartsRoundTrip(x: nat, y: nat, w: nat, h: nat, big: bool, rest: seq<byte>)
    requires x < 0x1_0000_0000 && y < 0x1_0000_0000 && w < 0x1_0000_0000 && h < 0x1_0000_0000
    ensures DecodeBBox(EncodeBBox(Rec(Pt(x, y), Pt(x + w, y + h)), big).value + rest, big)
            == Ok((Rec(Pt(x, y), Pt(x + w, y + h)), rest))
  {
    EncodeBBoxShape(x, y, w, h, big);
    FieldsRoundTrip(x, y, w, h, big, rest);
    DecodeBBoxOf(CoordCode(x), CoordCode(y), CoordCode(w), CoordCode(h),
                 CoordBytes(x, big), CoordBytes(y, big), CoordBytes(w, big), CoordBytes(h, big),
                 rest, big, Rec(Pt(x, y), Pt(x + w, y + h)));
  }

  /** Rectangles `_serialize_bbox` can write: corner and size in [0, 2^32). */
  predicate Encodable(b: Rec)
  {
    0 <= b.c1.x < 0x1_0000_0000 && 0 <= b.c1.y < 0x1_0000_0000
    && 0 <= b.Width() < 0x1_0000_0000 && 0 <= b.Height() < 0x1_0000_0000
  }

  /** A rectangle in range decodes to itself, consuming exactly the bytes
      written for it. */
  lemma BBoxRoundTrip(b: Rec, big: bool, rest: seq<byte>)
    requires Encodable(b)
    ensures EncodeBBox(b, big).Ok?
    ensures DecodeBBox(EncodeBBox(b, big).value + rest, big) == Ok((b, rest))
  {
    var x: nat, y: nat, w: nat, h: nat := b.c1.x, b.c1.y, b.Width(), b.Height();
    assert b == Rec(Pt(x, y), Pt(x + w, y + h));
    BBoxPartsRoundTrip(x, y, w, h, big, rest);
  }

  // ---------------------------------------------------------------------
  // Text slots: offset << 24 | index, with 0xff000000 standing for None.
  // For a non-negative slot t, t >> 24 is Offset(t), and the masks the
  // source applies select parts of Index(t): t & 0xffff00 == 0 says
  // Index(t) < 0x100, t & 0xff0000 == 0 says Index(t) < 0x10000, and
  // t & 0xffff, (t & 0xffff00) >> 8 and t & 0xff are Index(t) % 0x10000,
  // Index(t) / 0x100 and Index(t) % 0x100.

  const NoText: nat := 0xff00_0000
  const EscapeFB: nat := 0xfb00_0000
  const EscapeFC: nat := 0xfc00_0000

  function Offset(t: nat): nat { t / 0x100_0000 }
  function Index(t: nat): nat { t % 0x100_0000 }

  lemma SlotSplit(t: nat)
    ensures t == Offset(t) * 0x100_0000 + Index(t) && Index(t) < 0x100_0000
  {
  }

  function SlotValue(ts: Option<nat>): nat
  {
    if ts.None? then NoText else ts.value
  }

  /** What a decoder gives back for a slot: the sentinel reads as None. */
  function Normalized(ts: Option<nat>): Option<nat>
  {
    if ts == Some(NoText) then None else ts
  }

  /** `_serialize_textslotoffset`: the offset byte alone. Before further
      data it escapes as 0xfc the slots 0xfb000000 and 0xfc000000 and every
      slot whose index needs more than 16 bits, and None as 0xfb. */
  function EncodeTextslotOffset(ts: Option<nat>, last: bool): (r: Result<seq<byte>>)
    ensures r.Ok? ==> |r.value| == 1
    ensures SlotValue(ts) < 0x1_0000_0000 ==> r.Ok?
    ensures last ==> (r.Ok? <==> SlotValue(ts) < 0x1_0000_0000)
  {
    var t := SlotValue(ts);
    if last then PackU8(Offset(t))
    else if t == EscapeFB || t == EscapeFC || Index(t) >= 0x1_0000 then Ok([0xfc])
    else if t == NoText then Ok([0xfb])
    else PackU8(Offset(t))
  }

  /** `_serialize_textslot` as the source writes it. A last-position index
      from 0x10000 on is written as two 16-bit fields. Before further data
      the branch meant to write the whole slot as 32 bits requires
      t in [0xfb000000, 0xfc000000] and t & 0xff0000 != 0 at once, which no
      value satisfies, so it is left out here. */
  function EncodeTextslotAsWritten(ts: Option<nat>, big: bool, onlyindex: bool, last: bool, allowbyteindex: bool): (r: Result<seq<byte>>)
    ensures r.Ok? <==> onlyindex || SlotValue(ts) < 0x1_0000_0000
    ensures r.Ok? && last ==> |r.value| <= (if onlyindex then 4 else 5)
  {
    var t := SlotValue(ts);
    var head :- if onlyindex then Ok([]) else PackU8(Offset(t));
    if last then
      if allowbyteindex && Index(t) < 0x100 then Ok(head + [Index(t) % 0x100])
      else if Index(t) < 0x1_0000 then Ok(head + U16(Index(t) % 0x1_0000, big))
      else Ok(head + U16(Index(t) / 0x100, big) + U16(Index(t) % 0x100, big))
    else if t == NoText then Ok([])
    else Ok(head + U16(Index(t) % 0x1_0000, big))
  }

  /** `_serialize_textslot` with both defects corrected: a last-position
      index from 0x10000 on is written as its high 16 bits and then its low
      byte (the layout the three-byte branch of the decoder reads), and
      before further data every slot the offset byte escapes as 0xfc is
      written whole as 32 bits (the layout the 0xfc branch of the decoder
      reads). */
  function EncodeTextslot(ts: Option<nat>, big: bool, onlyindex: bool, last: bool, allowbyteindex: bool): (r: Result<seq<byte>>)
    ensures r.Ok? <==> (onlyindex && last) || SlotValue(ts) < 0x1_0000_0000
                       || (onlyindex && SlotValue(ts) != EscapeFB && SlotValue(ts) != EscapeFC && Index(SlotValue(ts)) < 0x1_0000)
    ensures r.Ok? && last ==> |r.value| <= (if onlyindex then 3 else 4)
  {
    var t := SlotValue(ts);
    var head :- if onlyindex then Ok([]) else PackU8(Offset(t));
    if last then
      if allowbyteindex && Index(t) < 0x100 then Ok(head + [Index(t) % 0x100])
      else if Index(t) < 0x1_0000 then Ok(head + U16(Index(t) % 0x1_0000, big))
      else Ok(head + U16(Index(t) / 0x100, big) + [Index(t) % 0x100])
    else if t == EscapeFB || t == EscapeFC || Index(t) >= 0x1_0000 then
      var whole :- PackU32(t, big);
      Ok(head + whole)
    else if t == NoText then Ok([])
    else Ok(head + U16(Index(t) % 0x1_0000, big))
  }

  /** The two encoders differ only where the source's is defective: an
      index that fits 16 bits is written alike, and so is every slot before
      further data other than the two escape codes themselves. */
  lemma TextslotAsWrittenAgrees(ts: Option<nat>, big: bool, onlyindex: bool, last: bool, allowbyteindex: bool)
    requires Index(SlotValue(ts)) < 0x1_0000
    requires !last ==> SlotValue(ts) != EscapeFB && SlotValue(ts) != EscapeFC
    ensures EncodeTextslotAsWritten(ts, big, onlyindex, last, allowbyteindex)
            == EncodeTextslot(ts, big, onlyindex, last, allowbyteindex)
  {
  }

  /** `_deserialize_textslot`. `offset` is Some(b) when the offset byte b was
      read earlier (onlyindex) and None when it leads `data`. In last
      position the remaining length decides the index width and an empty
      tail means None; before further data 0xfb means None and 0xfc a whole
      32-bit slot. The sentinel 0xff000000 reads as None. Returns the slot
      and the data left (in last position the tail is not consumed). */
  function DecodeTextslot(data: seq<byte>, big: bool, offset: Option<byte>, last: bool): (r: Result<(Option<nat>, seq<byte>)>)
    ensures r.Ok? ==> r.value.0 != Some(NoText)
    ensures r.Ok? && r.value.0.Some? ==> r.value.0.value < 0x1_0000_0000
    ensures r.Ok? && last ==> |r.value.1| <= 3
    ensures r.Fail? && offset.Some? && last ==> |data| > 3
  {
    var first :- if offset.Some? then Ok((offset.value, data)) else ReadU8(data);
    var t0: nat := (first.0 as int) * 0x100_0000;
    var d := first.1;
    var slot: (Option<nat>, seq<byte>) :-
      if last then
        if |d| == 0 then Ok((None, d))
        else if |d| > 3 then Fail(ValueError)
        else
          var v: nat := t0 + if |d| == 1 then d[0] else if |d| == 2 then GetU16(d, big) else GetU16(d, big) * 0x100 + d[2];
          Ok((Some(v), d))
      else if t0 == EscapeFB then Ok((None, d))
      else if t0 == EscapeFC then
        var w :- ReadU32(d, big);
        Ok((Some(w.0), w.1))
      else
        var v: nat := t0 + if |d| >= 2 then GetU16(d, big) else 0;
        Ok((Some(v), if |d| >= 2 then d[2..] else d));
    if slot.0 == Some(NoText) then Ok((None, slot.1)) else Ok(slot)
  }

  /** A slot written in last position with a 16-bit index reads back
      through the decoder for a slot before further data, unless its
      offset byte is one of that decoder's escapes. */
  lemma TextslotLastReadInner(ts: Option<nat>, big: bool, rest: seq<byte>)
    requires SlotValue(ts) < 0x1_0000_0000 && Index(SlotValue(ts)) < 0x1_0000
    requires Offset(SlotValue(ts)) != 0xfb && Offset(SlotValue(ts)) != 0xfc
    ensures var t := SlotValue(ts);
      && EncodeTextslotOffset(ts, true) == Ok([Offset(t)])
      && EncodeTextslot(ts, big, true, true, false) == Ok(U16(Index(t), big))
      && DecodeTextslot(U16(Index(t), big) + rest, big, Some(Offset(t)), false) == Ok((Normalized(ts), rest))
  {
    var t := SlotValue(ts);
    SlotSplit(t);
    var d := U16(Index(t), big) + rest;
    assert d[..2] == U16(Index(t), big);
    assert d[2..] == rest;
    assert [] + U16(Index(t) % 0x1_0000, big) == U16(Index(t), big);
  }

  /** Last-position slot whose offset byte was written earlier (the point
      layout): the index alone reads back to the same slot. */
  lemma TextslotIndexRoundTrip(ts: Option<nat>, big: bool, allowbyteindex: bool)
    requires SlotValue(ts) < 0x1_0000_0000
    ensures var t := SlotValue(ts); var enc := EncodeTextslot(ts, big, true, true, allowbyteindex);
      enc.Ok? && DecodeTextslot(enc.value, big, Some(Offset(t)), true) == Ok((Normalized(ts), enc.value))
  {
    var t := SlotValue(ts);
    SlotSplit(t);
    var i := Index(t);
    var enc := EncodeTextslot(ts, big, true, true, allowbyteindex).value;
    IndexLastBytes(ts, big, allowbyteindex);
    LastRead(Offset(t), enc, big, t);
    assert Normalized(ts) == if t == NoText then None else Some(t);
  }

  /** What the decoder in last position reads from the one to three index
      bytes. */
  function LastDigits(d: seq<byte>, big: bool): nat
    requires 1 <= |d| <= 3
  {
    if |d| == 1 then d[0] else if |d| == 2 then GetU16(d, big) else GetU16(d, big) * 0x100 + d[2]
  }

  /** The index written in last position is one to three bytes that read
      back as the index. */
  lemma IndexLastBytes(ts: Option<nat>, big: bool, allowbyteindex: bool)
    requires SlotValue(ts) < 0x1_0000_0000
    ensures var enc := EncodeTextslot(ts, big, true, true, allowbyteindex);
      enc.Ok? && 1 <= |enc.value| <= 3 && LastDigits(enc.value, big) == Index(SlotValue(ts))
  {
    var t := SlotValue(ts);
    var i := Index(t);
    var enc := EncodeTextslot(ts, big, true, true, allowbyteindex).value;
    if allowbyteindex && i < 0x100 {
      assert enc == [i];
    } else if i < 0x1_0000 {
      assert enc == U16(i, big);
      assert GetU16(enc, big) == i;
    } else {
      assert enc == U16(i / 0x100, big) + [i % 0x100];
      assert enc[..2] == U16(i / 0x100, big);
      assert GetU16(enc, big) == i / 0x100;
    }
  }

  /** The decoder in last position with the offset byte given: one to three
      bytes of index after it. */
  lemma LastRead(off: byte, d: seq<byte>, big: bool, v: nat)
    requires 1 <= |d| <= 3
    requires v == off * 0x100_0000 + LastDigits(d, big)
    ensures DecodeTextslot(d, big, Some(off), true) == Ok((if v == NoText then None else Some(v), d))
  {
  }

  /** Last-position slot with its offset byte in front (the POI layout):
      every slot below 2^32 reads back, None and the sentinel as None. */
  lemma TextslotLastRoundTrip(ts: Option<nat>, big: bool, allowbyteindex: bool)
    requires SlotValue(ts) < 0x1_0000_0000
    ensures var enc := EncodeTextslot(ts, big, false, true, allowbyteindex);
      enc.Ok? && DecodeTextslot(enc.value, big, None, true).Ok?
      && DecodeTextslot(enc.value, big, None, true).value.0 == Normalized(ts)
  {
    var t := SlotValue(ts);
    var tail := EncodeTextslot(ts, big, true, true, allowbyteindex).value;
    EncodeTextslotLead(ts, big, allowbyteindex);
    var enc := [Offset(t)] + tail;
    assert enc[1..] == tail;
    DecodeTextslotLead(enc, big, true);
    TextslotIndexRoundTrip(ts, big, allowbyteindex);
  }

  /** In last position the offset byte is simply put in front. */
  lemma EncodeTextslotLead(ts: Option<nat>, big: bool, allowbyteindex: bool)
    requires SlotValue(ts) < 0x1_0000_0000
    ensures EncodeTextslot(ts, big, false, true, allowbyteindex)
            == Ok([Offset(SlotValue(ts))] + EncodeTextslot(ts, big, true, true, allowbyteindex).value)
  {
    var t := SlotValue(ts);
    assert PackU8(Offset(t)) == Ok([Offset(t)]);
    if allowbyteindex && Index(t) < 0x100 {
      assert [Offset(t)] + [Index(t) % 0x100] == [Offset(t)] + ([] + [Index(t) % 0x100]);
    } else if Index(t) < 0x1_0000 {
      assert [] + U16(Index(t) % 0x1_0000, big) == U16(Index(t) % 0x1_0000, big);
    } else {
      assert [Offset(t)] + U16(Index(t) / 0x100, big) + [Index(t) % 0x100]
          == [Offset(t)] + ([] + U16(Index(t) / 0x100, big) + [Index(t) % 0x100]);
    }
  }

  /** Reading the offset byte from the data is reading the rest with that
      byte given. */
  lemma DecodeTextslotLead(data: seq<byte>, big: bool, last: bool)
    requires |data| >= 1
    ensures DecodeTextslot(data, big, None, last) == DecodeTextslot(data[1..], big, Some(data[0]), last)
  {
  }

  /** Slot followed by further data, offset byte written earlier (the
      polyline and area layout before excess bytes): the slot reads back and
      exactly its bytes are consumed, provided the offset is not itself one
      of the two escape codes. */
  lemma TextslotInnerRoundTrip(ts: Option<nat>, big: bool, rest: seq<byte>)
    requires SlotValue(ts) < 0x1_0000_0000
    requires Offset(SlotValue(ts)) != 0xfb && Offset(SlotValue(ts)) != 0xfc
    ensures var ob := EncodeTextslotOffset(ts, false); var enc := EncodeTextslot(ts, big, true, false, false);
      ob.Ok? && enc.Ok? && DecodeTextslot(enc.value + rest, big, Some(ob.value[0]), false) == Ok((Normalized(ts), rest))
  {
    var t := SlotValue(ts);
    if Index(t) >= 0x1_0000 {
      InnerWide(ts, big, rest);
    } else if t == NoText {
      InnerAbsent(ts, big, rest);
    } else {
      InnerNarrow(ts, big, rest);
    }
  }

  /** An index from 0x10000 on: escape 0xfc and the whole slot in 32 bits. */
  lemma InnerWide(ts: Option<nat>, big: bool, rest: seq<byte>)
    requires SlotValue(ts) < 0x1_0000_0000
    requires Offset(SlotValue(ts)) != 0xfb && Offset(SlotValue(ts)) != 0xfc
    requires Index(SlotValue(ts)) >= 0x1_0000
    ensures var ob := EncodeTextslotOffset(ts, false); var enc := EncodeTextslot(ts, big, true, false, false);
      ob.Ok? && enc.Ok? && DecodeTextslot(enc.value + rest, big, Some(ob.value[0]), false) == Ok((Normalized(ts), rest))
  {
    var t := SlotValue(ts);
    SlotSplit(t);
    var enc := EncodeTextslot(ts, big, true, false, false).value;
    assert enc == U32(t, big);
    ReadU32Prefix(t, big, rest);
  }

  /** No text: escape 0xfb and nothing after it. */
  lemma InnerAbsent(ts: Option<nat>, big: bool, rest: seq<byte>)
    requires SlotValue(ts) < 0x1_0000_0000
    requires Offset(SlotValue(ts)) != 0xfb && Offset(SlotValue(ts)) != 0xfc
    requires SlotValue(ts) == NoText
    ensures var ob := EncodeTextslotOffset(ts, false); var enc := EncodeTextslot(ts, big, true, false, false);
      ob.Ok? && enc.Ok? && DecodeTextslot(enc.value + rest, big, Some(ob.value[0]), false) == Ok((Normalized(ts), rest))
  {
    assert EncodeTextslot(ts, big, true, false, false) == Ok([]);
    assert [] + rest == rest;
  }

  /** Any other slot: its offset byte, then a 16-bit index. */
  lemma InnerNarrow(ts: Option<nat>, big: bool, rest: seq<byte>)
    requires SlotValue(ts) < 0x1_0000_0000
    requires Offset(SlotValue(ts)) != 0xfb && Offset(SlotValue(ts)) != 0xfc
    requires Index(SlotValue(ts)) < 0x1_0000 && SlotValue(ts) != NoText
    ensures var ob := EncodeTextslotOffset(ts, false); var enc := EncodeTextslot(ts, big, true, false, false);
      ob.Ok? && enc.Ok? && DecodeTextslot(enc.value + rest, big, Some(ob.value[0]), false) == Ok((Normalized(ts), rest))
  {
    var t := SlotValue(ts);
    SlotSplit(t);
    var enc := EncodeTextslot(ts, big, true, false, false).value;
    assert enc == U16(Index(t), big);
    assert (enc + rest)[..2] == enc;
    assert (enc + rest)[2..] == rest;
  }

  /** A last-position index from 0x10000 on, as the source writes it, is
      four bytes after the offset, and the decoder rejects it as excess
      data. */
  lemma TextslotLastAsWrittenRejected(big: bool)
    ensures var enc := EncodeTextslotAsWritten(Some(0x1_0000), big, false, true, true);
      enc.Ok? && |enc.value| == 5 && DecodeTextslot(enc.value, big, None, true) == Fail(ValueError)
  {
  }

  /** Before further data, an index from 0x10000 on makes the offset byte
      0xfc, which tells the decoder to read 32 bits, yet the source writes
      only the low 16 bits: with nothing after them the decoder fails, and
      with two more bytes it reads slot 0 instead of 0x10000. */
  lemma TextslotInnerAsWrittenMisread(big: bool)
    ensures EncodeTextslotOffset(Some(0x1_0000), false) == Ok([0xfc])
    ensures EncodeTextslotAsWritten(Some(0x1_0000), big, true, false, false) == Ok([0, 0])
    ensures DecodeTextslot([0, 0], big, Some(0xfc), false) == Fail(StructError)
    ensures DecodeTextslot([0, 0, 0, 0], big, Some(0xfc), false) == Ok((Some(0), []))
  {
    assert Index(0x1_0000) == 0x1_0000;
    var zero: seq<byte> := [];
    assert U16(0, big) == [0, 0];
    assert EncodeTextslotAsWritten(Some(0x1_0000), big, true, false, false) == Ok(zero + U16(0, big));
    assert zero + U16(0, big) == [0, 0];
    var four: seq<byte> := [0, 0, 0, 0];
    assert ReadU32(four, big) == Ok((0, []));
  }
}
