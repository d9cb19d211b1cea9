/** The routing-edge record of magellan/CellElement.py
    (`CellElementRouting.serialize`/`deSerialize`): a two-vertex line whose
    end points are two opposite corners of its bounding box, followed by
    bit-packed words and flag bytes. */
module RoutingEdge {
  import opened Wrappers
  import opened PyStruct
  import opened Bits
  import opened Arith
  import opened Geometry
  import opened CellCodec
  import opened CellElement

  /** Which corners of the relative box the two end points are: 6 for
      (upper right, lower left), 4 for (upper left, lower right), 2 for
      (lower right, upper left), 0 for (lower left, upper right). */
  function CornerCode(b: Rec, p1: Pt, p2: Pt): (c: Option<nat>)
    ensures c.Some? ==> c.value in {0, 2, 4, 6}
  {
    if p1 == b.UR() && p2 == b.LL() then Some(6)
    else if p1 == b.UL() && p2 == b.LR() then Some(4)
    else if p1 == b.LR() && p2 == b.UL() then Some(2)
    else if p1 == b.LL() && p2 == b.UR() then Some(0)
    else None
  }

  /** The end points the decoder rebuilds from a corner code; the other
      four codes are rejected. */
  function Corners(c: nat, b: Rec): (r: Option<(Pt, Pt)>)
    ensures r.Some? <==> c in {0, 2, 4, 6}
  {
    if c == 6 then Some((b.UR(), b.LL()))
    else if c == 4 then Some((b.UL(), b.LR()))
    else if c == 2 then Some((b.LR(), b.UL()))
    else if c == 0 then Some((b.LL(), b.UR()))
    else None
  }

  /** The two end points of any edge are opposite corners of their
      bounding box, so the serializer always finds a code, and the decoder
      gets the same two points back from it. */
  lemma CornersOfEndpoints(p1: Pt, p2: Pt)
    ensures CornerCode(Bounds([p1, p2]), p1, p2).Some?
    ensures Corners(CornerCode(Bounds([p1, p2]), p1, p2).value, Bounds([p1, p2])) == Some((p1, p2))
  {
    assert [p1, p2][..1] == [p1];
    assert Bounds([p1, p2]) == Rec(p1, p1).Union(Rec(p2, p2));
  }

  /** Word 1: pointcorners in bits 29-31, unk1 in bits 24-28, distance in
      bits 0-23; the masks keep every field in its place. */
  function Word1(e: Element, pc: nat): nat
    requires e.Routing?
  {
    Or(Or((e.unk1 % 32) * 0x100_0000, pc * 0x2000_0000), e.distance % 0x100_0000)
  }

  /** Word 2: layernumref + 8 from bit 28, unk2 from bit 24, the start
      vertex index from bit 13, the end vertex index in the low bits. No
      field is masked, so a negative one makes the word negative and a
      large one spills into its neighbour or past 32 bits. */
  function Word2(e: Element): int
    requires e.Routing?
  {
    IntOr(IntOr(IntOr((e.layernumref + 8) * 0x1000_0000, e.unk2 * 0x100_0000),
                e.ivertices.0 * 0x2000), e.ivertices.1)
  }

  /** 0x80 bidirectional, 0x40 reverse direction, edge indices in bits 3-5
      and 0-2. */
  function FlagsByte(e: Element): int
    requires e.Routing?
  {
    IntOr(IntOr(IntOr((if e.bidirectional then 1 else 0) * 128, (if e.reversedir then 1 else 0) * 64),
                e.edgeindices.1 * 8), e.edgeindices.0)
  }

  function OrientationByte(e: Element): int
    requires e.Routing?
  {
    IntOr(e.orientations.1 * 8, e.orientations.0)
  }

  /** `pack('BBBB', *restrictions)`: exactly four bytes. */
  function PackRestrictions(rs: seq<int>): (r: Result<seq<byte>>)
    ensures r.Ok? <==> |rs| == 4 && forall i :: 0 <= i < 4 ==> 0 <= rs[i] < 0x100
    ensures r.Ok? ==> r.value == rs
  {
    if |rs| != 4 then Fail(StructError)
    else
      var a :- PackU8(rs[0]);
      var b :- PackU8(rs[1]);
      var c :- PackU8(rs[2]);
      var d :- PackU8(rs[3]);
      Ok(a + b + c + d)
  }

  /** The optional trailing bytes: the segment type if set, then segment
      flags and speed category if both are set. */
  function TrailingBytes(e: Element): (r: Result<seq<byte>>)
    requires e.Routing?
    ensures r.Ok? ==> |r.value| <= 2
  {
    var st :- if e.segmenttype.Some? then PackU8(e.segmenttype.value) else Ok([]);
    var sp :- if e.segmentflags.Some? && e.speedcat.Some?
              then PackU8(IntOr(e.segmentflags.value * 16, e.speedcat.value % 16))
              else Ok([]);
    Ok(st + sp)
  }

  /** `CellElementRouting.serialize`. */
  function SerializeRouting(org: Pt, e: Element, big: bool): (r: Result<seq<byte>>)
    requires e.Routing?
    ensures r.Ok? ==> |e.coords| == 2 && 0 <= e.cellnumref < 0x1_0000_0000
                      && -1 <= e.numincellref < 0xffff && |e.restrictions| == 4
  {
    if |e.coords| == 0 then Fail(ValueError)
    else
      var b := RelBox(org, Bounds(e.coords));
      var bb :- EncodeBBox(b, big);
      if |e.coords| != 2 then Fail(ValueError)
      else
        var pc :- match CornerCode(b, ToRel(org, e.coords[0]), ToRel(org, e.coords[1]))
                  case Some(c) => Ok(c)
                  case None => Fail(RuntimeError);
        var fixed :- FixedBytes(e, pc, big);
        var tr :- TrailingBytes(e);
        Ok(bb + fixed + tr)
  }

  /** The two words, the referenced cell element, the restrictions, the
      flags and the orientations. */
  function FixedBytes(e: Element, pc: nat, big: bool): (r: Result<seq<byte>>)
    requires e.Routing?
    ensures r.Ok? ==> |r.value| == 20
  {
    var w1 :- PackU32(Word1(e, pc), big);
    var w2 :- PackU32(Word2(e), big);
    var cr :- PackU32(e.cellnumref, big);
    var nr :- PackU16(e.numincellref + 1, big);
    var rs :- PackRestrictions(e.restrictions);
    var fl :- PackU8(FlagsByte(e));
    var ob :- PackU8(OrientationByte(e));
    Ok(w1 + w2 + cr + nr + rs + fl + ob)
  }

  /** The fixed part after the bounding box, as read back. */
  datatype Fixed = Fixed(w1: nat, w2: nat, cellnumref: nat, numincell: nat,
                         restrictions: seq<int>, flags: byte, orient: byte)

  function ReadFixed(data: seq<byte>, big: bool): (r: Result<(Fixed, seq<byte>)>)
    ensures r.Ok? <==> |data| >= 20
    ensures r.Ok? ==> r.value.1 == data[20..] && r.value.0.restrictions == data[14..18]
    ensures r.Ok? ==> r.value.0.w2 < 0x1_0000_0000 && r.value.0.numincell < 0x1_0000
  {
    var ws :- ReadWords(data, big);
    var bs :- ReadSmallFields(ws.4);
    Ok((Fixed(ws.0, ws.1, ws.2, ws.3, bs.0, bs.1, bs.2), bs.3))
  }

  /** The two words (`II`), then the referenced cell and element (`IH`). */
  function ReadWords(data: seq<byte>, big: bool): (r: Result<(nat, nat, nat, nat, seq<byte>)>)
    ensures r.Ok? <==> |data| >= 14
    ensures r.Ok? ==> r.value.4 == data[14..] && r.value.1 < 0x1_0000_0000 && r.value.3 < 0x1_0000
  {
    var w1 :- ReadU32(data, big);
    var w2 :- ReadU32(w1.1, big);
    var cr :- ReadU32(w2.1, big);
    var nr :- ReadU16(cr.1, big);
    Ok((w1.0, w2.0, cr.0, nr.0, nr.1))
  }

  /** The four restriction bytes (`BBBB`), the flags byte and the
      orientation byte. */
  function ReadSmallFields(data: seq<byte>): (r: Result<(seq<byte>, byte, byte, seq<byte>)>)
    ensures r.Ok? <==> |data| >= 6
    ensures r.Ok? ==> r.value.0 == data[..4] && r.value.3 == data[6..]
  {
    if |data| < 6 then Fail(StructError) else Ok((data[..4], data[4], data[5], data[6..]))
  }

  /** The fields unpacked from the fixed part and the trailing bytes.
      The last trailing byte holds segment flags (high nibble) and speed
      category (low nibble); when exactly two remain, the first is the
      segment type. */
  function RoutingFrom(coords: seq<Pt>, f: Fixed, d: seq<byte>): (e: Element)
    ensures e.Routing? && e.coords == coords
    ensures (e.segmentflags.Some? <==> e.speedcat.Some?) && (e.segmenttype.Some? ==> e.segmentflags.Some?)
    ensures 0 <= e.distance < 0x100_0000 && 0 <= e.unk1 < 32 && 0 <= e.unk2 < 16
  {
    Routing(coords, f.w2 / 0x1000_0000 - 8, f.cellnumref, f.numincell - 1,
            ((f.w2 / 0x2000) % 0x800, f.w2 % 0x2000),
            (f.flags / 128) % 2 == 1, (f.flags / 64) % 2 == 1,
            (f.flags % 8, (f.flags / 8) % 8), (f.orient % 8, (f.orient / 8) % 8),
            if |d| > 0 then Some(d[|d| - 1] / 16) else None,
            if |d| > 0 then Some(d[|d| - 1] % 16) else None,
            if |d| == 2 then Some(d[0]) else None,
            f.w1 % 0x100_0000, f.restrictions, (f.w1 / 0x100_0000) % 32,
            (f.w2 / 0x100_0000) % 16)
  }

  /** `CellElementRouting.deSerialize`: the end points are the corners the
      code in the top bits of word 1 names; any other code is rejected
      after the fixed part has been read. */
  function DeserializeRouting(org: Pt, data: seq<byte>, big: bool): (r: Result<Element>)
    ensures r.Ok? ==> r.value.Routing? && |r.value.coords| == 2
    ensures r.Ok? ==> 0 <= r.value.distance < 0x100_0000 && 0 <= r.value.unk1 < 32 && 0 <= r.value.unk2 < 16
    ensures r.Ok? ==> -8 <= r.value.layernumref < 8 && -1 <= r.value.numincellref < 0xffff
    ensures r.Ok? ==> (r.value.segmentflags.Some? <==> r.value.speedcat.Some?)
    ensures r.Ok? && r.value.segmenttype.Some? ==> r.value.segmentflags.Some?
  {
    var bb :- DecodeBBox(data, big);
    var fx :- ReadFixed(bb.1, big);
    var f := fx.0;
    var d := fx.1;
    var ends :- match Corners(f.w1 / 0x2000_0000, bb.0)
                case Some(ps) => Ok(ps)
                case None => Fail(RuntimeError);
    Ok(RoutingFrom(Abss(org, [ends.0, ends.1]), f, d))
  }

  // ----------------------------------------------- the fields read back

  /** Unpacking word 1 recovers each field. */
  lemma Word1Fields(pc: nat, u: nat, d: nat)
    requires pc < 8 && u < 32 && d < 0x100_0000
    ensures var w := Or(Or(u * 0x100_0000, pc * 0x2000_0000), d);
      w < 0x1_0000_0000 && w / 0x2000_0000 == pc && (w / 0x100_0000) % 32 == u && w % 0x100_0000 == d
  {
    Word1Sum(pc, u, d);
    Word1Digits(pc, u, d);
  }

  lemma Word1Sum(pc: nat, u: nat, d: nat)
    requires pc < 8 && u < 32 && d < 0x100_0000
    ensures Or(Or(u * 0x100_0000, pc * 0x2000_0000), d) == (pc * 32 + u) * 0x100_0000 + d
  {
    assert Pow2(29) == 0x2000_0000 && Pow2(24) == 0x100_0000 && Pow2(5) == 32 by { Pow2Values(); }
    var x := pc * 32 + u;
    var o1 := Or(u * 0x100_0000, pc * 0x2000_0000);
    OrCommutes(u * 0x100_0000, pc * 0x2000_0000);
    OrFieldsAt(pc, u, 29, 24, 0x2000_0000, 0x100_0000);
    assert o1 == x * 0x100_0000;
    OrShiftedAt(x, d, 24, 0x100_0000);
    assert Or(o1, d) == Or(x * 0x100_0000, d) == x * 0x100_0000 + d;
  }

  lemma Word1Digits(pc: nat, u: nat, d: nat)
    requires pc < 8 && u < 32 && d < 0x100_0000
    ensures var w := (pc * 32 + u) * 0x100_0000 + d;
      w < 0x1_0000_0000 && w / 0x2000_0000 == pc && (w / 0x100_0000) % 32 == u && w % 0x100_0000 == d
  {
    var x := pc * 32 + u;
    var w := x * 0x100_0000 + d;
    DivAdd(x, d, 0x100_0000);
    DivAdd(pc, u, 32);
    DivDiv(w, 0x100_0000, 32);
  }

  /** Unpacking word 2 recovers each field when each fits its width. */
  lemma Word2Fields(a: nat, u: nat, s: nat, t: nat)
    requires a < 16 && u < 16 && s < 0x800 && t < 0x2000
    ensures var w := Or(Or(Or(a * 0x1000_0000, u * 0x100_0000), s * 0x2000), t);
      w < 0x1_0000_0000 && w / 0x1000_0000 == a && (w / 0x100_0000) % 16 == u
      && (w / 0x2000) % 0x800 == s && w % 0x2000 == t
  {
    Word2Sum(a, u, s, t);
    Word2Digits(a, u, s, t);
  }

  lemma Word2Sum(a: nat, u: nat, s: nat, t: nat)
    requires a < 16 && u < 16 && s < 0x800 && t < 0x2000
    ensures Or(Or(Or(a * 0x1000_0000, u * 0x100_0000), s * 0x2000), t)
            == a * 0x1000_0000 + u * 0x100_0000 + s * 0x2000 + t
  {
    assert Pow2(28) == 0x1000_0000 && Pow2(24) == 0x100_0000 && Pow2(13) == 0x2000 && Pow2(4) == 16 && Pow2(11) == 0x800 by { Pow2Values(); }
    OrFieldsAt(a, u, 28, 24, 0x1000_0000, 0x100_0000);
    var x := a * 16 + u;
    assert a * 0x1000_0000 + u * 0x100_0000 == x * 0x100_0000;
    var o1 := Or(a * 0x1000_0000, u * 0x100_0000);
    assert o1 == x * 0x100_0000;
    OrFieldsAt(x, s, 24, 13, 0x100_0000, 0x2000);
    var y := x * 0x800 + s;
    assert x * 0x100_0000 + s * 0x2000 == y * 0x2000;
    var o2 := Or(o1, s * 0x2000);
    assert o2 == y * 0x2000;
    OrShiftedAt(y, t, 13, 0x2000);
    assert Or(o2, t) == y * 0x2000 + t;
  }

  lemma Word2Digits(a: nat, u: nat, s: nat, t: nat)
    requires a < 16 && u < 16 && s < 0x800 && t < 0x2000
    ensures var w := a * 0x1000_0000 + u * 0x100_0000 + s * 0x2000 + t;
      w < 0x1_0000_0000 && w / 0x1000_0000 == a && (w / 0x100_0000) % 16 == u
      && (w / 0x2000) % 0x800 == s && w % 0x2000 == t
  {
    var x := a * 16 + u;
    var y := x * 0x800 + s;
    var w := y * 0x2000 + t;
    assert w == a * 0x1000_0000 + u * 0x100_0000 + s * 0x2000 + t;
    DivAdd(y, t, 0x2000);
    DivAdd(x, s, 0x800);
    DivAdd(a, u, 16);
    DivDiv(w, 0x2000, 0x800);
    DivDiv(w, 0x100_0000, 16);
  }

  /** Unpacking the flags byte recovers both flags and both edge indices. */
  lemma FlagsFields(b: nat, r: nat, e1: nat, e0: nat)
    requires b < 2 && r < 2 && e1 < 8 && e0 < 8
    ensures var f := Or(Or(Or(b * 128, r * 64), e1 * 8), e0);
      f < 0x100 && (f / 128) % 2 == b && (f / 64) % 2 == r && f % 8 == e0 && (f / 8) % 8 == e1
  {
    FlagsSum(b, r, e1, e0);
    FlagsDigits(b, r, e1, e0);
  }

  lemma FlagsSum(b: nat, r: nat, e1: nat, e0: nat)
    requires b < 2 && r < 2 && e1 < 8 && e0 < 8
    ensures Or(Or(Or(b * 128, r * 64), e1 * 8), e0) == b * 128 + r * 64 + e1 * 8 + e0
  {
    assert Pow2(7) == 128 && Pow2(6) == 64 && Pow2(3) == 8 && Pow2(1) == 2 by { Pow2Values(); }
    var x := b * 2 + r;
    var y := x * 8 + e1;
    var o1 := Or(b * 128, r * 64);
    var o2 := Or(o1, e1 * 8);
    OrFieldsAt(b, r, 7, 6, 128, 64);
    assert o1 == x * 64;
    OrFieldsAt(x, e1, 6, 3, 64, 8);
    assert o2 == Or(x * 64, e1 * 8) == y * 8;
    OrShiftedAt(y, e0, 3, 8);
    assert Or(o2, e0) == Or(y * 8, e0) == y * 8 + e0;
  }

  lemma FlagsDigits(b: nat, r: nat, e1: nat, e0: nat)
    requires b < 2 && r < 2 && e1 < 8 && e0 < 8
    ensures var f := b * 128 + r * 64 + e1 * 8 + e0;
      f < 0x100 && (f / 128) % 2 == b && (f / 64) % 2 == r && f % 8 == e0 && (f / 8) % 8 == e1
  {
    var x := b * 2 + r;
    var y := x * 8 + e1;
    var f := y * 8 + e0;
    assert f == b * 128 + r * 64 + e1 * 8 + e0;
    DivAdd(y, e0, 8);
    DivAdd(x, e1, 8);
    DivAdd(b, r, 2);
    DivDiv(f, 8, 8);
    DivDiv(f, 64, 2);
  }

  /** The orientation byte: two 3-bit fields. */
  lemma OrientFields(hi: nat, lo: nat)
    requires hi < 8 && lo < 8
    ensures var f := Or(hi * 8, lo);
      f < 0x100 && f % 8 == lo && (f / 8) % 8 == hi
  {
    assert Pow2(3) == 8 by { Pow2Values(); }
    OrShiftedAt(hi, lo, 3, 8);
    DivAdd(hi, lo, 8);
  }

  /** The speed byte: segment flags over speed category, 4 bits each. */
  lemma SpeedFields(hi: nat, lo: nat)
    requires hi < 16 && lo < 16
    ensures var f := Or(hi * 16, lo);
      f < 0x100 && f % 16 == lo && f / 16 == hi
  {
    assert Pow2(4) == 16 by { Pow2Values(); }
    OrShiftedAt(hi, lo, 4, 16);
    DivAdd(hi, lo, 16);
  }

  /** The four fixed-width fields after the box read back in order. */
  lemma ReadFixedOf(a: nat, b: nat, c: nat, d: nat, rs: seq<byte>, f: byte, o: byte, tr: seq<byte>, big: bool)
    requires a < 0x1_0000_0000 && b < 0x1_0000_0000 && c < 0x1_0000_0000 && d < 0x1_0000 && |rs| == 4
    ensures ReadFixed(U32(a, big) + U32(b, big) + U32(c, big) + U16(d, big) + rs + [f] + [o] + tr, big)
            == Ok((Fixed(a, b, c, d, rs, f, o), tr))
  {
    var t := rs + [f] + [o] + tr;
    assert U32(a, big) + U32(b, big) + U32(c, big) + U16(d, big) + rs + [f] + [o] + tr
        == U32(a, big) + U32(b, big) + U32(c, big) + U16(d, big) + t;
    ReadWordsOf(a, b, c, d, t, big);
    assert t[..4] == rs && t[6..] == tr;
  }

  lemma ReadWordsOf(a: nat, b: nat, c: nat, d: nat, t: seq<byte>, big: bool)
    requires a < 0x1_0000_0000 && b < 0x1_0000_0000 && c < 0x1_0000_0000 && d < 0x1_0000
    ensures ReadWords(U32(a, big) + U32(b, big) + U32(c, big) + U16(d, big) + t, big) == Ok((a, b, c, d, t))
  {
    var t2 := U16(d, big) + t;
    var t1 := U32(c, big) + t2;
    var t0 := U32(b, big) + t1;
    assert U32(a, big) + U32(b, big) + U32(c, big) + U16(d, big) + t == U32(a, big) + t0;
    ReadU32Prefix(a, big, t0);
    ReadU32Prefix(b, big, t1);
    ReadU32Prefix(c, big, t2);
    ReadU16Prefix(d, big, t);
  }

  /** Everything `SerializeRouting` writes without loss: two end points in
      an encodable box, and fields the decoder gets back. */
  predicate RoutingEncodable(org: Pt, e: Element)
    requires e.Routing?
  {
    |e.coords| == 2 && Encodable(RelBox(org, Bounds(e.coords))) && FieldsEncodable(e)
  }

  /** Every unmasked field within its width, four restriction bytes, and
      trailing fields set in a combination the decoder can tell apart. */
  predicate FieldsEncodable(e: Element)
    requires e.Routing?
  {
    && 0 <= e.layernumref + 8 < 16 && 0 <= e.unk2 < 16
    && 0 <= e.ivertices.0 < 0x800 && 0 <= e.ivertices.1 < 0x2000
    && 0 <= e.cellnumref < 0x1_0000_0000 && 0 <= e.numincellref + 1 < 0x1_0000
    && |e.restrictions| == 4 && (forall i :: 0 <= i < 4 ==> 0 <= e.restrictions[i] < 0x100)
    && 0 <= e.edgeindices.0 < 8 && 0 <= e.edgeindices.1 < 8
    && 0 <= e.orientations.0 < 8 && 0 <= e.orientations.1 < 8
    && (e.segmentflags.Some? <==> e.speedcat.Some?)
    && (e.segmentflags.Some? ==> 0 <= e.segmentflags.value < 16 && 0 <= e.speedcat.value < 16)
    && (e.segmenttype.Some? ==> e.segmentflags.Some? && 0 <= e.segmenttype.value < 0x100)
  }

  /** The trailing bytes tell the three optional fields apart. */
  lemma TrailingReadBack(e: Element)
    requires e.Routing? && FieldsEncodable(e)
    ensures TrailingBytes(e).Ok?
    ensures var d := TrailingBytes(e).value;
      && (if |d| > 0 then Some(d[|d| - 1] / 16) else None) == e.segmentflags
      && (if |d| > 0 then Some(d[|d| - 1] % 16) else None) == e.speedcat
      && (if |d| == 2 then Some(d[0]) else None) == e.segmenttype
  {
    if e.segmentflags.Some? {
      SpeedFields(e.segmentflags.value, e.speedcat.value);
    }
  }

  /** The arithmetic half of the round trip: the words and bytes the
      serializer builds unpack to the fields they came from. */
  lemma FieldsReadBack(e: Element, pc: nat)
    requires e.Routing? && FieldsEncodable(e) && pc < 8
    ensures Word1(e, pc) < 0x1_0000_0000 && 0 <= Word2(e) < 0x1_0000_0000
    ensures 0 <= FlagsByte(e) < 0x100 && 0 <= OrientationByte(e) < 0x100 && TrailingBytes(e).Ok?
    ensures Word1(e, pc) / 0x2000_0000 == pc
    ensures RoutingFrom(e.coords, Fixed(Word1(e, pc), Word2(e), e.cellnumref, e.numincellref + 1, e.restrictions,
                                        FlagsByte(e) as byte, OrientationByte(e) as byte), TrailingBytes(e).value)
            == Routing(e.coords, e.layernumref, e.cellnumref, e.numincellref, e.ivertices,
                       e.bidirectional, e.reversedir, e.edgeindices, e.orientations,
                       e.segmentflags, e.speedcat, e.segmenttype,
                       e.distance % 0x100_0000, e.restrictions, e.unk1 % 32, e.unk2)
  {
    Word1Fields(pc, e.unk1 % 32, e.distance % 0x100_0000);
    Word2Fields(e.layernumref + 8, e.unk2, e.ivertices.0, e.ivertices.1);
    FlagsFields(if e.bidirectional then 1 else 0, if e.reversedir then 1 else 0, e.edgeindices.1, e.edgeindices.0);
    OrientFields(e.orientations.1, e.orientations.0);
    TrailingReadBack(e);
  }

  /** The fixed part of an encodable edge reads back as the fields it
      was packed from. */
  lemma FixedReadBack(e: Element, pc: nat, tr: seq<byte>, big: bool)
    requires e.Routing? && FieldsEncodable(e) && pc < 8
    ensures FixedBytes(e, pc, big).Ok?
    ensures ReadFixed(FixedBytes(e, pc, big).value + tr, big)
            == Ok((Fixed(Word1(e, pc), Word2(e), e.cellnumref, e.numincellref + 1, e.restrictions,
                         FlagsByte(e) as byte, OrientationByte(e) as byte), tr))
  {
    FieldsReadBack(e, pc);
    var w1, w2 := Word1(e, pc), Word2(e);
    var fl, ob := FlagsByte(e), OrientationByte(e);
    var rs := PackRestrictions(e.restrictions).value;
    var fixed := U32(w1, big) + U32(w2, big) + U32(e.cellnumref, big) + U16(e.numincellref + 1, big)
                 + rs + [fl] + [ob];
    assert FixedBytes(e, pc, big) == Ok(fixed);
    ReadFixedOf(w1, w2, e.cellnumref, e.numincellref + 1, rs, fl as byte, ob as byte, tr, big);
  }

  /** An encodable edge serializes as its box, the fixed part for the
      corner code of its end points, and the trailing bytes. */
  lemma SerializeRoutingOf(org: Pt, e: Element, big: bool)
    requires e.Routing? && RoutingEncodable(org, e)
    ensures var b := RelBox(org, Bounds(e.coords));
      var p1, p2 := ToRel(org, e.coords[0]), ToRel(org, e.coords[1]);
      && CornerCode(b, p1, p2).Some?
      && Corners(CornerCode(b, p1, p2).value, b) == Some((p1, p2))
      && FixedBytes(e, CornerCode(b, p1, p2).value, big).Ok? && TrailingBytes(e).Ok?
      && SerializeRouting(org, e, big)
         == Ok(EncodeBBox(b, big).value + FixedBytes(e, CornerCode(b, p1, p2).value, big).value
               + TrailingBytes(e).value)
  {
    var p1, p2 := ToRel(org, e.coords[0]), ToRel(org, e.coords[1]);
    RelBoxBounds(org, e.coords);
    assert Rels(org, e.coords) == [p1, p2];
    CornersOfEndpoints(p1, p2);
    var pc := CornerCode(RelBox(org, Bounds(e.coords)), p1, p2).value;
    FieldsReadBack(e, pc);
    FixedReadBack(e, pc, [], big);
  }

  /** The reading steps of `DeserializeRouting`, each succeeding. */
  lemma DeserializeRoutingOf(org: Pt, data: seq<byte>, big: bool, b: Rec, rest: seq<byte>,
                             f: Fixed, d: seq<byte>, p1: Pt, p2: Pt)
    requires DecodeBBox(data, big) == Ok((b, rest))
    requires ReadFixed(rest, big) == Ok((f, d))
    requires Corners(f.w1 / 0x2000_0000, b) == Some((p1, p2))
    ensures DeserializeRouting(org, data, big) == Ok(RoutingFrom(Abss(org, [p1, p2]), f, d))
  {
  }

  lemma RoutingRoundTrip(org: Pt, e: Element, big: bool)
    requires e.Routing? && RoutingEncodable(org, e)
    ensures SerializeRouting(org, e, big).Ok?
    ensures DeserializeRouting(org, SerializeRouting(org, e, big).value, big)
            == Ok(Routing(e.coords, e.layernumref, e.cellnumref, e.numincellref, e.ivertices,
                          e.bidirectional, e.reversedir, e.edgeindices, e.orientations,
                          e.segmentflags, e.speedcat, e.segmenttype,
                          e.distance % 0x100_0000, e.restrictions, e.unk1 % 32, e.unk2))
  {
    var p1, p2 := ToRel(org, e.coords[0]), ToRel(org, e.coords[1]);
    var b := RelBox(org, Bounds(e.coords));
    SerializeRoutingOf(org, e, big);
    var pc := CornerCode(b, p1, p2).value;
    FieldsReadBack(e, pc);
    var tr := TrailingBytes(e).value;
    var tail := FixedBytes(e, pc, big).value + tr;
    assert SerializeRouting(org, e, big).value == EncodeBBox(b, big).value + tail;
    BBoxRoundTrip(b, big, tail);
    FixedReadBack(e, pc, tr, big);
    var f := Fixed(Word1(e, pc), Word2(e), e.cellnumref, e.numincellref + 1, e.restrictions,
                   FlagsByte(e) as byte, OrientationByte(e) as byte);
    DeserializeRoutingOf(org, SerializeRouting(org, e, big).value, big, b, tail, f, tr, p1, p2);
    AbssOfEnds(org, e.coords);
  }

  lemma AbssOfEnds(org: Pt, ps: seq<Pt>)
    requires |ps| == 2
    ensures Abss(org, [ToRel(org, ps[0]), ToRel(org, ps[1])]) == ps
  {
    var vs := [ToRel(org, ps[0]), ToRel(org, ps[1])];
    assert Abss(org, vs)[0] == ps[0];
    assert Abss(org, vs)[1] == ps[1];
  }
}
