/** The polyline record of magellan/CellElement.py (`CellElementPolyline`):
    bounding box, text slot offset, object type, a 16-bit header holding
    the polytype (how the first and last vertex are given) and the vertex
    count, the start vertex, the delta-coded steps, the text slot index,
    and trailing bytes that a decoder reads as routing information. */
module PolylineCodec {
  import opened Wrappers
  import opened PyStruct
  import opened Bits
  import opened Arith
  import opened Geometry
  import opened CellCodec
  import opened CellElement
  import opened DeltaCoding
  import opened Chunks

  // ------------------------------------------------------------ layout

  /** The polytype `serialize` picks for relative vertices `vs` in box
      `b`: 4 to 7 when the line runs between two opposite corners (the end
      corner is then implied), 3 when it starts at the lower corner, and
      otherwise 0, 1 or 2 after how wide the start's offset from the lower
      corner is. */
  function Polytype(b: Rec, vs: seq<Pt>): (p: nat)
    requires |vs| > 0
    ensures p < 8
    ensures p == 3 ==> vs[0] == b.c1
    ensures p >= 4 ==> Anchor(p, b) == (vs[0], Some(vs[|vs| - 1]))
  {
    var first, last := vs[0], vs[|vs| - 1];
    if first == b.c1 && last == b.c2 then 4
    else if first == b.c2 && last == b.c1 then 5
    else if first == b.UL() && last == b.LR() then 6
    else if first == b.LR() && last == b.UL() then 7
    else if first == b.c1 then 3
    else
      var d := first.Sub(b.c1);
      if d.x > 0xffff || d.y > 0xffff then 0
      else if d.x > 0xff || d.y > 0xff then 1
      else 2
  }

  /** Start vertex and implied end vertex a decoder derives from a
      polytype of 3 and above. */
  function Anchor(p: nat, b: Rec): (Pt, Option<Pt>)
    requires 3 <= p < 8
  {
    if p == 6 then (b.UL(), Some(b.LR()))
    else if p == 5 then (b.c2, Some(b.c1))
    else if p == 7 then (b.LR(), Some(b.UL()))
    else if p == 3 then (b.c1, None)
    else (b.c1, Some(b.c2))
  }

  /** The vertices handed to encodedeltaslow: all of them, less the last
      when the polytype implies it. */
  function Chain(p: nat, vs: seq<Pt>): (c: seq<Pt>)
    requires |vs| > 0
    ensures |c| == if p >= 4 then |vs| - 1 else |vs|
    ensures |c| > 0 ==> c[0] == vs[0]
  {
    if p >= 4 then vs[..|vs| - 1] else vs
  }

  /** The header word: polytype in the top three bits OR-ed with the
      vertex count. */
  function HeaderWord(p: nat, n: nat): nat
  {
    Or(p * 0x2000, n)
  }

  lemma HeaderFields(p: nat, n: nat)
    requires p < 8 && n < 0x2000
    ensures HeaderWord(p, n) < 0x1_0000 && HeaderWord(p, n) / 0x2000 == p && HeaderWord(p, n) % 0x2000 == n
  {
    assert Pow2(13) == 0x2000 by { Pow2Values(); }
    OrShifted(p, n, 13);
    DivAdd(p, n, 0x2000);
  }

  // ------------------------------------------------------- vertex data

  /** The start vertex for polytypes 0 to 2: absolute as two signed
      32-bit values, or its offset from the lower corner as two 16-bit or
      two 8-bit values. The other polytypes write nothing. */
  function StartBytes(p: nat, b: Rec, first: Pt, big: bool): (r: Result<seq<byte>>)
    ensures p >= 3 ==> r == Ok([])
  {
    var d := first.Sub(b.c1);
    if p == 0 then
      var x :- PackS32(first.x, big);
      var y :- PackS32(first.y, big);
      Ok(x + y)
    else if p == 1 then
      var x :- PackU16(d.x, big);
      var y :- PackU16(d.y, big);
      Ok(x + y)
    else if p == 2 then
      var x :- PackU8(d.x);
      var y :- PackU8(d.y);
      Ok(x + y)
    else Ok([])
  }

  /** The vertex count the header carries: every vertex, plus those
      encodedeltaslow inserts to split long segments. */
  function VertexCount(b: Rec, vs: seq<Pt>): (n: nat)
    requires |vs| > 0
    ensures n >= |vs|
  {
    |vs| + Inserted(Chain(Polytype(b, vs), vs))
  }

  /** The polytype, the vertex count for the header (every vertex plus
      those encodedeltaslow inserts) and the start and step bytes. With a
      single vertex the implied end leaves encodedeltaslow nothing to pop,
      which raises IndexError. */
  function EncodeVertices(b: Rec, vs: seq<Pt>, big: bool): (r: Result<(nat, nat, seq<byte>)>)
    requires |vs| > 0
    ensures r.Ok? ==> r.value.0 == Polytype(b, vs) && |Chain(r.value.0, vs)| > 0
                      && r.value.1 == VertexCount(b, vs)
    ensures |vs| == 1 && b == Rec(vs[0], vs[0]) ==> r == Fail(IndexError)
  {
    var p := Polytype(b, vs);
    var start :- StartBytes(p, b, vs[0], big);
    var chain := Chain(p, vs);
    if |chain| == 0 then Fail(IndexError)
    else Ok((p, |vs| + Inserted(chain), start + StepBytes(ChainSteps(chain))))
  }

  /** The start vertex as `deSerialize` reads it, with the implied end. */
  function ReadStart(p: nat, b: Rec, data: seq<byte>, big: bool): (r: Result<(Pt, Option<Pt>, seq<byte>)>)
    requires p < 8
    ensures r.Ok? && p >= 3 ==> r.value == (Anchor(p, b).0, Anchor(p, b).1, data)
    ensures r.Ok? && p < 3 ==> r.value.1.None?
  {
    if p == 0 then
      var x :- ReadS32(data, big);
      var y :- ReadS32(x.1, big);
      Ok((Pt(x.0, y.0), None, y.1))
    else if p == 1 then
      var x :- ReadU16(data, big);
      var y :- ReadU16(x.1, big);
      Ok((b.c1.Add(Pt(x.0, y.0)), None, y.1))
    else if p == 2 then
      var x :- ReadU8(data);
      var y :- ReadU8(x.1);
      Ok((b.c1.Add(Pt(x.0, y.0)), None, y.1))
    else
      var a := Anchor(p, b);
      Ok((a.0, a.1, data))
  }

  /** The vertex list rebuilt from the header fields: the start, the
      running sums of the steps, and the implied end. The step count is the
      vertex count less the vertices not coded as steps; a negative count
      is a struct error. */
  function DecodeVertices(p: nat, n: nat, b: Rec, data: seq<byte>, big: bool): (r: Result<(seq<Pt>, seq<byte>)>)
    requires p < 8
    ensures r.Ok? ==> |r.value.0| == n
  {
    var start :- ReadStart(p, b, data, big);
    var ndelta := if p <= 3 then n - 1 else n - 2;
    var steps :- DecodeSteps(start.2, ndelta);
    var vlist := Walk(start.0, steps.0);
    Ok((if start.1.Some? then vlist + [start.1.value] else vlist, steps.1))
  }

  /** What a decoder rebuilds from the relative vertices `vs`: the walk
      of the steps from the first vertex, then the implied end. */
  function DecodedRel(b: Rec, vs: seq<Pt>): (ws: seq<Pt>)
    requires |vs| > 0
  {
    var p := Polytype(b, vs);
    var w := Walk(vs[0], ChainSteps(Chain(p, vs)));
    if p >= 4 then w + [vs[|vs| - 1]] else w
  }

  /** The start vertex reads back wherever it lies in the box, as long as
      a far-away start fits the signed 32-bit fields. */
  lemma StartRoundTrip(b: Rec, vs: seq<Pt>, big: bool, rest: seq<byte>)
    requires |vs| > 0 && b.Contains(vs[0])
    requires Polytype(b, vs) == 0 ==> -0x8000_0000 <= vs[0].x < 0x8000_0000 && -0x8000_0000 <= vs[0].y < 0x8000_0000
    ensures var p := Polytype(b, vs);
      && StartBytes(p, b, vs[0], big).Ok?
      && ReadStart(p, b, StartBytes(p, b, vs[0], big).value + rest, big)
         == Ok((vs[0], if p >= 4 then Some(vs[|vs| - 1]) else None, rest))
  {
    var p := Polytype(b, vs);
    var d := vs[0].Sub(b.c1);
    if p == 0 {
      var x, y := S32(vs[0].x, big), S32(vs[0].y, big);
      assert x + y + rest == x + (y + rest);
      ReadS32Prefix(vs[0].x, big, y + rest);
      ReadS32Prefix(vs[0].y, big, rest);
    } else if p == 1 {
      var x, y := U16(d.x, big), U16(d.y, big);
      assert x + y + rest == x + (y + rest);
      ReadU16Prefix(d.x, big, y + rest);
      ReadU16Prefix(d.y, big, rest);
    } else if p == 2 {
      assert [d.x] + [d.y] + rest == [d.x] + ([d.y] + rest);
    } else {
      assert [] + rest == rest;
    }
  }

  /** The vertex data of at least two vertices decodes to `DecodedRel`,
      consuming exactly the bytes written for it. */
  lemma VerticesRoundTrip(b: Rec, vs: seq<Pt>, big: bool, rest: seq<byte>)
    requires |vs| >= 2 && b.Contains(vs[0])
    requires Polytype(b, vs) == 0 ==> -0x8000_0000 <= vs[0].x < 0x8000_0000 && -0x8000_0000 <= vs[0].y < 0x8000_0000
    ensures var r := EncodeVertices(b, vs, big);
      && r.Ok?
      && DecodeVertices(r.value.0, r.value.1, b, r.value.2 + rest, big) == Ok((DecodedRel(b, vs), rest))
  {
    var p := Polytype(b, vs);
    var chain := Chain(p, vs);
    var start := StartBytes(p, b, vs[0], big).value;
    var sb := StepBytes(ChainSteps(chain));
    var end := if p >= 4 then Some(vs[|vs| - 1]) else None;
    EncodeVerticesOf(b, vs, big);
    StartRoundTrip(b, vs, big, sb + rest);
    ChainDecode(p, b, start, vs[0], end, chain, VertexCount(b, vs), big, rest);
  }

  /** Decoding a start and the steps of a chain from that start, with
      the vertex count the header carries for them. */
  lemma ChainDecode(p: nat, b: Rec, start: seq<byte>, first: Pt, end: Option<Pt>, chain: seq<Pt>, n: nat,
                    big: bool, rest: seq<byte>)
    requires p < 8 && |chain| > 0 && chain[0] == first && (end.Some? <==> p >= 4)
    requires ReadStart(p, b, start + (StepBytes(ChainSteps(chain)) + rest), big)
             == Ok((first, end, StepBytes(ChainSteps(chain)) + rest))
    requires n == |chain| + (if p >= 4 then 1 else 0) + Inserted(chain)
    ensures DecodeVertices(p, n, b, start + StepBytes(ChainSteps(chain)) + rest, big)
            == Ok((if end.Some? then Walk(first, ChainSteps(chain)) + [end.value] else Walk(first, ChainSteps(chain)), rest))
  {
    var steps := ChainSteps(chain);
    var sb := StepBytes(steps);
    AppendAssoc(start, sb, rest);
    ChainLength(chain);
    DecodeStepBytes(steps, rest);
    DecodeVerticesOf(p, n, b, start + (sb + rest), big, first, end, sb + rest, steps, rest);
  }

  lemma EncodeVerticesOf(b: Rec, vs: seq<Pt>, big: bool)
    requires |vs| >= 2 && b.Contains(vs[0])
    requires Polytype(b, vs) == 0 ==> -0x8000_0000 <= vs[0].x < 0x8000_0000 && -0x8000_0000 <= vs[0].y < 0x8000_0000
    ensures var p := Polytype(b, vs); var chain := Chain(p, vs);
      && StartBytes(p, b, vs[0], big).Ok?
      && EncodeVertices(b, vs, big)
         == Ok((p, VertexCount(b, vs), StartBytes(p, b, vs[0], big).value + StepBytes(ChainSteps(chain))))
  {
    StartRoundTrip(b, vs, big, []);
  }

  /** The reading steps of `DecodeVertices`, each succeeding. */
  lemma DecodeVerticesOf(p: nat, n: nat, b: Rec, data: seq<byte>, big: bool, first: Pt, end: Option<Pt>,
                         d: seq<byte>, steps: seq<Pt>, rest: seq<byte>)
    requires p < 8
    requires ReadStart(p, b, data, big) == Ok((first, end, d))
    requires DecodeSteps(d, if p <= 3 then n - 1 else n - 2) == Ok((steps, rest))
    ensures DecodeVertices(p, n, b, data, big)
            == Ok((if end.Some? then Walk(first, steps) + [end.value] else Walk(first, steps), rest))
  {
  }

  /** Every vertex of a line is among the vertices the decoder rebuilds. */
  lemma PolylineDecodedVisits(b: Rec, vs: seq<Pt>)
    requires |vs| >= 2
    ensures forall i :: 0 <= i < |vs| ==> vs[i] in DecodedRel(b, vs)
  {
    var p := Polytype(b, vs);
    var c := Chain(p, vs);
    WalkChainVisits(c);
    assert forall i :: 0 <= i < |c| ==> c[i] == vs[i];
  }

  /** A line whose every edge fits one step decodes to itself. */
  lemma PolylineDecodedExact(b: Rec, vs: seq<Pt>)
    requires |vs| >= 2
    requires forall i :: 0 <= i < |vs| - 1 ==> Small(vs[i + 1].Sub(vs[i]))
    ensures DecodedRel(b, vs) == vs
  {
    var p := Polytype(b, vs);
    var c := Chain(p, vs);
    assert forall i :: 0 <= i < |c| ==> c[i] == vs[i];
    WalkChainExact(c);
    if p >= 4 {
      assert c + [vs[|vs| - 1]] == vs;
    }
  }

  // ---------------------------------------------------- routing bytes

  /** Bit i of b (`b & (1 << i)` is non-zero). */
  predicate Bit(b: nat, i: nat)
  {
    (b / Pow2(i)) % 2 == 1
  }

  /** `base + i` for each set bit i below k of b, in increasing order. */
  function ByteBits(b: byte, base: nat, k: nat): (r: seq<nat>)
    requires k <= 8
    ensures forall i :: 0 <= i < |r| ==> base <= r[i] < base + k
    ensures forall i, j :: 0 <= i < j < |r| ==> r[i] < r[j]
  {
    if k == 0 then []
    else ByteBits(b, base, k - 1) + (if Bit(b, k - 1) then [base + k - 1] else [])
  }

  /** The routing vertex indices of `deSerialize`: the bytes are taken
      from last to first, and byte i (counting from the last) stands for
      the vertices 8i to 8i + 7, one per set bit. */
  function RoutingIndices(extra: seq<byte>): (r: seq<nat>)
    ensures forall i :: 0 <= i < |r| ==> r[i] < 8 * |extra|
    ensures forall i, j :: 0 <= i < j < |r| ==> r[i] < r[j]
  {
    if |extra| == 0 then []
    else
      var front := RoutingIndices(extra[1..]);
      var mine := ByteBits(extra[0], 8 * (|extra| - 1), 8);
      assert forall i :: 0 <= i < |front| ==> front[i] < 8 * (|extra| - 1);
      front + mine
  }

  lemma {:induction false} ByteBitsMember(b: byte, base: nat, k: nat, j: nat)
    requires k <= 8
    ensures j in ByteBits(b, base, k) <==> base <= j < base + k && Bit(b, j - base)
  {
    if k > 0 {
      ByteBitsMember(b, base, k - 1, j);
    }
  }

  /** Vertex j is a routing vertex exactly when its bit is set in the byte
      that covers it. */
  lemma {:induction false} RoutingIndicesMember(extra: seq<byte>, j: nat)
    ensures j in RoutingIndices(extra) <==> j < 8 * |extra| && Bit(extra[|extra| - 1 - j / 8], j % 8)
  {
    if |extra| > 0 {
      var m := |extra| - 1;
      RoutingIndicesMember(extra[1..], j);
      ByteBitsMember(extra[0], 8 * m, 8, j);
      if 8 * m <= j < 8 * |extra| {
        DivAdd(m, j - 8 * m, 8);
      } else if j < 8 * m {
        assert j / 8 < m;
        assert extra[1..][m - 1 - j / 8] == extra[|extra| - 1 - j / 8];
      }
    }
  }

  /** The routing-information loop of `deSerialize`: for each byte from
      the last, each of its eight bits from the lowest. */
  method RoutingVertexIndices(extrainfo: seq<byte>) returns (indices: seq<nat>)
    ensures indices == RoutingIndices(extrainfo)
  {
    indices := [];
    var i := 0;
    while i < |extrainfo|
      invariant 0 <= i <= |extrainfo|
      invariant indices == RoutingIndices(extrainfo[|extrainfo| - i..])
    {
      RoutingIndicesStep(extrainfo, i);
      indices := AddByteBits(indices, extrainfo[|extrainfo| - 1 - i], 8 * i);
      i := i + 1;
    }
    assert extrainfo[0..] == extrainfo;
  }

  /** The inner loop: the set bits of one byte, from the lowest. */
  method AddByteBits(before: seq<nat>, b: byte, base: nat) returns (indices: seq<nat>)
    ensures indices == before + ByteBits(b, base, 8)
  {
    indices := before;
    var biti := 0;
    while biti < 8
      invariant 0 <= biti <= 8
      invariant indices == before + ByteBits(b, base, biti)
    {
      if Bit(b, biti) {
        indices := indices + [base + biti];
      }
      biti := biti + 1;
    }
  }

  /** Taking one more byte from the end adds its bits after those of the
      bytes already taken. */
  lemma RoutingIndicesStep(extra: seq<byte>, i: nat)
    requires i < |extra|
    ensures RoutingIndices(extra[|extra| - 1 - i..])
            == RoutingIndices(extra[|extra| - i..]) + ByteBits(extra[|extra| - 1 - i], 8 * i, 8)
  {
    var s := extra[|extra| - 1 - i..];
    assert s[1..] == extra[|extra| - i..];
  }

  /** The bytes after the text slot: an odd count makes the first of them
      `unk`; any that remain are routing bytes, which must name a vertex
      (IndexError otherwise) and none past the last vertex
      (AssertionError). */
  function DecodeRoutingInfo(extra: seq<byte>, nvertices: nat): (r: Result<(Option<byte>, seq<nat>)>)
    ensures r.Ok? ==> (r.value.0.Some? <==> |extra| % 2 == 1)
    ensures r.Ok? ==> forall i :: 0 <= i < |r.value.1| ==> r.value.1[i] < nvertices
  {
    var unk := if |extra| % 2 == 1 then Some(extra[0]) else None;
    var bits := if |extra| % 2 == 1 then extra[1..] else extra;
    if |bits| == 0 then Ok((unk, []))
    else
      var idx := RoutingIndices(bits);
      if |idx| == 0 then Fail(IndexError)
      else if idx[|idx| - 1] >= nvertices then Fail(AssertionError)
      else Ok((unk, idx))
  }

  // ----------------------------------------------------------- record

  /** `CellElementPolyline.serialize`. An empty line has no bounds
      (ValueError). */
  function SerializePolyline(org: Pt, e: Element, big: bool): (r: Result<seq<byte>>)
    requires e.Polyline?
    ensures r.Ok? ==> |e.coords| >= 2
    ensures |e.coords| == 0 ==> r == Fail(ValueError)
  {
    if |e.coords| == 0 then Fail(ValueError)
    else EncodeLine(RelBox(org, Bounds(e.coords)), Rels(org, e.coords), e.objtype, e.textslot, e.excess, big)
  }

  /** The record for relative vertices `vs` in box `b`. The text slot is
      written in last position when there is no excess, and the excess
      follows it. */
  function EncodeLine(b: Rec, vs: seq<Pt>, objtype: int, ts: Option<nat>, excess: seq<byte>, big: bool)
    : (r: Result<seq<byte>>)
    requires |vs| > 0
    ensures r.Ok? && b == Rec(vs[0], vs[0]) ==> |vs| >= 2
  {
    var bb :- EncodeBBox(b, big);
    var last := |excess| == 0;
    var off :- EncodeTextslotOffset(ts, last);
    var ot :- PackU8(objtype);
    var enc :- EncodeVertices(b, vs, big);
    var header :- PackU16(HeaderWord(enc.0, enc.1), big);
    // An index written without its offset byte is always encodable.
    var tsb := EncodeTextslotAsWritten(ts, big, true, last, false).value;
    Ok(bb + off + ot + header + enc.2 + tsb + excess)
  }

  /** `CellElementPolyline.deSerialize`: the excess is not kept; the
      bytes after the text slot become `unk` and the routing indices. */
  function DeserializePolyline(org: Pt, data: seq<byte>, big: bool): (r: Result<Element>)
    ensures r.Ok? ==> r.value.Polyline? && 0 <= r.value.objtype < 0x100 && |r.value.excess| == 0
    ensures r.Ok? ==> forall i :: 0 <= i < |r.value.routingvertexindices| ==> r.value.routingvertexindices[i] < |r.value.coords|
  {
    var l :- DecodeLine(data, big);
    Ok(Polyline(Abss(org, l.verts), l.objtype, l.textslot, l.unk, l.indices, []))
  }

  /** The fields a polyline record holds, vertices still relative. */
  datatype Line = Line(verts: seq<Pt>, objtype: byte, textslot: Option<nat>, unk: Option<byte>, indices: seq<nat>)

  function DecodeLine(data: seq<byte>, big: bool): (r: Result<Line>)
    ensures r.Ok? ==> forall i :: 0 <= i < |r.value.indices| ==> r.value.indices[i] < |r.value.verts|
    ensures r.Ok? && r.value.textslot.Some? ==> r.value.textslot.value < 0x1_0000_0000
  {
    var bb :- DecodeBBox(data, big);
    var off :- ReadU8(bb.1);
    var ot :- ReadU8(off.1);
    var hdr :- ReadU16(ot.1, big);
    var verts :- DecodeVertices(hdr.0 / 0x2000, hdr.0 % 0x2000, bb.0, hdr.1, big);
    var ts :- DecodeTextslot(verts.1, big, Some(off.0), false);
    var info :- DecodeRoutingInfo(ts.1, |verts.0|);
    Ok(Line(verts.0, ot.0, ts.0, info.0, info.1))
  }

  // ------------------------------------------------------ round trip

  /** Everything `EncodeLine` writes without loss: at least two vertices
      in an encodable box, an object type byte, a vertex count that leaves
      the polytype bits alone, a far start within 32 signed bits, a text
      slot whose offset byte is no escape and whose index fits 16 bits,
      and excess that reads as routing data. */
  predicate LineEncodable(b: Rec, vs: seq<Pt>, objtype: int, ts: Option<nat>, excess: seq<byte>)
  {
    && |vs| >= 2 && b.Contains(vs[0]) && Encodable(b) && 0 <= objtype < 0x100
    && var p := Polytype(b, vs);
    var t := SlotValue(ts);
    && VertexCount(b, vs) < 0x2000
    && (p == 0 ==> -0x8000_0000 <= vs[0].x < 0x8000_0000 && -0x8000_0000 <= vs[0].y < 0x8000_0000)
    && t < 0x1_0000_0000 && Offset(t) != 0xfb && Offset(t) != 0xfc
    && Index(t) < 0x1_0000
    && DecodeRoutingInfo(excess, VertexCount(b, vs)).Ok?
  }

  /** The text slot of a polyline: written in last position when nothing
      follows, read back as a slot before further data either way. */
  lemma PolylineTextslot(ts: Option<nat>, big: bool, excess: seq<byte>)
    requires SlotValue(ts) < 0x1_0000_0000
    requires Offset(SlotValue(ts)) != 0xfb && Offset(SlotValue(ts)) != 0xfc
    requires Index(SlotValue(ts)) < 0x1_0000
    ensures var last := |excess| == 0;
      var off := EncodeTextslotOffset(ts, last); var enc := EncodeTextslotAsWritten(ts, big, true, last, false);
      && off.Ok? && enc.Ok?
      && DecodeTextslot(enc.value + excess, big, Some(off.value[0]), false) == Ok((Normalized(ts), excess))
  {
    TextslotAsWrittenAgrees(ts, big, true, |excess| == 0, false);
    if |excess| == 0 {
      TextslotLastReadInner(ts, big, excess);
    } else {
      TextslotInnerRoundTrip(ts, big, excess);
    }
  }

  /** The pieces of an encodable line, in the order written. */
  lemma EncodeLineOf(b: Rec, vs: seq<Pt>, objtype: int, ts: Option<nat>, excess: seq<byte>, big: bool,
                     off: seq<byte>, enc: (nat, nat, seq<byte>), tsb: seq<byte>)
    requires |vs| > 0 && Encodable(b) && 0 <= objtype < 0x100
    requires EncodeTextslotOffset(ts, |excess| == 0) == Ok(off)
    requires EncodeVertices(b, vs, big) == Ok(enc) && HeaderWord(enc.0, enc.1) < 0x1_0000
    requires EncodeTextslotAsWritten(ts, big, true, |excess| == 0, false) == Ok(tsb)
    ensures EncodeLine(b, vs, objtype, ts, excess, big)
            == Ok(EncodeBBox(b, big).value + off + [objtype] + U16(HeaderWord(enc.0, enc.1), big) + enc.2 + tsb + excess)
  {
  }

  /** The reading steps of `DecodeLine`, each succeeding. */
  lemma DecodeLineOf(data: seq<byte>, big: bool, b: Rec, d1: seq<byte>, ot: byte, h: nat, d3: seq<byte>,
                     verts: seq<Pt>, d5: seq<byte>, ts: Option<nat>, extra: seq<byte>, info: (Option<byte>, seq<nat>))
    requires DecodeBBox(data, big) == Ok((b, d1))
    requires |d1| >= 2 && d1[1] == ot && ReadU16(d1[2..], big) == Ok((h, d3))
    requires DecodeVertices(h / 0x2000, h % 0x2000, b, d3, big) == Ok((verts, d5))
    requires DecodeTextslot(d5, big, Some(d1[0]), false) == Ok((ts, extra))
    requires DecodeRoutingInfo(extra, |verts|) == Ok(info)
    ensures DecodeLine(data, big) == Ok(Line(verts, ot, ts, info.0, info.1))
  {
    assert d1[1..][1..] == d1[2..];
  }

  /** Regrouping the seven pieces of a line record. */
  lemma LineRegroup(bb: seq<byte>, off: seq<byte>, ot: seq<byte>, hdr: seq<byte>, vb: seq<byte>,
                    tsb: seq<byte>, excess: seq<byte>)
    ensures bb + off + ot + hdr + vb + tsb + excess == bb + (off + ot + (hdr + (vb + (tsb + excess))))
  {
  }

  /** The bytes of a line, from its pieces, read back. */
  lemma LineDecodes(b: Rec, vs: seq<Pt>, objtype: byte, tsd: Option<nat>, excess: seq<byte>, big: bool,
                    off: seq<byte>, enc: (nat, nat, seq<byte>), tsb: seq<byte>, info: (Option<byte>, seq<nat>))
    requires |vs| >= 2 && b.Contains(vs[0]) && Encodable(b)
    requires Polytype(b, vs) == 0 ==> -0x8000_0000 <= vs[0].x < 0x8000_0000 && -0x8000_0000 <= vs[0].y < 0x8000_0000
    requires EncodeVertices(b, vs, big) == Ok(enc) && enc.1 < 0x2000 && HeaderWord(enc.0, enc.1) < 0x1_0000
    requires |off| == 1 && DecodeTextslot(tsb + excess, big, Some(off[0]), false) == Ok((tsd, excess))
    requires DecodeRoutingInfo(excess, enc.1) == Ok(info)
    ensures DecodeLine(EncodeBBox(b, big).value + off + [objtype] + U16(HeaderWord(enc.0, enc.1), big) + enc.2 + tsb + excess, big)
            == Ok(Line(DecodedRel(b, vs), objtype, tsd, info.0, info.1))
  {
    HeaderFields(enc.0, enc.1);
    var hw := HeaderWord(enc.0, enc.1);
    var bb := EncodeBBox(b, big).value;
    var d5 := tsb + excess;
    var d3 := enc.2 + d5;
    var d1 := off + [objtype] + (U16(hw, big) + d3);
    LineRegroup(bb, off, [objtype], U16(hw, big), enc.2, tsb, excess);
    BBoxRoundTrip(b, big, d1);
    assert d1[2..] == U16(hw, big) + d3;
    ReadU16Prefix(hw, big, d3);
    VerticesRoundTrip(b, vs, big, d5);
    DecodeLineOf(bb + d1, big, b, d1, objtype, hw, d3, DecodedRel(b, vs), d5, tsd, excess, info);
  }

  /** An encodable line reads back with the vertices the delta coding
      rebuilds, its object type, its text slot (the sentinel as None) and,
      in place of its excess, the `unk` byte and routing indices the excess
      encodes. */
  lemma LineRoundTrip(b: Rec, vs: seq<Pt>, objtype: int, ts: Option<nat>, excess: seq<byte>, big: bool)
    requires LineEncodable(b, vs, objtype, ts, excess)
    ensures EncodeLine(b, vs, objtype, ts, excess, big).Ok?
    ensures DecodeLine(EncodeLine(b, vs, objtype, ts, excess, big).value, big)
      == Ok(Line(DecodedRel(b, vs), objtype, Normalized(ts), DecodeRoutingInfo(excess, VertexCount(b, vs)).value.0,
                 DecodeRoutingInfo(excess, VertexCount(b, vs)).value.1))
  {
    var last := |excess| == 0;
    EncodeVerticesOf(b, vs, big);
    PolylineTextslot(ts, big, excess);
    var off := EncodeTextslotOffset(ts, last).value;
    var enc := EncodeVertices(b, vs, big).value;
    var tsb := EncodeTextslotAsWritten(ts, big, true, last, false).value;
    HeaderFields(enc.0, enc.1);
    EncodeLineOf(b, vs, objtype, ts, excess, big, off, enc, tsb);
    LineDecodes(b, vs, objtype, Normalized(ts), excess, big, off, enc, tsb,
                DecodeRoutingInfo(excess, VertexCount(b, vs)).value);
  }

  /** The serializer's conditions for a lossless polyline, on the element
      and the cell's lower corner. */
  predicate PolylineEncodable(org: Pt, e: Element)
    requires e.Polyline?
  {
    |e.coords| > 0 && LineEncodable(RelBox(org, Bounds(e.coords)), Rels(org, e.coords), e.objtype, e.textslot, e.excess)
  }

  /** The serializer's bytes are those of the relative line. */
  lemma SerializePolylineOf(org: Pt, e: Element, big: bool)
    requires e.Polyline? && |e.coords| > 0
    ensures SerializePolyline(org, e, big)
            == EncodeLine(RelBox(org, Bounds(e.coords)), Rels(org, e.coords), e.objtype, e.textslot, e.excess, big)
  {
  }

  /** A line read back becomes a polyline in absolute coordinates. */
  lemma DeserializePolylineOf(org: Pt, data: seq<byte>, big: bool)
    requires DecodeLine(data, big).Ok?
    ensures var l := DecodeLine(data, big).value;
      DeserializePolyline(org, data, big) == Ok(Polyline(Abss(org, l.verts), l.objtype, l.textslot, l.unk, l.indices, []))
  {
  }

  /** A polyline the serializer accepts losslessly reads back with the
      decoder's vertices in absolute coordinates, its object type and text
      slot, and the routing data its excess encodes, for `b` and `vs` the
      relative bounds and vertices the serializer writes. */
  lemma PolylineRoundTrip(org: Pt, e: Element, big: bool, b: Rec, vs: seq<Pt>)
    requires e.Polyline? && PolylineEncodable(org, e)
    requires b == RelBox(org, Bounds(e.coords)) && vs == Rels(org, e.coords)
    ensures SerializePolyline(org, e, big).Ok?
    ensures DeserializePolyline(org, SerializePolyline(org, e, big).value, big)
      == Ok(Polyline(Abss(org, DecodedRel(b, vs)), e.objtype, Normalized(e.textslot),
                     DecodeRoutingInfo(e.excess, VertexCount(b, vs)).value.0,
                     DecodeRoutingInfo(e.excess, VertexCount(b, vs)).value.1, []))
  {
    LineRoundTrip(b, vs, e.objtype, e.textslot, e.excess, big);
    SerializePolylineOf(org, e, big);
    DeserializePolylineOf(org, EncodeLine(b, vs, e.objtype, e.textslot, e.excess, big).value, big);
  }
}
