/** The area record of magellan/CellElement.py (`CellElementArea`): the
    rings of a polygon, each with its own polytype, a header of ring words
    carrying cumulative vertex offsets, the delta-coded ring data, a corner
    byte and the text slot index. */
module AreaCodec {
  import opened Wrappers
  import opened PyStruct
  import opened Bits
  import opened Arith
  import opened Geometry
  import opened CellCodec
  import opened CellElement
  import opened DeltaCoding
  import opened PolylineCodec
  import opened Chunks

  // ------------------------------------------------------- constructor

  /** A ring as the constructor stores it: without a closing vertex. */
  function Unclosed(p: seq<Pt>): (r: seq<Pt>)
    requires |p| > 0
    ensures r == p || (p[0] == p[|p| - 1] && r == p[..|p| - 1])
    ensures |r| >= |p| - 1 && r <= p
  {
    if p[0] == p[|p| - 1] then p[..|p| - 1] else p
  }

  /** `CellElementArea.__init__`: each ring loses its closing vertex; an
      empty ring fails on `p[0]` (IndexError) and a ring of at most two
      vertices is rejected (ValueError), the first offending ring deciding. */
  method AreaRings(coords: seq<seq<Pt>>) returns (r: Result<seq<seq<Pt>>>)
    ensures r.Ok? <==> forall k :: 0 <= k < |coords| ==> |coords[k]| >= 3
    ensures r.Ok? ==> |r.value| == |coords| && forall k :: 0 <= k < |coords| ==> r.value[k] == Unclosed(coords[k])
    ensures r.Ok? ==> forall k :: 0 <= k < |coords| ==> |r.value[k]| >= 2
    ensures r == Fail(IndexError) <==>
      exists k :: 0 <= k < |coords| && |coords[k]| == 0 && forall j :: 0 <= j < k ==> |coords[j]| >= 3
  {
    var newcoords: seq<seq<Pt>> := [];
    var i := 0;
    while i < |coords|
      invariant 0 <= i <= |coords|
      invariant forall k :: 0 <= k < i ==> |coords[k]| >= 3
      invariant |newcoords| == i && forall k :: 0 <= k < i ==> newcoords[k] == Unclosed(coords[k])
    {
      var p := coords[i];
      if |p| == 0 {
        return Fail(IndexError);
      }
      newcoords := newcoords + [Unclosed(p)];
      if |p| <= 2 {
        return Fail(ValueError);
      }
      i := i + 1;
    }
    return Ok(newcoords);
  }

  // --------------------------------------------------------- polytype

  /** The polytype `encode_polygon` picks for a ring in box `b`: 5 and 7
      when it runs between two opposite corners (the end is implied), 3
      when it starts at the upper corner, 6 at the lower corner, otherwise
      4 or 2 after how wide the start's offset from the lower corner is.
      An offset above 65535 cannot be encoded; 0 marks that case. */
  function AreaPolytype(b: Rec, ring: seq<Pt>): (p: nat)
    requires |ring| > 0
    ensures p < 8 && p != 1
    ensures Anchored(p) ==> AreaAnchor(p, b).0 == ring[0]
    ensures EndImplied(p) ==> AreaAnchor(p, b).1 == Some(ring[|ring| - 1])
  {
    var first, last := ring[0], ring[|ring| - 1];
    if first == b.c2 && last == b.c1 then 5
    else if first == b.LR() && last == b.UL() then 7
    else if first == b.c2 then 3
    else if first == b.c1 then 6
    else
      var d := first.Sub(b.c1);
      if d.x > 0xffff || d.y > 0xffff then 0
      else if d.x > 0xff || d.y > 0xff then 2
      else 4
  }

  /** Polytypes whose ring runs between two opposite corners of the box:
      the last vertex is not written. */
  predicate EndImplied(p: nat) { p == 5 || p == 7 }

  /** Polytypes whose ring starts at a corner of the box. */
  predicate Anchored(p: nat) { p == 3 || p == 5 || p == 6 || p == 7 }

  /** Start and implied end a decoder derives from polytypes 3, 5, 6, 7. */
  function AreaAnchor(p: nat, b: Rec): (Pt, Option<Pt>)
  {
    if p == 5 then (b.c2, Some(b.c1))
    else if p == 7 then (b.LR(), Some(b.UL()))
    else if p == 3 then (b.c2, None)
    else (b.c1, None)
  }

  /** The vertices handed to encodedeltaslow. */
  function RingChain(p: nat, ring: seq<Pt>): (c: seq<Pt>)
    requires |ring| > 0
    ensures |c| == if EndImplied(p) then |ring| - 1 else |ring|
    ensures |c| > 0 ==> c[0] == ring[0]
  {
    if EndImplied(p) then ring[..|ring| - 1] else ring
  }

  /** The vertex count of a ring: every vertex plus those inserted. */
  function RingCount(b: Rec, ring: seq<Pt>): (n: nat)
    requires |ring| > 0
    ensures n >= |ring|
  {
    |ring| + Inserted(RingChain(AreaPolytype(b, ring), ring))
  }

  /** The explicit start of polytypes 2 and 4: its offset from the lower
      corner as two 16-bit or two 8-bit values. */
  function AreaStartBytes(p: nat, b: Rec, first: Pt, big: bool): (r: Result<seq<byte>>)
    ensures p != 2 && p != 4 ==> r == Ok([])
  {
    var d := first.Sub(b.c1);
    if p == 2 then
      var x :- PackU16(d.x, big);
      var y :- PackU16(d.y, big);
      Ok(x + y)
    else if p == 4 then
      var x :- PackU8(d.x);
      var y :- PackU8(d.y);
      Ok(x + y)
    else Ok([])
  }

  /** `encode_polygon`: the ring's bytes, its polytype and its vertex
      count. A far start raises (a bare Exception); a ring whose implied
      end leaves encodedeltaslow nothing raises IndexError. */
  function EncodePolygon(b: Rec, ring: seq<Pt>, big: bool): (r: Result<(seq<byte>, nat, nat)>)
    ensures r.Ok? ==> |ring| > 0 && r.value.1 == AreaPolytype(b, ring) && r.value.1 != 0 && r.value.2 == RingCount(b, ring)
    ensures |ring| == 0 ==> r == Fail(IndexError)
    ensures |ring| > 0 && AreaPolytype(b, ring) == 0 ==> r == Fail(RuntimeError)
  {
    if |ring| == 0 then Fail(IndexError)
    else
    var p := AreaPolytype(b, ring);
    if p == 0 then Fail(RuntimeError)
    else
      var start :- AreaStartBytes(p, b, ring[0], big);
      var chain := RingChain(p, ring);
      if |chain| == 0 then Fail(IndexError)
      else Ok((start + StepBytes(ChainSteps(chain)), p, RingCount(b, ring)))
  }

  /** The start of a ring as `deSerialize` reads it, with the implied end.
      Polytype 0 reads two unsigned 32-bit values; polytype 1 is unhandled
      (ValueError). */
  function AreaReadStart(p: nat, b: Rec, data: seq<byte>, big: bool): (r: Result<(Pt, Option<Pt>, seq<byte>)>)
    ensures r.Ok? && Anchored(p) ==> r.value == (AreaAnchor(p, b).0, AreaAnchor(p, b).1, data)
    ensures r.Ok? && !EndImplied(p) ==> r.value.1.None?
    ensures p == 1 ==> r == Fail(ValueError)
  {
    if p == 0 then
      var x :- ReadU32(data, big);
      var y :- ReadU32(x.1, big);
      Ok((b.c1.Add(Pt(x.0, y.0)), None, y.1))
    else if p == 2 then
      var x :- ReadU16(data, big);
      var y :- ReadU16(x.1, big);
      Ok((b.c1.Add(Pt(x.0, y.0)), None, y.1))
    else if p == 4 then
      var x :- ReadU8(data);
      var y :- ReadU8(x.1);
      Ok((b.c1.Add(Pt(x.0, y.0)), None, y.1))
    else if Anchored(p) then
      var a := AreaAnchor(p, b);
      Ok((a.0, a.1, data))
    else Fail(ValueError)
  }

  /** One ring of `deSerialize`: the start, the running sums of n - 1
      steps (n - 2 when the end is implied), then the end. */
  function DecodeRing(p: nat, n: int, b: Rec, data: seq<byte>, big: bool): (r: Result<(seq<Pt>, seq<byte>)>)
  {
    var start :- AreaReadStart(p, b, data, big);
    var ndelta := if EndImplied(p) then n - 2 else n - 1;
    var steps :- DecodeSteps(start.2, ndelta);
    var vlist := Walk(start.0, steps.0);
    Ok((if start.1.Some? then vlist + [start.1.value] else vlist, steps.1))
  }

  /** What a decoder rebuilds from a relative ring. */
  function AreaDecodedRel(b: Rec, ring: seq<Pt>): seq<Pt>
    requires |ring| > 0
  {
    var p := AreaPolytype(b, ring);
    var w := Walk(ring[0], ChainSteps(RingChain(p, ring)));
    if EndImplied(p) then w + [ring[|ring| - 1]] else w
  }

  /** The start of a ring inside its box reads back. */
  lemma AreaStartRoundTrip(b: Rec, ring: seq<Pt>, big: bool, rest: seq<byte>)
    requires |ring| > 0 && b.Contains(ring[0]) && AreaPolytype(b, ring) != 0
    ensures var p := AreaPolytype(b, ring);
      && AreaStartBytes(p, b, ring[0], big).Ok?
      && AreaReadStart(p, b, AreaStartBytes(p, b, ring[0], big).value + rest, big)
         == Ok((ring[0], if EndImplied(p) then Some(ring[|ring| - 1]) else None, rest))
  {
    var p := AreaPolytype(b, ring);
    var d := ring[0].Sub(b.c1);
    if p == 2 {
      var x, y := U16(d.x, big), U16(d.y, big);
      assert x + y + rest == x + (y + rest);
      ReadU16Prefix(d.x, big, y + rest);
      ReadU16Prefix(d.y, big, rest);
    } else if p == 4 {
      assert [d.x] + [d.y] + rest == [d.x] + ([d.y] + rest);
    } else {
      assert [] + rest == rest;
    }
  }

  /** The reading steps of `DecodeRing`, each succeeding. */
  lemma DecodeRingOf(p: nat, n: int, b: Rec, data: seq<byte>, big: bool, first: Pt, end: Option<Pt>,
                     d: seq<byte>, steps: seq<Pt>, rest: seq<byte>)
    requires AreaReadStart(p, b, data, big) == Ok((first, end, d))
    requires DecodeSteps(d, if EndImplied(p) then n - 2 else n - 1) == Ok((steps, rest))
    ensures DecodeRing(p, n, b, data, big)
            == Ok((if end.Some? then Walk(first, steps) + [end.value] else Walk(first, steps), rest))
  {
  }

  lemma EncodePolygonOf(b: Rec, ring: seq<Pt>, big: bool)
    requires |ring| >= 2 && b.Contains(ring[0]) && AreaPolytype(b, ring) != 0
    ensures var p := AreaPolytype(b, ring);
      && AreaStartBytes(p, b, ring[0], big).Ok?
      && EncodePolygon(b, ring, big)
         == Ok((AreaStartBytes(p, b, ring[0], big).value + StepBytes(ChainSteps(RingChain(p, ring))), p, RingCount(b, ring)))
  {
    AreaStartRoundTrip(b, ring, big, []);
  }

  /** Decoding a start and a ring's steps from that start, with the
      vertex count the ring word carries for them. */
  lemma RingStepsDecode(p: nat, b: Rec, start: seq<byte>, first: Pt, end: Option<Pt>, steps: seq<Pt>, n: int,
                        big: bool, rest: seq<byte>)
    requires AllSmall(steps) && |steps| == if EndImplied(p) then n - 2 else n - 1
    requires AreaReadStart(p, b, start + (StepBytes(steps) + rest), big) == Ok((first, end, StepBytes(steps) + rest))
    ensures DecodeRing(p, n, b, start + StepBytes(steps) + rest, big)
            == Ok((if end.Some? then Walk(first, steps) + [end.value] else Walk(first, steps), rest))
  {
    var sb := StepBytes(steps);
    AppendAssoc(start, sb, rest);
    DecodeStepBytes(steps, rest);
    DecodeRingOf(p, n, b, start + (sb + rest), big, first, end, sb + rest, steps, rest);
  }

  /** A ring of at least two vertices, starting inside the box at an
      encodable offset, reads back as `AreaDecodedRel`, consuming exactly
      its own bytes. */
  lemma RingRoundTrip(b: Rec, ring: seq<Pt>, big: bool, rest: seq<byte>)
    requires |ring| >= 2 && b.Contains(ring[0]) && AreaPolytype(b, ring) != 0
    ensures var r := EncodePolygon(b, ring, big);
      && r.Ok?
      && DecodeRing(r.value.1, r.value.2, b, r.value.0 + rest, big) == Ok((AreaDecodedRel(b, ring), rest))
  {
    var p := AreaPolytype(b, ring);
    var chain := RingChain(p, ring);
    var start := AreaStartBytes(p, b, ring[0], big).value;
    var sb := StepBytes(ChainSteps(chain));
    var end := if EndImplied(p) then Some(ring[|ring| - 1]) else None;
    EncodePolygonOf(b, ring, big);
    AreaStartRoundTrip(b, ring, big, sb + rest);
    ChainLength(chain);
    RingStepsDecode(p, b, start, ring[0], end, ChainSteps(chain), RingCount(b, ring), big, rest);
  }

  // --------------------------------------------------- several rings

  /** What `encode_polygon` gives for each ring, in ring order. */
  function PolygonEncodings(b: Rec, rings: seq<seq<Pt>>, big: bool): (es: seq<Result<(seq<byte>, nat, nat)>>)
    ensures |es| == |rings|
    decreases |rings|
  {
    if |rings| == 0 then [] else [EncodePolygon(b, rings[0], big)] + PolygonEncodings(b, rings[1..], big)
  }

  /** Each of them is that ring's encoding. */
  lemma {:induction false} PolygonEncodingsAt(b: Rec, rings: seq<seq<Pt>>, big: bool, k: nat)
    requires k < |rings|
    ensures PolygonEncodings(b, rings, big)[k] == EncodePolygon(b, rings[k], big)
    decreases k
  {
    if k > 0 {
      PolygonEncodingsAt(b, rings[1..], big, k - 1);
    }
  }

  /** The loop of `serialize` over the rings after the first, given what
      `encode_polygon` gives for each of them: the running offset must fit
      13 bits (an assertion), then each ring adds its ring word (polytype
      and offset), its data and its vertex count. The encodings are
      consulted in ring order, so the first failure wins as in the
      source. */
  function PartsLoop(encs: seq<Result<(seq<byte>, nat, nat)>>, offset: nat, big: bool)
    : (r: Result<(seq<byte>, seq<byte>, nat)>)
    decreases |encs|
  {
    if |encs| == 0 then Ok(([], [], 0))
    else if offset > 0x1fff then Fail(AssertionError)
    else
      var enc :- encs[0];
      var word :- PackU16(HeaderWord(enc.1, offset), big);
      var more :- PartsLoop(encs[1..], offset + enc.2 + 1, big);
      Ok((word + more.0, enc.0 + more.1, enc.2 + more.2))
  }

  /** The ring data of successful encodings, one after the other. */
  function EncData(encs: seq<Result<(seq<byte>, nat, nat)>>): seq<byte>
    decreases |encs|
  {
    if |encs| == 0 then [] else (if encs[0].Ok? then encs[0].value.0 else []) + EncData(encs[1..])
  }

  /** Their total vertex count. */
  function EncTotal(encs: seq<Result<(seq<byte>, nat, nat)>>): nat
    decreases |encs|
  {
    if |encs| == 0 then 0 else (if encs[0].Ok? then encs[0].value.2 else 0) + EncTotal(encs[1..])
  }

  predicate AllOk(encs: seq<Result<(seq<byte>, nat, nat)>>)
  {
    forall k :: 0 <= k < |encs| ==> encs[k].Ok? && encs[k].value.1 < 8
  }

  /** The polytype and the vertex count of an encoding. */
  function TypeOf(e: Result<(seq<byte>, nat, nat)>): nat
  {
    if e.Ok? then e.value.1 else 0
  }

  function CountOf(e: Result<(seq<byte>, nat, nat)>): nat
  {
    if e.Ok? then e.value.2 else 0
  }

  /** The polytype of each encoding. */
  function EncTypes(encs: seq<Result<(seq<byte>, nat, nat)>>): (ts: seq<nat>)
    ensures |ts| == |encs|
    decreases |encs|
  {
    if |encs| == 0 then [] else [TypeOf(encs[0])] + EncTypes(encs[1..])
  }

  /** The vertex count of each encoding. */
  function EncCounts(encs: seq<Result<(seq<byte>, nat, nat)>>): (ns: seq<int>)
    ensures |ns| == |encs|
    decreases |encs|
  {
    if |encs| == 0 then [] else [CountOf(encs[0]) as int] + EncCounts(encs[1..])
  }

  /** One iteration of the loop, spelled out. */
  lemma PartsLoopCons(encs: seq<Result<(seq<byte>, nat, nat)>>, offset: nat, big: bool,
                      enc: (seq<byte>, nat, nat), more: (seq<byte>, seq<byte>, nat))
    requires |encs| > 0 && offset <= 0x1fff && encs[0] == Ok(enc) && enc.1 < 8
    requires PartsLoop(encs[1..], offset + enc.2 + 1, big) == Ok(more)
    ensures HeaderWord(enc.1, offset) < 0x1_0000
    ensures PartsLoop(encs, offset, big)
            == Ok((U16(HeaderWord(enc.1, offset), big) + more.0, enc.0 + more.1, enc.2 + more.2))
  {
    assert HeaderWord(enc.1, offset) < 0x1_0000 by { HeaderFields(enc.1, offset); }
  }

  /** Every ring word's offset fits 13 bits. */
  predicate OffsetsFit(encs: seq<Result<(seq<byte>, nat, nat)>>, offset: nat)
    decreases |encs|
  {
    |encs| == 0 || (offset <= 0x1fff && OffsetsFit(encs[1..], offset + CountOf(encs[0]) + 1))
  }

  /** The loop succeeds exactly when the offsets fit. */
  lemma {:induction false} PartsLoopOk(encs: seq<Result<(seq<byte>, nat, nat)>>, offset: nat, big: bool)
    requires AllOk(encs)
    ensures PartsLoop(encs, offset, big).Ok? <==> OffsetsFit(encs, offset)
    decreases |encs|
  {
    if |encs| > 0 && offset <= 0x1fff {
      var enc := encs[0].value;
      PartsLoopOk(encs[1..], offset + enc.2 + 1, big);
      if OffsetsFit(encs, offset) {
        PartsLoopCons(encs, offset, big, enc, PartsLoop(encs[1..], offset + enc.2 + 1, big).value);
      }
    }
  }

  /** Each ring word's offset is past the one before, so when the
      offsets fit no more than 0x2000 - offset rings can follow. */
  lemma {:induction false} OffsetsFitCount(encs: seq<Result<(seq<byte>, nat, nat)>>, offset: nat)
    requires OffsetsFit(encs, offset) && |encs| > 0
    ensures offset + |encs| - 1 <= 0x1fff
    decreases |encs|
  {
    if |encs| > 1 {
      OffsetsFitCount(encs[1..], offset + CountOf(encs[0]) + 1);
    }
  }

  /** The loop of `deSerialize` over the ring words after the first: each
      word gives a polytype and an offset, and the ring before it the size
      offset - lastoffset - 1. Returns the polytypes, the sizes, the sum of
      the sizes and the data left. */
  function RingWords(data: seq<byte>, k: nat, lastoffset: int, pointsum: int, big: bool)
    : (r: Result<(seq<nat>, seq<int>, int, seq<byte>)>)
    ensures r.Ok? ==> |r.value.0| == k && |r.value.1| == k
    decreases k
  {
    if k == 0 then Ok(([], [], pointsum, data))
    else
      var w :- ReadU16(data, big);
      var offset := w.0 % 0x2000;
      var size := offset - lastoffset - 1;
      var more :- RingWords(w.1, k - 1, offset, pointsum + size, big);
      Ok(([w.0 / 0x2000] + more.0, [size] + more.1, more.2, more.3))
  }

  /** The word `serialize` writes for a ring: polytype in the top three
      bits, offset in the low thirteen. */
  function RingWord(p: nat, offset: nat, big: bool): (w: seq<byte>)
    requires p < 8 && offset < 0x2000
    ensures |w| == 2
  {
    U16(p * 0x2000 + offset, big)
  }

  /** The or of the two bit fields is their sum. */
  lemma RingWordIsHeaderWord(p: nat, offset: nat, big: bool)
    requires p < 8 && offset < 0x2000
    ensures HeaderWord(p, offset) == p * 0x2000 + offset
    ensures HeaderWord(p, offset) < 0x1_0000 && RingWord(p, offset, big) == U16(HeaderWord(p, offset), big)
  {
    var w := HeaderWord(p, offset);
    HeaderFields(p, offset);
    assert w == (w / 0x2000) * 0x2000 + w % 0x2000;
  }

  /** One ring word read, spelled out: `whole` is the word followed by
      `data`. */
  lemma RingWordsCons(p: nat, offset: nat, k: nat, lastoffset: int, pointsum: int, big: bool,
                      whole: seq<byte>, data: seq<byte>, more: (seq<nat>, seq<int>, int, seq<byte>))
    requires p < 8 && offset < 0x2000 && k > 0 && whole == RingWord(p, offset, big) + data
    requires RingWords(data, k - 1, offset, pointsum + (offset - lastoffset - 1), big) == Ok(more)
    ensures RingWords(whole, k, lastoffset, pointsum, big)
            == Ok(([p] + more.0, [offset - lastoffset - 1] + more.1, more.2, more.3))
  {
    ReadU16Prefix(p * 0x2000 + offset, big, data);
  }

  /** Appending after the words of several rings. */
  lemma WordsCons(encs: seq<Result<(seq<byte>, nat, nat)>>, offset: nat, big: bool, rest: seq<byte>)
    requires AllOk(encs) && OffsetsFit(encs, offset) && |encs| > 0
    ensures Words(encs, offset, big) + rest
            == RingWord(encs[0].value.1, offset, big) + (Words(encs[1..], offset + encs[0].value.2 + 1, big) + rest)
  {
  }

  /** The ring words the loop writes when every offset fits. */
  function Words(encs: seq<Result<(seq<byte>, nat, nat)>>, offset: nat, big: bool): (ws: seq<byte>)
    requires AllOk(encs) && OffsetsFit(encs, offset)
    ensures |ws| == 2 * |encs|
    decreases |encs|
  {
    if |encs| == 0 then []
    else RingWord(encs[0].value.1, offset, big) + Words(encs[1..], offset + encs[0].value.2 + 1, big)
  }

  /** The loop writes exactly those words, the ring data and the total. */
  lemma {:induction false} PartsLoopWords(encs: seq<Result<(seq<byte>, nat, nat)>>, offset: nat, big: bool)
    requires AllOk(encs) && OffsetsFit(encs, offset)
    ensures PartsLoop(encs, offset, big) == Ok((Words(encs, offset, big), EncData(encs), EncTotal(encs)))
    decreases |encs|
  {
    if |encs| > 0 {
      var enc := encs[0].value;
      PartsLoopWords(encs[1..], offset + enc.2 + 1, big);
      RingWordIsHeaderWord(enc.1, offset, big);
      PartsLoopCons(encs, offset, big, enc, PartsLoop(encs[1..], offset + enc.2 + 1, big).value);
    }
  }

  /** The counts of all encodings but the last, and their sum. */
  function HeadCounts(encs: seq<Result<(seq<byte>, nat, nat)>>): (ns: seq<int>)
    decreases |encs|
  {
    if |encs| <= 1 then [] else [CountOf(encs[0]) as int] + HeadCounts(encs[1..])
  }

  function HeadTotal(encs: seq<Result<(seq<byte>, nat, nat)>>): int
    decreases |encs|
  {
    if |encs| <= 1 then 0 else CountOf(encs[0]) + HeadTotal(encs[1..])
  }

  /** The last count completes both. */
  lemma {:induction false} HeadsAndLast(encs: seq<Result<(seq<byte>, nat, nat)>>)
    requires AllOk(encs) && |encs| > 0
    ensures HeadCounts(encs) + [encs[|encs| - 1].value.2 as int] == EncCounts(encs)
    ensures HeadTotal(encs) + encs[|encs| - 1].value.2 == EncTotal(encs)
    decreases |encs|
  {
    if |encs| > 1 {
      HeadsAndLast(encs[1..]);
      assert EncCounts(encs) == [encs[0].value.2 as int] + EncCounts(encs[1..]);
    } else {
      assert EncTotal(encs[1..]) == 0;
    }
  }

  /** Reading the ring words back gives each ring's polytype, the size
      of the ring before the first word, then every count but the last,
      and adds those sizes to the point sum. */
  lemma {:induction false} WordsRead(encs: seq<Result<(seq<byte>, nat, nat)>>, offset: nat, lastoffset: int,
                                     pointsum: int, big: bool, rest: seq<byte>)
    requires AllOk(encs) && OffsetsFit(encs, offset) && |encs| > 0
    ensures RingWords(Words(encs, offset, big) + rest, |encs|, lastoffset, pointsum, big)
            == Ok((EncTypes(encs), [offset - lastoffset - 1] + HeadCounts(encs),
                   pointsum + (offset - lastoffset - 1) + HeadTotal(encs), rest))
    decreases |encs|, 1
  {
    var r;
    if |encs| == 1 {
      r := WordsLast(encs, offset, lastoffset, pointsum, big, rest);
    } else {
      r := WordsNext(encs, offset, lastoffset, pointsum, big, rest);
    }
    WordsStep(encs, offset, lastoffset, pointsum, big, rest, r);
  }

  /** What the words after the first read as, and how that completes the
      expected result. */
  predicate WordsAfter(encs: seq<Result<(seq<byte>, nat, nat)>>, offset: nat, lastoffset: int,
                       pointsum: int, big: bool, rest: seq<byte>, r: (seq<nat>, seq<int>, int, seq<byte>))
    requires AllOk(encs) && OffsetsFit(encs, offset) && |encs| > 0
  {
    && RingWords(Words(encs[1..], offset + encs[0].value.2 + 1, big) + rest, |encs| - 1,
                 offset, pointsum + (offset - lastoffset - 1), big) == Ok(r)
    && EncTypes(encs) == [encs[0].value.1] + r.0
    && HeadCounts(encs) == r.1
    && r.2 == pointsum + (offset - lastoffset - 1) + HeadTotal(encs) && r.3 == rest
  }

  /** The first word followed by the words after it. */
  lemma WordsStep(encs: seq<Result<(seq<byte>, nat, nat)>>, offset: nat, lastoffset: int,
                  pointsum: int, big: bool, rest: seq<byte>, r: (seq<nat>, seq<int>, int, seq<byte>))
    requires AllOk(encs) && OffsetsFit(encs, offset) && |encs| > 0
    requires WordsAfter(encs, offset, lastoffset, pointsum, big, rest, r)
    ensures RingWords(Words(encs, offset, big) + rest, |encs|, lastoffset, pointsum, big)
            == Ok((EncTypes(encs), [offset - lastoffset - 1] + HeadCounts(encs),
                   pointsum + (offset - lastoffset - 1) + HeadTotal(encs), rest))
  {
    var enc := encs[0].value;
    WordsCons(encs, offset, big, rest);
    RingWordsCons(enc.1, offset, |encs|, lastoffset, pointsum, big, Words(encs, offset, big) + rest,
                  Words(encs[1..], offset + enc.2 + 1, big) + rest, r);
  }

  /** The last ring word: nothing follows it but the data. */
  lemma WordsLast(encs: seq<Result<(seq<byte>, nat, nat)>>, offset: nat, lastoffset: int,
                  pointsum: int, big: bool, rest: seq<byte>)
      returns (r: (seq<nat>, seq<int>, int, seq<byte>))
    requires AllOk(encs) && OffsetsFit(encs, offset) && |encs| == 1
    ensures WordsAfter(encs, offset, lastoffset, pointsum, big, rest, r)
  {
    r := ([], [], pointsum + (offset - lastoffset - 1), rest);
    assert Words(encs[1..], offset + encs[0].value.2 + 1, big) + rest == rest;
  }

  /** A word before the last: the words after it read by induction. */
  lemma {:induction false} WordsNext(encs: seq<Result<(seq<byte>, nat, nat)>>, offset: nat, lastoffset: int,
                                     pointsum: int, big: bool, rest: seq<byte>)
      returns (r: (seq<nat>, seq<int>, int, seq<byte>))
    requires AllOk(encs) && OffsetsFit(encs, offset) && |encs| > 1
    ensures WordsAfter(encs, offset, lastoffset, pointsum, big, rest, r)
    decreases |encs|, 0
  {
    var enc := encs[0].value;
    var tail := encs[1..];
    var next := offset + enc.2 + 1;
    var size := offset - lastoffset - 1;
    WordsRead(tail, next, offset, pointsum + size, big, rest);
    r := (EncTypes(tail), [next - offset - 1] + HeadCounts(tail),
          pointsum + size + (next - offset - 1) + HeadTotal(tail), rest);
    assert EncTypes(encs) == [enc.1] + EncTypes(tail);
    assert HeadCounts(encs) == [enc.2 as int] + HeadCounts(tail);
  }

  /** The loop of `deSerialize` over the rings: each ring read with its
      polytype and size. */
  function DecodeRings(types: seq<nat>, sizes: seq<int>, b: Rec, data: seq<byte>, big: bool)
    : (r: Result<(seq<seq<Pt>>, seq<byte>)>)
    requires |sizes| >= |types|
    ensures r.Ok? ==> |r.value.0| == |types|
    decreases |types|
  {
    if |types| == 0 then Ok(([], data))
    else
      var ring :- DecodeRing(types[0], sizes[0], b, data, big);
      var more :- DecodeRings(types[1..], sizes[1..], b, ring.1, big);
      Ok(([ring.0] + more.0, more.1))
  }

  /** One ring read, spelled out. */
  lemma DecodeRingsCons(types: seq<nat>, sizes: seq<int>, p: nat, n: int, ts: seq<nat>, ns: seq<int>,
                        b: Rec, data: seq<byte>, big: bool,
                        ring: seq<Pt>, mid: seq<byte>, more: seq<seq<Pt>>, rest: seq<byte>)
    requires types == [p] + ts && sizes == [n] + ns && |ns| >= |ts|
    requires DecodeRing(p, n, b, data, big) == Ok((ring, mid))
    requires DecodeRings(ts, ns, b, mid, big) == Ok((more, rest))
    ensures DecodeRings(types, sizes, b, data, big) == Ok(([ring] + more, rest))
  {
    assert types[1..] == ts && sizes[1..] == ns;
  }

  /** A ring's encoding reads back as `ring`, whatever follows it. */
  ghost predicate RingReads(enc: (seq<byte>, nat, nat), b: Rec, ring: seq<Pt>, big: bool)
  {
    forall rest: seq<byte> {:trigger DecodeRing(enc.1, enc.2, b, enc.0 + rest, big)}
      :: DecodeRing(enc.1, enc.2, b, enc.0 + rest, big) == Ok((ring, rest))
  }

  /** Each encoding reads back as the matching ring of `dec`. */
  ghost predicate RingsDecodable(encs: seq<Result<(seq<byte>, nat, nat)>>, b: Rec, dec: seq<seq<Pt>>, big: bool)
    requires AllOk(encs)
  {
    |dec| == |encs| && forall k :: 0 <= k < |encs| ==> RingReads(encs[k].value, b, dec[k], big)
  }

  /** The first encoding's share of the sequences above. */
  lemma EncCons(encs: seq<Result<(seq<byte>, nat, nat)>>, rest: seq<byte>)
    requires |encs| > 0 && encs[0].Ok?
    ensures EncTypes(encs) == [encs[0].value.1] + EncTypes(encs[1..])
    ensures EncCounts(encs) == [encs[0].value.2 as int] + EncCounts(encs[1..])
    ensures EncData(encs) + rest == encs[0].value.0 + (EncData(encs[1..]) + rest)
  {
  }

  /** The first ring followed by the rings after it. */
  lemma RingsStep(encs: seq<Result<(seq<byte>, nat, nat)>>, b: Rec, dec: seq<seq<Pt>>, big: bool, rest: seq<byte>)
    requires AllOk(encs) && |encs| > 0 && |dec| == |encs| && RingReads(encs[0].value, b, dec[0], big)
    requires DecodeRings(EncTypes(encs[1..]), EncCounts(encs[1..]), b, EncData(encs[1..]) + rest, big)
             == Ok((dec[1..], rest))
    ensures DecodeRings(EncTypes(encs), EncCounts(encs), b, EncData(encs) + rest, big) == Ok((dec, rest))
  {
    var enc := encs[0].value;
    var mid := EncData(encs[1..]) + rest;
    EncCons(encs, rest);
    assert DecodeRing(enc.1, enc.2, b, enc.0 + mid, big) == Ok((dec[0], mid));
    DecodeRingsCons(EncTypes(encs), EncCounts(encs), enc.1, enc.2, EncTypes(encs[1..]), EncCounts(encs[1..]),
                    b, EncData(encs) + rest, big, dec[0], mid, dec[1..], rest);
    ConsSplit(dec);
  }

  /** The data of every ring reads back ring by ring with the polytypes
      and counts the ring words carry. */
  lemma {:induction false} RingsRoundTrip(encs: seq<Result<(seq<byte>, nat, nat)>>, b: Rec, dec: seq<seq<Pt>>,
                                          big: bool, rest: seq<byte>)
    requires AllOk(encs) && RingsDecodable(encs, b, dec, big)
    ensures DecodeRings(EncTypes(encs), EncCounts(encs), b, EncData(encs) + rest, big) == Ok((dec, rest))
    decreases |encs|
  {
    if |encs| == 0 {
      assert EncTypes(encs) == [] && EncCounts(encs) == [] && dec == [];
      assert EncData(encs) + rest == rest;
    } else {
      var tail := encs[1..];
      assert RingsDecodable(tail, b, dec[1..], big) by {
        forall k | 0 <= k < |tail|
          ensures RingReads(tail[k].value, b, dec[1..][k], big)
        {
          assert tail[k] == encs[k + 1];
        }
      }
      RingsRoundTrip(tail, b, dec[1..], big, rest);
      RingsStep(encs, b, dec, big, rest);
    }
  }

  // ------------------------------------------------------------ record

  /** No ring is empty. */
  predicate RingsNonEmpty(rings: seq<seq<Pt>>)
  {
    forall k :: 0 <= k < |rings| ==> |rings[k]| > 0
  }

  /** `CellElementArea.bounds`: the box around every vertex of every
      ring. */
  function AreaBounds(rings: seq<seq<Pt>>): (r: Rec)
    requires |rings| > 0 && RingsNonEmpty(rings)
    ensures r.Valid()
    ensures forall k, i :: 0 <= k < |rings| && 0 <= i < |rings[k]| ==> r.Contains(rings[k][i])
    decreases |rings|
  {
    if |rings| == 1 then Bounds(rings[0])
    else
      var b := Bounds(rings[0]).Union(AreaBounds(rings[1..]));
      assert forall k, i :: 1 <= k < |rings| && 0 <= i < |rings[k]| ==> rings[k][i] == rings[1..][k - 1][i];
      b
  }

  /** The rings a serializer works on. */
  function RelRings(org: Pt, rings: seq<seq<Pt>>): (rs: seq<seq<Pt>>)
    ensures |rs| == |rings| && forall k :: 0 <= k < |rings| ==> rs[k] == Rels(org, rings[k])
  {
    seq(|rings|, k requires 0 <= k < |rings| => Rels(org, rings[k]))
  }

  /** The rings a deserializer stores. */
  function AbsRings(org: Pt, rs: seq<seq<Pt>>): (rings: seq<seq<Pt>>)
    ensures |rings| == |rs| && forall k :: 0 <= k < |rs| ==> rings[k] == Abss(org, rs[k])
  {
    seq(|rs|, k requires 0 <= k < |rs| => Abss(org, rs[k]))
  }

  lemma AbsRingsOfRel(org: Pt, rings: seq<seq<Pt>>)
    ensures AbsRings(org, RelRings(org, rings)) == rings
  {
    forall k | 0 <= k < |rings|
      ensures AbsRings(org, RelRings(org, rings))[k] == rings[k]
    {
      AbssOfRels(org, rings[k]);
    }
  }

  /** The record for relative rings in box `b`: box, text slot offset
      byte and object type, then the rings. */
  function EncodeArea(b: Rec, rings: seq<seq<Pt>>, objtype: int, ts: Option<nat>, last: bool, big: bool)
    : (r: Result<seq<byte>>)
    requires |rings| > 0
  {
    var bb :- EncodeBBox(b, big);
    var off :- EncodeTextslotOffset(ts, last);
    var ot :- PackU8(objtype);
    AreaBody(bb + off + ot, PolygonEncodings(b, rings, big), ts, last, big)
  }

  /** After `prefix`: the first ring's encoding and its ring word, which
      carries the ring count, then the loop over the other rings. */
  function AreaBody(prefix: seq<byte>, encs: seq<Result<(seq<byte>, nat, nat)>>, ts: Option<nat>, last: bool, big: bool)
    : (r: Result<seq<byte>>)
    requires |encs| > 0
  {
    var first :- encs[0];
    var head :- PackU16(HeaderWord(first.1, |encs|), big);
    AreaTail(prefix, first, head, PartsLoop(encs[1..], first.2 + 1, big), ts, last, big)
  }

  /** After the loop: the total vertex count, the ring words, the ring
      data, the corner byte -1 (no corner data), a pad byte when a text
      slot index follows, and the index. */
  function AreaTail(prefix: seq<byte>, first: (seq<byte>, nat, nat), head: seq<byte>,
                    parts: Result<(seq<byte>, seq<byte>, nat)>, ts: Option<nat>, last: bool, big: bool)
    : (r: Result<seq<byte>>)
    ensures parts.Fail? ==> r == Fail(parts.failure)
  {
    var more :- parts;
    var count :- PackU16(first.2 + more.2, big);
    var tsd := EncodeTextslotAsWritten(ts, big, true, last, false).value;
    Ok(prefix + count + head + more.0 + first.0 + more.1 + [0xff] + (if |tsd| > 0 then [0] else []) + tsd)
  }

  /** The loop's result so far in front of what the rest of it gives. */
  function Prepend(words: seq<byte>, data: seq<byte>, total: nat, r: Result<(seq<byte>, seq<byte>, nat)>)
    : (q: Result<(seq<byte>, seq<byte>, nat)>)
    ensures r.Fail? ==> q == r
  {
    if r.Ok? then Ok((words + r.value.0, data + r.value.1, total + r.value.2)) else r
  }

  /** Nothing in front. */
  lemma PrependNothing(r: Result<(seq<byte>, seq<byte>, nat)>)
    ensures Prepend([], [], 0, r) == r
  {
    if r.Ok? {
      assert [] + r.value.0 == r.value.0 && [] + r.value.1 == r.value.1;
    }
  }

  /** One more ring moved from the rest of the loop into its result. */
  lemma PrependStep(words: seq<byte>, data: seq<byte>, total: nat, word: seq<byte>, enc: (seq<byte>, nat, nat),
                    more: Result<(seq<byte>, seq<byte>, nat)>)
    ensures Prepend(words, data, total, Prepend(word, enc.0, enc.2, more))
            == Prepend(words + word, data + enc.0, total + enc.2, more)
  {
    if more.Ok? {
      AppendAssoc(words, word, more.value.0);
      AppendAssoc(data, enc.0, more.value.1);
    }
  }

  /** The loop over the rings after the first, at ring `i`, fails as
      PartsLoop does there. */
  lemma PartsLoopFails(encs: seq<Result<(seq<byte>, nat, nat)>>, i: nat, offset: nat, big: bool)
    requires i < |encs|
    ensures offset > 0x1fff ==> PartsLoop(encs[i..], offset, big) == Fail(AssertionError)
    ensures offset <= 0x1fff && encs[i].Fail? ==> PartsLoop(encs[i..], offset, big) == Fail(encs[i].failure)
    ensures offset <= 0x1fff && encs[i].Ok? && PackU16(HeaderWord(encs[i].value.1, offset), big).Fail? ==>
              PartsLoop(encs[i..], offset, big) == Fail(StructError)
  {
    assert encs[i..][0] == encs[i];
  }

  /** Once every ring is done the result is what has been gathered. */
  lemma PrependEnd(encs: seq<Result<(seq<byte>, nat, nat)>>, i: nat, offset: nat, big: bool,
                   words: seq<byte>, cdata: seq<byte>, total: nat)
    requires i == |encs|
    ensures Prepend(words, cdata, total, PartsLoop(encs[i..], offset, big)) == Ok((words, cdata, total))
  {
    assert encs[i..] == [];
    AppendNil(words);
    AppendNil(cdata);
  }

  /** One successful step of that loop keeps its result. */
  lemma PartsLoopStep(encs: seq<Result<(seq<byte>, nat, nat)>>, i: nat, offset: nat, big: bool,
                      whole: Result<(seq<byte>, seq<byte>, nat)>, words: seq<byte>, cdata: seq<byte>, total: nat,
                      enc: (seq<byte>, nat, nat), word: seq<byte>)
    requires i < |encs| && offset <= 0x1fff && encs[i] == Ok(enc)
    requires PackU16(HeaderWord(enc.1, offset), big) == Ok(word)
    requires whole == Prepend(words, cdata, total, PartsLoop(encs[i..], offset, big))
    ensures whole == Prepend(words + word, cdata + enc.0, total + enc.2,
                             PartsLoop(encs[i + 1..], offset + enc.2 + 1, big))
  {
    assert encs[i..][0] == encs[i] && encs[i..][1..] == encs[i + 1..];
    PrependStep(words, cdata, total, word, enc, PartsLoop(encs[i + 1..], offset + enc.2 + 1, big));
  }

  /** The loop of `CellElementArea.serialize` over the rings after the
      first, from ring word offset `offset0`, given what `encode_polygon`
      gives for each ring: the offset must fit 13 bits (an assertion), then
      each ring adds its ring word, its data and its vertex count. */
  method SerializeRings(encs: seq<Result<(seq<byte>, nat, nat)>>, offset0: nat, big: bool)
      returns (r: Result<(seq<byte>, seq<byte>, nat)>)
    requires |encs| > 0
    ensures r == PartsLoop(encs[1..], offset0, big)
  {
    var words: seq<byte>, cdata: seq<byte>, total: nat := [], [], 0;
    var offset := offset0;
    PrependNothing(PartsLoop(encs[1..], offset0, big));
    var i := 1;
    while i < |encs|
      invariant 1 <= i <= |encs|
      invariant PartsLoop(encs[1..], offset0, big) == Prepend(words, cdata, total, PartsLoop(encs[i..], offset, big))
    {
      PartsLoopFails(encs, i, offset, big);
      if offset > 0x1fff {
        return Fail(AssertionError);
      }
      var enc :- encs[i];
      var word :- PackU16(HeaderWord(enc.1, offset), big);
      PartsLoopStep(encs, i, offset, big, PartsLoop(encs[1..], offset0, big), words, cdata, total, enc, word);
      words, cdata, total := words + word, cdata + enc.0, total + enc.2;
      offset := offset + enc.2 + 1;
      i := i + 1;
    }
    PrependEnd(encs, i, offset, big, words, cdata, total);
    return Ok((words, cdata, total));
  }

  /** The part of `CellElementArea.serialize` after the object type:
      the first ring, whose word carries the ring count, the loop over the
      others, the total vertex count, the corner byte and the text slot. */
  method SerializeBody(prefix: seq<byte>, encs: seq<Result<(seq<byte>, nat, nat)>>, ts: Option<nat>,
                       last: bool, big: bool) returns (r: Result<seq<byte>>)
    requires |encs| > 0
    ensures r == AreaBody(prefix, encs, ts, last, big)
  {
    var first :- encs[0];
    var head :- PackU16(HeaderWord(first.1, |encs|), big);
    var more :- SerializeRings(encs, first.2 + 1, big);
    var count :- PackU16(first.2 + more.2, big);
    var tsd := EncodeTextslotAsWritten(ts, big, true, last, false).value;
    var pad := if |tsd| > 0 then [0 as byte] else [];
    r := Ok(prefix + count + head + more.0 + first.0 + more.1 + [0xff] + pad + tsd);
  }

  /** `CellElementArea.serialize`. The bounds of an area without rings or
      with an empty ring do not exist (ValueError); otherwise the record
      of the relative rings, the text slot in last position when there is
      no excess. */
  method SerializeArea(org: Pt, e: Element, big: bool) returns (r: Result<seq<byte>>)
    requires e.Area?
    ensures |e.rings| == 0 || !RingsNonEmpty(e.rings) ==> r == Fail(ValueError)
    ensures |e.rings| > 0 && RingsNonEmpty(e.rings) ==>
      r == EncodeArea(RelBox(org, AreaBounds(e.rings)), RelRings(org, e.rings), e.objtype, e.textslot,
                      |e.excess| == 0, big)
  {
    if |e.rings| == 0 || exists k :: 0 <= k < |e.rings| && |e.rings[k]| == 0 {
      return Fail(ValueError);
    }
    var b := RelBox(org, AreaBounds(e.rings));
    var parts := RelRings(org, e.rings);
    var last := |e.excess| == 0;
    var bb :- EncodeBBox(b, big);
    var off :- EncodeTextslotOffset(e.textslot, last);
    var ot :- PackU8(e.objtype);
    r := SerializeBody(bb + off + ot, PolygonEncodings(b, parts, big), e.textslot, last, big);
  }

  // ---------------------------------------------------------- decoding

  /** The fields `deSerialize` fills, rings still relative. The area
      decoder always produces a number for the text slot. */
  datatype AreaFields = AreaFields(rings: seq<seq<Pt>>, objtype: byte, textslot: nat)

  /** After the corner byte: a set corner byte (anything but -1) is
      followed by one corner byte per vertex, which are skipped. */
  function CornerSkip(corner: byte, nv: nat, data: seq<byte>): (tail: seq<byte>)
    ensures GetS8(corner) == -1 ==> tail == data
  {
    if GetS8(corner) != -1 then (if nv <= |data| then data[nv..] else []) else data
  }

  /** The text slot of a decoded area: the offset byte read after the box
      in the top byte, and, once an odd alignment byte is dropped, the
      16-bit index when exactly two bytes are left. */
  function AreaTailSlot(off: byte, tail: seq<byte>, big: bool): (t: nat)
    ensures Offset(t) == off as nat
  {
    var d := if |tail| % 2 == 1 then tail[1..] else tail;
    (off as nat) * 0x100_0000 + if |d| == 2 then GetU16(d, big) else 0
  }

  /** The ring section of `deSerialize`: the first ring word gives the
      first ring's polytype and the ring count, the other words give the
      other polytypes and the sizes of the rings before them, and the last
      ring has what is left of the total vertex count. */
  function DecodeAreaRings(p: nat, nsub: nat, nv: nat, b: Rec, data: seq<byte>, big: bool)
    : (r: Result<(seq<seq<Pt>>, seq<byte>)>)
    ensures r.Ok? ==> |r.value.0| == nsub
  {
    var words :- RingWords(data, if nsub > 0 then nsub - 1 else 0, 0, 0, big);
    var types := if nsub > 0 then [p] + words.0 else [];
    DecodeRings(types, words.1 + [nv - words.2], b, words.3, big)
  }

  /** `CellElementArea.deSerialize` on relative coordinates: box, text slot
      offset byte, object type, total vertex count, first ring word, the
      rings, the corner byte and the text slot index. */
  function DecodeArea(data: seq<byte>, big: bool): (r: Result<AreaFields>)
    ensures r.Ok? ==> r.value.textslot < 0x1_0000_0000
  {
    var bb :- DecodeBBox(data, big);
    var off :- ReadU8(bb.1);
    var ot :- ReadU8(off.1);
    var nv :- ReadU16(ot.1, big);
    var head :- ReadU16(nv.1, big);
    var rings :- DecodeAreaRings(head.0 / 0x2000, head.0 % 0x2000, nv.0, bb.0, head.1, big);
    var corner :- ReadU8(rings.1);
    Ok(AreaFields(rings.0, ot.0, AreaTailSlot(off.0, CornerSkip(corner.0, nv.0, corner.1), big)))
  }

  /** `deSerialize` with the rings made absolute again. */
  function DeserializeArea(org: Pt, data: seq<byte>, big: bool): (r: Result<Element>)
    ensures r.Ok? ==> r.value.Area? && 0 <= r.value.objtype < 0x100 && |r.value.excess| == 0
    ensures r.Ok? ==> r.value.textslot.Some? && r.value.textslot.value < 0x1_0000_0000
  {
    var f :- DecodeArea(data, big);
    Ok(Area(AbsRings(org, f.rings), f.objtype, Some(f.textslot), []))
  }

  // -------------------------------------------------------- round trip

  /** The slot an area reads back. The decoder knows none of the escapes
      the offset byte may carry and reads an index only when it is two
      bytes long: in last position a wider index (four bytes) is lost;
      before further data the escaped slots read as 0xfc000000 with the
      low 16 bits of the index, and None as 0xfb000000. */
  function AreaSlotRead(t: nat, last: bool): nat
  {
    if last then (if Index(t) < 0x1_0000 then t else Offset(t) * 0x100_0000)
    else if t == EscapeFB || t == EscapeFC || Index(t) >= 0x1_0000 then EscapeFC + Index(t) % 0x1_0000
    else if t == NoText then EscapeFB
    else t
  }

  /** The alignment byte written in front of a non-empty index. */
  function Pad(tsd: seq<byte>): seq<byte>
  {
    if |tsd| > 0 then [0] else []
  }

  /** The text slot bytes of an area read back as `AreaSlotRead`. */
  lemma AreaTextslotRoundTrip(ts: Option<nat>, last: bool, big: bool)
    requires SlotValue(ts) < 0x1_0000_0000
    ensures var off := EncodeTextslotOffset(ts, last); var tsd := EncodeTextslotAsWritten(ts, big, true, last, false);
      && off.Ok? && tsd.Ok?
      && AreaTailSlot(off.value[0], Pad(tsd.value) + tsd.value, big) == AreaSlotRead(SlotValue(ts), last)
  {
    var t := SlotValue(ts);
    SlotSplit(t);
    var tsd := EncodeTextslotAsWritten(ts, big, true, last, false).value;
    if last || !(t == EscapeFB || t == EscapeFC || Index(t) >= 0x1_0000 || t == NoText) {
      if Index(t) < 0x1_0000 {
        assert tsd == U16(Index(t), big);
        assert (Pad(tsd) + tsd)[1..] == tsd;
      } else {
        assert |tsd| == 4;
      }
    } else if t == EscapeFB || t == EscapeFC || Index(t) >= 0x1_0000 {
      assert tsd == U16(Index(t) % 0x1_0000, big);
      assert (Pad(tsd) + tsd)[1..] == tsd;
    } else {
      assert tsd == [];
    }
  }

  /** The rings of a box, each read back as the delta coding rebuilds
      it. */
  function DecodedRings(b: Rec, rings: seq<seq<Pt>>): (dec: seq<seq<Pt>>)
    requires RingsNonEmpty(rings)
    ensures |dec| == |rings| && forall k :: 0 <= k < |rings| ==> dec[k] == AreaDecodedRel(b, rings[k])
  {
    seq(|rings|, k requires 0 <= k < |rings| => AreaDecodedRel(b, rings[k]))
  }

  /** Rings `encode_polygon` writes without loss: at least two vertices,
      a start inside the box, and a start offset that fits 16 bits. */
  predicate RingsEncodable(b: Rec, rings: seq<seq<Pt>>)
  {
    forall k :: 0 <= k < |rings| ==> |rings[k]| >= 2 && b.Contains(rings[k][0]) && AreaPolytype(b, rings[k]) != 0
  }

  /** The vertex count of each ring. */
  function RingCounts(b: Rec, rings: seq<seq<Pt>>): (ns: seq<nat>)
    requires RingsNonEmpty(rings)
    ensures |ns| == |rings| && forall k :: 0 <= k < |rings| ==> ns[k] == RingCount(b, rings[k])
  {
    seq(|rings|, k requires 0 <= k < |rings| => RingCount(b, rings[k]))
  }

  /** Ring word offsets that start at `offset` and step past each count
      all fit 13 bits. */
  predicate FitsFrom(counts: seq<nat>, offset: nat)
    decreases |counts|
  {
    |counts| == 0 || (offset <= 0x1fff && FitsFrom(counts[1..], offset + counts[0] + 1))
  }

  function SumOf(counts: seq<nat>): nat
    decreases |counts|
  {
    if |counts| == 0 then 0 else counts[0] + SumOf(counts[1..])
  }

  /** Every encoding of encodable rings succeeds and counts the vertices
      of its ring. */
  lemma EncodingsOk(b: Rec, rings: seq<seq<Pt>>, big: bool)
    requires RingsEncodable(b, rings)
    ensures AllOk(PolygonEncodings(b, rings, big))
    ensures forall k :: 0 <= k < |rings| ==> CountOf(PolygonEncodings(b, rings, big)[k]) == RingCounts(b, rings)[k]
  {
    var encs := PolygonEncodings(b, rings, big);
    forall k | 0 <= k < |rings|
      ensures encs[k].Ok? && encs[k].value.1 < 8 && CountOf(encs[k]) == RingCounts(b, rings)[k]
    {
      PolygonEncodingsAt(b, rings, big, k);
      EncodePolygonOf(b, rings[k], big);
    }
  }

  /** Every encoding reads back as its ring. */
  lemma EncodingsDecode(b: Rec, rings: seq<seq<Pt>>, big: bool)
    requires RingsEncodable(b, rings) && AllOk(PolygonEncodings(b, rings, big))
    ensures RingsDecodable(PolygonEncodings(b, rings, big), b, DecodedRings(b, rings), big)
  {
    var encs := PolygonEncodings(b, rings, big);
    forall k | 0 <= k < |rings|
      ensures RingReads(encs[k].value, b, AreaDecodedRel(b, rings[k]), big)
    {
      PolygonEncodingsAt(b, rings, big, k);
      forall rest: seq<byte>
        ensures DecodeRing(encs[k].value.1, encs[k].value.2, b, encs[k].value.0 + rest, big)
                == Ok((AreaDecodedRel(b, rings[k]), rest))
      {
        RingRoundTrip(b, rings[k], big, rest);
      }
    }
  }

  /** The data of all encodings reads back as the rings. */
  lemma EncodingsRead(b: Rec, rings: seq<seq<Pt>>, big: bool, rest: seq<byte>)
    requires RingsEncodable(b, rings) && AllOk(PolygonEncodings(b, rings, big))
    ensures var encs := PolygonEncodings(b, rings, big);
      DecodeRings(EncTypes(encs), EncCounts(encs), b, EncData(encs) + rest, big) == Ok((DecodedRings(b, rings), rest))
  {
    EncodingsDecode(b, rings, big);
    RingsRoundTrip(PolygonEncodings(b, rings, big), b, DecodedRings(b, rings), big, rest);
  }

  /** Encodings with the given vertex counts fit and total as the
      counts do. */
  lemma {:induction false} EncodingsCount(encs: seq<Result<(seq<byte>, nat, nat)>>, counts: seq<nat>, offset: nat)
    requires |encs| == |counts| && forall k :: 0 <= k < |counts| ==> CountOf(encs[k]) == counts[k]
    ensures OffsetsFit(encs, offset) == FitsFrom(counts, offset)
    ensures EncTotal(encs) == SumOf(counts)
    decreases |counts|
  {
    if |counts| > 0 {
      var tail, ctail := encs[1..], counts[1..];
      assert forall k :: 0 <= k < |ctail| ==> tail[k] == encs[k + 1] && ctail[k] == counts[k + 1];
      assert CountOf(encs[0]) == counts[0];
      EncodingsCount(tail, ctail, offset + counts[0] + 1);
    }
  }

  /** The ring words of `DecodeAreaRings` after the first, read from
      `data`, give the polytypes `types` and the sizes `sizes` of all
      rings, leaving `d`. */
  predicate WordsGive(data: seq<byte>, p: nat, nsub: nat, nv: nat, types: seq<nat>, sizes: seq<int>, d: seq<byte>,
                      big: bool)
  {
    var w := RingWords(data, if nsub > 0 then nsub - 1 else 0, 0, 0, big);
    && nsub > 0 && w.Ok? && [p] + w.value.0 == types && w.value.1 + [nv - w.value.2] == sizes && w.value.3 == d
  }

  /** The reading steps of `DecodeAreaRings` for at least one ring. */
  lemma DecodeAreaRingsOf(p: nat, nsub: nat, nv: nat, b: Rec, data: seq<byte>, big: bool,
                          types: seq<nat>, sizes: seq<int>, d: seq<byte>, dec: seq<seq<Pt>>, rest: seq<byte>)
    requires WordsGive(data, p, nsub, nv, types, sizes, d, big) && |sizes| >= |types|
    requires DecodeRings(types, sizes, b, d, big) == Ok((dec, rest))
    ensures DecodeAreaRings(p, nsub, nv, b, data, big) == Ok((dec, rest))
  {
  }

  /** The ring section reads back: the first ring word carries the first
      polytype and the ring count, the words after it and the total give
      every other polytype and count, and then each ring's data reads
      back as its ring. */
  lemma AreaRingsRead(encs: seq<Result<(seq<byte>, nat, nat)>>, b: Rec, dec: seq<seq<Pt>>, big: bool, rest: seq<byte>)
    requires AllOk(encs) && |encs| > 0 && OffsetsFit(encs[1..], encs[0].value.2 + 1)
    requires DecodeRings(EncTypes(encs), EncCounts(encs), b, EncData(encs) + rest, big) == Ok((dec, rest))
    ensures DecodeAreaRings(encs[0].value.1, |encs|, EncTotal(encs), b,
                            Words(encs[1..], encs[0].value.2 + 1, big) + (EncData(encs) + rest), big)
            == Ok((dec, rest))
  {
    AreaWordsRead(encs, big, EncData(encs) + rest);
    DecodeAreaRingsOf(encs[0].value.1, |encs|, EncTotal(encs), b, Words(encs[1..], encs[0].value.2 + 1, big)
                      + (EncData(encs) + rest), big, EncTypes(encs), EncCounts(encs), EncData(encs) + rest,
                      dec, rest);
  }

  /** The ring words after the first read back as the polytypes and the
      counts of the rings, the last count from the total. */
  lemma AreaWordsRead(encs: seq<Result<(seq<byte>, nat, nat)>>, big: bool, d: seq<byte>)
    requires AllOk(encs) && |encs| > 0 && OffsetsFit(encs[1..], encs[0].value.2 + 1)
    ensures WordsGive(Words(encs[1..], encs[0].value.2 + 1, big) + d, encs[0].value.1, |encs|, EncTotal(encs),
                      EncTypes(encs), EncCounts(encs), d, big)
  {
    EncCons(encs, d);
    assert EncTotal(encs) == encs[0].value.2 + EncTotal(encs[1..]);
    if |encs| == 1 {
      AreaWordsOne(encs, big, d);
    } else {
      AreaWordsMore(encs, big, d);
    }
  }

  /** A single ring has no ring words after the first. */
  lemma AreaWordsOne(encs: seq<Result<(seq<byte>, nat, nat)>>, big: bool, d: seq<byte>)
    requires AllOk(encs) && |encs| == 1
    ensures WordsGive(Words(encs[1..], encs[0].value.2 + 1, big) + d, encs[0].value.1, 1,
                      encs[0].value.2 + EncTotal(encs[1..]),
                      [encs[0].value.1] + EncTypes(encs[1..]), [encs[0].value.2 as int] + EncCounts(encs[1..]), d, big)
  {
    assert Words(encs[1..], encs[0].value.2 + 1, big) + d == d;
    assert RingWords(d, 0, 0, 0, big) == Ok(([], [], 0, d));
  }

  /** Several rings: the words after the first give the other polytypes,
      the first count and all the others but the last. */
  lemma AreaWordsMore(encs: seq<Result<(seq<byte>, nat, nat)>>, big: bool, d: seq<byte>)
    requires AllOk(encs) && |encs| > 1 && OffsetsFit(encs[1..], encs[0].value.2 + 1)
    ensures WordsGive(Words(encs[1..], encs[0].value.2 + 1, big) + d, encs[0].value.1, |encs|,
                      encs[0].value.2 + EncTotal(encs[1..]),
                      [encs[0].value.1] + EncTypes(encs[1..]), [encs[0].value.2 as int] + EncCounts(encs[1..]), d, big)
  {
    var first := encs[0].value;
    var tail := encs[1..];
    WordsRead(tail, first.2 + 1, 0, 0, big, d);
    HeadsAndLast(tail);
    var words := (EncTypes(tail), [first.2 + 1 - 0 - 1] + HeadCounts(tail),
                  0 + (first.2 + 1 - 0 - 1) + HeadTotal(tail), d);
    assert words.1 + [first.2 + EncTotal(tail) - words.2]
        == [first.2 as int] + (HeadCounts(tail) + [tail[|tail| - 1].value.2 as int]);
  }

  /** The reading steps of `DecodeArea`, each succeeding, with no corner
      data. */
  lemma DecodeAreaOf(data: seq<byte>, big: bool, b: Rec, d1: seq<byte>, nv: nat, d2: seq<byte>, hw: nat,
                     d3: seq<byte>, dec: seq<seq<Pt>>, tail: seq<byte>)
    requires DecodeBBox(data, big) == Ok((b, d1)) && |d1| >= 2
    requires ReadU16(d1[2..], big) == Ok((nv, d2)) && ReadU16(d2, big) == Ok((hw, d3))
    requires DecodeAreaRings(hw / 0x2000, hw % 0x2000, nv, b, d3, big) == Ok((dec, [0xff] + tail))
    ensures DecodeArea(data, big) == Ok(AreaFields(dec, d1[1], AreaTailSlot(d1[0], tail, big)))
  {
    assert d1[1..][1..] == d1[2..];
    assert ([0xff] + tail)[1..] == tail;
  }

  /** The bytes of an area record, from its pieces, read back. */
  lemma AreaRecordRead(b: Rec, encs: seq<Result<(seq<byte>, nat, nat)>>, dec: seq<seq<Pt>>, o: byte, objtype: byte,
                       tail: seq<byte>, big: bool)
    requires Encodable(b) && EncodingsFit(encs)
    requires DecodeRings(EncTypes(encs), EncCounts(encs), b, EncData(encs) + ([0xff] + tail), big)
             == Ok((dec, [0xff] + tail))
    ensures HeaderWord(encs[0].value.1, |encs|) < 0x1_0000
    ensures DecodeArea(EncodeBBox(b, big).value + [o] + [objtype] + U16(EncTotal(encs), big)
                       + U16(HeaderWord(encs[0].value.1, |encs|), big)
                       + Words(encs[1..], encs[0].value.2 + 1, big) + EncData(encs) + [0xff] + tail, big)
            == Ok(AreaFields(dec, objtype, AreaTailSlot(o, tail, big)))
  {
    var hw := HeaderWord(encs[0].value.1, |encs|);
    HeaderFields(encs[0].value.1, |encs|);
    var bb := EncodeBBox(b, big).value;
    var d4 := [0xff] + tail;
    var d3 := Words(encs[1..], encs[0].value.2 + 1, big) + (EncData(encs) + d4);
    var d2 := U16(hw, big) + d3;
    var d1 := [o] + [objtype] + (U16(EncTotal(encs), big) + d2);
    AreaRecordRegroup(bb, o, objtype, U16(EncTotal(encs), big), U16(hw, big),
                      Words(encs[1..], encs[0].value.2 + 1, big), EncData(encs), tail);
    BBoxRoundTrip(b, big, d1);
    assert d1[2..] == U16(EncTotal(encs), big) + d2;
    ReadU16Prefix(EncTotal(encs), big, d2);
    ReadU16Prefix(hw, big, d3);
    AreaRingsRead(encs, b, dec, big, d4);
    DecodeAreaOf(bb + d1, big, b, d1, EncTotal(encs), d2, hw, d3, dec, tail);
  }

  /** Regrouping the pieces of an area record. */
  lemma AreaRecordRegroup(bb: seq<byte>, o: byte, objtype: byte, count: seq<byte>, head: seq<byte>,
                          words: seq<byte>, cdata: seq<byte>, tail: seq<byte>)
    ensures bb + [o] + [objtype] + count + head + words + cdata + [0xff] + tail
         == bb + ([o] + [objtype] + (count + (head + (words + (cdata + ([0xff] + tail))))))
  {
  }

  /** The bytes `AreaBody` writes when every ring encodes and every count
      fits. */
  lemma AreaBodyOf(prefix: seq<byte>, encs: seq<Result<(seq<byte>, nat, nat)>>, ts: Option<nat>, last: bool,
                   big: bool, tsd: seq<byte>)
    requires EncodingsFit(encs)
    requires EncodeTextslotAsWritten(ts, big, true, last, false) == Ok(tsd)
    ensures HeaderWord(encs[0].value.1, |encs|) < 0x1_0000
    ensures AreaBody(prefix, encs, ts, last, big)
            == Ok(prefix + U16(EncTotal(encs), big) + U16(HeaderWord(encs[0].value.1, |encs|), big)
                  + Words(encs[1..], encs[0].value.2 + 1, big) + EncData(encs) + [0xff] + (Pad(tsd) + tsd))
  {
    var first := encs[0].value;
    var more := AreaBodyLoop(prefix, encs, ts, last, big);
    AreaTailOf(prefix, first, U16(HeaderWord(first.1, |encs|), big), more, ts, last, big, tsd, EncTotal(encs));
    AreaTailRegroup(prefix, U16(EncTotal(encs), big), U16(HeaderWord(first.1, |encs|), big), more.0, first.0, more.1,
                    Pad(tsd), tsd);
  }

  /** `AreaBody` up to the loop's result, which is the words, the data
      and the total of the rings after the first. */
  lemma AreaBodyLoop(prefix: seq<byte>, encs: seq<Result<(seq<byte>, nat, nat)>>, ts: Option<nat>, last: bool,
                     big: bool)
      returns (more: (seq<byte>, seq<byte>, nat))
    requires AllOk(encs) && 0 < |encs| < 0x2000
    requires OffsetsFit(encs[1..], encs[0].value.2 + 1)
    ensures HeaderWord(encs[0].value.1, |encs|) < 0x1_0000
    ensures more.0 == Words(encs[1..], encs[0].value.2 + 1, big)
    ensures encs[0].value.0 + more.1 == EncData(encs) && encs[0].value.2 + more.2 == EncTotal(encs)
    ensures AreaBody(prefix, encs, ts, last, big)
            == AreaTail(prefix, encs[0].value, U16(HeaderWord(encs[0].value.1, |encs|), big), Ok(more), ts, last, big)
  {
    var first := encs[0].value;
    var tail := encs[1..];
    HeaderFields(first.1, |encs|);
    PartsLoopWords(tail, first.2 + 1, big);
    more := (Words(tail, first.2 + 1, big), EncData(tail), EncTotal(tail));
  }

  lemma AreaTailRegroup(prefix: seq<byte>, count: seq<byte>, head: seq<byte>, words: seq<byte>, d0: seq<byte>,
                        d1: seq<byte>, pad: seq<byte>, tsd: seq<byte>)
    ensures prefix + count + head + words + d0 + d1 + [0xff] + pad + tsd
         == prefix + count + head + words + (d0 + d1) + [0xff] + (pad + tsd)
  {
  }

  /** The bytes `AreaTail` writes after a successful loop. */
  lemma AreaTailOf(prefix: seq<byte>, first: (seq<byte>, nat, nat), head: seq<byte>,
                   more: (seq<byte>, seq<byte>, nat), ts: Option<nat>, last: bool, big: bool, tsd: seq<byte>,
                   total: nat)
    requires total == first.2 + more.2 < 0x1_0000 && EncodeTextslotAsWritten(ts, big, true, last, false) == Ok(tsd)
    ensures AreaTail(prefix, first, head, Ok(more), ts, last, big)
            == Ok(prefix + U16(total, big) + head + more.0 + first.0 + more.1 + [0xff] + Pad(tsd) + tsd)
  {
  }

  /** Areas `serialize` writes without loss, for relative rings in box
      `b`: at least one ring, each ring encodable, a box and object type
      that fit their fields, ring word offsets within 13 bits, a total
      vertex count within 16 bits and a text slot within 32 bits. */
  predicate AreaEncodable(b: Rec, rings: seq<seq<Pt>>, objtype: int, ts: Option<nat>)
  {
    RingsEncodable(b, rings) && AreaFits(b, rings, objtype, ts)
  }

  /** The conditions of `AreaEncodable` besides the rings' own. */
  predicate AreaFits(b: Rec, rings: seq<seq<Pt>>, objtype: int, ts: Option<nat>)
  {
    && |rings| > 0 && RingsNonEmpty(rings) && Encodable(b) && 0 <= objtype < 0x100
    && FitsFrom(RingCounts(b, rings[1..]), RingCount(b, rings[0]) + 1)
    && SumOf(RingCounts(b, rings)) < 0x1_0000
    && SlotValue(ts) < 0x1_0000_0000
  }

  /** Every ring encodes, the ring count and every ring word offset fit
      13 bits and the total vertex count fits 16 bits. */
  predicate EncodingsFit(encs: seq<Result<(seq<byte>, nat, nat)>>)
  {
    && AllOk(encs) && 0 < |encs| < 0x2000 && EncTotal(encs) < 0x1_0000
    && OffsetsFit(encs[1..], encs[0].value.2 + 1)
  }

  /** An encodable area reads back with the rings the delta coding
      rebuilds, its object type and the slot `AreaSlotRead` gives. */
  lemma AreaRoundTrip(b: Rec, rings: seq<seq<Pt>>, objtype: int, ts: Option<nat>, last: bool, big: bool)
    requires AreaEncodable(b, rings, objtype, ts)
    ensures EncodeArea(b, rings, objtype, ts, last, big).Ok?
    ensures DecodeArea(EncodeArea(b, rings, objtype, ts, last, big).value, big)
            == Ok(AreaFields(DecodedRings(b, rings), objtype, AreaSlotRead(SlotValue(ts), last)))
  {
    var encs := PolygonEncodings(b, rings, big);
    AreaTextslotRoundTrip(ts, last, big);
    var o := EncodeTextslotOffset(ts, last).value[0];
    var tsd := EncodeTextslotAsWritten(ts, big, true, last, false).value;
    AreaEncodingsRead(b, rings, objtype, ts, big, [0xff] + (Pad(tsd) + tsd));
    EncodeAreaOf(b, rings, objtype, ts, last, big);
    AreaBodyRead(b, encs, DecodedRings(b, rings), o, objtype as byte, ts, last, big, tsd);
  }

  /** The encodings of an encodable area's rings fit and read back. */
  lemma AreaEncodingsRead(b: Rec, rings: seq<seq<Pt>>, objtype: int, ts: Option<nat>, big: bool, rest: seq<byte>)
    requires AreaEncodable(b, rings, objtype, ts)
    ensures var encs := PolygonEncodings(b, rings, big);
      && EncodingsFit(encs)
      && DecodeRings(EncTypes(encs), EncCounts(encs), b, EncData(encs) + rest, big) == Ok((DecodedRings(b, rings), rest))
  {
    AreaEncodingsFit(b, rings, big);
    EncodingsRead(b, rings, big, rest);
  }

  /** `EncodeArea` once the box, the offset byte and the object type are
      written. */
  lemma EncodeAreaOf(b: Rec, rings: seq<seq<Pt>>, objtype: int, ts: Option<nat>, last: bool, big: bool)
    requires |rings| > 0 && Encodable(b) && 0 <= objtype < 0x100 && SlotValue(ts) < 0x1_0000_0000
    ensures EncodeTextslotOffset(ts, last).Ok?
    ensures EncodeArea(b, rings, objtype, ts, last, big)
         == AreaBody(EncodeBBox(b, big).value + [EncodeTextslotOffset(ts, last).value[0]] + [objtype as byte],
                     PolygonEncodings(b, rings, big), ts, last, big)
  {
    var o := EncodeTextslotOffset(ts, last).value;
    assert o == [o[0]];
  }

  /** The record `AreaBody` writes for encodings that fit decodes to the
      rings the encodings decode to. */
  lemma AreaBodyRead(b: Rec, encs: seq<Result<(seq<byte>, nat, nat)>>, dec: seq<seq<Pt>>, o: byte, objtype: byte,
                     ts: Option<nat>, last: bool, big: bool, tsd: seq<byte>)
    requires Encodable(b) && EncodingsFit(encs)
    requires EncodeTextslotAsWritten(ts, big, true, last, false) == Ok(tsd)
    requires DecodeRings(EncTypes(encs), EncCounts(encs), b, EncData(encs) + ([0xff] + (Pad(tsd) + tsd)), big)
             == Ok((dec, [0xff] + (Pad(tsd) + tsd)))
    ensures AreaBody(EncodeBBox(b, big).value + [o] + [objtype], encs, ts, last, big).Ok?
    ensures DecodeArea(AreaBody(EncodeBBox(b, big).value + [o] + [objtype], encs, ts, last, big).value, big)
            == Ok(AreaFields(dec, objtype, AreaTailSlot(o, Pad(tsd) + tsd, big)))
  {
    AreaBodyOf(EncodeBBox(b, big).value + [o] + [objtype], encs, ts, last, big, tsd);
    AreaRecordRead(b, encs, dec, o, objtype, Pad(tsd) + tsd, big);
  }

  /** The encodings of encodable rings keep the ring words within 13 bits
      and the total within 16 bits, and so the ring count within 13
      bits. */
  lemma AreaEncodingsFit(b: Rec, rings: seq<seq<Pt>>, big: bool)
    requires |rings| > 0 && RingsEncodable(b, rings)
    requires FitsFrom(RingCounts(b, rings[1..]), RingCount(b, rings[0]) + 1)
    requires SumOf(RingCounts(b, rings)) < 0x1_0000
    ensures EncodingsFit(PolygonEncodings(b, rings, big))
  {
    EncodingsOk(b, rings, big);
    RingCountsTail(b, rings);
    EncodingsFitOf(PolygonEncodings(b, rings, big), RingCounts(b, rings));
  }

  /** The counts of the rings after the first, and the first count. */
  lemma RingCountsTail(b: Rec, rings: seq<seq<Pt>>)
    requires |rings| > 0 && RingsNonEmpty(rings)
    ensures RingCounts(b, rings)[1..] == RingCounts(b, rings[1..])
    ensures RingCounts(b, rings)[0] == RingCount(b, rings[0])
  {
  }

  /** Encodings that succeed with the given counts fit the ring words and
      the total once the counts do. */
  lemma EncodingsFitOf(encs: seq<Result<(seq<byte>, nat, nat)>>, counts: seq<nat>)
    requires 0 < |encs| == |counts| && AllOk(encs) && counts[0] >= 1
    requires FitsFrom(counts[1..], counts[0] + 1) && SumOf(counts) < 0x1_0000
    requires forall k :: 0 <= k < |counts| ==> CountOf(encs[k]) == counts[k]
    ensures EncodingsFit(encs)
  {
    assert CountOf(encs[0]) == counts[0];
    EncodingsCount(encs, counts, 0);
    TailFits(encs[1..], counts[1..], counts[0] + 1);
  }

  /** Ring words after a first ring of at least one vertex that fit
      their counts leave room for the ring count in 13 bits. */
  lemma TailFits(tail: seq<Result<(seq<byte>, nat, nat)>>, counts: seq<nat>, next: nat)
    requires next >= 2 && FitsFrom(counts, next)
    requires |tail| == |counts| && forall k :: 0 <= k < |counts| ==> CountOf(tail[k]) == counts[k]
    ensures OffsetsFit(tail, next) && |tail| + 1 < 0x2000
  {
    EncodingsCount(tail, counts, next);
    if |tail| > 0 {
      OffsetsFitCount(tail, next);
    }
  }

  // ------------------------------------------------- decoded vertices

  /** Every vertex of a ring is among the vertices the decoder rebuilds. */
  lemma AreaDecodedVisits(b: Rec, ring: seq<Pt>)
    requires |ring| >= 2
    ensures forall i :: 0 <= i < |ring| ==> ring[i] in AreaDecodedRel(b, ring)
  {
    var p := AreaPolytype(b, ring);
    var c := RingChain(p, ring);
    WalkChainVisits(c);
    assert forall i :: 0 <= i < |c| ==> c[i] == ring[i];
  }

  /** A ring whose every edge fits one step decodes to itself. */
  lemma AreaDecodedExact(b: Rec, ring: seq<Pt>)
    requires |ring| >= 2
    requires forall i :: 0 <= i < |ring| - 1 ==> Small(ring[i + 1].Sub(ring[i]))
    ensures AreaDecodedRel(b, ring) == ring
  {
    var p := AreaPolytype(b, ring);
    var c := RingChain(p, ring);
    assert forall i :: 0 <= i < |c| ==> c[i] == ring[i];
    WalkChainExact(c);
    if EndImplied(p) {
      assert c + [ring[|ring| - 1]] == ring;
    }
  }

  // ---------------------------------------------------------- element

  /** The serializer's conditions for a lossless area, on the element and
      the cell's lower corner: rings of at least two vertices, each start
      offset within 16 bits, the ring words and the total within range,
      an object type byte and a 32-bit text slot. */
  predicate AreaElementEncodable(org: Pt, e: Element)
    requires e.Area?
  {
    && |e.rings| > 0 && (forall k :: 0 <= k < |e.rings| ==> |e.rings[k]| >= 2)
    && (forall k :: 0 <= k < |e.rings| ==>
          AreaPolytype(RelBox(org, AreaBounds(e.rings)), RelRings(org, e.rings)[k]) != 0)
    && AreaFits(RelBox(org, AreaBounds(e.rings)), RelRings(org, e.rings), e.objtype, e.textslot)
  }

  /** The box the serializer writes holds the start of every relative
      ring. */
  lemma AreaBoxHoldsRings(org: Pt, rings: seq<seq<Pt>>)
    requires |rings| > 0 && RingsNonEmpty(rings)
    ensures forall k :: 0 <= k < |rings| ==>
      RelBox(org, AreaBounds(rings)).Contains(RelRings(org, rings)[k][0])
  {
    forall k | 0 <= k < |rings|
      ensures RelBox(org, AreaBounds(rings)).Contains(RelRings(org, rings)[k][0])
    {
      RelBoxContains(org, AreaBounds(rings), rings[k][0]);
    }
  }

  /** The element's conditions are those of its relative rings. */
  lemma AreaElementEncodableOf(org: Pt, e: Element, b: Rec, parts: seq<seq<Pt>>)
    requires e.Area? && AreaElementEncodable(org, e)
    requires b == RelBox(org, AreaBounds(e.rings)) && parts == RelRings(org, e.rings)
    ensures AreaEncodable(b, parts, e.objtype, e.textslot)
  {
    AreaBoxHoldsRings(org, e.rings);
    assert RingsEncodable(b, parts);
  }

  /** An area the serializer accepts losslessly reads back with the rings
      the delta coding rebuilds in absolute coordinates, its object type
      and the slot `AreaSlotRead` gives, for `b` and `parts` the relative
      box and rings the serializer writes. */
  lemma AreaElementRoundTrip(org: Pt, e: Element, big: bool, b: Rec, parts: seq<seq<Pt>>)
    requires e.Area? && AreaElementEncodable(org, e)
    requires b == RelBox(org, AreaBounds(e.rings)) && parts == RelRings(org, e.rings)
    ensures EncodeArea(b, parts, e.objtype, e.textslot, |e.excess| == 0, big).Ok?
    ensures DeserializeArea(org, EncodeArea(b, parts, e.objtype, e.textslot, |e.excess| == 0, big).value, big)
      == Ok(Area(AbsRings(org, DecodedRings(b, parts)), e.objtype,
                 Some(AreaSlotRead(SlotValue(e.textslot), |e.excess| == 0)), []))
  {
    AreaElementEncodableOf(org, e, b, parts);
    AreaRoundTrip(b, parts, e.objtype, e.textslot, |e.excess| == 0, big);
  }
}
