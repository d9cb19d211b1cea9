/** magellan/layerpacker.py: the decoder table of a packed layer (a header of
    seven 32-bit words followed by seven lookup tables) and the table-driven
    bit-stream decoder that expands packed layer data with it. */
module LayerPacker {
  import opened Wrappers
  import opened PyStruct
  import opened Bits
  import opened Arith
  import Chunks

  // ---------------------------------------------------------------------
  // Table.decode
  // ---------------------------------------------------------------------

  /** The struct format character of one table: "B", "H" or "I". */
  datatype Width = B | H | I

  function Bytes(w: Width): nat
  {
    match w
    case B => 1
    case H => 2
    case I => 4
  }

  function Limit(w: Width): nat
  {
    match w
    case B => 0x100
    case H => 0x1_0000
    case I => 0x1_0000_0000
  }

  /** The number of bytes n fields of width w take, Span(n, w). */
  function Span(n: int, w: Width): int
  {
    match w
    case B => n
    case H => 2 * n
    case I => 4 * n
  }

  predicate Fits(xs: seq<nat>, w: Width)
  {
    forall i :: 0 <= i < |xs| ==> xs[i] < Limit(w)
  }

  /** One unsigned field of the table file. */
  function ReadItem(data: seq<byte>, w: Width, big: bool): (r: Result<(nat, seq<byte>)>)
    ensures r.Ok? <==> |data| >= Bytes(w)
    ensures r.Ok? ==> r.value.0 < Limit(w) && r.value.1 == data[Bytes(w)..]
  {
    match w
    case B =>
      var p :- ReadU8(data);
      Ok((p.0 as nat, p.1))
    case H => ReadU16(data, big)
    case I => ReadU32(data, big)
  }

  function EncodeItem(v: nat, w: Width, big: bool): (r: seq<byte>)
    requires v < Limit(w)
    ensures |r| == Bytes(w)
  {
    match w
    case B => [v]
    case H => U16(v, big)
    case I => U32(v, big)
  }

  lemma ReadItemEncoded(v: nat, w: Width, big: bool, rest: seq<byte>)
    requires v < Limit(w)
    ensures ReadItem(EncodeItem(v, w, big) + rest, w, big) == Ok((v, rest))
  {
    match w
    case B => assert ([v] + rest)[1..] == rest;
    case H => ReadU16Prefix(v, big, rest);
    case I => ReadU32Prefix(v, big, rest);
  }

  lemma ReadItemSource(data: seq<byte>, w: Width, big: bool)
    requires |data| >= Bytes(w)
    ensures EncodeItem(ReadItem(data, w, big).value.0, w, big) + data[Bytes(w)..] == data
  {
    match w
    case B =>
    case H =>
      U16Get(data, big);
      assert data[..2] + data[2..] == data;
    case I =>
      U32Get(data, big);
      assert data[..4] + data[4..] == data;
  }

  /** unpack('%dX' % n, ...) of n fields, followed by dropping the bytes it
      used: struct.error for a negative count or too little data. */
  function ReadItems(data: seq<byte>, n: int, w: Width, big: bool): (r: Result<(seq<nat>, seq<byte>)>)
    ensures r.Ok? <==> 0 <= n && Span(n, w) <= |data|
    ensures r.Ok? ==> |r.value.0| == n && r.value.1 == data[Span(n, w)..]
    ensures r.Fail? ==> r.failure == StructError
    decreases if n < 0 then 0 else n
  {
    if n < 0 then Fail(StructError)
    else if n == 0 then Ok(([], data))
    else
      var first :- ReadItem(data, w, big);
      var tail :- ReadItems(first.1, n - 1, w, big);
      Ok(([first.0] + tail.0, tail.1))
  }

  function EncodeItems(xs: seq<nat>, w: Width, big: bool): (r: seq<byte>)
    requires Fits(xs, w)
    ensures |r| == Span(|xs|, w)
  {
    if |xs| == 0 then [] else EncodeItem(xs[0], w, big) + EncodeItems(xs[1..], w, big)
  }

  /** Reading n fields back from their encoding gives them and the rest. */
  lemma {:induction false} ReadItemsEncoded(xs: seq<nat>, w: Width, big: bool, rest: seq<byte>)
    requires Fits(xs, w)
    ensures ReadItems(EncodeItems(xs, w, big) + rest, |xs|, w, big) == Ok((xs, rest))
    decreases |xs|
  {
    if |xs| > 0 {
      var data := EncodeItems(xs, w, big) + rest;
      var tail := EncodeItems(xs[1..], w, big) + rest;
      Chunks.AppendAssoc(EncodeItem(xs[0], w, big), EncodeItems(xs[1..], w, big), rest);
      ReadItemEncoded(xs[0], w, big, tail);
      ReadItemsEncoded(xs[1..], w, big, rest);
      assert [xs[0]] + xs[1..] == xs;
    }
  }

  lemma ReadItemsStep(data: seq<byte>, n: int, w: Width, big: bool)
    requires n > 0 && ReadItems(data, n, w, big).Ok?
    ensures ReadItem(data, w, big).Ok?
    ensures var first := ReadItem(data, w, big).value;
            && ReadItems(first.1, n - 1, w, big).Ok?
            && var t := ReadItems(first.1, n - 1, w, big).value;
               ReadItems(data, n, w, big).value == ([first.0] + t.0, t.1)
  {
  }

  lemma EncodeItemsCons(x: nat, xs: seq<nat>, w: Width, big: bool)
    requires x < Limit(w) && Fits(xs, w)
    ensures Fits([x] + xs, w)
    ensures EncodeItems([x] + xs, w, big) == EncodeItem(x, w, big) + EncodeItems(xs, w, big)
  {
    assert ([x] + xs)[1..] == xs;
  }

  /** What a successful read consumed is exactly the encoding of what it returned. */
  lemma {:induction false} ReadItemsSource(data: seq<byte>, n: int, w: Width, big: bool, xs: seq<nat>, rest: seq<byte>)
    requires ReadItems(data, n, w, big) == Ok((xs, rest))
    ensures Fits(xs, w) && EncodeItems(xs, w, big) + rest == data
    decreases |xs|
  {
    if n > 0 {
      ReadItemsStep(data, n, w, big);
      var first := ReadItem(data, w, big).value;
      var t := ReadItems(first.1, n - 1, w, big).value;
      ReadItemsSource(first.1, n - 1, w, big, t.0, t.1);
      ReadItemSource(data, w, big);
      EncodeItemsCons(first.0, t.0, w, big);
      Chunks.AppendAssoc(EncodeItem(first.0, w, big), EncodeItems(t.0, w, big), t.1);
    }
  }

  /** The loop of Table.decode: one table per (size, type) pair, each read
      from what the previous ones left. */
  function Tables(data: seq<byte>, sizes: seq<int>, widths: seq<Width>, big: bool): (r: Result<(seq<seq<nat>>, seq<byte>)>)
    requires |sizes| == |widths|
    ensures r.Ok? ==> |r.value.0| == |sizes|
    decreases |sizes|
  {
    if |sizes| == 0 then Ok(([], data))
    else
      var n := |sizes| - 1;
      var front := Tables(data, sizes[..n], widths[..n], big);
      if front.Fail? then front
      else
        var last := ReadItems(front.value.1, sizes[n], widths[n], big);
        if last.Fail? then Fail(last.failure)
        else Ok((front.value.0 + [last.value.0], last.value.1))
  }

  lemma {:induction false} TablesFail(data: seq<byte>, sizes: seq<int>, widths: seq<Width>, big: bool, j: nat)
    requires |sizes| == |widths| && j <= |sizes|
    requires Tables(data, sizes[..j], widths[..j], big).Fail?
    ensures Tables(data, sizes, widths, big) == Tables(data, sizes[..j], widths[..j], big)
    decreases |sizes| - j
  {
    if j < |sizes| {
      PrefixStep(sizes, j);
      PrefixStep(widths, j);
      TablesFail(data, sizes, widths, big, j + 1);
    } else {
      assert sizes[..j] == sizes && widths[..j] == widths;
    }
  }

  lemma PrefixStep<T>(s: seq<T>, i: nat)
    requires i < |s|
    ensures s[..i + 1][..i] == s[..i] && s[..i + 1][i] == s[i]
  {
  }

  /** Every table has the size asked for and values of its own width. */
  predicate Shaped(cols: seq<seq<nat>>, sizes: seq<int>, widths: seq<Width>)
    requires |sizes| == |widths|
  {
    |cols| == |sizes| && AllFit(cols, widths) && forall i :: 0 <= i < |cols| ==> |cols[i]| == sizes[i]
  }

  predicate AllFit(cols: seq<seq<nat>>, widths: seq<Width>)
    requires |cols| == |widths|
  {
    forall i :: 0 <= i < |cols| ==> Fits(cols[i], widths[i])
  }

  lemma ShapedSnoc(front: seq<seq<nat>>, last: seq<nat>, sizes: seq<int>, widths: seq<Width>)
    requires |sizes| == |widths| > 0
    requires Shaped(front, sizes[..|sizes| - 1], widths[..|sizes| - 1])
    requires Fits(last, widths[|sizes| - 1]) && |last| == sizes[|sizes| - 1]
    ensures Shaped(front + [last], sizes, widths)
  {
    var cols := front + [last];
    var n := |sizes| - 1;
    forall i | 0 <= i < |cols|
      ensures Fits(cols[i], widths[i]) && |cols[i]| == sizes[i]
    {
      if i < n {
        assert cols[i] == front[i] && widths[i] == widths[..n][i] && sizes[i] == sizes[..n][i];
      }
    }
  }

  lemma SnocParts<T>(s: seq<T>)
    requires |s| > 0
    ensures s[..|s| - 1] + [s[|s| - 1]] == s
  {
  }

  lemma SnocPrefix<T>(a: seq<T>, x: T)
    ensures (a + [x])[..|a|] == a && (a + [x])[|a|] == x
  {
  }

  /** The sizes of the seven tables, read from the header. */
  function TableSizes(h: seq<nat>): (sizes: seq<int>)
    requires |h| == 7
    ensures |sizes| == 7
  {
    var sizes: seq<int> := [256, h[2], h[6], h[6], h[1], h[1] as int - 0x100, h[4]];
    sizes
  }

  const TableWidths: seq<Width> := [B, B, I, H, H, H, B]

  /** A decoded table file: the header words and the seven tables, named
      after the offsets the source uses for them. */
  datatype Table = Table(header: seq<nat>, table1: seq<nat>, table11c: seq<nat>, table120: seq<nat>,
                         table124: seq<nat>, table128: seq<nat>, table12c: seq<nat>, table130: seq<nat>)

  function Columns(t: Table): seq<seq<nat>>
  {
    [t.table1, t.table11c, t.table120, t.table124, t.table128, t.table12c, t.table130]
  }

  /** What decoding a table file establishes: header[0] is 1 and every table
      has the size the header gives and values of its own width. */
  predicate WellFormed(t: Table)
  {
    && |t.header| == 7 && Fits(t.header, I) && t.header[0] == 1
    && Shaped(Columns(t), TableSizes(t.header), TableWidths)
  }

  /** Table(data): no table at all for empty data; otherwise the header, the
      assert on header[0], the seven tables and the assert that nothing is
      left over. */
  function Decode(data: seq<byte>, big: bool): (r: Result<Option<Table>>)
    ensures r.Ok? && r.value.Some? ==> |r.value.value.header| == 7
  {
    if |data| == 0 then Ok(None)
    else
      var headerdata := if |data| < 0x1c then data else data[..0x1c];
      var header := ReadItems(headerdata, 7, I, big);
      if header.Fail? then Fail(header.failure)
      else
        var h := header.value.0;
        if h[0] != 1 then Fail(AssertionError)
        else
          var tables := Tables(data[0x1c..], TableSizes(h), TableWidths, big);
          if tables.Fail? then Fail(tables.failure)
          else if |tables.value.1| != 0 then Fail(AssertionError)
          else
            var ts := tables.value.0;
            Ok(Some(Table(h, ts[0], ts[1], ts[2], ts[3], ts[4], ts[5], ts[6])))
  }

  /** Table.decode, with its loop over the seven tables. */
  method DecodeTable(data: seq<byte>, big: bool) returns (r: Result<Option<Table>>)
    ensures r == Decode(data, big)
  {
    if |data| == 0 {
      return Ok(None);
    }
    var headerdata := if |data| < 0x1c then data else data[..0x1c];
    var header := ReadItems(headerdata, 7, I, big);
    if header.Fail? {
      return Fail(header.failure);
    }
    var h := header.value.0;
    if h[0] != 1 {
      return Fail(AssertionError);
    }
    var tables := ReadTables(data[0x1c..], TableSizes(h), TableWidths, big);
    if tables.Fail? {
      return Fail(tables.failure);
    }
    if |tables.value.1| != 0 {
      return Fail(AssertionError);
    }
    var ts := tables.value.0;
    return Ok(Some(Table(h, ts[0], ts[1], ts[2], ts[3], ts[4], ts[5], ts[6])));
  }

  /** The loop of Table.decode over the (size, type) pairs. */
  method ReadTables(data: seq<byte>, sizes: seq<int>, widths: seq<Width>, big: bool)
    returns (r: Result<(seq<seq<nat>>, seq<byte>)>)
    requires |sizes| == |widths|
    ensures r == Tables(data, sizes, widths, big)
  {
    var rest := data;
    var tables: seq<seq<nat>> := [];
    for i := 0 to |sizes|
      invariant Tables(data, sizes[..i], widths[..i], big) == Ok((tables, rest))
    {
      PrefixStep(sizes, i);
      PrefixStep(widths, i);
      var one := ReadItems(rest, sizes[i], widths[i], big);
      if one.Fail? {
        TablesFail(data, sizes, widths, big, i + 1);
        return Fail(one.failure);
      }
      tables := tables + [one.value.0];
      rest := one.value.1;
    }
    assert sizes[..|sizes|] == sizes && widths[..|widths|] == widths;
    return Ok((tables, rest));
  }

  /** The seven tables written one after the other. */
  function EncodeTables(cols: seq<seq<nat>>, widths: seq<Width>, big: bool): seq<byte>
    requires |cols| == |widths| && AllFit(cols, widths)
    decreases |cols|
  {
    if |cols| == 0 then []
    else
      var n := |cols| - 1;
      EncodeTables(cols[..n], widths[..n], big) + EncodeItems(cols[n], widths[n], big)
  }

  /** The table file a decoder table is read from. */
  function Encode(t: Table, big: bool): seq<byte>
    requires WellFormed(t)
  {
    EncodeItems(t.header, I, big) + EncodeTables(Columns(t), TableWidths, big)
  }

  /** One more table read after the ones before it. */
  lemma TablesSnoc(data: seq<byte>, sizes: seq<int>, widths: seq<Width>, big: bool,
                   front: seq<seq<nat>>, mid: seq<byte>, last: seq<nat>, rest: seq<byte>)
    requires |sizes| == |widths| > 0
    requires Tables(data, sizes[..|sizes| - 1], widths[..|sizes| - 1], big) == Ok((front, mid))
    requires ReadItems(mid, sizes[|sizes| - 1], widths[|sizes| - 1], big) == Ok((last, rest))
    ensures Tables(data, sizes, widths, big) == Ok((front + [last], rest))
  {
  }

  lemma TablesSplit(data: seq<byte>, sizes: seq<int>, widths: seq<Width>, big: bool)
    requires |sizes| == |widths| > 0 && Tables(data, sizes, widths, big).Ok?
    ensures var n := |sizes| - 1;
            && Tables(data, sizes[..n], widths[..n], big).Ok?
            && var front := Tables(data, sizes[..n], widths[..n], big).value;
               && ReadItems(front.1, sizes[n], widths[n], big).Ok?
               && var last := ReadItems(front.1, sizes[n], widths[n], big).value;
                  Tables(data, sizes, widths, big).value == (front.0 + [last.0], last.1)
  {
  }

  lemma {:induction false} TablesEncoded(cols: seq<seq<nat>>, sizes: seq<int>, widths: seq<Width>, big: bool, rest: seq<byte>)
    requires |sizes| == |widths| && Shaped(cols, sizes, widths)
    ensures Tables(EncodeTables(cols, widths, big) + rest, sizes, widths, big) == Ok((cols, rest))
    decreases |cols|
  {
    if |cols| > 0 {
      var n := |cols| - 1;
      assert Fits(cols[n], widths[n]) && |cols[n]| == sizes[n];
      assert Shaped(cols[..n], sizes[..n], widths[..n]);
      var front := EncodeTables(cols[..n], widths[..n], big);
      var last := EncodeItems(cols[n], widths[n], big);
      assert EncodeTables(cols, widths, big) == front + last;
      Chunks.AppendAssoc(front, last, rest);
      TablesEncoded(cols[..n], sizes[..n], widths[..n], big, last + rest);
      ReadItemsEncoded(cols[n], widths[n], big, rest);
      TablesSnoc(front + (last + rest), sizes, widths, big, cols[..n], last + rest, cols[n], rest);
      SnocParts(cols);
    } else {
      assert EncodeTables(cols, widths, big) + rest == rest;
    }
  }

  lemma {:induction false} TablesSource(data: seq<byte>, sizes: seq<int>, widths: seq<Width>, big: bool,
                                        cols: seq<seq<nat>>, rest: seq<byte>)
    requires |sizes| == |widths|
    requires Tables(data, sizes, widths, big) == Ok((cols, rest))
    ensures Shaped(cols, sizes, widths)
    ensures EncodeTables(cols, widths, big) + rest == data
    decreases |sizes|
  {
    if |sizes| > 0 {
      var n := |sizes| - 1;
      TablesSplit(data, sizes, widths, big);
      var front := Tables(data, sizes[..n], widths[..n], big).value;
      var last := ReadItems(front.1, sizes[n], widths[n], big).value;
      assert cols == front.0 + [last.0] && rest == last.1;
      TablesSource(data, sizes[..n], widths[..n], big, front.0, front.1);
      ReadItemsSource(front.1, sizes[n], widths[n], big, last.0, rest);
      SnocPrefix(front.0, last.0);
      ShapedSnoc(front.0, last.0, sizes, widths);
      assert EncodeTables(cols, widths, big) == EncodeTables(front.0, widths[..n], big) + EncodeItems(last.0, widths[n], big);
      Chunks.AppendAssoc(EncodeTables(front.0, widths[..n], big), EncodeItems(last.0, widths[n], big), rest);
    } else {
      assert EncodeTables(cols, widths, big) + rest == rest;
    }
  }

  /** Decoding the file written for a well-formed table gives that table back. */
  lemma DecodeEncoded(t: Table, big: bool)
    requires WellFormed(t)
    ensures Decode(Encode(t, big), big) == Ok(Some(t))
  {
    var head := EncodeItems(t.header, I, big);
    var body := EncodeTables(Columns(t), TableWidths, big);
    var data := Encode(t, big);
    ReadItemsEncoded(t.header, I, big, []);
    assert data[..0x1c] == head + [];
    assert data[0x1c..] == body + [];
    TablesEncoded(Columns(t), TableSizes(t.header), TableWidths, big, []);
  }

  /** A successful decode consumed the whole file, and the file is exactly
      what the decoded table encodes to. */
  lemma DecodeSource(data: seq<byte>, big: bool, t: Table)
    requires Decode(data, big) == Ok(Some(t))
    ensures WellFormed(t)
    ensures Encode(t, big) == data
  {
    DecodeParts(data, big, t);
    PartsSource(data, big, t);
  }

  /** What a successful decode read: the header from the first 0x1c bytes
      and the seven tables from the rest, with nothing left over. */
  lemma DecodeParts(data: seq<byte>, big: bool, t: Table)
    requires Decode(data, big) == Ok(Some(t))
    ensures |data| >= 0x1c && |t.header| == 7 && t.header[0] == 1
    ensures ReadItems(data[..0x1c], 7, I, big) == Ok((t.header, []))
    ensures Tables(data[0x1c..], TableSizes(t.header), TableWidths, big) == Ok((Columns(t), []))
  {
    var tables := Tables(data[0x1c..], TableSizes(t.header), TableWidths, big).value;
    ColumnsRebuilt(t.header, tables.0);
  }

  lemma PartsSource(data: seq<byte>, big: bool, t: Table)
    requires |data| >= 0x1c && |t.header| == 7
    requires ReadItems(data[..0x1c], 7, I, big) == Ok((t.header, []))
    requires Tables(data[0x1c..], TableSizes(t.header), TableWidths, big) == Ok((Columns(t), []))
    requires t.header[0] == 1
    ensures WellFormed(t)
    ensures Encode(t, big) == data
  {
    ReadItemsSource(data[..0x1c], 7, I, big, t.header, []);
    TablesSource(data[0x1c..], TableSizes(t.header), TableWidths, big, Columns(t), []);
    assert EncodeItems(t.header, I, big) == data[..0x1c] by {
      assert EncodeItems(t.header, I, big) + [] == EncodeItems(t.header, I, big);
    }
    assert EncodeTables(Columns(t), TableWidths, big) == data[0x1c..] by {
      assert EncodeTables(Columns(t), TableWidths, big) + [] == EncodeTables(Columns(t), TableWidths, big);
    }
    assert data[..0x1c] + data[0x1c..] == data;
  }

  lemma ColumnsRebuilt(h: seq<nat>, ts: seq<seq<nat>>)
    requires |ts| == 7
    ensures Columns(Table(h, ts[0], ts[1], ts[2], ts[3], ts[4], ts[5], ts[6])) == ts
  {
  }

  /** Empty data gives no table; data shorter than the header, or a header
      whose first word is not 1, is refused. */
  lemma DecodeRefuses(data: seq<byte>, big: bool)
    ensures |data| == 0 ==> Decode(data, big) == Ok(None)
    ensures 0 < |data| < 0x1c ==> Decode(data, big) == Fail(StructError)
    ensures |data| >= 0x1c && GetU32(data, big) != 1 ==> Decode(data, big) == Fail(AssertionError)
  {
    if |data| >= 0x1c {
      var h := ReadItems(data[..0x1c], 7, I, big);
      assert h.value.0[0] == ReadItem(data[..0x1c], I, big).value.0;
    }
  }

  // ---------------------------------------------------------------------
  // LayerPacker.unpack
  // ---------------------------------------------------------------------

  /** Python's s[i] on a list: a negative index counts from the end. */
  function At(s: seq<nat>, i: int): (r: Result<nat>)
    ensures r.Ok? <==> -|s| <= i < |s|
    ensures r.Fail? ==> r.failure == IndexError
  {
    if 0 <= i < |s| then Ok(s[i])
    else if -|s| <= i < 0 then Ok(s[|s| + i])
    else Fail(IndexError)
  }

  /** Python's s[lo:hi] for bounds that are not negative: both are clamped
      to the length, and a slice that would run backwards is empty. */
  function Slice(s: seq<nat>, lo: nat, hi: nat): (r: seq<nat>)
    ensures lo <= hi <= |s| ==> r == s[lo..hi]
    ensures hi <= lo || |s| <= lo ==> r == []
  {
    var a := if lo < |s| then lo else |s|;
    var b := if hi < |s| then hi else |s|;
    if a <= b then s[a..b] else []
  }

  /** The three numbers unpack derives from the header. */
  function V10(t: Table): int
    requires |t.header| == 7
  {
    32 - t.header[5] as int
  }

  function Vc(t: Table): int
    requires |t.header| == 7
  {
    9 - t.header[5] as int
  }

  function V14(t: Table): int
    requires |t.header| == 7
  {
    34 - t.header[6] as int - t.header[5]
  }

  /** The decoder's variables between two iterations of its loop: the word
      the input bytes are shifted into, the bit position within it, the
      32-bit window at that position (shiftedword), the input not yet read
      and the output so far. */
  datatype Machine = Machine(dataword: nat, bit: int, window: nat, data: seq<byte>, out: seq<nat>)

  /** The bytes of s as one number, most significant first. */
  function BigEndian(s: seq<byte>): nat
  {
    if |s| == 0 then 0 else s[0] * Pow2(8 * (|s| - 1)) + BigEndian(s[1..])
  }

  /** sum([byte << (24 - 8*i) for i, byte in enumerate(head)]), from index i on. */
  function WordSum(head: seq<byte>, i: nat): nat
    requires i <= |head| <= 4
    decreases |head| - i
  {
    if i == |head| then 0 else head[i] * Pow2(24 - 8 * i) + WordSum(head, i + 1)
  }

  function Head(data: seq<byte>): (head: seq<byte>)
    ensures |head| <= 4
  {
    if |data| < 4 then data else data[..4]
  }

  /** The variables before the first iteration: the first four bytes in the
      word (fewer on short input), the window equal to the word, bit 0. */
  function Start(data: seq<byte>): Machine
  {
    var w := WordSum(Head(data), 0);
    Machine(w, 0, w, if |data| < 4 then [] else data[4..], [])
  }

  /** The refill loop: for each of k bytes the word is shifted left by 8 and
      the next input byte added; when the input is used up the loop stops
      right after the shift. */
  function Refill(dataword: nat, data: seq<byte>, k: nat): (nat, seq<byte>)
    decreases k
  {
    if k == 0 then (dataword, data)
    else if |data| == 0 then (dataword * 0x100, data)
    else Refill(dataword * 0x100 + data[0], data[1..], k - 1)
  }

  /** The end of an iteration: `consumed` bits are added to the bit position;
      once it reaches V14 and is past the first byte, the whole bytes are
      refilled and the position drops below 8; then the window is recomputed
      as (dataword << bit) & 0xffffffff, which raises ValueError when bit is
      negative. */
  function Advance(t: Table, m: Machine, consumed: int): (r: Result<Machine>)
    requires |t.header| == 7
  {
    var bit := m.bit + consumed;
    var refill := bit >= V14(t) && bit > 7;
    var f := if refill then Refill(m.dataword, m.data, bit / 8) else (m.dataword, m.data);
    var newbit := if refill then bit - 8 * (bit / 8) else bit;
    if newbit < 0 then Fail(ValueError)
    else Ok(Machine(f.0, newbit, (f.0 * Pow2(newbit)) % 0x1_0000_0000, f.1, m.out))
  }

  /** `while shiftedword >= table120[n]: n += 1`, started at n: the first
      index whose threshold exceeds the window, after thresholds that do not. */
  function Search(t120: seq<nat>, window: nat, n: int): (r: Result<int>)
    ensures r.Ok? ==> n <= r.value && At(t120, r.value).Ok? && window < At(t120, r.value).value
    ensures r.Ok? ==> forall j :: n <= j < r.value ==> At(t120, j).Ok? && At(t120, j).value <= window
    ensures r.Fail? ==> r.failure == IndexError
    decreases |t120| - n
  {
    var thr := At(t120, n);
    if thr.Fail? then Fail(IndexError)
    else if window >= thr.value then Search(t120, window, n + 1)
    else Ok(n)
  }

  /** Where the threshold search of an escape code starts. */
  function EscapeStart(t: Table, sym: nat): int
    requires |t.header| == 7
  {
    if sym == 0xfe then t.header[3] else Vc(t)
  }

  /** The escape branch up to the decoded value: the threshold search from
      header[3] (symbol 0xfe) or Vc, the step back to the last threshold
      passed, the offset into table128 through table124, and the number of
      bits the code takes. */
  function Escape(t: Table, window: nat, sym: nat): (r: Result<(nat, int)>)
    requires |t.header| == 7
  {
    var stop := Search(t.table120, window, EscapeStart(t, sym));
    if stop.Fail? then Fail(stop.failure)
    else
      var k := stop.value - 1;
      var thr := At(t.table120, k);
      if thr.Fail? then Fail(thr.failure)
      else if V10(t) - k < 0 then Fail(ValueError)
      else
        var off := At(t.table124, k);
        if off.Fail? then Fail(off.failure)
        else
          var v := At(t.table128, (window - thr.value) / Pow2(V10(t) - k) + off.value);
          if v.Fail? then Fail(v.failure)
          else Ok((v.value, k + t.header[5]))
  }

  /** What an escaped value does to the output: None for 0x100, which ends
      decoding; a byte value is appended; a larger value v appends the run
      table130[table12c[v - 0x101]:table12c[v - 0x100]]. */
  function Emit(t: Table, v: nat, out: seq<nat>): (r: Result<Option<seq<nat>>>)
    ensures r == Ok(None) <==> v == 0x100
    ensures v <= 0xff ==> r == Ok(Some(out + [v]))
    ensures r.Ok? && r.value.Some? ==> out <= r.value.value
    ensures r.Fail? <==> v > 0x100 && v - 0x100 >= |t.table12c|
  {
    if v <= 0xff then Ok(Some(out + [v % 0x100]))
    else if v == 0x100 then Ok(None)
    else
      var lo := At(t.table12c, v - 0x101);
      var hi := At(t.table12c, v - 0x101 + 1);
      if lo.Fail? then Fail(lo.failure)
      else if hi.Fail? then Fail(hi.failure)
      else Ok(Some(out + Slice(t.table130, lo.value, hi.value)))
  }

  datatype Next = Go(m: Machine) | Stop(out: seq<nat>)

  function Resume(a: Result<Machine>): Result<Next>
  {
    if a.Fail? then Fail(a.failure) else Ok(Go(a.value))
  }

  /** One iteration of the decoding loop. */
  function Step(t: Table, m: Machine): (r: Result<Next>)
    requires |t.header| == 7
  {
    var sym := At(t.table1, m.window / 0x100_0000);
    if sym.Fail? then Fail(sym.failure)
    else if sym.value < 0xfe then
      var v := At(t.table128, sym.value);
      if v.Fail? then Fail(v.failure)
      else
        var n := At(t.table11c, sym.value);
        if n.Fail? then Fail(n.failure)
        else Resume(Advance(t, m.(out := m.out + [v.value]), n.value))
    else
      var e := Escape(t, m.window, sym.value);
      if e.Fail? then Fail(e.failure)
      else
        var o := Emit(t, e.value.0, m.out);
        if o.Fail? then Fail(o.failure)
        else if o.value.None? then Ok(Stop(m.out))
        else Resume(Advance(t, m.(out := o.value.value), e.value.1))
  }

  /** ''.join(map(chr, out)): chr raises ValueError for a value above 255. */
  function ToBytes(out: seq<nat>): (r: Result<seq<byte>>)
    ensures r.Ok? <==> forall i :: 0 <= i < |out| ==> out[i] < 0x100
    ensures r.Ok? ==> r.value == out
    ensures r.Fail? ==> r.failure == ValueError
  {
    if |out| == 0 then Ok([])
    else if out[0] >= 0x100 then Fail(ValueError)
    else
      var rest := ToBytes(out[1..]);
      if rest.Fail? then rest
      else
        assert forall i :: 1 <= i < |out| ==> out[i] == out[1..][i - 1];
        Ok([out[0]] + rest.value)
  }

  /** What unpack ends with, or that its loop was still running when the
      bound on iterations ran out. */
  datatype Outcome = Decoded(text: seq<byte>) | OutOfFuel

  /** An iteration only adds to the output: a new state keeps the output
      so far in front, and stopping hands it over unchanged. */
  lemma StepGrows(t: Table, m: Machine)
    requires |t.header| == 7
    ensures Step(t, m).Ok? && Step(t, m).value.Go? ==> m.out <= Step(t, m).value.m.out
    ensures Step(t, m).Ok? && Step(t, m).value.Stop? ==> Step(t, m).value.out == m.out
  {
    var sym := At(t.table1, m.window / 0x100_0000);
    if sym.Ok? && sym.value >= 0xfe {
      var e := Escape(t, m.window, sym.value);
      if e.Ok? {
        var o := Emit(t, e.value.0, m.out);
      }
    }
  }

  /** The `while True` loop, for at most fuel iterations. The text it
      decodes starts with the output the state already holds. */
  function Run(t: Table, m: Machine, fuel: nat): (r: Result<Outcome>)
    requires |t.header| == 7
    ensures r.Ok? && r.value.Decoded? ==>
      |m.out| <= |r.value.text| && forall i :: 0 <= i < |m.out| ==> r.value.text[i] == m.out[i]
    decreases fuel
  {
    if fuel == 0 then Ok(OutOfFuel)
    else
      var s := Step(t, m);
      StepGrows(t, m);
      if s.Fail? then Fail(s.failure)
      else if s.value.Stop? then
        var text := ToBytes(s.value.out);
        if text.Fail? then Fail(text.failure) else Ok(Decoded(text.value))
      else Run(t, s.value.m, fuel - 1)
  }

  /** More iterations do not change an answer reached within fewer. */
  lemma {:induction false} RunMoreFuel(t: Table, m: Machine, fuel: nat, more: nat)
    requires |t.header| == 7 && fuel <= more
    requires Run(t, m, fuel).Fail? || Run(t, m, fuel).value.Decoded?
    ensures Run(t, m, more) == Run(t, m, fuel)
    decreases fuel
  {
    if fuel > 0 {
      var s := Step(t, m);
      if s.Ok? && s.value.Go? {
        RunMoreFuel(t, s.value.m, fuel - 1, more - 1);
        assert Run(t, m, more) == Run(t, s.value.m, more - 1);
      }
    }
  }

  /** LayerPacker(tabledata).unpack(data): the table is read little-endian;
      a packer built from empty table data has no header, so unpack raises
      AttributeError. */
  function Unpack(tabledata: seq<byte>, data: seq<byte>, fuel: nat): (r: Result<Outcome>)
    ensures |tabledata| == 0 ==> r == Fail(AttributeError)
    ensures 0 < |tabledata| < 0x1c ==> r == Fail(StructError)
    ensures |tabledata| >= 0x1c && GetU32(tabledata, false) != 1 ==> r == Fail(AssertionError)
    ensures r.Ok? ==> Decode(tabledata, false).Ok? && Decode(tabledata, false).value.Some?
  {
    DecodeRefuses(tabledata, false);
    var table := Decode(tabledata, false);
    if table.Fail? then Fail(table.failure)
    else if table.value.None? then Fail(AttributeError)
    else Run(table.value.value, Start(data), fuel)
  }

  /** The threshold search loop of the escape branch. */
  method SearchLoop(t120: seq<nat>, window: nat, start: int) returns (r: Result<int>)
    ensures r == Search(t120, window, start)
  {
    var n := start;
    while true
      invariant Search(t120, window, n) == Search(t120, window, start)
      decreases |t120| - n
    {
      var thr := At(t120, n);
      if thr.Fail? {
        return Fail(IndexError);
      }
      if window < thr.value {
        return Ok(n);
      }
      n := n + 1;
    }
  }

  /** The refill loop, popping bytes off the front of the input. */
  method RefillLoop(dataword: nat, data: seq<byte>, k: nat) returns (word: nat, rest: seq<byte>)
    ensures (word, rest) == Refill(dataword, data, k)
  {
    word, rest := dataword, data;
    for i := 0 to k
      invariant Refill(word, rest, k - i) == Refill(dataword, data, k)
    {
      word := word * 0x100;
      if |rest| == 0 {
        return;
      }
      word := word + rest[0];
      rest := rest[1..];
    }
  }

  /** Lines 84-99 of the escape branch: the threshold search, the step back
      and the lookups through table124 and table128. */
  method EscapeCode(t: Table, window: nat, sym: nat) returns (r: Result<(nat, int)>)
    requires |t.header| == 7
    ensures r == Escape(t, window, sym)
  {
    var nconsumed := if sym == 0xfe then t.header[3] else Vc(t);
    var stop := SearchLoop(t.table120, window, nconsumed);
    if stop.Fail? {
      return Fail(stop.failure);
    }
    nconsumed := stop.value - 1;
    var thr := At(t.table120, nconsumed);
    if thr.Fail? {
      return Fail(thr.failure);
    }
    if V10(t) - nconsumed < 0 {
      return Fail(ValueError);
    }
    var tmp := (window - thr.value) / Pow2(V10(t) - nconsumed);
    var off := At(t.table124, nconsumed);
    if off.Fail? {
      return Fail(off.failure);
    }
    tmp := tmp + off.value;
    var v := At(t.table128, tmp);
    if v.Fail? {
      return Fail(v.failure);
    }
    return Ok((v.value, nconsumed + t.header[5]));
  }

  /** Lines 113-125: the bit count, the refill and the new window. */
  method AdvanceBits(t: Table, m: Machine, nconsumed: int) returns (r: Result<Machine>)
    requires |t.header| == 7
    ensures r == Advance(t, m, nconsumed)
  {
    var dataword, data := m.dataword, m.data;
    var bit := m.bit + nconsumed;
    if bit >= V14(t) && bit > 7 {
      dataword, data := RefillLoop(dataword, data, bit / 8);
      bit := bit - 8 * (bit / 8);
    }
    if bit < 0 {
      return Fail(ValueError);
    }
    var shiftedword := (dataword * Pow2(bit)) % 0x1_0000_0000;
    return Ok(Machine(dataword, bit, shiftedword, data, m.out));
  }

  /** LayerPacker.unpack on a decoded table, for at most fuel iterations of
      its loop. */
  method UnpackLoop(t: Table, input: seq<byte>, fuel: nat) returns (r: Result<Outcome>)
    requires |t.header| == 7
    ensures r == Run(t, Start(input), fuel)
  {
    var m := Start(input);
    var left := fuel;
    while left > 0
      invariant Run(t, m, left) == Run(t, Start(input), fuel)
    {
      var next := Iterate(t, m);
      if next.Fail? {
        return Fail(next.failure);
      }
      if next.value.Stop? {
        var text := ToBytes(next.value.out);
        if text.Fail? {
          return Fail(text.failure);
        }
        return Ok(Decoded(text.value));
      }
      m := next.value.m;
      left := left - 1;
    }
    return Ok(OutOfFuel);
  }

  /** The body of the `while True` loop as statements: one iteration. */
  method Iterate(t: Table, m: Machine) returns (r: Result<Next>)
    requires |t.header| == 7
    ensures r == Step(t, m)
  {
    var sym := At(t.table1, m.window / 0x100_0000);
    if sym.Fail? {
      return Fail(sym.failure);
    }
    var next: Result<Machine>;
    if sym.value < 0xfe {
      var v := At(t.table128, sym.value);
      if v.Fail? {
        return Fail(v.failure);
      }
      var n := At(t.table11c, sym.value);
      if n.Fail? {
        return Fail(n.failure);
      }
      next := AdvanceBits(t, m.(out := m.out + [v.value]), n.value);
    } else {
      var e := EscapeCode(t, m.window, sym.value);
      if e.Fail? {
        return Fail(e.failure);
      }
      var o := Emit(t, e.value.0, m.out);
      if o.Fail? {
        return Fail(o.failure);
      }
      if o.value.None? {
        return Ok(Stop(m.out));
      }
      next := AdvanceBits(t, m.(out := o.value.value), e.value.1);
    }
    r := Resume(next);
  }

  // Properties of the decoding loop.

  predicate Ascending(s: seq<nat>)
  {
    forall i, j :: 0 <= i <= j < |s| ==> s[i] <= s[j]
  }

  /** With thresholds in ascending order, the search from a start that is
      not negative ends at the first threshold above the window: every
      later one is above it too, and the one before it is not. */
  lemma SearchFirstAbove(t120: seq<nat>, window: nat, start: nat)
    requires Ascending(t120)
    requires Search(t120, window, start).Ok?
    ensures var s := Search(t120, window, start).value;
            && s < |t120| && window < t120[s]
            && (start < s ==> t120[s - 1] <= window)
            && forall j :: s <= j < |t120| ==> window < t120[j]
  {
    var s := Search(t120, window, start).value;
    if start < s {
      assert At(t120, s - 1).Ok?;
    }
  }

  /** Bytes read one after the other: the word of a + b is the word of a
      shifted past b, plus the word of b. */
  lemma {:induction false} BigEndianAppend(a: seq<byte>, b: seq<byte>)
    ensures BigEndian(a + b) == BigEndian(a) * Pow2(8 * |b|) + BigEndian(b)
    decreases |a|
  {
    if |a| == 0 {
      assert a + b == b;
    } else {
      assert (a + b)[1..] == a[1..] + b;
      BigEndianAppend(a[1..], b);
      PowAdd(8 * (|a| - 1), 8 * |b|);
      Regroup(a[0], Pow2(8 * (|a| - 1)), Pow2(8 * |b|), BigEndian(a[1..]), BigEndian(b));
    }
  }

  lemma Regroup(a: nat, p: nat, q: nat, x: nat, y: nat)
    ensures a * (p * q) + (x * q + y) == (a * p + x) * q + y
  {
    MulAssoc(a, p, q);
  }

  /** Shifting in a byte: (w << 8 | b) << 8p + r == w << 8(p+1) + (b << 8p + r). */
  lemma ShiftIn(w: nat, b: nat, x: nat, r: nat)
    ensures (w * 0x100 + b) * Pow2(x) + r == w * Pow2(8 + x) + (b * Pow2(x) + r)
  {
    PowAdd(8, x);
    assert Pow2(8) == 0x100 by { Pow2Values(); }
    MulAssoc(w, 0x100, Pow2(x));
  }

  /** A refill of k bytes from input that holds them shifts exactly those k
      bytes, in order, into the word and leaves the rest of the input. */
  lemma {:induction false} RefillReads(dataword: nat, data: seq<byte>, k: nat)
    requires k <= |data|
    ensures Refill(dataword, data, k) == (dataword * Pow2(8 * k) + BigEndian(data[..k]), data[k..])
    decreases k
  {
    if k == 0 {
      assert data[..0] == [];
    } else {
      RefillReads(dataword * 0x100 + data[0], data[1..], k - 1);
      assert data[1..][..k - 1] == data[..k][1..];
      assert data[1..][k - 1..] == data[k..];
      ShiftIn(dataword, data[0], 8 * (k - 1), BigEndian(data[..k][1..]));
    }
  }

  /** A refill of more bytes than the input holds shifts them all in and
      then shifts the word once more by a byte, and the input is used up. */
  lemma {:induction false} RefillRunsOut(dataword: nat, data: seq<byte>, k: nat)
    requires |data| < k
    ensures Refill(dataword, data, k) == ((dataword * Pow2(8 * |data|) + BigEndian(data)) * 0x100, [])
    decreases k
  {
    if |data| > 0 {
      RefillRunsOut(dataword * 0x100 + data[0], data[1..], k - 1);
      ShiftIn(dataword, data[0], 8 * (|data| - 1), BigEndian(data[1..]));
    }
  }

  /** The window is the low 32 bits of the word shifted left by the bit
      position. */
  predicate WindowAt(m: Machine)
  {
    m.bit >= 0 && m.window == (m.dataword * Pow2(m.bit)) % 0x1_0000_0000
  }

  /** The input does not run out while the bits of one code are refilled. */
  predicate Supplied(t: Table, m: Machine, consumed: int)
    requires |t.header| == 7
  {
    var bit := m.bit + consumed;
    bit >= V14(t) && bit > 7 ==> bit / 8 <= |m.data|
  }

  /** The position of the window in the input stream, in bits, counted from
      the end of the input. */
  function Position(m: Machine): int
  {
    m.bit - 8 * |m.data|
  }

  /** The end of an iteration keeps the output, leaves the window equal to
      the low 32 bits of the shifted word, and either refills and drops the
      bit position below 8 or only advances it; while the input lasts the
      window moves by exactly the bits consumed. */
  lemma AdvanceEffect(t: Table, m: Machine, consumed: int)
    requires |t.header| == 7
    requires Advance(t, m, consumed).Ok?
    ensures var m2 := Advance(t, m, consumed).value;
            && m2.out == m.out
            && WindowAt(m2)
            && (Supplied(t, m, consumed) ==> Position(m2) == Position(m) + consumed)
            && (m.bit + consumed >= V14(t) && m.bit + consumed > 7 ==>
                  0 <= m2.bit < 8 && m2.bit == (m.bit + consumed) % 8)
            && (!(m.bit + consumed >= V14(t) && m.bit + consumed > 7) ==>
                  m2.bit == m.bit + consumed && m2.dataword == m.dataword && m2.data == m.data)
  {
    var bit := m.bit + consumed;
    if bit >= V14(t) && bit > 7 && bit / 8 <= |m.data| {
      RefillReads(m.dataword, m.data, bit / 8);
    }
  }

  /** With ascending thresholds and a search that starts at a valid index,
      an escape code falls in bucket k: the last threshold passed, or the
      last element of table120 (Python's index -1) when the window is below
      the first threshold searched. The code takes k + header[5] bits. */
  lemma EscapeBucket(t: Table, window: nat, sym: nat)
    requires |t.header| == 7
    requires Ascending(t.table120) && EscapeStart(t, sym) >= 0
    requires Escape(t, window, sym).Ok?
    ensures var k := Escape(t, window, sym).value.1 - t.header[5];
            && -1 <= k && k + 1 < |t.table120| && window < t.table120[k + 1]
            && (EscapeStart(t, sym) <= k ==> t.table120[k] <= window)
            && forall j :: k < j < |t.table120| ==> window < t.table120[j]
  {
    SearchFirstAbove(t.table120, window, EscapeStart(t, sym));
  }

  /** The word of the first four bytes, with a short input's bytes at the
      top of the word. */
  lemma {:induction false} WordSumWord(head: seq<byte>, i: nat)
    requires i <= |head| <= 4
    ensures WordSum(head, i) == BigEndian(head[i..]) * Pow2(8 * (4 - |head|))
    decreases |head| - i
  {
    if i < |head| {
      WordSumWord(head, i + 1);
      assert head[i..][1..] == head[i + 1..];
      PowAdd(8 * (|head| - i - 1), 8 * (4 - |head|));
      Regroup(head[i], Pow2(8 * (|head| - i - 1)), Pow2(8 * (4 - |head|)), BigEndian(head[i + 1..]), 0);
    }
  }

  /** A word of n bytes is below 2^(8n). */
  lemma {:induction false} BigEndianBound(s: seq<byte>)
    ensures BigEndian(s) < Pow2(8 * |s|)
    decreases |s|
  {
    if |s| > 0 {
      BigEndianBound(s[1..]);
      PowAdd(8, 8 * (|s| - 1));
      assert Pow2(8) == 0x100 by { Pow2Values(); }
      TopByte(s[0], Pow2(8 * (|s| - 1)), BigEndian(s[1..]));
    }
  }

  lemma TopByte(b: byte, p: nat, r: nat)
    requires r < p
    ensures b * p + r < 0x100 * p
  {
    MulLe(b as int + 1, 0x100, p);
  }

  /** The first word fits in 32 bits. */
  lemma WordSumBound(head: seq<byte>)
    requires |head| <= 4
    ensures WordSum(head, 0) < 0x1_0000_0000
  {
    WordSumWord(head, 0);
    assert head[0..] == head;
    BigEndianBound(head);
    PowAdd(8 * |head|, 8 * (4 - |head|));
    assert Pow2(32) == 0x1_0000_0000 by { Pow2Values(); }
    MulLe(BigEndian(head) + 1, Pow2(8 * |head|), Pow2(8 * (4 - |head|)));
  }

  /** The decoder starts at the top of a window that equals its word, which
      fits in 32 bits; from four bytes on, the word is those four bytes. */
  lemma StartWindow(input: seq<byte>)
    ensures WindowAt(Start(input)) && Start(input).window < 0x1_0000_0000
    ensures Start(input).out == [] && Start(input).bit == 0
    ensures |input| >= 4 ==> Start(input).dataword == BigEndian(input[..4])
  {
    var head := Head(input);
    WordSumBound(head);
    if |input| >= 4 {
      WordSumWord(head, 0);
      assert head[0..] == head;
    }
  }

  /** The word holds exactly the input bytes read so far, most significant
      first, and the unread input is the rest of the input. */
  predicate Streamed(input: seq<byte>, m: Machine)
  {
    |m.data| <= |input| && m.data == input[|input| - |m.data|..]
    && m.dataword == BigEndian(input[..|input| - |m.data|])
  }

  lemma StartStreamed(input: seq<byte>)
    requires |input| >= 4
    ensures Streamed(input, Start(input))
  {
    StartWindow(input);
  }

  /** While the input lasts, the end of an iteration keeps the word equal to
      the bytes read so far. */
  lemma AdvanceStreamed(t: Table, m: Machine, consumed: int, input: seq<byte>)
    requires |t.header| == 7
    requires Streamed(input, m) && Supplied(t, m, consumed)
    requires Advance(t, m, consumed).Ok?
    ensures Streamed(input, Advance(t, m, consumed).value)
  {
    var bit := m.bit + consumed;
    if bit >= V14(t) && bit > 7 {
      RefillStreamed(input, |input| - |m.data|, bit / 8);
    }
  }

  /** Refilling k bytes after the first c reads the first c + k bytes. */
  lemma RefillStreamed(input: seq<byte>, c: nat, k: nat)
    requires c + k <= |input|
    ensures Refill(BigEndian(input[..c]), input[c..], k) == (BigEndian(input[..c + k]), input[c + k..])
  {
    RefillReads(BigEndian(input[..c]), input[c..], k);
    assert input[..c + k] == input[..c] + input[c..][..k];
    BigEndianAppend(input[..c], input[c..][..k]);
    assert input[c..][k..] == input[c + k..];
  }

  /** A literal symbol appends its table128 value to the output and moves
      the window on by its table11c bit count. */
  lemma LiteralStep(t: Table, m: Machine, sym: nat)
    requires |t.header| == 7
    requires At(t.table1, m.window / 0x100_0000) == Ok(sym) && sym < 0xfe
    requires Step(t, m).Ok?
    ensures sym < |t.table128| && sym < |t.table11c|
    ensures Step(t, m).value.Go?
    ensures var m2 := Step(t, m).value.m;
            && m2.out == m.out + [t.table128[sym]]
            && WindowAt(m2)
            && (Supplied(t, m, t.table11c[sym]) ==> Position(m2) == Position(m) + t.table11c[sym])
  {
    AdvanceEffect(t, m.(out := m.out + [t.table128[sym]]), t.table11c[sym]);
  }

  /** An escape symbol stops decoding exactly when its value is 0x100, with
      the output so far; any other value appends a byte or a run of table130
      and moves the window on by the code's bit count. */
  lemma EscapeStep(t: Table, m: Machine, sym: nat)
    requires |t.header| == 7
    requires At(t.table1, m.window / 0x100_0000) == Ok(sym) && sym >= 0xfe
    requires Step(t, m).Ok?
    ensures Escape(t, m.window, sym).Ok?
    ensures var (v, n) := Escape(t, m.window, sym).value;
            && (Step(t, m).value.Stop? <==> v == 0x100)
            && (Step(t, m).value.Stop? ==> Step(t, m).value.out == m.out)
            && (Step(t, m).value.Go? ==>
                  var m2 := Step(t, m).value.m;
                  && m.out <= m2.out
                  && (v <= 0xff ==> m2.out == m.out + [v])
                  && (v > 0x100 ==>
                        v - 0x100 < |t.table12c|
                        && m2.out == m.out + Slice(t.table130, t.table12c[v - 0x101], t.table12c[v - 0x100]))
                  && WindowAt(m2)
                  && (Supplied(t, m, n) ==> Position(m2) == Position(m) + n))
  {
    var (v, n) := Escape(t, m.window, sym).value;
    var o := Emit(t, v, m.out);
    if o.value.Some? {
      AdvanceEffect(t, m.(out := o.value.value), n);
    }
  }
}
