/** `LayerStyle` of magellan/Layer.py: how a layer is displayed. Each of
    five detail levels has a zoom range in which the layer is visible, one
    in which its labels are, and one in which the base map is hidden; a
    color and a drawing style follow. A style is read from a line of the
    map's configuration (name, file name, three integers, the 30 range
    bounds, color, style) and written back by `inistr`. */
module LayerStyles {
  import opened Wrappers
  import opened Arith
  import opened PyStr

  const BwColors: seq<string> := ["BLACK", "WHITE", "DARK_GRAY", "LIGHT_GRAY", "GRAY"]
  const Colors: seq<string> := BwColors + ["CYAN", "RED", "ORANGE", "BLUE", "GREEN", "PAIL_GREEN", "PAIL_YELLOW",
                                           "YELLOW", "DARK_RED", "MAGENTA", "BROWN", "DARK_BLUE"]

  const LineStyles: seq<string> :=
    ["US_INTERSTATE_HW_LINE", "US_STATE_HW_LINE", "US_STREET_LINE", "US_RAIL_ROAD",
     "SINGLE_LINE", "US_STREET_LINE", "MSOLID_LINE", "MDOT_LINE", "MDASH_LINE",
     "THICK_LINE", "TRAIL_LINE", "THICK_DASH_LINE", "US_FEDERAL_HW_LINE",
     "US_MAJOR_RD_LINE", "DOT_LINE", "STREAM_LINE", "RIVER_LINE", "DASH_LINE",
     "US_UNPAVED_RD_LINE", "US_RR_LINE", "MCOMBO_LINE", "MDEPTH_LINE"]
  const PointStyles: seq<string> :=
    ["NOTHING_POINT", "SMALL_CITIES",
     "MEDIUM_CITIES", "MAJOR_CITIES", "LARGE_CITIES", "AIRPORTS", "TRAIN_STATION",
     "BUS_STATION", "FERRY_TERM", "SMALL9", "B11ARIAL", "ARIAL11", "LIGHT_HOUSE",
     "MCOMBO_POINT", "MSOUNDING_POINT", "MANNOT_POINT", "FIXED_NAV_AID", "FLOAT_BUOY"]
  const FillStyles: seq<string> :=
    ["SOLID_FILL", "BOX_PATT", "DOT_FILL", "DASH_FILL", "NO_FILL", "SLANT_PATT", "HEX_PATT", "MCOMBO_AREA",
     "MDEPTH_AREA"]
  const Styles: seq<string> := LineStyles + PointStyles + FillStyles

  /** A zoom range (min, max) of one detail level. */
  datatype Span = Span(lo: int, hi: int)

  datatype LayerStyle = LayerStyle(visiblerange: seq<Span>, labelrange: seq<Span>, hidebasemaprange: seq<Span>,
                                   color: string, style: string)
  {
    /** Each of the three ranges has one entry per detail level. */
    predicate Levels5()
    {
      |visiblerange| == 5 && |labelrange| == 5 && |hidebasemaprange| == 5
    }
  }

  const Zeros: seq<Span> := [Span(0, 0), Span(0, 0), Span(0, 0), Span(0, 0), Span(0, 0)]

  /** The class attributes a style starts from. */
  const Default: LayerStyle := LayerStyle(Zeros, Zeros, Zeros, "BLACK", "US_INTERSTATE_HW_LINE")

  // ------------------------------------------------------------ tokens

  /** The characters `\s` matches: space, tab, newline, carriage return,
      vertical tab and form feed. */
  predicate IsSpace(c: char)
  {
    c == ' ' || c == '\t' || c == '\n' || c == '\r' || c as int == 11 || c as int == 12
  }

  predicate NoSpace(w: string)
  {
    forall i :: 0 <= i < |w| ==> !IsSpace(w[i])
  }

  /** A token that splitting gives back whole: not empty, no whitespace. */
  predicate Word(w: string)
  {
    |w| > 0 && NoSpace(w)
  }

  /** The string after its leading run of whitespace. */
  function SkipSpace(s: string): (r: string)
    ensures |r| <= |s|
    ensures |s| > 0 && IsSpace(s[0]) ==> |r| < |s|
  {
    if |s| > 0 && IsSpace(s[0]) then SkipSpace(s[1..]) else s
  }

  /** `re.split('\s+', s)`: the pieces between maximal runs of
      whitespace; a run at either end gives an empty piece there. */
  function SplitWs(s: string): (r: seq<string>)
    ensures |r| >= 1
    ensures forall i :: 0 <= i < |r| ==> NoSpace(r[i])
    decreases |s|
  {
    if |s| == 0 then [""]
    else if IsSpace(s[0]) then [""] + SplitWs(SkipSpace(s))
    else
      var t := SplitWs(s[1..]);
      [[s[0]] + t[0]] + t[1..]
  }

  /** A piece without whitespace runs into the first piece of what
      follows it. */
  lemma {:induction false} SplitWsWord(w: string, tail: string)
    requires NoSpace(w)
    ensures SplitWs(w + tail) == [w + SplitWs(tail)[0]] + SplitWs(tail)[1..]
    decreases |w|
  {
    if |w| > 0 {
      assert (w + tail)[1..] == w[1..] + tail;
      SplitWsWord(w[1..], tail);
      assert [w[0]] + (w[1..] + SplitWs(tail)[0]) == w + SplitWs(tail)[0];
    } else {
      var t := SplitWs(tail);
      assert w + tail == tail;
      assert w + t[0] == t[0];
      assert [t[0]] + t[1..] == t;
    }
  }

  /** One space before a word ends a piece. */
  lemma SplitWsSpace(t: string)
    requires |t| == 0 || !IsSpace(t[0])
    ensures SplitWs([' '] + t) == [""] + SplitWs(t)
  {
    var s := [' '] + t;
    assert s[1..] == t;
    assert SkipSpace(t) == t;
    assert SkipSpace(s) == t;
  }

  /** A join of words starts with the first word. */
  lemma JoinStart(xs: seq<string>)
    requires |xs| >= 1 && |xs[0]| > 0
    ensures |Join(xs, ' ')| > 0 && Join(xs, ' ')[0] == xs[0][0]
  {
  }

  /** Splitting words joined by single spaces gives back the words. */
  lemma {:induction false} SplitWsJoin(xs: seq<string>)
    requires |xs| >= 1 && forall i :: 0 <= i < |xs| ==> Word(xs[i])
    ensures SplitWs(Join(xs, ' ')) == xs
  {
    if |xs| == 1 {
      SplitWsWord(xs[0], []);
      assert xs[0] + [] == xs[0];
    } else {
      SplitWsJoin(xs[1..]);
      var rest := Join(xs[1..], ' ');
      JoinStart(xs[1..]);
      SplitWsSpace(rest);
      SplitWsWord(xs[0], [' '] + rest);
      assert ([""] + xs[1..])[1..] == xs[1..];
      assert xs[0] + "" == xs[0];
      assert xs[0] + [' '] + rest == xs[0] + ([' '] + rest);
      assert [xs[0]] + xs[1..] == xs;
    }
  }

  /** Joining two non-empty lists joins their joins. */
  lemma {:induction false} JoinAppend(xs: seq<string>, ys: seq<string>)
    requires |xs| >= 1 && |ys| >= 1
    ensures Join(xs + ys, ' ') == Join(xs, ' ') + [' '] + Join(ys, ' ')
    decreases |xs|
  {
    assert (xs + ys)[0] == xs[0];
    if |xs| == 1 {
      assert (xs + ys)[1..] == ys;
    } else {
      assert (xs + ys)[1..] == xs[1..] + ys;
      JoinAppend(xs[1..], ys);
    }
  }

  /** `str(n)` is a word. */
  lemma IntStrWord(n: int)
    ensures Word(IntStr(n))
  {
    var s := IntStr(n);
    forall i | 0 <= i < |s|
      ensures !IsSpace(s[i])
    {
      if n < 0 {
        if i > 0 {
          assert s[i] == NatStr(-n)[i - 1];
        }
      }
    }
  }

  /** `name in names`, one name at a time. */
  predicate Among(name: string, names: seq<string>)
  {
    |names| > 0 && (names[0] == name || Among(name, names[1..]))
  }

  lemma {:induction false} AmongIsIn(name: string, names: seq<string>)
    ensures Among(name, names) <==> name in names
  {
    if |names| > 0 {
      AmongIsIn(name, names[1..]);
      assert names == [names[0]] + names[1..];
    }
  }

  /** Every name of a list of words is a word. */
  lemma {:induction false} AmongWords(names: seq<string>)
    requires forall i :: 0 <= i < |names| ==> Word(names[i])
    ensures forall c :: Among(c, names) ==> Word(c)
  {
    if |names| > 0 {
      AmongWords(names[1..]);
    }
  }

  /** The color and style names are words. */
  lemma NamesAreWords()
    ensures forall c :: Among(c, Colors) ==> Word(c)
    ensures forall c :: Among(c, Styles) ==> Word(c)
  {
    ColorWordsLow();
    ColorWordsHigh();
    AmongWords(Colors);
    LineWordsA();
    LineWordsB();
    LineWordsC();
    LineWordsD();
    PointWordsA();
    PointWordsB();
    PointWordsC();
    FillWords();
    forall i | 0 <= i < |Styles|
      ensures Word(Styles[i])
    {
      if i < 22 {
        assert Styles[i] == LineStyles[i];
      } else if i < 40 {
        assert Styles[i] == PointStyles[i - 22];
      } else {
        assert Styles[i] == FillStyles[i - 40];
      }
    }
    AmongWords(Styles);
  }

  lemma ColorWordsLow()
    ensures forall i :: 0 <= i < 9 ==> Word(Colors[i])
  {
  }

  lemma ColorWordsHigh()
    ensures forall i :: 9 <= i < 17 ==> Word(Colors[i])
  {
  }

  lemma LineWordsA()
    ensures forall i :: 0 <= i < 6 ==> Word(LineStyles[i])
  {
  }

  lemma LineWordsB()
    ensures forall i :: 6 <= i < 12 ==> Word(LineStyles[i])
  {
  }

  lemma LineWordsC()
    ensures forall i :: 12 <= i < 17 ==> Word(LineStyles[i])
  {
  }

  lemma LineWordsD()
    ensures forall i :: 17 <= i < 22 ==> Word(LineStyles[i])
  {
  }

  lemma PointWordsA()
    ensures forall i :: 0 <= i < 6 ==> Word(PointStyles[i])
  {
  }

  lemma PointWordsB()
    ensures forall i :: 6 <= i < 12 ==> Word(PointStyles[i])
  {
  }

  lemma PointWordsC()
    ensures forall i :: 12 <= i < 18 ==> Word(PointStyles[i])
  {
  }

  lemma FillWords()
    ensures forall i :: 0 <= i < 9 ==> Word(FillStyles[i])
  {
  }

  // ----------------------------------------------------------- reading

  /** `int` of the first n tokens, in order: IndexError at the first one
      missing, ValueError at the first that is not an integer. */
  function ReadInts(fs: seq<string>, n: nat): (r: Result<seq<int>>)
    ensures r.Ok? <==> n <= |fs| && forall i :: 0 <= i < n ==> ParseInt(fs[i]).Ok?
    ensures r.Ok? ==> |r.value| == n && forall i :: 0 <= i < n ==> ParseInt(fs[i]) == Ok(r.value[i])
    ensures r.Fail? ==> r.failure == IndexError || r.failure == ValueError
  {
    if n == 0 then Ok([])
    else if |fs| == 0 then Fail(IndexError)
    else
      var x :- ParseInt(fs[0]);
      var xs :- ReadInts(fs[1..], n - 1);
      Ok([x] + xs)
  }

  /** Range k (visible, label, hidden base map) of each detail level,
      from the 30 bounds: six per level, two per range. */
  function Spans(v: seq<int>, k: nat): (r: seq<Span>)
    requires |v| == 30 && k < 3
    ensures |r| == 5
  {
    seq(5, z requires 0 <= z < 5 => Span(v[6 * z + 2 * k], v[6 * z + 2 * k + 1]))
  }

  /** The fields after name and file name: three integers, the bounds,
      the color and the style, each checked in the order the source
      reads them. */
  function ParseFields(fields: seq<string>): (r: Result<LayerStyle>)
    requires |fields| > 2
    ensures r.Ok? ==> r.value.Levels5() && Among(r.value.color, Colors) && Among(r.value.style, Styles)
  {
    if |fields| < 5 || !HeadInts(fields) then Fail(ValueError)
    else
      var v :- ReadInts(fields[5..], 30);
      Named(v, fields[35..])
  }

  /** Fields 2, 3 and 4 are integers. */
  predicate HeadInts(fields: seq<string>)
    requires |fields| >= 5
  {
    forall i :: 2 <= i < 5 ==> ParseInt(fields[i]).Ok?
  }

  /** The color and the style after the bounds, checked in that order. */
  function Named(v: seq<int>, rest: seq<string>): (r: Result<LayerStyle>)
    requires |v| == 30
    ensures r.Ok? <==> |rest| >= 2 && Among(rest[0], Colors) && Among(rest[1], Styles)
    ensures r.Ok? ==> r.value == LayerStyle(Spans(v, 0), Spans(v, 1), Spans(v, 2), rest[0], rest[1])
  {
    if |rest| == 0 then Fail(IndexError)
    else if !Among(rest[0], Colors) then Fail(ValueError)
    else if |rest| == 1 then Fail(IndexError)
    else if !Among(rest[1], Styles) then Fail(ValueError)
    else Ok(LayerStyle(Spans(v, 0), Spans(v, 1), Spans(v, 2), rest[0], rest[1]))
  }

  /** `LayerStyle(layerinfostr, style, color)`. A configuration line is
      split at whitespace; one with only a name and a file name keeps the
      defaults. Without a line, a style and a color that are given and
      not empty replace the defaults, unchecked. */
  function NewLayerStyle(layerinfostr: Option<string>, style: Option<string>, color: Option<string>): (r: Result<LayerStyle>)
    ensures r.Ok? ==> r.value.Levels5()
    ensures layerinfostr.Some? && |layerinfostr.value| > 0 && |SplitWs(layerinfostr.value)| > 2 && r.Ok? ==>
      Among(r.value.color, Colors) && Among(r.value.style, Styles)
    ensures layerinfostr.Some? && |layerinfostr.value| > 0 && |SplitWs(layerinfostr.value)| < 2 ==> r == Fail(IndexError)
    ensures !(layerinfostr.Some? && |layerinfostr.value| > 0) ==> r.Ok?
  {
    if layerinfostr.Some? && |layerinfostr.value| > 0 then
      var fields := SplitWs(layerinfostr.value);
      if |fields| < 2 then Fail(IndexError)
      else if |fields| == 2 then Ok(Default)
      else ParseFields(fields)
    else
      Ok(Default.(style := if style.Some? && |style.value| > 0 then style.value else Default.style,
                  color := if color.Some? && |color.value| > 0 then color.value else Default.color))
  }

  // ----------------------------------------------------------- writing

  /** Bound j (0..5) of detail level z: visible, label and hidden base
      map range, lower bound first. */
  function Bound(st: LayerStyle, z: nat, j: nat): int
    requires st.Levels5() && z < 5 && j < 6
  {
    var s := if j / 2 == 0 then st.visiblerange[z] else if j / 2 == 1 then st.labelrange[z] else st.hidebasemaprange[z];
    if j % 2 == 0 then s.lo else s.hi
  }

  /** The 30 bounds in the order `inistr` writes them, level by level. */
  function IniInts(st: LayerStyle): (r: seq<int>)
    requires st.Levels5()
    ensures |r| == 30
  {
    seq(30, i requires 0 <= i < 30 => Bound(st, i / 6, i % 6))
  }

  /** The fields `inistr` joins: the bounds, the color and the style. */
  function IniFields(st: LayerStyle): (r: seq<string>)
    requires st.Levels5()
    ensures |r| == 32
  {
    seq(30, i requires 0 <= i < 30 => IntStr(IniInts(st)[i])) + [st.color, st.style]
  }

  /** `inistr`. */
  function IniStr(st: LayerStyle): string
    requires st.Levels5()
  {
    Join(IniFields(st), ' ')
  }

  // -------------------------------------------------------- properties

  /** Taking range k of the bounds `inistr` writes gives range k back. */
  lemma SpansOfIni(st: LayerStyle)
    requires st.Levels5()
    ensures Spans(IniInts(st), 0) == st.visiblerange
    ensures Spans(IniInts(st), 1) == st.labelrange
    ensures Spans(IniInts(st), 2) == st.hidebasemaprange
  {
    var v := IniInts(st);
    forall z, j | 0 <= z < 5 && 0 <= j < 6
      ensures v[6 * z + j] == Bound(st, z, j)
    {
      DivAdd(z, j, 6);
      assert 6 * z + j == z * 6 + j;
    }
    assert forall z :: 0 <= z < 5 ==> Spans(v, 0)[z] == Span(Bound(st, z, 0), Bound(st, z, 1));
    assert forall z :: 0 <= z < 5 ==> Spans(v, 1)[z] == Span(Bound(st, z, 2), Bound(st, z, 3));
    assert forall z :: 0 <= z < 5 ==> Spans(v, 2)[z] == Span(Bound(st, z, 4), Bound(st, z, 5));
  }

  /** The fields of `inistr` are words, so splitting gives them back. */
  lemma IniFieldsWords(st: LayerStyle)
    requires st.Levels5() && Among(st.color, Colors) && Among(st.style, Styles)
    ensures forall i :: 0 <= i < 32 ==> Word(IniFields(st)[i])
  {
    NamesAreWords();
    forall i | 0 <= i < 30
      ensures Word(IniFields(st)[i])
    {
      IntStrWord(IniInts(st)[i]);
    }
  }

  /** The bounds `inistr` writes read back as integers. */
  lemma ReadIniInts(st: LayerStyle)
    requires st.Levels5()
    ensures ReadInts(IniFields(st), 30) == Ok(IniInts(st))
  {
    var fs := IniFields(st);
    forall i | 0 <= i < 30
      ensures ParseInt(fs[i]) == Ok(IniInts(st)[i])
    {
      ParseIntStr(IniInts(st)[i]);
    }
    var r := ReadInts(fs, 30);
    assert r.Ok?;
    assert forall i :: 0 <= i < 30 ==> r.value[i] == IniInts(st)[i];
    assert r.value == IniInts(st);
  }

  /** Once the three integers and the bounds read, what remains to
      check is the color and the style. */
  lemma ParseFieldsSteps(fields: seq<string>, v: seq<int>)
    requires |fields| >= 5 && HeadInts(fields) && ReadInts(fields[5..], 30) == Ok(v)
    ensures ParseFields(fields) == Named(v, fields[35..])
  {
  }

  /** Five leading fields, three of them integers, followed by the
      fields of `inistr`, give the style back. */
  lemma ParseFieldsOfIni(st: LayerStyle, head: seq<string>)
    requires st.Levels5() && Among(st.color, Colors) && Among(st.style, Styles)
    requires |head| == 5 && forall i :: 2 <= i < 5 ==> ParseInt(head[i]).Ok?
    ensures ParseFields(head + IniFields(st)) == Ok(st)
  {
    var fields := head + IniFields(st);
    assert forall i :: 2 <= i < 5 ==> fields[i] == head[i];
    assert HeadInts(fields);
    assert fields[5..] == IniFields(st);
    ReadIniInts(st);
    ParseFieldsSteps(fields, IniInts(st));
    var rest := fields[35..];
    assert rest == [st.color, st.style];
    SpansOfIni(st);
    assert Named(IniInts(st), rest) == Ok(st);
  }

  /** Five leading words followed by the fields of `inistr` of a style
      with known names are all words. */
  lemma LineFieldsWords(st: LayerStyle, head: seq<string>)
    requires st.Levels5() && Among(st.color, Colors) && Among(st.style, Styles)
    requires |head| == 5 && forall i :: 0 <= i < 5 ==> Word(head[i])
    ensures forall i :: 0 <= i < |head + IniFields(st)| ==> Word((head + IniFields(st))[i])
  {
    var all := head + IniFields(st);
    IniFieldsWords(st);
    forall i | 5 <= i < 37
      ensures Word(all[i])
    {
      assert all[i] == IniFields(st)[i - 5];
    }
  }

  /** Two lists of words joined by single spaces, one after the other,
      split back into their concatenation. */
  lemma SplitLine(xs: seq<string>, ys: seq<string>)
    requires |xs| >= 1 && |ys| >= 1 && forall i :: 0 <= i < |xs + ys| ==> Word((xs + ys)[i])
    ensures SplitWs(Join(xs, ' ') + " " + Join(ys, ' ')) == xs + ys
  {
    SplitWsJoin(xs + ys);
    JoinAppend(xs, ys);
  }

  /** A name, a file name and three integers make five leading words
      whose last three read as integers. */
  lemma LeadingFields(name: string, filename: string, a: int, b: int, g: int)
    requires Word(name) && Word(filename)
    ensures var head := [name, filename, IntStr(a), IntStr(b), IntStr(g)];
      (forall i :: 0 <= i < 5 ==> Word(head[i])) && forall i :: 2 <= i < 5 ==> ParseInt(head[i]).Ok?
  {
    IntStrWord(a);
    IntStrWord(b);
    IntStrWord(g);
    ParseIntStr(a);
    ParseIntStr(b);
    ParseIntStr(g);
  }

  /** A line of more than two fields reads as its fields do. */
  lemma ParseLine(line: string, fields: seq<string>, st: LayerStyle)
    requires |line| > 0 && SplitWs(line) == fields && |fields| > 2 && ParseFields(fields) == Ok(st)
    ensures NewLayerStyle(Some(line), None, None) == Ok(st)
  {
    var o := Some(line);
    assert o.Some? && |o.value| > 0;
    assert NewLayerStyle(o, None, None) == ParseFields(SplitWs(o.value));
  }

  /** A configuration line of five leading words, the first two a name
      and a file name and the other three integers, followed by the
      `inistr` of a style with a known color and style, reads back as
      that style. */
  lemma ParseIniStr(st: LayerStyle, name: string, filename: string, a: int, b: int, g: int)
    requires st.Levels5() && Among(st.color, Colors) && Among(st.style, Styles)
    requires Word(name) && Word(filename)
    ensures NewLayerStyle(Some(Join([name, filename, IntStr(a), IntStr(b), IntStr(g)], ' ') + " " + IniStr(st)), None, None)
            == Ok(st)
  {
    var head := [name, filename, IntStr(a), IntStr(b), IntStr(g)];
    LeadingFields(name, filename, a, b, g);
    LineFieldsWords(st, head);
    SplitLine(head, IniFields(st));
    ParseFieldsOfIni(st, head);
    var line := Join(head, ' ') + " " + IniStr(st);
    ParseLine(line, head + IniFields(st), st);
  }

  /** What a successful `ParseFields` read: 37 fields or more, the
      bounds from field 5 on, the color and the style after them. */
  lemma ParsedFields(fields: seq<string>, st: LayerStyle)
    requires |fields| > 2 && ParseFields(fields) == Ok(st)
    ensures |fields| >= 37 && ReadInts(fields[5..], 30).Ok?
    ensures st == LayerStyle(Spans(ReadInts(fields[5..], 30).value, 0), Spans(ReadInts(fields[5..], 30).value, 1),
                             Spans(ReadInts(fields[5..], 30).value, 2), fields[35], fields[36])
  {
  }

  /** Writing the spans read from 30 bounds gives the bounds back. */
  lemma IniIntsOfSpans(v: seq<int>, color: string, style: string)
    requires |v| == 30
    ensures IniInts(LayerStyle(Spans(v, 0), Spans(v, 1), Spans(v, 2), color, style)) == v
  {
    var st := LayerStyle(Spans(v, 0), Spans(v, 1), Spans(v, 2), color, style);
    forall i | 0 <= i < 30
      ensures IniInts(st)[i] == v[i]
    {
      var z, j := i / 6, i % 6;
      assert i == 6 * z + j;
      assert Spans(v, j / 2)[z] == Span(v[6 * z + 2 * (j / 2)], v[6 * z + 2 * (j / 2) + 1]);
    }
  }

  /** A style read from a configuration line: `inistr` writes the
      integers the line gave, in the line's order, and its color and
      style. */
  lemma IniStrOfParsed(s: string, st: LayerStyle)
    requires |s| > 0 && |SplitWs(s)| > 2 && NewLayerStyle(Some(s), None, None) == Ok(st)
    ensures |SplitWs(s)| >= 37
    ensures forall i :: 0 <= i < 30 ==> ParseInt(SplitWs(s)[5 + i]) == Ok(IniInts(st)[i])
    ensures IniFields(st)[30..] == SplitWs(s)[35..37]
  {
    var fields := SplitWs(s);
    assert ParseFields(fields) == Ok(st);
    ParsedFields(fields, st);
    var v := ReadInts(fields[5..], 30).value;
    IniIntsOfSpans(v, fields[35], fields[36]);
    assert IniInts(st) == v;
    forall i | 0 <= i < 30
      ensures ParseInt(fields[5 + i]) == Ok(IniInts(st)[i])
    {
      assert fields[5..][i] == fields[5 + i];
    }
    assert IniFields(st)[30..] == [fields[35], fields[36]];
  }

  /** A line whose color is not one of the colors is refused with
      ValueError once its bounds read; likewise a style not among the
      styles. */
  lemma UnknownNamesRefused(s: string)
    requires |s| > 0 && |SplitWs(s)| >= 37
    requires forall i :: 2 <= i < 35 ==> ParseInt(SplitWs(s)[i]).Ok?
    ensures !Among(SplitWs(s)[35], Colors) ==> NewLayerStyle(Some(s), None, None) == Fail(ValueError)
    ensures Among(SplitWs(s)[35], Colors) && !Among(SplitWs(s)[36], Styles) ==> NewLayerStyle(Some(s), None, None) == Fail(ValueError)
    ensures Among(SplitWs(s)[35], Colors) && Among(SplitWs(s)[36], Styles) ==> NewLayerStyle(Some(s), None, None).Ok?
  {
    var fields := SplitWs(s);
    assert forall i :: 0 <= i < 30 ==> fields[5..][i] == fields[5 + i];
    assert ReadInts(fields[5..], 30).Ok?;
  }
}
