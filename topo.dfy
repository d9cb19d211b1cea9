/** magellan/Topo.py: the `BLXSet` that describes how a set of BLX
    topographic files is drawn, its validating setters, the file naming of
    `addblxfile` and the configuration section `writeToIni` writes and
    `setupFromIni` reads. A configuration section is the ordered list of
    its (option, value) items. */
module Topo {
  import opened Wrappers
  import opened PyStr
  import opened Chunks
  import LS = LayerStyles
  import opened IniFile

  /** `zoomlevels` of Layer.py: the scales a map can be drawn at. */
  const ZoomLevels: seq<int> := [50, 120, 250, 500, 1000, 2000, 4000, 8000, 16000, 30000,
                                 60000, 120000, 250000, 500000, 1000000, 2000000, 4000000]

  /** The label angle: one number for every level, or a list. */
  datatype Angle = Scalar(angle: int) | PerLevel(angles: seq<int>)

  /** The configuration a `BLXSet` holds. */
  datatype BlxValues = BlxValues(
    blxfiles: seq<string>,
    lowerscaleindex: int,
    contourlevels: seq<int>,
    feet: seq<int>,
    labelangle: Angle,
    screenMesh: int,
    labelMode: int,
    autoStep: int,
    memory: seq<int>)

  /** The `labelangle` property: a single angle is repeated once per
      contour level, a list is given as it is. */
  function LabelAngles(v: BlxValues): (r: seq<int>)
    ensures v.labelangle.Scalar? ==>
      |r| == |v.contourlevels| && forall i :: 0 <= i < |r| ==> r[i] == v.labelangle.angle
    ensures v.labelangle.PerLevel? ==> r == v.labelangle.angles
  {
    match v.labelangle
    case Scalar(a) => Repeat(a, |v.contourlevels|)
    case PerLevel(l) => l
  }

  /** numpy's `round()` of a / d: the nearest integer, ties to the even
      one. */
  function RoundHalfEven(a: int, d: nat): (r: int)
    requires d > 0
    ensures 2 * (a - r * d) <= d && 2 * (r * d - a) <= d
    ensures 2 * (a - r * d) == d || 2 * (r * d - a) == d ==> r % 2 == 0
  {
    var q, m := a / d, a % d;
    assert a - q * d == m;
    assert a - (q + 1) * d == m - d;
    if 2 * m < d then q else if 2 * m > d then q + 1 else if q % 2 == 0 then q else q + 1
  }

  /** A contour level in metres, in feet: `round(m * 3.2808399)`. */
  function Feet(m: int): int
  {
    RoundHalfEven(m * 32808399, 10000000)
  }

  /** `'%02d' % n` for a count. */
  function Pad2(n: nat): (r: string)
    ensures AllDigits(r) && |r| >= 2
  {
    if n < 10 then "0" + NatStr(n) else NatStr(n)
  }

  /** The name `addblxfile` gives file number n: 'NNt0.blx', or '.xlb'
      for a big-endian map. */
  function BlxName(n: nat, bigendian: bool): string
  {
    Pad2(n) + "t0" + (if bigendian then ".xlb" else ".blx")
  }

  lemma {:induction false} DigitsLeadingZero(s: string)
    requires forall i :: 0 <= i < |s| ==> IsDigit(s[i])
    ensures DigitsValue("0" + s) == DigitsValue(s)
    decreases |s|
  {
    var t := "0" + s;
    if |s| > 0 {
      assert t[..|t| - 1] == "0" + s[..|s| - 1];
      DigitsLeadingZero(s[..|s| - 1]);
    }
  }

  /** The number in a name reads back as the file's position, so two
      files of a set never get the same name. */
  lemma BlxNameNumber(n: nat, bigendian: bool)
    ensures |BlxName(n, bigendian)| >= 6
    ensures ParseInt(BlxName(n, bigendian)[..|BlxName(n, bigendian)| - 6]) == Ok(n)
  {
    var p := Pad2(n);
    var name := BlxName(n, bigendian);
    assert name[..|name| - 6] == p;
    NatStrValue(n);
    if n < 10 {
      DigitsLeadingZero(NatStr(n));
    }
  }

  lemma BlxNamesDistinct(n: nat, m: nat, b: bool, c: bool)
    requires n != m
    ensures BlxName(n, b) != BlxName(m, c)
  {
    BlxNameNumber(n, b);
    BlxNameNumber(m, c);
  }

  // ------------------------------------------------------------ reading

  /** `cfg.get(section, key)`: the value of the option, or NoOptionError. */
  function Get(items: seq<Item>, key: string): (r: Result<string>)
    ensures r.Fail? ==> r == Fail(NoOptionError)
  {
    if |items| == 0 then Fail(NoOptionError)
    else if items[0].0 == key then Ok(items[0].1)
    else Get(items[1..], key)
  }

  /** `int(cfg.get(section, key))`. */
  function GetInt(items: seq<Item>, key: string): Result<int>
  {
    var s :- Get(items, key);
    ParseInt(s)
  }

  /** `map(int, words)`: the first word that is not a number raises. */
  function ParseInts(ws: seq<string>): (r: Result<seq<int>>)
    ensures r.Ok? ==> |r.value| == |ws|
  {
    if |ws| == 0 then Ok([])
    else
      var front :- ParseInts(ws[..|ws| - 1]);
      var x :- ParseInt(ws[|ws| - 1]);
      Ok(front + [x])
  }

  /** `nfiles, zoomlevels = map(int, ....split(' '))`: exactly two numbers. */
  function ReadCounts(items: seq<Item>): Result<(int, int)>
  {
    var s :- Get(items, "total_blx_scale");
    var ns :- ParseInts(Split(s, ' '));
    if |ns| != 2 then Fail(ValueError) else Ok((ns[0], ns[1]))
  }

  /** The files under the options "0" .. str(n - 1). */
  function ReadFiles(items: seq<Item>, n: int): (r: Result<seq<string>>)
    ensures r.Ok? ==> |r.value| == if n < 0 then 0 else n
    decreases n
  {
    if n <= 0 then Ok([])
    else
      var front :- ReadFiles(items, n - 1);
      var f :- Get(items, NatStr(n - 1));
      Ok(front + [f])
  }

  /** The lower scale index through its setter. */
  function ReadLowerScaleIndex(items: seq<Item>): (r: Result<int>)
    ensures r.Ok? ==> 1 <= r.value <= |ZoomLevels|
  {
    var v :- GetInt(items, "lower_scale_index");
    if v < 1 || v > |ZoomLevels| then Fail(ValueError) else Ok(v)
  }

  /** `int(params[k])`. */
  function Token(params: seq<string>, k: nat): Result<int>
  {
    if k < |params| then ParseInt(params[k]) else Fail(IndexError)
  }

  /** The levels 0 .. n - 1 of the params words: contour level, feet and
      label angle of each. */
  function ReadLevels(params: seq<string>, n: int): (r: Result<(seq<int>, seq<int>, seq<int>)>)
    ensures r.Ok? ==> |r.value.0| == |r.value.1| == |r.value.2| == if n < 0 then 0 else n
    decreases n
  {
    if n <= 0 then Ok(([], [], []))
    else
      var front :- ReadLevels(params, n - 1);
      var k := 3 * (n - 1);
      var c :- Token(params, k);
      var f :- Token(params, k + 1);
      var a :- Token(params, k + 2);
      Ok((front.0 + [c], front.1 + [f], front.2 + [a]))
  }

  function ReadParams(items: seq<Item>, n: int): Result<(seq<int>, seq<int>, seq<int>)>
  {
    var p :- Get(items, "params");
    ReadLevels(LS.SplitWs(p), n)
  }

  /** screen_mesh, label_mode, auto_step and memory, in that order. */
  function ReadTail(items: seq<Item>): Result<(int, int, int, seq<int>)>
  {
    var mesh :- GetInt(items, "screen_mesh");
    var mode :- GetInt(items, "label_mode");
    var step :- GetInt(items, "auto_step");
    var mem :- Get(items, "memory");
    var memory :- ParseInts(LS.SplitWs(mem));
    Ok((mesh, mode, step, memory))
  }

  /** `setupFromIni`: everything read in the source's order; the label
      angles are read as a list. */
  function Parse(items: seq<Item>): (r: Result<BlxValues>)
    ensures r.Ok? ==> 1 <= r.value.lowerscaleindex <= |ZoomLevels| && r.value.labelangle.PerLevel?
    ensures r.Ok? ==> |r.value.contourlevels| == |r.value.feet| == |r.value.labelangle.angles|
  {
    var counts :- ReadCounts(items);
    var files :- ReadFiles(items, counts.0);
    var lsi :- ReadLowerScaleIndex(items);
    ParseDrawing(items, counts.1, files, lsi)
  }

  /** The rest of `setupFromIni`, after the files and the lower scale
      index: the levels of the params option, then the drawing options. */
  function ParseDrawing(items: seq<Item>, nlevels: int, files: seq<string>, lsi: int): (r: Result<BlxValues>)
    ensures r.Ok? ==> r.value.blxfiles == files && r.value.lowerscaleindex == lsi
  {
    var levels :- ReadParams(items, nlevels);
    var tail :- ReadTail(items);
    Ok(BlxValues(files, lsi, levels.0, levels.1, PerLevel(levels.2), tail.0, tail.1, tail.2, tail.3))
  }

  // ------------------------------------------------------------ writing

  /** `'%s'` of a feet value: a float array from the contour setter
      prints with ".0". */
  function FeetStr(f: int, floats: bool): string
  {
    if floats then IntStr(f) + ".0" else IntStr(f)
  }

  /** `sep.join(xs)` with a string separator. */
  function JoinStr(xs: seq<string>, sep: string): string
  {
    if |xs| == 0 then "" else if |xs| == 1 then xs[0] else xs[0] + sep + JoinStr(xs[1..], sep)
  }

  function Min3(a: nat, b: nat, c: nat): nat
  {
    if a <= b && a <= c then a else if b <= c then b else c
  }

  /** The '%s %s %s' triples of `zip(contourlevels, feet, labelangle)`,
      as many as the shortest of the three. */
  function Triples(cl: seq<int>, ft: seq<int>, an: seq<int>, floats: bool): (r: seq<string>)
    ensures |r| == Min3(|cl|, |ft|, |an|)
    ensures forall i :: 0 <= i < |r| ==> r[i] == Triple(cl[i], ft[i], an[i], floats)
  {
    var n := Min3(|cl|, |ft|, |an|);
    seq(n, i requires 0 <= i < n => Triple(cl[i], ft[i], an[i], floats))
  }

  /** '%s %s %s' of one level. */
  function Triple(c: int, f: int, a: int, floats: bool): string
  {
    IntStr(c) + " " + FeetStr(f, floats) + " " + IntStr(a)
  }

  function IntStrs(memory: seq<int>): (r: seq<string>)
    ensures |r| == |memory| && forall i :: 0 <= i < |r| ==> r[i] == IntStr(memory[i])
  {
    seq(|memory|, i requires 0 <= i < |memory| => IntStr(memory[i]))
  }

  /** The options "0", "1", ... naming the files. */
  function FileItems(files: seq<string>): (r: seq<Item>)
    ensures |r| == |files| && forall i :: 0 <= i < |files| ==> r[i] == (NatStr(i), files[i])
  {
    seq(|files|, i requires 0 <= i < |files| => (NatStr(i), files[i]))
  }

  /** The option '%s %s %s' triples joined by two spaces. */
  function Params(v: BlxValues, floats: bool): string
  {
    JoinStr(Triples(v.contourlevels, v.feet, LabelAngles(v), floats), "  ")
  }

  /** The options between the files and the drawing options. */
  function HeadItems(nfiles: int, nlevels: int, lsi: int, params: string): seq<Item>
  {
    [("total_blx_scale", IntStr(nfiles) + " " + IntStr(nlevels)),
     ("lower_scale_index", IntStr(lsi)),
     ("params", params)]
  }

  /** The drawing options, last. */
  function TailItems(mesh: int, mode: int, step: int, memory: string): seq<Item>
  {
    [("screen_mesh", IntStr(mesh)),
     ("label_mode", IntStr(mode)),
     ("auto_step", IntStr(step)),
     ("memory", memory)]
  }

  /** The section `writeToIni` fills, with the feet printed as `'%s'`
      prints them. */
  function IniItemsAsWritten(v: BlxValues, floats: bool): seq<Item>
  {
    FileItems(v.blxfiles)
    + HeadItems(|v.blxfiles|, |v.contourlevels|, v.lowerscaleindex, Params(v, floats))
    + TailItems(v.screenMesh, v.labelMode, v.autoStep, Join(IntStrs(v.memory), ' '))
  }

  /** The section with the feet written as integers. */
  function IniItems(v: BlxValues): seq<Item>
  {
    IniItemsAsWritten(v, false)
  }

  // ------------------------------------------------------------ round trip

  /** A section `setupFromIni` can read back: a valid lower scale index,
      one feet value and one label angle per contour level, and at least
      one memory value (an empty list is written as "", which `int`
      refuses). */
  predicate Writable(v: BlxValues)
  {
    1 <= v.lowerscaleindex <= |ZoomLevels| && |v.feet| == |v.contourlevels|
    && |LabelAngles(v)| == |v.contourlevels| && |v.memory| >= 1
  }

  lemma {:induction false} GetSkip(front: seq<Item>, rest: seq<Item>, key: string)
    requires forall i :: 0 <= i < |front| ==> front[i].0 != key
    ensures Get(front + rest, key) == Get(rest, key)
    decreases |front|
  {
    if |front| > 0 {
      assert (front + rest)[1..] == front[1..] + rest;
      GetSkip(front[1..], rest, key);
    } else {
      assert front + rest == rest;
    }
  }

  /** An option whose name does not start with a digit is found past the
      file options. */
  lemma GetPastFiles(files: seq<string>, rest: seq<Item>, key: string)
    requires |key| > 0 && !IsDigit(key[0])
    ensures Get(FileItems(files) + rest, key) == Get(rest, key)
  {
    GetSkip(FileItems(files), rest, key);
  }

  /** ... and past the options before the drawing options. */
  lemma GetTail(files: seq<string>, a: int, b: int, lsi: int, params: string, tail: seq<Item>, key: string)
    requires |key| > 0 && !IsDigit(key[0])
    requires key != "total_blx_scale" && key != "lower_scale_index" && key != "params"
    ensures Get(FileItems(files) + HeadItems(a, b, lsi, params) + tail, key) == Get(tail, key)
  {
    var head := HeadItems(a, b, lsi, params);
    AppendAssoc(FileItems(files), head, tail);
    GetPastFiles(files, head + tail, key);
    forall i | 0 <= i < |head| ensures head[i].0 != key {
      if i == 0 {
        assert head[i].0 == "total_blx_scale";
      } else if i == 1 {
        assert head[i].0 == "lower_scale_index";
      } else {
        assert head[i].0 == "params";
      }
    }
    GetSkip(head, tail, key);
  }

  /** Option str(i) holds file i. */
  lemma GetFile(files: seq<string>, rest: seq<Item>, i: nat)
    requires i < |files|
    ensures Get(FileItems(files) + rest, NatStr(i)) == Ok(files[i])
  {
    var items := FileItems(files);
    forall j | 0 <= j < i ensures items[j].0 != NatStr(i) {
      NatStrValue(i);
      NatStrValue(j);
    }
    assert items == items[..i] + items[i..];
    assert items + rest == items[..i] + (items[i..] + rest);
    GetSkip(items[..i], items[i..] + rest, NatStr(i));
  }

  lemma {:induction false} ReadFilesBack(files: seq<string>, rest: seq<Item>, n: nat)
    requires n <= |files|
    ensures ReadFiles(FileItems(files) + rest, n) == Ok(files[..n])
  {
    if n > 0 {
      ReadFilesBack(files, rest, n - 1);
      GetFile(files, rest, n - 1);
      assert files[..n] == files[..n - 1] + [files[n - 1]];
    }
  }

  lemma {:induction false} ParseIntsBack(xs: seq<int>)
    ensures ParseInts(IntStrs(xs)) == Ok(xs)
  {
    if |xs| > 0 {
      var m := |xs| - 1;
      var ws := IntStrs(xs);
      IntStrsPrefix(xs, m);
      ParseIntsBack(xs[..m]);
      ParseIntStr(xs[m]);
      ParseIntsStep(ws, xs[..m], xs[m]);
      TakeSucc(xs, m);
      TakeAll(xs);
    }
  }

  lemma IntStrsPrefix(xs: seq<int>, m: nat)
    requires m <= |xs|
    ensures IntStrs(xs)[..m] == IntStrs(xs[..m])
  {
  }

  lemma ParseIntsStep(ws: seq<string>, front: seq<int>, x: int)
    requires |ws| > 0 && ParseInts(ws[..|ws| - 1]) == Ok(front) && ParseInt(ws[|ws| - 1]) == Ok(x)
    ensures ParseInts(ws) == Ok(front + [x])
  {
  }

  /** The two counts read back. */
  lemma CountsBack(a: int, b: int)
    ensures ParseInts(Split(IntStr(a) + " " + IntStr(b), ' ')) == Ok([a, b])
  {
    var xs := [IntStr(a), IntStr(b)];
    assert Join(xs, ' ') == IntStr(a) + " " + IntStr(b);
    SplitJoin(xs, ' ');
    assert IntStrs([a, b]) == xs;
    ParseIntsBack([a, b]);
  }

  // the words of the params option

  /** The words of the triples, level after level. */
  function Words(cs: seq<string>, fs: seq<string>, as_: seq<string>): seq<string>
    requires |cs| == |fs| == |as_|
  {
    if |cs| == 0 then []
    else [cs[0], fs[0], as_[0]] + Words(cs[1..], fs[1..], as_[1..])
  }

  lemma {:induction false} WordsAt(cs: seq<string>, fs: seq<string>, as_: seq<string>, i: nat)
    requires |cs| == |fs| == |as_| && i < |cs|
    ensures |Words(cs, fs, as_)| > 3 * i + 2
    ensures Words(cs, fs, as_)[3 * i] == cs[i]
    ensures Words(cs, fs, as_)[3 * i + 1] == fs[i]
    ensures Words(cs, fs, as_)[3 * i + 2] == as_[i]
  {
    var w, rest := Words(cs, fs, as_), Words(cs[1..], fs[1..], as_[1..]);
    assert w == [cs[0], fs[0], as_[0]] + rest;
    if i > 0 {
      WordsAt(cs[1..], fs[1..], as_[1..], i - 1);
      var k := 3 * (i - 1);
      assert 3 * i == k + 3;
      assert w[k + 3] == rest[k] && w[k + 4] == rest[k + 1] && w[k + 5] == rest[k + 2];
    }
  }

  predicate AllSpace(g: string)
  {
    |g| > 0 && forall i :: 0 <= i < |g| ==> LS.IsSpace(g[i])
  }

  lemma {:induction false} SkipGap(g: string, y: string)
    requires forall i :: 0 <= i < |g| ==> LS.IsSpace(g[i])
    requires |y| == 0 || !LS.IsSpace(y[0])
    ensures LS.SkipSpace(g + y) == y
    decreases |g|
  {
    if |g| > 0 {
      assert (g + y)[1..] == g[1..] + y;
      SkipGap(g[1..], y);
    } else {
      assert g + y == y;
    }
  }

  lemma {:induction false} SkipBeforeWord(a: string, t: string)
    requires |a| > 0 && !LS.IsSpace(a[|a| - 1])
    ensures LS.SkipSpace(a + t) == LS.SkipSpace(a) + t
    ensures |LS.SkipSpace(a)| > 0 && LS.SkipSpace(a)[|LS.SkipSpace(a)| - 1] == a[|a| - 1]
    decreases |a|
  {
    if LS.IsSpace(a[0]) {
      assert (a + t)[1..] == a[1..] + t;
      SkipBeforeWord(a[1..], t);
    }
  }

  lemma WordSplits(w: string)
    requires LS.Word(w)
    ensures LS.SplitWs(w) == [w]
  {
    LS.SplitWsWord(w, []);
    assert w + [] == w;
  }

  /** A run of whitespace between two pieces splits them apart. */
  lemma {:induction false} SplitWsGlue(x: string, g: string, y: string)
    requires |x| > 0 && !LS.IsSpace(x[|x| - 1]) && AllSpace(g)
    requires |y| == 0 || !LS.IsSpace(y[0])
    ensures LS.SplitWs(x + g + y) == LS.SplitWs(x) + LS.SplitWs(y)
    decreases |x|, 1
  {
    if LS.IsSpace(x[0]) {
      GlueAfterSpace(x, g, y);
    } else if |x| == 1 {
      GlueOne(x, g, y);
    } else {
      GlueCons(x, g, y);
    }
  }

  lemma {:induction false} GlueAfterSpace(x: string, g: string, y: string)
    requires |x| > 0 && !LS.IsSpace(x[|x| - 1]) && AllSpace(g)
    requires |y| == 0 || !LS.IsSpace(y[0])
    requires LS.IsSpace(x[0])
    ensures LS.SplitWs(x + g + y) == LS.SplitWs(x) + LS.SplitWs(y)
    decreases |x|, 0
  {
    var s := x + g + y;
    SkipBeforeWord(x, g + y);
    var x1 := LS.SkipSpace(x);
    SplitWsGlue(x1, g, y);
    assert s == x + (g + y);
    assert x1 + (g + y) == x1 + g + y;
    assert s[0] == x[0];
    assert LS.SplitWs(s) == [""] + LS.SplitWs(x1 + g + y);
    assert LS.SplitWs(x) == [""] + LS.SplitWs(x1);
  }

  lemma GlueOne(x: string, g: string, y: string)
    requires |x| == 1 && !LS.IsSpace(x[0]) && AllSpace(g)
    requires |y| == 0 || !LS.IsSpace(y[0])
    ensures LS.SplitWs(x + g + y) == LS.SplitWs(x) + LS.SplitWs(y)
  {
    SkipGap(g, y);
    var s := LS.SplitWs(g + y);
    assert s == [""] + LS.SplitWs(y);
    LS.SplitWsWord(x, g + y);
    assert x + g + y == x + (g + y);
    assert x + s[0] == x;
    WordSplits(x);
  }

  lemma {:induction false} GlueCons(x: string, g: string, y: string)
    requires |x| > 1 && !LS.IsSpace(x[|x| - 1]) && AllSpace(g)
    requires |y| == 0 || !LS.IsSpace(y[0])
    requires !LS.IsSpace(x[0])
    ensures LS.SplitWs(x + g + y) == LS.SplitWs(x) + LS.SplitWs(y)
    decreases |x|, 0
  {
    var c, x1 := x[0], x[1..];
    var rest := x1 + g + y;
    SplitWsGlue(x1, g, y);
    var t, u := LS.SplitWs(x1), LS.SplitWs(y);
    assert x == [c] + x1;
    AppendAssoc([c], x1, g);
    AppendAssoc([c], x1 + g, y);
    LS.SplitWsWord([c], rest);
    LS.SplitWsWord([c], x1);
    assert (t + u)[0] == t[0];
    assert (t + u)[1..] == t[1..] + u;
    AppendAssoc([[c] + t[0]], t[1..], u);
  }

  /** One triple splits into its three words. */
  lemma TripleSplits(a: string, b: string, c: string)
    requires LS.Word(a) && LS.Word(b) && LS.Word(c)
    ensures LS.SplitWs(a + " " + b + " " + c) == [a, b, c]
  {
    var xs := [a, b, c];
    assert xs[1..] == [b, c];
    assert Join(xs, ' ') == a + " " + b + " " + c;
    LS.SplitWsJoin(xs);
  }

  lemma FeetWord(f: int, floats: bool)
    ensures LS.Word(FeetStr(f, floats))
  {
    LS.IntStrWord(f);
    var s := FeetStr(f, floats);
    if floats {
      forall i | 0 <= i < |s| ensures !LS.IsSpace(s[i]) {
        if i < |IntStr(f)| {
          assert s[i] == IntStr(f)[i];
        }
      }
    }
  }

  function FeetStrs(ft: seq<int>, floats: bool): (r: seq<string>)
    ensures |r| == |ft| && forall i :: 0 <= i < |ft| ==> r[i] == FeetStr(ft[i], floats)
  {
    seq(|ft|, i requires 0 <= i < |ft| => FeetStr(ft[i], floats))
  }

  /** A string that neither starts nor ends with whitespace. */
  predicate Trimmed(t: string)
  {
    |t| > 0 && !LS.IsSpace(t[0]) && !LS.IsSpace(t[|t| - 1])
  }

  /** The pieces of each string, one string after the other. */
  function SplitEach(ts: seq<string>): seq<string>
  {
    if |ts| == 0 then [] else LS.SplitWs(ts[0]) + SplitEach(ts[1..])
  }

  /** Trimmed strings joined by two spaces split into the pieces of each. */
  lemma {:induction false} JoinGapSplit(ts: seq<string>)
    requires |ts| >= 1 && forall i :: 0 <= i < |ts| ==> Trimmed(ts[i])
    ensures LS.SplitWs(JoinStr(ts, "  ")) == SplitEach(ts)
  {
    if |ts| == 1 {
      assert SplitEach(ts[1..]) == [];
      assert LS.SplitWs(ts[0]) + [] == LS.SplitWs(ts[0]);
    } else {
      var rest := JoinStr(ts[1..], "  ");
      JoinGapSplit(ts[1..]);
      assert |ts[1..]| == 1 ==> rest == ts[1];
      assert rest[0] == ts[1][0];
      SplitWsGlue(ts[0], "  ", rest);
    }
  }

  /** One level's triple is trimmed and splits into its three words. */
  lemma TripleWords(c: int, f: int, a: int, floats: bool)
    ensures var t := Triple(c, f, a, floats);
      Trimmed(t) && LS.SplitWs(t) == [IntStr(c), FeetStr(f, floats), IntStr(a)]
  {
    LS.IntStrWord(c);
    LS.IntStrWord(a);
    FeetWord(f, floats);
    TripleSplits(IntStr(c), FeetStr(f, floats), IntStr(a));
  }

  lemma TriplesTrimmed(cl: seq<int>, ft: seq<int>, an: seq<int>, floats: bool)
    requires |cl| == |ft| == |an|
    ensures forall i :: 0 <= i < |cl| ==> Trimmed(Triples(cl, ft, an, floats)[i])
  {
    forall i | 0 <= i < |cl| ensures Trimmed(Triples(cl, ft, an, floats)[i]) {
      TripleWords(cl[i], ft[i], an[i], floats);
    }
  }

  lemma TriplesTail(cl: seq<int>, ft: seq<int>, an: seq<int>, floats: bool)
    requires |cl| == |ft| == |an| >= 1
    ensures Triples(cl, ft, an, floats)[1..] == Triples(cl[1..], ft[1..], an[1..], floats)
  {
  }

  lemma IntStrsTail(xs: seq<int>)
    requires |xs| >= 1
    ensures IntStrs(xs)[1..] == IntStrs(xs[1..])
  {
  }

  lemma FeetStrsTail(xs: seq<int>, floats: bool)
    requires |xs| >= 1
    ensures FeetStrs(xs, floats)[1..] == FeetStrs(xs[1..], floats)
  {
  }

  lemma {:induction false} TriplesSplit(cl: seq<int>, ft: seq<int>, an: seq<int>, floats: bool)
    requires |cl| == |ft| == |an|
    ensures SplitEach(Triples(cl, ft, an, floats)) == Words(IntStrs(cl), FeetStrs(ft, floats), IntStrs(an))
    decreases |cl|
  {
    var ts := Triples(cl, ft, an, floats);
    if |cl| > 0 {
      TriplesSplit(cl[1..], ft[1..], an[1..], floats);
      TriplesTail(cl, ft, an, floats);
      TripleWords(cl[0], ft[0], an[0], floats);
      FeetStrsTail(ft, floats);
      IntStrsTail(cl);
      IntStrsTail(an);
    }
  }

  /** The params option splits into the words of its triples. */
  lemma ParamsSplit(cl: seq<int>, ft: seq<int>, an: seq<int>, floats: bool)
    requires |cl| == |ft| == |an| >= 1
    ensures LS.SplitWs(JoinStr(Triples(cl, ft, an, floats), "  "))
      == Words(IntStrs(cl), FeetStrs(ft, floats), IntStrs(an))
  {
    TriplesSplit(cl, ft, an, floats);
    TriplesTrimmed(cl, ft, an, floats);
    JoinGapSplit(Triples(cl, ft, an, floats));
  }

  /** Words that are the numbers' strings. */
  predicate Spell(ws: seq<string>, xs: seq<int>)
  {
    |ws| == |xs| && forall i :: 0 <= i < |ws| ==> ParseInt(ws[i]) == Ok(xs[i])
  }

  lemma IntStrsSpell(xs: seq<int>)
    ensures Spell(IntStrs(xs), xs)
  {
    forall i | 0 <= i < |xs| ensures ParseInt(IntStrs(xs)[i]) == Ok(xs[i]) {
      ParseIntStr(xs[i]);
    }
  }

  lemma FeetStrsSpell(xs: seq<int>)
    ensures Spell(FeetStrs(xs, false), xs)
  {
    forall i | 0 <= i < |xs| ensures ParseInt(FeetStrs(xs, false)[i]) == Ok(xs[i]) {
      ParseIntStr(xs[i]);
    }
  }

  lemma ReadLevelsStep(w: seq<string>, n: nat, c: int, f: int, a: int)
    requires n > 0 && ReadLevels(w, n - 1).Ok?
    requires Token(w, 3 * (n - 1)) == Ok(c) && Token(w, 3 * (n - 1) + 1) == Ok(f)
    requires Token(w, 3 * (n - 1) + 2) == Ok(a)
    ensures var front := ReadLevels(w, n - 1).value;
      ReadLevels(w, n) == Ok((front.0 + [c], front.1 + [f], front.2 + [a]))
  {
  }

  /** Level i's three words are the numbers they spell. */
  lemma TokensSpelled(cs: seq<string>, fs: seq<string>, as_: seq<string>,
                      cl: seq<int>, ft: seq<int>, an: seq<int>, i: nat)
    requires Spell(cs, cl) && Spell(fs, ft) && Spell(as_, an)
    requires |cl| == |ft| == |an| && i < |cl|
    ensures var w := Words(cs, fs, as_);
      Token(w, 3 * i) == Ok(cl[i]) && Token(w, 3 * i + 1) == Ok(ft[i]) && Token(w, 3 * i + 2) == Ok(an[i])
  {
    WordsAt(cs, fs, as_, i);
  }

  /** Level i's three words spell cl[i], ft[i] and an[i]. */
  predicate Tokens(w: seq<string>, cl: seq<int>, ft: seq<int>, an: seq<int>)
  {
    |cl| == |ft| == |an| &&
    forall i :: 0 <= i < |cl| ==>
      Token(w, 3 * i) == Ok(cl[i]) && Token(w, 3 * i + 1) == Ok(ft[i]) && Token(w, 3 * i + 2) == Ok(an[i])
  }

  lemma TokensOfWords(cs: seq<string>, fs: seq<string>, as_: seq<string>,
                      cl: seq<int>, ft: seq<int>, an: seq<int>)
    requires Spell(cs, cl) && Spell(fs, ft) && Spell(as_, an) && |cl| == |ft| == |an|
    ensures Tokens(Words(cs, fs, as_), cl, ft, an)
  {
    forall i | 0 <= i < |cl|
      ensures var w := Words(cs, fs, as_);
        Token(w, 3 * i) == Ok(cl[i]) && Token(w, 3 * i + 1) == Ok(ft[i]) && Token(w, 3 * i + 2) == Ok(an[i])
    {
      TokensSpelled(cs, fs, as_, cl, ft, an, i);
    }
  }

  /** The first n levels of words that spell the values read back as
      those values. */
  lemma {:induction false} ReadLevelsBack(w: seq<string>, cl: seq<int>, ft: seq<int>, an: seq<int>, n: nat)
    requires Tokens(w, cl, ft, an) && n <= |cl|
    ensures ReadLevels(w, n) == Ok((cl[..n], ft[..n], an[..n]))
  {
    if n > 0 {
      ReadLevelsBack(w, cl, ft, an, n - 1);
      LevelsExtend(w, cl, ft, an, n);
    }
  }

  lemma LevelsExtend(w: seq<string>, cl: seq<int>, ft: seq<int>, an: seq<int>, n: nat)
    requires Tokens(w, cl, ft, an) && 0 < n <= |cl|
    requires ReadLevels(w, n - 1) == Ok((cl[..n - 1], ft[..n - 1], an[..n - 1]))
    ensures ReadLevels(w, n) == Ok((cl[..n], ft[..n], an[..n]))
  {
    ReadLevelsStep(w, n, cl[n - 1], ft[n - 1], an[n - 1]);
    TakeSucc(cl, n - 1);
    TakeSucc(ft, n - 1);
    TakeSucc(an, n - 1);
  }

  lemma ParamsBack(v: BlxValues)
    requires Writable(v)
    ensures ReadLevels(LS.SplitWs(Params(v, false)), |v.contourlevels|)
      == Ok((v.contourlevels, v.feet, LabelAngles(v)))
  {
    var cl, ft, an := v.contourlevels, v.feet, LabelAngles(v);
    if |cl| > 0 {
      ParamsSplit(cl, ft, an, false);
      IntStrsSpell(cl);
      FeetStrsSpell(ft);
      IntStrsSpell(an);
      TokensOfWords(IntStrs(cl), FeetStrs(ft, false), IntStrs(an), cl, ft, an);
      ReadLevelsBack(Words(IntStrs(cl), FeetStrs(ft, false), IntStrs(an)), cl, ft, an, |cl|);
      TakeAll(cl);
      TakeAll(ft);
      TakeAll(an);
    }
  }

  /** Each of the options before the drawing options is found with its
      value. */
  lemma HeadValues(a: int, b: int, lsi: int, params: string, tail: seq<Item>)
    ensures var t := HeadItems(a, b, lsi, params) + tail;
      Get(t, "total_blx_scale") == Ok(IntStr(a) + " " + IntStr(b))
      && Get(t, "lower_scale_index") == Ok(IntStr(lsi)) && Get(t, "params") == Ok(params)
  {
    var t := HeadItems(a, b, lsi, params) + tail;
    var t1, t2 := t[1..], t[2..];
    assert t1[1..] == t2;
    assert t2[0] == ("params", params);
    assert Get(t2, "params") == Ok(params);
  }

  /** Each drawing option is found with its value. */
  lemma TailValues(mesh: int, mode: int, step: int, memory: string)
    ensures var t := TailItems(mesh, mode, step, memory);
      Get(t, "screen_mesh") == Ok(IntStr(mesh)) && Get(t, "label_mode") == Ok(IntStr(mode))
      && Get(t, "auto_step") == Ok(IntStr(step)) && Get(t, "memory") == Ok(memory)
  {
    var t := TailItems(mesh, mode, step, memory);
    var t1, t2, t3 := t[1..], t[2..], t[3..];
    assert t1[1..] == t2 && t2[1..] == t3 && t3[1..] == [];
    assert Get(t3, "memory") == Ok(memory);
    assert Get(t2, "memory") == Ok(memory) && Get(t2, "auto_step") == Ok(IntStr(step));
  }

  /** A number among the drawing options reads back. */
  lemma GetIntTail(files: seq<string>, a: int, b: int, lsi: int, params: string, tail: seq<Item>,
                   key: string, n: int)
    requires |key| > 0 && !IsDigit(key[0])
    requires key != "total_blx_scale" && key != "lower_scale_index" && key != "params"
    requires Get(tail, key) == Ok(IntStr(n))
    ensures GetInt(FileItems(files) + HeadItems(a, b, lsi, params) + tail, key) == Ok(n)
  {
    GetTail(files, a, b, lsi, params, tail, key);
    ParseIntStr(n);
  }

  lemma MemoryBack(memory: seq<int>)
    requires |memory| >= 1
    ensures ParseInts(LS.SplitWs(Join(IntStrs(memory), ' '))) == Ok(memory)
  {
    var ms := IntStrs(memory);
    forall i | 0 <= i < |ms| ensures LS.Word(ms[i]) {
      LS.IntStrWord(memory[i]);
    }
    LS.SplitWsJoin(ms);
    ParseIntsBack(memory);
  }

  lemma ReadTailBack(v: BlxValues)
    requires |v.memory| >= 1
    ensures ReadTail(IniItems(v)) == Ok((v.screenMesh, v.labelMode, v.autoStep, v.memory))
  {
    var files, params := v.blxfiles, Params(v, false);
    var a, b, lsi := |v.blxfiles|, |v.contourlevels|, v.lowerscaleindex;
    var mem := Join(IntStrs(v.memory), ' ');
    var tail := TailItems(v.screenMesh, v.labelMode, v.autoStep, mem);
    var items := FileItems(files) + HeadItems(a, b, lsi, params) + tail;
    assert IniItems(v) == items;
    TailValues(v.screenMesh, v.labelMode, v.autoStep, mem);
    GetIntTail(files, a, b, lsi, params, tail, "screen_mesh", v.screenMesh);
    GetIntTail(files, a, b, lsi, params, tail, "label_mode", v.labelMode);
    GetIntTail(files, a, b, lsi, params, tail, "auto_step", v.autoStep);
    GetTail(files, a, b, lsi, params, tail, "memory");
    MemoryBack(v.memory);
  }

  /** What `setupFromIni` reads from what `writeToIni` wrote, feet
      written as integers: the same set, with the label angles as a list. */
  lemma WriteReadBack(v: BlxValues)
    requires Writable(v)
    ensures Parse(IniItems(v)) == Ok(v.(labelangle := PerLevel(LabelAngles(v))))
  {
    var files, params := v.blxfiles, Params(v, false);
    var tail := TailItems(v.screenMesh, v.labelMode, v.autoStep, Join(IntStrs(v.memory), ' '));
    assert IniItems(v) == FileItems(files) + (HeadItems(|files|, |v.contourlevels|, v.lowerscaleindex, params) + tail);
    HeadBack(files, |v.contourlevels|, v.lowerscaleindex, params, tail);
    DrawingBack(v);
  }

  lemma CountsRead(files: seq<string>, rest: seq<Item>, b: int)
    requires Get(rest, "total_blx_scale") == Ok(IntStr(|files|) + " " + IntStr(b))
    ensures ReadCounts(FileItems(files) + rest) == Ok((|files|, b))
  {
    GetPastFiles(files, rest, "total_blx_scale");
    CountsBack(|files|, b);
  }

  lemma LsiRead(files: seq<string>, rest: seq<Item>, lsi: int)
    requires 1 <= lsi <= |ZoomLevels| && Get(rest, "lower_scale_index") == Ok(IntStr(lsi))
    ensures ReadLowerScaleIndex(FileItems(files) + rest) == Ok(lsi)
  {
    GetPastFiles(files, rest, "lower_scale_index");
    ParseIntStr(lsi);
  }

  /** The counts, the files and the lower scale index read back, whatever
      the params and the options after them. */
  lemma HeadBack(files: seq<string>, b: int, lsi: int, params: string, tail: seq<Item>)
    requires 1 <= lsi <= |ZoomLevels|
    ensures var items := FileItems(files) + (HeadItems(|files|, b, lsi, params) + tail);
      ReadCounts(items) == Ok((|files|, b)) && ReadFiles(items, |files|) == Ok(files)
      && ReadLowerScaleIndex(items) == Ok(lsi) && Get(items, "params") == Ok(params)
  {
    var a := |files|;
    var rest := HeadItems(a, b, lsi, params) + tail;
    HeadValues(a, b, lsi, params, tail);
    CountsRead(files, rest, b);
    ReadFilesBack(files, rest, a);
    TakeAll(files);
    LsiRead(files, rest, lsi);
    GetPastFiles(files, rest, "params");
  }

  /** The params and drawing options read back. */
  lemma DrawingBack(v: BlxValues)
    requires Writable(v)
    ensures ParseDrawing(IniItems(v), |v.contourlevels|, v.blxfiles, v.lowerscaleindex)
      == Ok(v.(labelangle := PerLevel(LabelAngles(v))))
  {
    var items := IniItems(v);
    var files, params := v.blxfiles, Params(v, false);
    var a, b, lsi := |v.blxfiles|, |v.contourlevels|, v.lowerscaleindex;
    var tail := TailItems(v.screenMesh, v.labelMode, v.autoStep, Join(IntStrs(v.memory), ' '));
    var rest := HeadItems(a, b, lsi, params) + tail;
    assert items == FileItems(files) + rest;
    assert ReadParams(items, b) == Ok((v.contourlevels, v.feet, LabelAngles(v))) by {
      HeadValues(a, b, lsi, params, tail);
      GetPastFiles(files, rest, "params");
      ParamsBack(v);
    }
    ReadTailBack(v);
  }

  // ------------------------------------------------------------ failures

  /** A missing file option fails every longer read of the files. */
  lemma {:induction false} ReadFilesFails(items: seq<Item>, i: nat, n: int)
    requires i < n && ReadFiles(items, i).Ok? && Get(items, NatStr(i)).Fail?
    ensures ReadFiles(items, n) == Fail(NoOptionError)
    decreases n
  {
    if n > i + 1 {
      ReadFilesFails(items, i, n - 1);
    }
  }

  /** A level that cannot be read fails every longer read of the levels. */
  lemma {:induction false} ReadLevelsFails(w: seq<string>, m: nat, n: int, e: Failure)
    requires 1 <= m <= n && ReadLevels(w, m) == Fail(e)
    ensures ReadLevels(w, n) == Fail(e)
    decreases n
  {
    if n > m {
      ReadLevelsFails(w, m, n - 1, e);
    }
  }

  /** A feet value written as a float ("66.0") is not an `int`. */
  lemma FloatFeetNotInt(f: int)
    ensures ParseInt(FeetStr(f, true)) == Fail(ValueError)
  {
    var s := FeetStr(f, true);
    var k := |IntStr(f)|;
    assert s[k] == '.';
    assert !IsDigit(s[k]);
    assert !AllDigits(s);
    assert |s| >= 2 ==> !AllDigits(s[1..]) by {
      if |s| >= 2 {
        assert s[1..][k - 1] == '.';
      }
    }
  }

  /** Once the contour levels went through their setter, the feet are a
      float array and the section `writeToIni` writes from them is refused
      by `setupFromIni` with a ValueError. */
  lemma FloatFeetRefused(v: BlxValues)
    requires Writable(v) && |v.contourlevels| >= 1
    ensures Parse(IniItemsAsWritten(v, true)) == Fail(ValueError)
  {
    var files, params := v.blxfiles, Params(v, true);
    var b := |v.contourlevels|;
    var tail := TailItems(v.screenMesh, v.labelMode, v.autoStep, Join(IntStrs(v.memory), ' '));
    var items := FileItems(files) + (HeadItems(|files|, b, v.lowerscaleindex, params) + tail);
    assert IniItemsAsWritten(v, true) == items;
    HeadBack(files, b, v.lowerscaleindex, params, tail);
    FloatParamsRefused(v.contourlevels, v.feet, LabelAngles(v));
    assert ReadParams(items, b) == Fail(ValueError);
  }

  lemma FloatParamsRefused(cl: seq<int>, ft: seq<int>, an: seq<int>)
    requires |cl| == |ft| == |an| >= 1
    ensures ReadLevels(LS.SplitWs(JoinStr(Triples(cl, ft, an, true), "  ")), |cl|) == Fail(ValueError)
  {
    ParamsSplit(cl, ft, an, true);
    var w := Words(IntStrs(cl), FeetStrs(ft, true), IntStrs(an));
    WordsAt(IntStrs(cl), FeetStrs(ft, true), IntStrs(an), 0);
    ParseIntStr(cl[0]);
    FloatFeetNotInt(ft[0]);
    assert Token(w, 1) == Fail(ValueError);
    FirstFeetFails(w, ValueError);
    ReadLevelsFails(w, 1, |cl|, ValueError);
  }

  lemma FirstFeetFails(w: seq<string>, e: Failure)
    requires Token(w, 0).Ok? && Token(w, 1) == Fail(e)
    ensures ReadLevels(w, 1) == Fail(e)
  {
  }

  /** An empty memory list is written as "", which `int` refuses. */
  lemma EmptyMemoryRefused(v: BlxValues)
    requires v.memory == []
    ensures ReadTail(IniItems(v)) == Fail(ValueError)
  {
    var files, params := v.blxfiles, Params(v, false);
    var a, b, lsi := |v.blxfiles|, |v.contourlevels|, v.lowerscaleindex;
    var tail := TailItems(v.screenMesh, v.labelMode, v.autoStep, "");
    assert IntStrs(v.memory) == [];
    assert IniItems(v) == FileItems(files) + HeadItems(a, b, lsi, params) + tail;
    TailValues(v.screenMesh, v.labelMode, v.autoStep, "");
    GetIntTail(files, a, b, lsi, params, tail, "screen_mesh", v.screenMesh);
    GetIntTail(files, a, b, lsi, params, tail, "label_mode", v.labelMode);
    GetIntTail(files, a, b, lsi, params, tail, "auto_step", v.autoStep);
    GetTail(files, a, b, lsi, params, tail, "memory");
    EmptyNotInts();
  }

  lemma EmptyNotInts()
    ensures ParseInts(LS.SplitWs("")) == Fail(ValueError)
  {
    assert LS.SplitWs("") == [""];
    assert [""][..0] == [];
    assert ParseInt("") == Fail(ValueError);
  }

  // ------------------------------------------------------------ the set

  /** The class defaults: screen mesh 10, auto step 1, lower scale index
      1, contour levels 20 20 20 40 80 metres (feet three times those),
      label angle 30, label mode 2, memory 4 10 40 32. */
  function Defaults(files: seq<string>): BlxValues
  {
    BlxValues(files, 1, [20, 20, 20, 40, 80], [60, 60, 60, 120, 240], Scalar(30), 10, 2, 1, [4, 10, 40, 32])
  }

  /** The defaults can be written and read back. */
  lemma DefaultsWritable(files: seq<string>)
    ensures Writable(Defaults(files))
    ensures |Defaults(files).contourlevels| + Defaults(files).lowerscaleindex - 1 <= |ZoomLevels|
  {
  }

  /** The feet of contour levels in metres. */
  function FeetOf(cl: seq<int>): (r: seq<int>)
    ensures |r| == |cl| && forall i :: 0 <= i < |cl| ==> r[i] == Feet(cl[i])
  {
    seq(|cl|, i requires 0 <= i < |cl| => Feet(cl[i]))
  }

  class BLXSet {
    var blxfiles: seq<string>
    var lowerscaleindex: int
    var contourlevels: seq<int>
    var feet: seq<int>
    var labelangle: Angle
    var screenMesh: int
    var labelMode: int
    var autoStep: int
    var memory: seq<int>

    function Values(): BlxValues
      reads this
    {
      BlxValues(blxfiles, lowerscaleindex, contourlevels, feet, labelangle, screenMesh, labelMode, autoStep, memory)
    }

    constructor (files: seq<string>)
      ensures Values() == Defaults(files)
    {
      blxfiles := files;
      lowerscaleindex := 1;
      contourlevels := [20, 20, 20, 40, 80];
      feet := [60, 60, 60, 120, 240];
      labelangle := Scalar(30);
      screenMesh := 10;
      labelMode := 2;
      autoStep := 1;
      memory := [4, 10, 40, 32];
    }

    /** The contourlevels setter: refused when the levels would run past
        the last scale, otherwise the levels and their rounded feet. */
    method SetContourLevels(cl: seq<int>) returns (r: Result<()>)
      modifies this
      ensures r.Fail? <==> |cl| + lowerscaleindex - 1 > |ZoomLevels|
      ensures r.Fail? ==> r == Fail(ValueError) && Values() == old(Values())
      ensures r.Ok? ==> Values() == old(Values()).(contourlevels := cl, feet := FeetOf(cl))
    {
      if |cl| + lowerscaleindex - 1 > |ZoomLevels| {
        return Fail(ValueError);
      }
      contourlevels := cl;
      feet := FeetOf(cl);
      r := Ok(());
    }

    /** The lowerscaleindex setter: 1 to the number of scales. */
    method SetLowerScaleIndex(value: int) returns (r: Result<()>)
      modifies this
      ensures r.Fail? <==> value < 1 || value > |ZoomLevels|
      ensures r.Fail? ==> r == Fail(ValueError) && Values() == old(Values())
      ensures r.Ok? ==> Values() == old(Values()).(lowerscaleindex := value)
    {
      if value < 1 || value > |ZoomLevels| {
        return Fail(ValueError);
      }
      lowerscaleindex := value;
      r := Ok(());
    }

    /** `addblxfile`: the file joins the set under the next name. */
    method AddBlxFile(bigendian: bool)
      modifies this
      ensures Values() == old(Values()).(blxfiles := old(blxfiles) + [BlxName(|old(blxfiles)|, bigendian)])
    {
      blxfiles := blxfiles + [BlxName(|blxfiles|, bigendian)];
    }

    /** `writeToIni`, with the feet written as integers. */
    method WriteToIni() returns (items: seq<Item>)
      ensures items == IniItems(Values())
    {
      items := [];
      var i := 0;
      while i < |blxfiles|
        invariant 0 <= i <= |blxfiles|
        invariant items == FileItems(blxfiles[..i])
      {
        FileItemsStep(blxfiles, i);
        items := items + [(NatStr(i), blxfiles[i])];
        i := i + 1;
      }
      TakeAll(blxfiles);
      var v := Values();
      items := items + HeadItems(|blxfiles|, |contourlevels|, lowerscaleindex, Params(v, false))
        + TailItems(screenMesh, labelMode, autoStep, Join(IntStrs(memory), ' '));
    }

    /** `setupFromIni`: on success the set holds what the section says;
        a failure is the one the first bad option raises. */
    method SetupFromIni(items: seq<Item>) returns (r: Result<()>)
      modifies this
      ensures r.Ok? ==> Parse(items) == Ok(Values())
      ensures r.Fail? ==> Parse(items) == Fail(r.failure)
    {
      var counts := ReadCounts(items);
      if counts.Fail? {
        return Fail(counts.failure);
      }
      var nfiles, nlevels := counts.value.0, counts.value.1;
      var files := ReadFilesLoop(items, nfiles);
      if files.Fail? {
        return Fail(files.failure);
      }
      blxfiles := files.value;
      var lsi := GetInt(items, "lower_scale_index");
      if lsi.Fail? {
        return Fail(lsi.failure);
      }
      r := SetLowerScaleIndex(lsi.value);
      if r.Fail? {
        return;
      }
      r := SetupDrawing(items, nlevels);
    }

    /** The second half of `setupFromIni`: contour levels, feet and label
        angles from the params option, then the drawing options. */
    method SetupDrawing(items: seq<Item>, nlevels: int) returns (r: Result<()>)
      modifies this
      ensures r.Ok? ==> ParseDrawing(items, nlevels, old(blxfiles), old(lowerscaleindex)) == Ok(Values())
      ensures r.Fail? ==> ParseDrawing(items, nlevels, old(blxfiles), old(lowerscaleindex)) == Fail(r.failure)
    {
      var p := Get(items, "params");
      if p.Fail? {
        return Fail(p.failure);
      }
      var words := LS.SplitWs(p.value);
      var levels := ReadLevelsLoop(words, nlevels);
      if levels.Fail? {
        return Fail(levels.failure);
      }
      contourlevels, feet, labelangle := levels.value.0, levels.value.1, PerLevel(levels.value.2);
      var tail := ReadTail(items);
      if tail.Fail? {
        return Fail(tail.failure);
      }
      screenMesh, labelMode, autoStep, memory := tail.value.0, tail.value.1, tail.value.2, tail.value.3;
      r := Ok(());
    }
  }

  /** The loop of `setupFromIni` over the file options. */
  method ReadFilesLoop(items: seq<Item>, nfiles: int) returns (r: Result<seq<string>>)
    ensures r == ReadFiles(items, nfiles)
  {
    var files := [];
    var i := 0;
    while i < nfiles
      invariant 0 <= i <= if nfiles < 0 then 0 else nfiles
      invariant ReadFiles(items, i) == Ok(files)
    {
      var f := Get(items, NatStr(i));
      if f.Fail? {
        ReadFilesFails(items, i, nfiles);
        return Fail(NoOptionError);
      }
      files := files + [f.value];
      i := i + 1;
    }
    r := Ok(files);
  }

  /** One more level of the params words: the first token that is not
      a number decides the failure. */
  lemma LevelStep(w: seq<string>, zl: nat)
    requires ReadLevels(w, zl).Ok?
    ensures var c, f, a := Token(w, 3 * zl), Token(w, 3 * zl + 1), Token(w, 3 * zl + 2);
      var front := ReadLevels(w, zl).value;
      ReadLevels(w, zl + 1) ==
        if c.Fail? then Fail(c.failure)
        else if f.Fail? then Fail(f.failure)
        else if a.Fail? then Fail(a.failure)
        else Ok((front.0 + [c.value], front.1 + [f.value], front.2 + [a.value]))
  {
    assert 3 * (zl + 1 - 1) == 3 * zl;
  }

  /** The loop of `setupFromIni` over the levels of the params words. */
  method ReadLevelsLoop(words: seq<string>, nlevels: int) returns (r: Result<(seq<int>, seq<int>, seq<int>)>)
    ensures r == ReadLevels(words, nlevels)
  {
    var cl, ft, an := [], [], [];
    var zl := 0;
    while zl < nlevels
      invariant 0 <= zl <= if nlevels < 0 then 0 else nlevels
      invariant ReadLevels(words, zl) == Ok((cl, ft, an))
    {
      LevelStep(words, zl);
      var c, f, a := Token(words, 3 * zl), Token(words, 3 * zl + 1), Token(words, 3 * zl + 2);
      if c.Fail? || f.Fail? || a.Fail? {
        var e := if c.Fail? then c.failure else if f.Fail? then f.failure else a.failure;
        ReadLevelsFails(words, zl + 1, nlevels, e);
        return Fail(e);
      }
      cl, ft, an := cl + [c.value], ft + [f.value], an + [a.value];
      zl := zl + 1;
    }
    r := Ok((cl, ft, an));
  }

  lemma FileItemsStep(files: seq<string>, i: nat)
    requires i < |files|
    ensures FileItems(files[..i + 1]) == FileItems(files[..i]) + [(NatStr(i), files[i])]
  {
  }
}
