/** magellan/inifile.py: the line filter that hides the padding byte at
    the end of a map's configuration files, the key order of
    `ConfigParserUpper` and the two writers that emit configuration text
    with CRLF line ends. Sections and their items are ordered lists, as
    the ordered dictionaries of Python 2.7's ConfigParser keep them. */
module IniFile {
  import opened Wrappers
  import opened Chunks
  import opened PyStr

  // ------------------------------------------------------------ readline

  /** `IniFileFilter.readline`: a line is handed on only when it ends in a
      newline; anything else reads as the end of the file. */
  function FilterLine(line: string): (r: string)
    ensures r == line || r == ""
    ensures r != "" <==> |line| > 0 && line[|line| - 1] == '\n'
  {
    if |line| > 0 && line[|line| - 1] == '\n' then line else ""
  }

  /** The length of the line a file's `readline` returns: up to and
      including the first newline, or the rest of the file. */
  function LineLength(s: string): (n: nat)
    ensures n <= |s| && (n == 0 <==> |s| == 0)
    ensures forall i :: 0 <= i < n - 1 ==> s[i] != '\n'
    ensures n < |s| ==> s[n - 1] == '\n'
  {
    if |s| == 0 then 0 else if s[0] == '\n' then 1 else 1 + LineLength(s[1..])
  }

  /** The lines a reader that stops at the first empty `readline` gets
      through the filter. */
  function ReadLines(s: string): (r: seq<string>)
    ensures forall i :: 0 <= i < |r| ==> |r[i]| > 0 && r[i][|r[i]| - 1] == '\n'
    decreases |s|
  {
    var n := LineLength(s);
    var line := FilterLine(s[..n]);
    if line == "" then [] else [line] + ReadLines(s[n..])
  }

  /** The line of a text that ends in a newline is the same when more
      text follows. */
  lemma {:induction false} LineLengthAppend(text: string, pad: string)
    requires '\n' in text
    ensures LineLength(text + pad) == LineLength(text)
    decreases |text|
  {
    if text[0] != '\n' {
      assert (text + pad)[1..] == text[1..] + pad;
      assert '\n' in text[1..] by {
        var k :| 0 <= k < |text| && text[k] == '\n';
        assert text[1..][k - 1] == '\n';
      }
      LineLengthAppend(text[1..], pad);
    }
  }

  /** Padding without a newline reads as the end of the file. */
  lemma PaddingAlone(pad: string)
    requires '\n' !in pad
    ensures ReadLines(pad) == []
  {
    if |pad| > 0 {
      assert pad[|pad| - 1] != '\n';
      assert pad[..LineLength(pad)] == pad;
    }
  }

  /** The first line of text that ends in a newline is read whole, and
      reading goes on after it. */
  lemma FirstLineRead(text: string, pad: string, n: nat)
    requires |text| > 0 && text[|text| - 1] == '\n' && n == LineLength(text)
    ensures 0 < n <= |text| && text[n - 1] == '\n'
    ensures ReadLines(text + pad) == [text[..n]] + ReadLines(text[n..] + pad)
  {
    LineLengthAppend(text, pad);
    var s := text + pad;
    assert s[..n] == text[..n];
    assert s[n..] == text[n..] + pad;
  }

  /** The padding after the last newline is never seen: the lines read
      are newline-terminated and put back together give the text. */
  lemma {:induction false} PaddingDropped(text: string, pad: string)
    requires |text| == 0 || text[|text| - 1] == '\n'
    requires '\n' !in pad
    ensures Concat(ReadLines(text + pad)) == text
    decreases |text|
  {
    if |text| == 0 {
      assert text + pad == pad;
      PaddingAlone(pad);
    } else {
      var n := LineLength(text);
      FirstLineRead(text, pad, n);
      var rest := text[n..];
      assert |rest| == 0 || rest[|rest| - 1] == '\n';
      PaddingDropped(rest, pad);
      ConcatCons(text[..n], ReadLines(rest + pad));
      TakeDrop(text, n);
    }
  }

  // ------------------------------------------------------------ key order

  /** Python 2's `cmp` of two strings: lexicographic on character codes. */
  function StrCmp(a: string, b: string): (r: int)
    ensures r == -1 || r == 0 || r == 1
  {
    if |a| == 0 && |b| == 0 then 0
    else if |a| == 0 then -1
    else if |b| == 0 then 1
    else if a[0] < b[0] then -1
    else if a[0] > b[0] then 1
    else StrCmp(a[1..], b[1..])
  }

  /** `cmp` of two integers. */
  function IntCmp(a: int, b: int): (r: int)
  {
    if a < b then -1 else if a > b then 1 else 0
  }

  /** `cmpfunc` on two non-empty keys: a key starting with a digit sorts
      after one that does not; two such keys compare by their first digit
      only; two other keys compare as strings. */
  function KeyCmp(x: string, y: string): (r: int)
    requires |x| > 0 && |y| > 0
    ensures r == -1 || r == 0 || r == 1
  {
    var xnum, ynum := IsDigit(x[0]), IsDigit(y[0]);
    if xnum && !ynum then 1
    else if ynum && !xnum then -1
    else if xnum then IntCmp(DigitVal(x[0]), DigitVal(y[0]))
    else StrCmp(x, y)
  }

  type Item = (string, string)

  /** `cmpfunc(x, y)` on two items: the first character of an empty key
      is an IndexError. */
  function CmpFunc(x: Item, y: Item): (r: Result<int>)
    ensures r.Fail? <==> |x.0| == 0 || |y.0| == 0
    ensures r.Fail? ==> r == Fail(IndexError)
    ensures r.Ok? ==> r.value == KeyCmp(x.0, y.0)
  {
    if |x.0| == 0 || |y.0| == 0 then Fail(IndexError) else Ok(KeyCmp(x.0, y.0))
  }

  lemma {:induction false} StrCmpAntisym(a: string, b: string)
    ensures StrCmp(b, a) == -StrCmp(a, b)
    ensures StrCmp(a, b) == 0 <==> a == b
  {
    if |a| > 0 && |b| > 0 && a[0] == b[0] {
      StrCmpAntisym(a[1..], b[1..]);
      if a[1..] == b[1..] {
        assert a == [a[0]] + a[1..] && b == [b[0]] + b[1..];
      }
    }
  }

  lemma {:induction false} StrCmpTrans(a: string, b: string, c: string)
    requires StrCmp(a, b) <= 0 && StrCmp(b, c) <= 0
    ensures StrCmp(a, c) <= 0
  {
    if |a| > 0 && |b| > 0 && |c| > 0 && a[0] == b[0] == c[0] {
      StrCmpTrans(a[1..], b[1..], c[1..]);
    }
  }

  /** `cmpfunc` is antisymmetric, and 0 between two keys without a
      leading digit only when they are equal. */
  lemma KeyCmpAntisym(x: string, y: string)
    requires |x| > 0 && |y| > 0
    ensures KeyCmp(y, x) == -KeyCmp(x, y)
    ensures !IsDigit(x[0]) && !IsDigit(y[0]) ==> (KeyCmp(x, y) == 0 <==> x == y)
  {
    StrCmpAntisym(x, y);
  }

  /** `cmpfunc` is transitive, so with antisymmetry it is a total preorder
      and `list.sort` is well defined on keys it can compare. */
  lemma KeyCmpTrans(x: string, y: string, z: string)
    requires |x| > 0 && |y| > 0 && |z| > 0
    requires KeyCmp(x, y) <= 0 && KeyCmp(y, z) <= 0
    ensures KeyCmp(x, z) <= 0
  {
    if !IsDigit(x[0]) && !IsDigit(y[0]) && !IsDigit(z[0]) {
      StrCmpTrans(x, y, z);
    }
  }

  /** Every key that does not start with a digit comes before every key
      that does, whatever the rest of the keys. */
  lemma DigitKeysLast(x: string, y: string)
    requires |x| > 0 && |y| > 0 && !IsDigit(x[0]) && IsDigit(y[0])
    ensures KeyCmp(x, y) < 0 && KeyCmp(y, x) > 0
  {
  }

  // ------------------------------------------------------------ sorting

  predicate KeyedItems(items: seq<Item>)
  {
    forall i :: 0 <= i < |items| ==> |items[i].0| > 0
  }

  predicate Le(x: Item, y: Item)
  {
    |x.0| > 0 && |y.0| > 0 && KeyCmp(x.0, y.0) <= 0
  }

  predicate SortedItems(items: seq<Item>)
  {
    forall i, j :: 0 <= i < j < |items| ==> Le(items[i], items[j])
  }

  /** Inserting after every item that does not sort after x, as a stable
      sort places a later item among equal keys. */
  function Insert(x: Item, s: seq<Item>): (r: seq<Item>)
    requires |x.0| > 0 && KeyedItems(s) && SortedItems(s)
    ensures multiset(r) == multiset(s) + multiset{x}
    ensures KeyedItems(r) && SortedItems(r)
  {
    if |s| == 0 then [x]
    else if Le(s[0], x) then
      var t := Insert(x, s[1..]);
      InsertHead(s[0], x, s[1..], t);
      assert s == [s[0]] + s[1..];
      [s[0]] + t
    else
      InsertFront(x, s);
      [x] + s
  }

  /** An item that sorts before the head of a sorted list sorts before
      all of it. */
  lemma InsertFront(x: Item, s: seq<Item>)
    requires |x.0| > 0 && |s| > 0 && KeyedItems(s) && SortedItems(s) && !Le(s[0], x)
    ensures KeyedItems([x] + s) && SortedItems([x] + s)
  {
    KeyCmpAntisym(x.0, s[0].0);
    forall j | 0 <= j < |s| ensures Le(x, s[j]) {
      if j > 0 {
        KeyCmpTrans(x.0, s[0].0, s[j].0);
      }
    }
    var r := [x] + s;
    forall i, j | 0 <= i < j < |r| ensures Le(r[i], r[j]) {
      if i > 0 {
        assert r[i] == s[i - 1] && r[j] == s[j - 1];
      }
    }
  }

  lemma InsertHead(h: Item, x: Item, s: seq<Item>, t: seq<Item>)
    requires |h.0| > 0 && KeyedItems(s) && Le(h, x)
    requires forall j :: 0 <= j < |s| ==> Le(h, s[j])
    requires multiset(t) == multiset(s) + multiset{x} && KeyedItems(t) && SortedItems(t)
    ensures KeyedItems([h] + t) && SortedItems([h] + t)
  {
    forall j | 0 <= j < |t| ensures Le(h, t[j]) {
      assert t[j] in multiset(t);
    }
    var r := [h] + t;
    forall i, j | 0 <= i < j < |r| ensures Le(r[i], r[j]) {
      if i > 0 {
        assert r[i] == t[i - 1] && r[j] == t[j - 1];
      }
    }
  }

  /** The stable sort of items whose keys are all non-empty. */
  function SortKeyed(items: seq<Item>): (r: seq<Item>)
    requires KeyedItems(items)
    ensures multiset(r) == multiset(items)
    ensures KeyedItems(r) && SortedItems(r)
  {
    if |items| == 0 then []
    else
      var front := items[..|items| - 1];
      assert items == front + [items[|items| - 1]];
      Insert(items[|items| - 1], SortKeyed(front))
  }

  /** `items.sort(cmpfunc)`: with two or more items every item is compared
      at least once, so an empty key raises IndexError; otherwise the
      items come back as a sorted permutation. */
  function SortItems(items: seq<Item>): (r: Result<seq<Item>>)
    ensures r.Fail? <==> |items| >= 2 && !KeyedItems(items)
    ensures r.Fail? ==> r == Fail(IndexError)
    ensures r.Ok? ==> multiset(r.value) == multiset(items) && SortedItems(r.value)
  {
    if |items| <= 1 then Ok(items)
    else if !KeyedItems(items) then Fail(IndexError)
    else Ok(SortKeyed(items))
  }

  // ------------------------------------------------------------ writing

  /** `str.upper` on ASCII letters. */
  function UpperChar(c: char): char
  {
    if 'a' <= c <= 'z' then ((c as int) - 32) as char else c
  }

  function LowerChar(c: char): char
  {
    if 'A' <= c <= 'Z' then ((c as int) + 32) as char else c
  }

  function Upper(s: string): (r: string)
    ensures |r| == |s| && forall i :: 0 <= i < |s| ==> r[i] == UpperChar(s[i])
  {
    seq(|s|, i requires 0 <= i < |s| => UpperChar(s[i]))
  }

  /** ConfigParser's `optionxform`, `str.lower`. */
  function Lower(s: string): (r: string)
    ensures |r| == |s| && forall i :: 0 <= i < |s| ==> r[i] == LowerChar(s[i])
  {
    seq(|s|, i requires 0 <= i < |s| => LowerChar(s[i]))
  }

  /** A key written upper-cased reads back, through `optionxform`, as the
      same option: upper-casing loses nothing ConfigParser keeps. */
  lemma UpperReadsBack(k: string)
    ensures Lower(Upper(k)) == Lower(k)
    ensures '=' in Upper(k) <==> '=' in k
  {
    if '=' in Upper(k) {
      var i :| 0 <= i < |k| && Upper(k)[i] == '=';
      assert k[i] == '=';
    }
    if '=' in k {
      var i :| 0 <= i < |k| && k[i] == '=';
      assert Upper(k)[i] == '=';
    }
  }

  /** `str(value).replace('\n', '\n\t')`: every inner line of a value
      becomes a continuation line. */
  function Continued(v: string): (r: string)
    ensures forall i :: 0 <= i < |r| && r[i] == '\n' ==> i + 1 < |r| && r[i + 1] == '\t'
    ensures '\r' in r ==> '\r' in v
  {
    if |v| == 0 then ""
    else
      var rest := Continued(v[1..]);
      var head := if v[0] == '\n' then "\n\t" else [v[0]];
      assert forall i :: |head| <= i < |head + rest| ==> (head + rest)[i] == rest[i - |head|];
      head + rest
  }

  /** What a reader does to continuation lines: "\n\t" back to "\n". */
  function Uncontinued(r: string): string
  {
    if |r| >= 2 && r[0] == '\n' && r[1] == '\t' then "\n" + Uncontinued(r[2..])
    else if |r| == 0 then ""
    else [r[0]] + Uncontinued(r[1..])
  }

  /** Undoing the continuation gives the value back. */
  lemma {:induction false} ContinuedRoundTrip(v: string)
    ensures Uncontinued(Continued(v)) == v
  {
    if |v| > 0 {
      ContinuedRoundTrip(v[1..]);
      var rest := Continued(v[1..]);
      if v[0] == '\n' {
        assert ("\n\t" + rest)[2..] == rest;
      } else {
        assert ([v[0]] + rest)[1..] == rest;
      }
      assert v == [v[0]] + v[1..];
    }
  }

  /** The key as written: upper-cased by `ConfigParserUpper`, kept by
      `ConfigParserTopo`. */
  function WrittenKey(k: string, upper: bool): string
  {
    if upper then Upper(k) else k
  }

  /** One "KEY=value\r\n" line. */
  function Entry(k: string, v: string, upper: bool): string
  {
    WrittenKey(k, upper) + ("=" + Continued(v) + "\r\n")
  }

  /** The position of the first '=' of a line. */
  function FirstEq(s: string): (n: nat)
    ensures n <= |s| && '=' !in s[..n]
    ensures n < |s| ==> s[n] == '='
  {
    if |s| == 0 then 0
    else if s[0] == '=' then 0
    else
      var m := FirstEq(s[1..]);
      assert s[..m + 1] == [s[0]] + s[1..][..m];
      m + 1
  }

  /** Reading one entry line back the way the writers laid it out: the
      key before the first '=', the value after it without the line end
      and with its continuations undone. This inverts the writers; it is
      not ConfigParser's reader, which also splits at ':', strips blanks,
      lower-cases the key and drops inline " ;" comments. */
  function ReadEntry(line: string): (r: Option<Item>)
    ensures '=' !in line || |line| < 3 || line[|line| - 2..] != "\r\n" ==> r.None?
    ensures r.Some? ==> var key := r.value.0;
      && '=' !in key && |key| + 3 <= |line| && line[..|key|] == key && line[|key|] == '='
      && r.value.1 == Uncontinued(line[|key| + 1..|line| - 2])
  {
    var n := FirstEq(line);
    if n == |line| || |line| < n + 3 || line[|line| - 2..] != "\r\n" then None
    else Some((line[..n], Uncontinued(line[n + 1..|line| - 2])))
  }

  /** An entry line reads back as its written key and its value, when the
      key holds no '='. */
  lemma EntryReadsBack(k: string, v: string, upper: bool)
    requires '=' !in k
    ensures ReadEntry(Entry(k, v, upper)) == Some((WrittenKey(k, upper), v))
  {
    UpperReadsBack(k);
    ReadLineOf(WrittenKey(k, upper), Continued(v));
    ContinuedRoundTrip(v);
  }

  lemma ReadLineOf(key: string, c: string)
    requires '=' !in key
    ensures ReadEntry(key + ("=" + c + "\r\n")) == Some((key, Uncontinued(c)))
  {
    var tail := "=" + c + "\r\n";
    var line := key + tail;
    FirstEqAfter(key, tail);
    assert line[|key| + 1..|line| - 2] == c;
    assert line[|line| - 2..] == "\r\n";
    EntryAt(line, |key|);
  }

  /** A line whose first '=' is at n and that ends in a line end holds an
      entry: the key before n, the value after it. */
  lemma EntryAt(line: string, n: nat)
    requires FirstEq(line) == n && n + 3 <= |line| && line[|line| - 2..] == "\r\n"
    ensures ReadEntry(line) == Some((line[..n], Uncontinued(line[n + 1..|line| - 2])))
  {
  }

  lemma {:induction false} FirstEqAfter(key: string, tail: string)
    requires '=' !in key && |tail| > 0 && tail[0] == '='
    ensures FirstEq(key + tail) == |key| && (key + tail)[..|key|] == key
  {
    if |key| > 0 {
      assert (key + tail)[1..] == key[1..] + tail;
      FirstEqAfter(key[1..], tail);
    } else {
      assert key + tail == tail;
    }
  }

  /** The item lines of a section, `__name__` skipped. */
  function EntriesText(items: seq<Item>, upper: bool): string
  {
    if |items| == 0 then ""
    else
      var last := items[|items| - 1];
      EntriesText(items[..|items| - 1], upper)
        + (if last.0 == "__name__" then "" else Entry(last.0, last.1, upper))
  }

  /** The items that are written: all but `__name__`. */
  function Shown(items: seq<Item>): (r: seq<Item>)
    ensures |r| <= |items|
    ensures forall i :: 0 <= i < |r| ==> r[i].0 != "__name__" && r[i] in items
  {
    if |items| == 0 then []
    else
      var last := items[|items| - 1];
      var front := Shown(items[..|items| - 1]);
      assert forall i :: 0 <= i < |front| ==> front[i] in items;
      if last.0 == "__name__" then front else front + [last]
  }

  /** The item lines are one entry per shown item, in order. */
  lemma {:induction false} EntriesOfShown(items: seq<Item>, upper: bool)
    ensures EntriesText(items, upper) == Concat(EntryLines(Shown(items), upper))
  {
    if |items| > 0 {
      var front := items[..|items| - 1];
      var last := items[|items| - 1];
      EntriesOfShown(front, upper);
      if last.0 != "__name__" {
        EntryLinesAppend(Shown(front), last, upper);
        ConcatAppend(EntryLines(Shown(front), upper), Entry(last.0, last.1, upper));
      }
    }
  }

  function EntryLines(items: seq<Item>, upper: bool): (r: seq<string>)
    ensures |r| == |items|
    ensures forall i :: 0 <= i < |items| ==> r[i] == Entry(items[i].0, items[i].1, upper)
  {
    seq(|items|, i requires 0 <= i < |items| => Entry(items[i].0, items[i].1, upper))
  }

  lemma EntryLinesAppend(items: seq<Item>, x: Item, upper: bool)
    ensures EntryLines(items + [x], upper) == EntryLines(items, upper) + [Entry(x.0, x.1, upper)]
  {
  }

  /** Every written line, read back, is the written key of a shown item
      with that item's value, in the order of the items. */
  lemma EntryLinesReadBack(items: seq<Item>, upper: bool, i: nat)
    requires i < |Shown(items)| && '=' !in Shown(items)[i].0
    ensures ReadEntry(EntryLines(Shown(items), upper)[i])
      == Some((WrittenKey(Shown(items)[i].0, upper), Shown(items)[i].1))
  {
    var x := Shown(items)[i];
    EntryReadsBack(x.0, x.1, upper);
  }

  function Header(name: string): string
  {
    "[" + name + "]\r\n"
  }

  /** What a writer leaves in the file, and whether it raised. */
  datatype Output = Output(text: string, result: Result<()>)

  /** `ConfigParserUpper.write` over the sections: each section's header,
      then its items sorted by `cmpfunc` with upper-cased keys, then an
      empty line. A section whose items cannot be sorted raises after its
      header has been written. */
  function UpperWritten(sections: seq<(string, seq<Item>)>): (r: Output)
  {
    if |sections| == 0 then Output("", Ok(()))
    else
      var before := UpperWritten(sections[..|sections| - 1]);
      var (name, items) := sections[|sections| - 1];
      if before.result.Fail? then before
      else
        match SortItems(items)
        case Fail(f) => Output(before.text + Header(name), Fail(f))
        case Ok(sorted) => Output(before.text + Header(name) + EntriesText(sorted, true) + "\r\n", Ok(()))
  }

  /** `ConfigParserTopo.write`: the same without sorting or upper-casing,
      so it never raises. */
  function TopoWritten(sections: seq<(string, seq<Item>)>): (r: string)
  {
    if |sections| == 0 then ""
    else
      var (name, items) := sections[|sections| - 1];
      TopoWritten(sections[..|sections| - 1]) + Header(name) + EntriesText(items, false) + "\r\n"
  }

  /** Both writers first test the defaults: a non-empty `_defaults`
      names `DEFAULTSECT`, which the module never imports, and raises
      NameError before anything is written. */
  function WriteUpperText(defaults: seq<Item>, sections: seq<(string, seq<Item>)>): (r: Output)
    ensures |defaults| > 0 ==> r == Output("", Fail(NameError))
    ensures |defaults| == 0 ==> r == UpperWritten(sections)
  {
    if |defaults| > 0 then Output("", Fail(NameError)) else UpperWritten(sections)
  }

  /** The text of a section is fixed by its header, its sorted items and
      the closing empty line; a section whose keys are non-empty and
      carry no '=' has exactly one line per item other than `__name__`,
      in `cmpfunc` order, each reading back as its upper-cased key and its
      value. */
  lemma UpperSection(sections: seq<(string, seq<Item>)>, name: string, items: seq<Item>)
    requires UpperWritten(sections).result.Ok?
    requires |items| >= 2 ==> KeyedItems(items)
    ensures SortItems(items).Ok?
    ensures UpperWritten(sections + [(name, items)]) == Output(
      UpperWritten(sections).text + Header(name)
        + Concat(EntryLines(Shown(SortItems(items).value), true)) + "\r\n", Ok(()))
    ensures SortedItems(Shown(SortItems(items).value))
  {
    var all := sections + [(name, items)];
    assert all[..|all| - 1] == sections;
    var sorted := SortItems(items).value;
    EntriesOfShown(sorted, true);
    ShownSorted(sorted);
  }

  /** Skipping `__name__` keeps the order. */
  lemma {:induction false} ShownSorted(items: seq<Item>)
    requires SortedItems(items)
    ensures SortedItems(Shown(items))
    ensures forall x :: x in Shown(items) ==> x in items
  {
    if |items| > 0 {
      var front := items[..|items| - 1];
      var last := items[|items| - 1];
      assert SortedItems(front);
      ShownSorted(front);
      var s := Shown(front);
      forall i | 0 <= i < |s| ensures Le(s[i], last) {
        var j :| 0 <= j < |front| && front[j] == s[i];
      }
    }
  }

  /** `ConfigParserUpper.write`, one `fp.write` at a time. */
  method WriteUpper(defaults: seq<Item>, sections: seq<(string, seq<Item>)>) returns (out: Output)
    ensures out == WriteUpperText(defaults, sections)
  {
    if |defaults| > 0 {
      return Output("", Fail(NameError));
    }
    var text := "";
    var i := 0;
    while i < |sections|
      invariant 0 <= i <= |sections|
      invariant UpperWritten(sections[..i]) == Output(text, Ok(()))
    {
      var (name, items) := sections[i];
      assert sections[..i + 1][..i] == sections[..i];
      text := text + Header(name);
      var sorted := SortItems(items);
      if sorted.Fail? {
        assert UpperWritten(sections[..i + 1]) == Output(text, Fail(sorted.failure));
        FailStays(sections, i + 1);
        return Output(text, Fail(sorted.failure));
      }
      text := WriteEntries(text, sorted.value, true);
      text := text + "\r\n";
      i := i + 1;
    }
    assert sections[..i] == sections;
    out := Output(text, Ok(()));
  }

  /** Once a section fails, nothing after it is written. */
  lemma {:induction false} FailStays(sections: seq<(string, seq<Item>)>, n: nat)
    requires 0 < n <= |sections| && UpperWritten(sections[..n]).result.Fail?
    ensures UpperWritten(sections) == UpperWritten(sections[..n])
    decreases |sections| - n
  {
    if n < |sections| {
      var next := sections[..n + 1];
      assert next[..n] == sections[..n];
      FailStays(sections, n + 1);
    } else {
      assert sections[..n] == sections;
    }
  }

  /** The inner loop of both writers: each item other than `__name__`
      written as one entry line. */
  method WriteEntries(text: string, items: seq<Item>, upper: bool) returns (r: string)
    ensures r == text + EntriesText(items, upper)
  {
    r := text;
    var j := 0;
    while j < |items|
      invariant 0 <= j <= |items|
      invariant r == text + EntriesText(items[..j], upper)
    {
      var (key, value) := items[j];
      EntriesStep(items, j, upper);
      if key != "__name__" {
        AppendAssoc(text, EntriesText(items[..j], upper), Entry(key, value, upper));
        r := r + Entry(key, value, upper);
      }
      j := j + 1;
    }
    assert items[..j] == items;
  }

  lemma EntriesStep(items: seq<Item>, j: nat, upper: bool)
    requires j < |items|
    ensures EntriesText(items[..j + 1], upper) == EntriesText(items[..j], upper)
      + (if items[j].0 == "__name__" then "" else Entry(items[j].0, items[j].1, upper))
  {
    assert items[..j + 1][..j] == items[..j];
  }

  /** `ConfigParserTopo.write`, one `fp.write` at a time. */
  method WriteTopo(defaults: seq<Item>, sections: seq<(string, seq<Item>)>) returns (out: Output)
    ensures |defaults| > 0 ==> out == Output("", Fail(NameError))
    ensures |defaults| == 0 ==> out == Output(TopoWritten(sections), Ok(()))
  {
    if |defaults| > 0 {
      return Output("", Fail(NameError));
    }
    var text := "";
    var i := 0;
    while i < |sections|
      invariant 0 <= i <= |sections|
      invariant text == TopoWritten(sections[..i])
    {
      var (name, items) := sections[i];
      assert sections[..i + 1][..i] == sections[..i];
      text := text + Header(name);
      text := WriteEntries(text, items, false);
      text := text + "\r\n";
      i := i + 1;
    }
    assert sections[..i] == sections;
    out := Output(text, Ok(()));
  }

  /** The Topo writer keeps the items in their stored order, one line per
      item other than `__name__`, each reading back as its key and value. */
  lemma TopoSection(sections: seq<(string, seq<Item>)>, name: string, items: seq<Item>)
    ensures TopoWritten(sections + [(name, items)])
      == TopoWritten(sections) + Header(name) + Concat(EntryLines(Shown(items), false)) + "\r\n"
  {
    var all := sections + [(name, items)];
    assert all[..|all| - 1] == sections;
    EntriesOfShown(items, false);
  }
}
