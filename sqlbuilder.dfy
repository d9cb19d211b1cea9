/** The rule-file reader that turns rules into PostgreSQL queries over
    the OSM tag tables (osmmagellan/sqlbuilder.py): the parser target's
    `start`/`end` callbacks keep a stack of the open rules' attributes
    and, at the end of each statement, append the statement, its element
    kind and a query; `_make_query` writes the query's conditions, with
    Python's `repr` quoting the keys and values. */
module SqlBuilder {
  import opened Wrappers
  import opened PyStr
  import opened OsmRules

  /** The attributes of a rule, as the XML parser hands them over. */
  type Attrib = map<string, string>

  // ------------------------------------------------------------ repr of a string

  const Backslash: char := '\\'

  function HexDigit(d: nat): (c: char)
    requires d < 16
  {
    if d < 10 then (('0' as int) + d) as char else (('a' as int) + d - 10) as char
  }

  predicate IsHexDigit(c: char)
  {
    '0' <= c <= '9' || 'a' <= c <= 'f' || 'A' <= c <= 'F'
  }

  function HexVal(c: char): (d: nat)
    requires IsHexDigit(c)
    ensures d < 16
  {
    if '0' <= c <= '9' then (c as int) - ('0' as int)
    else if 'a' <= c <= 'f' then (c as int) - ('a' as int) + 10
    else (c as int) - ('A' as int) + 10
  }

  function Pow16(w: nat): (r: nat)
    ensures r >= 1
  {
    if w == 0 then 1 else 16 * Pow16(w - 1)
  }

  /** `n` in exactly `w` lower-case hex digits. */
  function Hex(n: nat, w: nat): (r: string)
    ensures |r| == w
    ensures forall i :: 0 <= i < |r| ==> IsHexDigit(r[i])
  {
    if w == 0 then "" else Hex(n / 16, w - 1) + [HexDigit(n % 16)]
  }

  /** The value of a run of hex digits. */
  function HexValue(s: string): nat
    requires forall i :: 0 <= i < |s| ==> IsHexDigit(s[i])
  {
    if |s| == 0 then 0 else 16 * HexValue(s[..|s| - 1]) + HexVal(s[|s| - 1])
  }

  lemma {:induction false} HexRoundTrip(n: nat, w: nat)
    requires n < Pow16(w)
    ensures HexValue(Hex(n, w)) == n
  {
    if w > 0 {
      var h := Hex(n, w);
      assert h[..|h| - 1] == Hex(n / 16, w - 1);
      HexRoundTrip(n / 16, w - 1);
      var d := n % 16;
      assert HexVal(HexDigit(d)) == d;
    }
  }

  /** The quote `repr` puts around a string: double quotes when the
      string holds a single quote and no double quote, else single quotes. */
  function QuoteFor(s: string): (q: char)
    ensures q == '\'' || q == '"'
  {
    if '\'' in s && '"' !in s then '"' else '\''
  }

  /** How `repr` writes one character inside quotes `q`: the quote and
      the backslash behind a backslash, tab, newline and return as
      `\t`, `\n`, `\r`, printable ASCII as is, and every other code as
      `\xhh`, `\uhhhh` or `\Uhhhhhhhh`. */
  function Escape(c: char, q: char): string
  {
    if c == q || c == Backslash then [Backslash, c]
    else if c == '\t' then [Backslash, 't']
    else if c == '\n' then [Backslash, 'n']
    else if c == '\r' then [Backslash, 'r']
    else if ' ' <= c <= '~' then [c]
    else if (c as int) < 0x100 then [Backslash, 'x'] + Hex(c as int, 2)
    else if (c as int) < 0x10000 then [Backslash, 'u'] + Hex(c as int, 4)
    else [Backslash, 'U'] + Hex(c as int, 8)
  }

  function EscapeAll(s: string, q: char): string
  {
    if |s| == 0 then "" else Escape(s[0], q) + EscapeAll(s[1..], q)
  }

  /** `repr(s)`: a string with a code beyond ASCII comes from the XML
      parser as a unicode object, whose repr carries a `u` in front. */
  function Repr(s: string): (r: string)
    ensures |r| >= 2 && r[|r| - 1] == QuoteFor(s)
    ensures r[0] == 'u' <==> exists i :: 0 <= i < |s| && (s[i] as int) >= 0x80
    ensures r[0] == 'u' ==> |r| >= 3 && r[1] == QuoteFor(s)
    ensures r[0] != 'u' ==> r[0] == QuoteFor(s)
  {
    var q := QuoteFor(s);
    (if forall i :: 0 <= i < |s| ==> (s[i] as int) < 0x80 then "" else "u") + [q] + EscapeAll(s, q) + [q]
  }

  predicate ValidCode(n: nat)
  {
    n < 0xD800 || 0xE000 <= n < 0x11_0000
  }

  /** Reads the escapes of a string literal's body back. */
  function Unescape(t: string): (r: Option<string>)
    decreases |t|
  {
    if |t| == 0 then Some("")
    else
      var (c, n) :=
        if t[0] != Backslash then (Some(t[0]), 1)
        else if |t| < 2 then (None, 1)
        else if t[1] == 't' then (Some('\t'), 2)
        else if t[1] == 'n' then (Some('\n'), 2)
        else if t[1] == 'r' then (Some('\r'), 2)
        else if t[1] == 'x' then HexEscape(t, 2)
        else if t[1] == 'u' then HexEscape(t, 4)
        else if t[1] == 'U' then HexEscape(t, 8)
        else (Some(t[1]), 2);
      if c.None? || n > |t| then None
      else match Unescape(t[n..])
        case None => None
        case Some(rest) => Some([c.value] + rest)
  }

  /** A `\x`, `\u` or `\U` escape with `w` hex digits at the head of `t`. */
  function HexEscape(t: string, w: nat): (r: (Option<char>, nat))
    ensures r.1 >= 1
  {
    if |t| < 2 + w || exists i :: 2 <= i < 2 + w && !IsHexDigit(t[i]) then (None, 1)
    else
      var n := HexValue(t[2..2 + w]);
      if ValidCode(n) then (Some(n as char), 2 + w) else (None, 1)
  }

  /** Reads a `repr` back: the optional `u`, the quotes and the escapes. */
  function UnRepr(t: string): Option<string>
  {
    var body := if |t| > 0 && t[0] == 'u' then t[1..] else t;
    if |body| < 2 || body[0] != body[|body| - 1] || (body[0] != '\'' && body[0] != '"') then None
    else Unescape(body[1..|body| - 1])
  }

  lemma HexEscapeOf(c: char, w: nat, rest: string, x: char)
    requires (w == 2 && x == 'x' && (c as int) < 0x100) || (w == 4 && x == 'u' && (c as int) < 0x10000)
          || (w == 8 && x == 'U')
    ensures HexEscape([Backslash, x] + Hex(c as int, w) + rest, w) == (Some(c), 2 + w)
  {
    var t := [Backslash, x] + Hex(c as int, w) + rest;
    assert t[2..2 + w] == Hex(c as int, w);
    assert forall i :: 2 <= i < 2 + w ==> t[i] == Hex(c as int, w)[i - 2];
    assert Pow16(2) == 0x100 && Pow16(4) == 0x10000;
    assert Pow16(8) == 0x1_0000_0000;
    HexRoundTrip(c as int, w);
  }

  /** One escaped character reads back as itself. */
  lemma UnescapeOne(c: char, q: char, rest: string)
    requires q == '\'' || q == '"'
    ensures Unescape(Escape(c, q) + rest) ==
            match Unescape(rest) case None => None case Some(r) => Some([c] + r)
  {
    var e := Escape(c, q);
    var t := e + rest;
    if c == q || c == Backslash || c == '\t' || c == '\n' || c == '\r' {
      assert t[2..] == rest;
    } else if ' ' <= c <= '~' {
      assert t[1..] == rest;
    } else if (c as int) < 0x100 {
      HexEscapeOf(c, 2, rest, 'x');
      assert t[4..] == rest;
    } else if (c as int) < 0x10000 {
      HexEscapeOf(c, 4, rest, 'u');
      assert t[6..] == rest;
    } else {
      HexEscapeOf(c, 8, rest, 'U');
      assert t[10..] == rest;
    }
  }

  lemma {:induction false} UnescapeAll(s: string, q: char)
    requires q == '\'' || q == '"'
    ensures Unescape(EscapeAll(s, q)) == Some(s)
  {
    if |s| > 0 {
      UnescapeAll(s[1..], q);
      UnescapeOne(s[0], q, EscapeAll(s[1..], q));
      assert [s[0]] + s[1..] == s;
    }
  }

  /** Reading `repr(s)` back gives `s`: the quoting loses nothing, so
      distinct keys and values give distinct literals. */
  lemma ReprRoundTrip(s: string)
    ensures UnRepr(Repr(s)) == Some(s)
  {
    var q := QuoteFor(s);
    var body := [q] + EscapeAll(s, q) + [q];
    assert Repr(s) == body || Repr(s) == "u" + body;
    QuotedRoundTrip(s, q, body);
  }

  lemma QuotedRoundTrip(s: string, q: char, body: string)
    requires q == '\'' || q == '"'
    requires body == [q] + EscapeAll(s, q) + [q]
    ensures UnRepr(body) == Some(s) && UnRepr("u" + body) == Some(s)
  {
    UnescapeAll(s, q);
    assert body[1..|body| - 1] == EscapeAll(s, q);
    assert ("u" + body)[1..] == body;
  }

  // ------------------------------------------------------------ conditions

  /** `sep.join(xs)` with a separator of several characters. */
  function JoinStr(xs: seq<string>, sep: string): string
  {
    if |xs| == 0 then "" else if |xs| == 1 then xs[0] else xs[0] + sep + JoinStr(xs[1..], sep)
  }

  /** One condition of the WHERE clause, on a row of a tags table. */
  datatype Cond = KeyIn(keys: seq<string>) | KeyNotIn(keys: seq<string>) | ValueIn(values: seq<string>)

  function ReprAll(xs: seq<string>): (r: seq<string>)
    ensures |r| == |xs|
  {
    if |xs| == 0 then [] else [Repr(xs[0])] + ReprAll(xs[1..])
  }

  /** How a condition is written into the query. */
  function Render(c: Cond): string
  {
    match c
    case KeyIn(keys) => "k IN (" + JoinStr(ReprAll(keys), ", ") + ")"
    case KeyNotIn(keys) => "k NOT IN (" + JoinStr(ReprAll(keys), ", ") + ")"
    case ValueIn(values) => "v IN (" + JoinStr(ReprAll(values), ", ") + ")"
  }

  function RenderAll(cs: seq<Cond>): (r: seq<string>)
    ensures |r| == |cs|
  {
    if |cs| == 0 then [] else [Render(cs[0])] + RenderAll(cs[1..])
  }

  /** The conditions one rule contributes: a `~` value gives one
      NOT IN on the keys; otherwise an IN on the keys unless the key
      text holds `*`, and an IN on the values unless the value is `*`.
      `attrib['k']` is read first, so a rule missing both is a KeyError
      either way. */
  function RuleConds(a: Attrib): (r: Result<seq<Cond>>)
    ensures r.Fail? <==> "k" !in a || "v" !in a
    ensures r.Fail? ==> r.failure == KeyError
    ensures r.Ok? && a["v"] == "~" ==> r.value == [KeyNotIn(Split(a["k"], '|'))]
    ensures r.Ok? && a["v"] != "~" ==>
      |r.value| == (if '*' in a["k"] then 0 else 1) + (if a["v"] == "*" then 0 else 1)
      && (KeyIn(Split(a["k"], '|')) in r.value <==> '*' !in a["k"])
      && (ValueIn(Split(a["v"], '|')) in r.value <==> a["v"] != "*")
      && forall i :: 0 <= i < |r.value| ==> !r.value[i].KeyNotIn?
  {
    if "k" !in a then Fail(KeyError)
    else
      var keys := Split(a["k"], '|');
      if "v" !in a then Fail(KeyError)
      else if a["v"] == "~" then Ok([KeyNotIn(keys)])
      else Ok((if '*' !in a["k"] then [KeyIn(keys)] else []) + (if a["v"] != "*" then [ValueIn(Split(a["v"], '|'))] else []))
  }

  /** The conditions of the whole rule stack, in stack order. */
  function StackConds(stack: seq<Attrib>): (r: Result<seq<Cond>>)
    ensures r.Fail? ==> r.failure == KeyError
  {
    if |stack| == 0 then Ok([])
    else
      var front :- StackConds(stack[..|stack| - 1]);
      var last :- RuleConds(stack[|stack| - 1]);
      Ok(front + last)
  }

  /** `_make_query(table, id)`. */
  function Query(stack: seq<Attrib>, table: string, id: string): (r: Result<string>)
    ensures r.Fail? <==> StackConds(stack).Fail?
    ensures r.Ok? ==> r.value == "SELECT " + id + " FROM " + table + " WHERE " + JoinStr(RenderAll(StackConds(stack).value), " AND ")
  {
    var cs :- StackConds(stack);
    Ok("SELECT " + id + " FROM " + table + " WHERE " + JoinStr(RenderAll(cs), " AND "))
  }

  // ------------------------------------------------------------ what a query selects

  /** Whether a row (key `k`, value `v`) of a tags table meets a condition. */
  predicate Holds(c: Cond, k: string, v: string)
  {
    match c
    case KeyIn(keys) => k in keys
    case KeyNotIn(keys) => k !in keys
    case ValueIn(values) => v in values
  }

  /** Whether a row meets every condition of the WHERE clause. */
  predicate RowSelected(cs: seq<Cond>, k: string, v: string)
  {
    forall i :: 0 <= i < |cs| ==> Holds(cs[i], k, v)
  }

  /** Every character of a piece of `s.split(sep)` is a character of `s`. */
  lemma {:induction false} SplitChars(s: string, sep: char, c: char)
    requires c !in s
    ensures forall i :: 0 <= i < |Split(s, sep)| ==> c !in Split(s, sep)[i]
    decreases |s|
  {
    if |s| > 0 {
      assert forall j :: 0 <= j < |s[1..]| ==> s[1..][j] == s[j + 1];
      SplitChars(s[1..], sep, c);
    }
  }

  /** For a single rule with plain keys (no `*`, no `~`) and a value that
      is `*` or a list of plain values, the query selects an element
      (some tag row meets the conditions) exactly when the rule file's
      matcher fires for the element's tags. */
  lemma SelectsAsRuleFires(a: Attrib, tags: Tags)
    requires "k" in a && "v" in a && '*' !in a["k"] && "~" !in Split(a["k"], '|')
    requires a["v"] == "*" || ('*' !in a["v"] && '~' !in a["v"])
    ensures RuleConds(a).Ok?
    ensures (exists k :: k in tags && RowSelected(RuleConds(a).value, k, tags[k]))
            <==> Found(Split(a["k"], '|'), Split(a["v"], '|'), tags)
  {
    var keys := Split(a["k"], '|');
    var values := Split(a["v"], '|');
    NoPiece(a["k"], '*');
    if a["v"] == "*" {
      SplitPrefix(a["v"], [], '|');
      assert a["v"] + [] == a["v"];
      assert values == ["*"];
    } else {
      NoPiece(a["v"], '*');
      NoPiece(a["v"], '~');
    }
    ConditionsAsKeys(keys, values, RuleConds(a).value, tags);
  }

  /** A character missing from `s` is no whole piece of `s.split('|')`. */
  lemma NoPiece(s: string, c: char)
    requires c !in s
    ensures [c] !in Split(s, '|')
  {
    SplitChars(s, '|', c);
    var ps := Split(s, '|');
    forall i | 0 <= i < |ps| ensures ps[i] != [c] {
      assert c !in ps[i];
      assert [c][0] == c;
    }
  }

  /** The two shapes of a plain rule's conditions against the matcher. */
  lemma ConditionsAsKeys(keys: seq<string>, values: seq<string>, cs: seq<Cond>, tags: Tags)
    requires "*" !in keys && "~" !in keys
    requires (values == ["*"] && cs == [KeyIn(keys)])
          || ("*" !in values && "~" !in values && cs == [KeyIn(keys), ValueIn(values)])
    ensures (exists k :: k in tags && RowSelected(cs, k, tags[k])) <==> Found(keys, values, tags)
  {
    if exists k :: k in tags && RowSelected(cs, k, tags[k]) {
      var k :| k in tags && RowSelected(cs, k, tags[k]);
      assert Holds(cs[0], k, tags[k]);
      var i :| 0 <= i < |keys| && keys[i] == k;
      if |cs| == 2 {
        assert Holds(cs[1], k, tags[k]);
      }
      assert KeyMatches(keys[i], values, tags);
    }
    if Found(keys, values, tags) {
      var i :| 0 <= i < |keys| && KeyMatches(keys[i], values, tags);
      var k := keys[i];
      assert k in tags;
      assert RowSelected(cs, k, tags[k]);
    }
  }

  // ------------------------------------------------------------ end of a statement

  /** `element = rulestack[0]['e']` and the check that every stacked rule
      names that element: an empty stack is an IndexError, a rule
      without `e` a KeyError, a different one a ValueError, whichever
      comes first. */
  function SameElement(stack: seq<Attrib>): (r: Result<string>)
    ensures |stack| == 0 ==> r == Fail(IndexError)
    ensures r.Ok? <==> |stack| > 0 && "e" in stack[0] && forall i :: 0 <= i < |stack| ==> "e" in stack[i] && stack[i]["e"] == stack[0]["e"]
    ensures r.Ok? ==> r.value == stack[0]["e"]
    ensures |stack| > 0 && (forall i :: 0 <= i < |stack| ==> "e" in stack[i]) && r.Fail? ==> r == Fail(ValueError)
  {
    if |stack| == 0 then Fail(IndexError)
    else if "e" !in stack[0] then Fail(KeyError)
    else CheckRest(stack, 1, stack[0]["e"])
  }

  /** The loop over `rulestack[1:]` from index `i` on. */
  function CheckRest(stack: seq<Attrib>, i: nat, element: string): (r: Result<string>)
    requires 1 <= i <= |stack|
    ensures r.Ok? <==> forall j :: i <= j < |stack| ==> "e" in stack[j] && stack[j]["e"] == element
    ensures r.Ok? ==> r.value == element
    ensures (forall j :: i <= j < |stack| ==> "e" in stack[j]) && r.Fail? ==> r == Fail(ValueError)
    decreases |stack| - i
  {
    if i == |stack| then Ok(element)
    else if "e" !in stack[i] then Fail(KeyError)
    else if stack[i]["e"] != element then Fail(ValueError)
    else CheckRest(stack, i + 1, element)
  }

  /** An entry of `result`: the statement, its element kind and its query. */
  datatype Entry = Entry(statement: Elem, element: string, query: string)

  /** The statements the builder collects. */
  const StatementTags: seq<string> := ["polygon", "polyline", "point", "poi"]

  /** What `end` of a statement appends: ways are looked up in
      `way_tags` by `way_id`, nodes in `node_tags` by `node_id`; any
      other element leaves `query` unassigned, and a statement end with
      no statement started reads a missing attribute. */
  function Finish(stack: seq<Attrib>, statement: Option<Elem>): (r: Result<Entry>)
    ensures r.Ok? ==> SameElement(stack) == Ok(r.value.element) && statement == Some(r.value.statement)
    ensures r.Ok? && r.value.element == "way" ==> Query(stack, "way_tags", "way_id") == Ok(r.value.query)
    ensures r.Ok? && r.value.element == "node" ==> Query(stack, "node_tags", "node_id") == Ok(r.value.query)
    ensures r.Ok? ==> r.value.element in {"way", "node"}
    ensures SameElement(stack).Ok? && SameElement(stack).value !in {"way", "node"} ==> r == Fail(UnboundLocalError)
    ensures SameElement(stack).Fail? ==> r == Fail(SameElement(stack).failure)
  {
    var element :- SameElement(stack);
    var query :-
      if element == "way" then Query(stack, "way_tags", "way_id")
      else if element == "node" then Query(stack, "node_tags", "node_id")
      else Fail(UnboundLocalError);
    if statement.None? then Fail(AttributeError) else Ok(Entry(statement.value, element, query))
  }

  // ------------------------------------------------------------ the parser target

  /** `SQLBuilder`: the stack of open rules, the entries so far and the
      statement last started (None before the first one). */
  class SQLBuilder {
    var rulestack: seq<Attrib>
    var result: seq<Entry>
    var statement: Option<Elem>

    constructor ()
      ensures rulestack == [] && result == [] && statement == None
    {
      rulestack := [];
      result := [];
      statement := None;
    }

    /** `start`: a rule's attributes are pushed; a statement tag starts a
        new statement element; other tags change nothing. */
    method Start(tag: string, attrib: Attrib)
      modifies this
      ensures tag == "rule" ==> rulestack == old(rulestack) + [attrib] && statement == old(statement)
      ensures tag != "rule" && tag in StatementTags ==> statement == Some(Elem(tag, attrib, [])) && rulestack == old(rulestack)
      ensures tag != "rule" && tag !in StatementTags ==> rulestack == old(rulestack) && statement == old(statement)
      ensures result == old(result)
    {
      if tag == "rule" {
        rulestack := rulestack + [attrib];
      } else if tag in StatementTags {
        statement := Some(Elem(tag, attrib, []));
      }
    }

    /** `end`: a statement tag appends its entry; a rule tag pops the
        stack. On an exception nothing has changed. */
    method End(tag: string) returns (err: Option<Failure>)
      modifies this
      ensures statement == old(statement)
      ensures tag in StatementTags ==>
        match Finish(old(rulestack), old(statement))
        case Ok(entry) => err == None && result == old(result) + [entry] && rulestack == old(rulestack)
        case Fail(f) => err == Some(f) && result == old(result) && rulestack == old(rulestack)
      ensures tag == "rule" ==>
        result == old(result)
        && (if |old(rulestack)| == 0 then err == Some(IndexError) && rulestack == old(rulestack)
            else err == None && rulestack == old(rulestack)[..|old(rulestack)| - 1])
      ensures tag != "rule" && tag !in StatementTags ==> err == None && result == old(result) && rulestack == old(rulestack)
    {
      err := None;
      if tag in StatementTags {
        var entry := Finish(rulestack, statement);
        if entry.Fail? {
          return Some(entry.failure);
        }
        result := result + [entry.value];
      }
      if tag == "rule" {
        if |rulestack| == 0 {
          return Some(IndexError);
        }
        rulestack := rulestack[..|rulestack| - 1];
      }
    }

    /** `_make_query` as the source writes it: a loop over the stacked
        rules collecting the conditions. */
    method MakeQuery(table: string, id: string) returns (r: Result<string>)
      ensures r == Query(rulestack, table, id)
    {
      var conditions: seq<Cond> := [];
      var i := 0;
      while i < |rulestack|
        invariant 0 <= i <= |rulestack|
        invariant StackConds(rulestack[..i]) == Ok(conditions)
      {
        var a := rulestack[i];
        if "k" !in a || "v" !in a {
          PrefixConds(rulestack, i + 1);
          assert rulestack[..i + 1][..i] == rulestack[..i];
          return Fail(KeyError);
        }
        var keys := Split(a["k"], '|');
        var added: seq<Cond> := [];
        if a["v"] == "~" {
          added := [KeyNotIn(keys)];
        } else {
          if '*' !in a["k"] {
            added := added + [KeyIn(keys)];
          }
          if a["v"] != "*" {
            added := added + [ValueIn(Split(a["v"], '|'))];
          }
          assert added == (if '*' !in a["k"] then [KeyIn(keys)] else []) + (if a["v"] != "*" then [ValueIn(Split(a["v"], '|'))] else []);
        }
        assert rulestack[..i + 1][..i] == rulestack[..i];
        conditions := conditions + added;
        i := i + 1;
      }
      assert rulestack[..i] == rulestack;
      r := Ok("SELECT " + id + " FROM " + table + " WHERE " + JoinStr(RenderAll(conditions), " AND "));
    }
  }

  /** A rule without `k` or `v` in the stack makes the whole query a KeyError. */
  lemma {:induction false} PrefixConds(stack: seq<Attrib>, n: nat)
    requires 1 <= n <= |stack| && ("k" !in stack[n - 1] || "v" !in stack[n - 1])
    ensures StackConds(stack) == Fail(KeyError)
    decreases |stack|
  {
    if n < |stack| {
      PrefixConds(stack[..|stack| - 1], n);
    }
  }
}
