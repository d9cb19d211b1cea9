/** The rule-file interpreter that turns an OSM element into the Magellan
    control statements it matches (osmmagellan/osmrules.py): the recursive
    `applyRules` walk over `rule`/`else` elements, `filterOSMElement`,
    `set_visibility` reading the zoom ranges of a layer and `indent`.
    An ElementTree element is a value here: a tag, its attributes and its
    children; text and tails are never read by this code. */
module OsmRules {
  import opened Wrappers
  import opened PyStr
  import LayerStyles

  datatype Elem = Elem(tag: string, attrs: map<string, string>, children: seq<Elem>)

  /** The tags of an OSM element. */
  type Tags = map<string, string>

  /** `x.get(name)`. */
  function Get(x: Elem, name: string): Option<string>
  {
    if name in x.attrs then Some(x.attrs[name]) else None
  }

  /** The truth value of an ElementTree element: it has children. */
  predicate Truthy(x: Elem)
  {
    |x.children| > 0
  }

  /** `x.find(tag)` with a plain tag: the first child carrying it. */
  function FindChild(cs: seq<Elem>, tag: string): (r: Option<Elem>)
    ensures r.None? <==> forall i :: 0 <= i < |cs| ==> cs[i].tag != tag
    ensures r.Some? ==> r.value in cs && r.value.tag == tag
  {
    if |cs| == 0 then None else if cs[0].tag == tag then Some(cs[0]) else FindChild(cs[1..], tag)
  }

  /** Children in front of the one looked for do not change what `find` returns. */
  lemma {:induction false} FindChildAfter(cs: seq<Elem>, more: seq<Elem>, tag: string)
    requires forall i :: 0 <= i < |cs| ==> cs[i].tag != tag
    ensures FindChild(cs + more, tag) == FindChild(more, tag)
  {
    if |cs| > 0 {
      assert (cs + more)[1..] == cs[1..] + more;
      FindChildAfter(cs[1..], more, tag);
    } else {
      assert cs + more == more;
    }
  }

  // ------------------------------------------------------------ matching

  /** One key of a rule against the tags: the key carries one of the
      listed values (or the values hold `*`), the key is `~` and there
      are no tags, the values hold `~` and the key is absent, or the key
      is `*` and some tag value is listed. */
  predicate KeyMatches(key: string, values: seq<string>, tags: Tags)
  {
    (key in tags && (tags[key] in values || "*" in values))
    || (key == "~" && |tags| == 0)
    || ("~" in values && key !in tags)
    || (key == "*" && exists t :: t in tags && tags[t] in values)
  }

  /** The `found` flag: some key of the rule matches. */
  predicate Found(keys: seq<string>, values: seq<string>, tags: Tags)
  {
    exists i :: 0 <= i < |keys| && KeyMatches(keys[i], values, tags)
  }

  /** Whether a rule element fires for element name `e`: only a rule
      naming `e` is looked at, and its `k` and `v` attributes are split
      on `|`; a missing one is `None.split`, an AttributeError. */
  function RuleFires(rule: Elem, e: string, tags: Tags): (r: Result<bool>)
    ensures r.Fail? <==> Get(rule, "e") == Some(e) && ("k" !in rule.attrs || "v" !in rule.attrs)
    ensures r.Fail? ==> r.failure == AttributeError
    ensures r == Ok(true) ==> Get(rule, "e") == Some(e)
  {
    if Get(rule, "e") != Some(e) then Ok(false)
    else if "k" !in rule.attrs || "v" !in rule.attrs then Fail(AttributeError)
    else Ok(Found(Split(rule.attrs["k"], '|'), Split(rule.attrs["v"], '|'), tags))
  }

  /** With no tags at all only `~` can match: a `~` key, or `~` among
      the values. */
  lemma EmptyTagsMatch(keys: seq<string>, values: seq<string>)
    requires |keys| >= 1
    ensures Found(keys, values, map[]) <==> "~" in keys || "~" in values
  {
    if "~" in keys {
      var i :| 0 <= i < |keys| && keys[i] == "~";
      assert KeyMatches(keys[i], values, map[]);
    } else if "~" in values {
      assert KeyMatches(keys[0], values, map[]);
    }
  }

  /** A rule whose keys are written `k1|k2|…` fires exactly when one of
      the keys, taken as a rule of its own, fires. */
  lemma AlternativeKeys(rule: Elem, keys: seq<string>, v: string, e: string, tags: Tags)
    requires |keys| >= 1 && FreeOf(keys, '|')
    requires rule.attrs == map["e" := e, "k" := Join(keys, '|'), "v" := v]
    ensures RuleFires(rule, e, tags) == Ok(exists i :: 0 <= i < |keys| && Found([keys[i]], Split(v, '|'), tags))
  {
    SplitJoin(keys, '|');
    var vs := Split(v, '|');
    if Found(keys, vs, tags) {
      var i :| 0 <= i < |keys| && KeyMatches(keys[i], vs, tags);
      assert [keys[i]][0] == keys[i];
    }
    if exists i :: 0 <= i < |keys| && Found([keys[i]], vs, tags) {
      var i :| 0 <= i < |keys| && Found([keys[i]], vs, tags);
      var j :| 0 <= j < 1 && KeyMatches([keys[i]][j], vs, tags);
      assert KeyMatches(keys[i], vs, tags);
    }
  }

  // ------------------------------------------------------------ applyRules

  /** A child the walk collects: neither a rule nor an else. */
  predicate IsStatement(x: Elem)
  {
    x.tag != "rule" && x.tag != "else"
  }

  /** `applyRules(rules, e, tags)`: the statements among the children,
      in document order, up to the first rule that fires, followed by
      what that rule's own children give; an `else` takes over when the
      child before it is a rule with children, and is a ValueError
      otherwise. */
  function Apply(rules: Elem, e: string, tags: Tags): (r: Result<seq<Elem>>)
    ensures r.Ok? ==> forall i :: 0 <= i < |r.value| ==> IsStatement(r.value[i])
    decreases rules, 1
  {
    ApplyFrom(rules, 0, e, tags)
  }

  /** The loop of `applyRules` from child `i` on; the child before `i`
      plays `lastruleelem`. */
  function ApplyFrom(rules: Elem, i: nat, e: string, tags: Tags): (r: Result<seq<Elem>>)
    requires i <= |rules.children|
    ensures r.Ok? ==> forall k :: 0 <= k < |r.value| ==> IsStatement(r.value[k])
    decreases rules, 0, |rules.children| - i
  {
    if i == |rules.children| then Ok([])
    else
      var c := rules.children[i];
      if c.tag == "rule" then
        var fires :- RuleFires(c, e, tags);
        if fires then Apply(c, e, tags) else ApplyFrom(rules, i + 1, e, tags)
      else if c.tag == "else" then
        if i > 0 && Truthy(rules.children[i - 1]) && rules.children[i - 1].tag == "rule" then Apply(c, e, tags)
        else Fail(ValueError)
      else
        var rest :- ApplyFrom(rules, i + 1, e, tags);
        Ok([c] + rest)
  }

  /** The statements among some children, in order. */
  function Statements(cs: seq<Elem>): (r: seq<Elem>)
    ensures forall k :: 0 <= k < |r| ==> IsStatement(r[k]) && r[k] in cs
  {
    if |cs| == 0 then [] else (if IsStatement(cs[0]) then [cs[0]] else []) + Statements(cs[1..])
  }

  /** `result + applyRules(...)`: statements put in front of a result. */
  function Prepend(front: seq<Elem>, r: Result<seq<Elem>>): Result<seq<Elem>>
  {
    match r
    case Ok(s) => Ok(front + s)
    case Fail(f) => Fail(f)
  }

  /** A child the walk steps over: a statement, or a rule that does not fire. */
  predicate Passes(c: Elem, e: string, tags: Tags)
  {
    c.tag != "else" && (c.tag == "rule" ==> RuleFires(c, e, tags) == Ok(false))
  }

  /** Over children that all pass, the walk collects their statements. */
  lemma {:induction false} SkipPassing(rules: Elem, i: nat, j: nat, e: string, tags: Tags)
    requires i <= j <= |rules.children|
    requires forall k :: i <= k < j ==> Passes(rules.children[k], e, tags)
    ensures ApplyFrom(rules, i, e, tags) == Prepend(Statements(rules.children[i..j]), ApplyFrom(rules, j, e, tags))
    decreases j - i
  {
    var cs := rules.children;
    if i == j {
      assert cs[i..j] == [];
      match ApplyFrom(rules, j, e, tags) {
        case Ok(s) => assert [] + s == s;
        case Fail(_) =>
      }
    } else {
      SkipPassing(rules, i + 1, j, e, tags);
      assert cs[i..j][0] == cs[i];
      assert cs[i..j][1..] == cs[i + 1..j];
      var front := Statements(cs[i + 1..j]);
      match ApplyFrom(rules, j, e, tags) {
        case Ok(s) =>
          if IsStatement(cs[i]) {
            assert [cs[i]] + (front + s) == ([cs[i]] + front) + s;
          } else {
            assert [] + front == front;
          }
        case Fail(_) =>
      }
    }
  }

  /** When no rule fires and there is no else, the result is exactly the
      statements among the children, in document order. */
  lemma NoRuleFires(rules: Elem, e: string, tags: Tags)
    requires forall k :: 0 <= k < |rules.children| ==> Passes(rules.children[k], e, tags)
    ensures Apply(rules, e, tags) == Ok(Statements(rules.children))
  {
    SkipPassing(rules, 0, |rules.children|, e, tags);
    assert rules.children[0..|rules.children|] == rules.children;
    assert Statements(rules.children) + [] == Statements(rules.children);
  }

  /** The first rule that fires ends the walk: the statements in front of
      it, then what its own children give. */
  lemma FirstMatch(rules: Elem, j: nat, e: string, tags: Tags)
    requires j < |rules.children|
    requires forall k :: 0 <= k < j ==> Passes(rules.children[k], e, tags)
    requires rules.children[j].tag == "rule" && RuleFires(rules.children[j], e, tags) == Ok(true)
    ensures Apply(rules, e, tags) == Prepend(Statements(rules.children[..j]), Apply(rules.children[j], e, tags))
  {
    SkipPassing(rules, 0, j, e, tags);
    assert rules.children[0..j] == rules.children[..j];
  }

  /** An else right after a rule with children that did not fire takes
      over the walk. */
  lemma ElseAfterRule(rules: Elem, j: nat, e: string, tags: Tags)
    requires 0 < j < |rules.children|
    requires forall k :: 0 <= k < j ==> Passes(rules.children[k], e, tags)
    requires rules.children[j].tag == "else"
    requires rules.children[j - 1].tag == "rule" && Truthy(rules.children[j - 1])
    ensures Apply(rules, e, tags) == Prepend(Statements(rules.children[..j]), Apply(rules.children[j], e, tags))
  {
    SkipPassing(rules, 0, j, e, tags);
    assert rules.children[0..j] == rules.children[..j];
  }

  /** An else reached with no rule with children just before it is a
      ValueError. */
  lemma ElseWithoutRule(rules: Elem, j: nat, e: string, tags: Tags)
    requires j < |rules.children|
    requires forall k :: 0 <= k < j ==> Passes(rules.children[k], e, tags)
    requires rules.children[j].tag == "else"
    requires j == 0 || rules.children[j - 1].tag != "rule" || !Truthy(rules.children[j - 1])
    ensures Apply(rules, e, tags) == Fail(ValueError)
  {
    SkipPassing(rules, 0, j, e, tags);
  }

  // ------------------------------------------------------------ filterOSMElement

  /** `OSMMagRules.filterOSMElement`: the statements the `rules` child of
      the rule file gives, wrapped in a `result` element, or None when
      there are none. A rule file without `rules` hands None to
      `applyRules`, an AttributeError. */
  function FilterOSMElement(root: Elem, e: string, tags: Tags): (r: Result<Option<Elem>>)
    ensures FindChild(root.children, "rules").None? ==> r == Fail(AttributeError)
    ensures FindChild(root.children, "rules").Some? ==>
      var applied := Apply(FindChild(root.children, "rules").value, e, tags);
      (r == Ok(None) <==> applied == Ok([]))
      && (r.Ok? && r.value.Some? ==> applied == Ok(r.value.value.children))
      && (applied.Fail? ==> r == Fail(applied.failure))
    ensures r.Ok? && r.value.Some? ==>
      r.value.value.tag == "result" && Truthy(r.value.value)
      && forall k :: 0 <= k < |r.value.value.children| ==> IsStatement(r.value.value.children[k])
  {
    match FindChild(root.children, "rules")
    case None => Fail(AttributeError)
    case Some(rules) =>
      var elements :- Apply(rules, e, tags);
      if |elements| == 0 then Ok(None) else Ok(Some(Elem("result", map[], elements)))
  }

  // ------------------------------------------------------------ set_visibility

  /** `(int(r.get('from')), int(r.get('to')))`: a missing attribute is
      `int(None)`, a TypeError. */
  function ReadRange(x: Elem): (r: Result<LayerStyles.Span>)
    ensures r.Ok? <==> "from" in x.attrs && "to" in x.attrs
                       && ParseInt(x.attrs["from"]).Ok? && ParseInt(x.attrs["to"]).Ok?
    ensures r.Ok? ==> r.value.lo == ParseInt(x.attrs["from"]).value && r.value.hi == ParseInt(x.attrs["to"]).value
    ensures "from" !in x.attrs ==> r == Fail(TypeError)
  {
    if "from" !in x.attrs then Fail(TypeError)
    else
      var lo :- ParseInt(x.attrs["from"]);
      if "to" !in x.attrs then Fail(TypeError)
      else
        var hi :- ParseInt(x.attrs["to"]);
        Ok(LayerStyles.Span(lo, hi))
  }

  /** The `range` children of an element, read in order. */
  function ReadRanges(cs: seq<Elem>): (r: Result<seq<LayerStyles.Span>>)
    ensures r.Ok? ==> |r.value| <= |cs|
  {
    if |cs| == 0 then Ok([])
    else if cs[0].tag != "range" then ReadRanges(cs[1..])
    else
      var s :- ReadRange(cs[0]);
      var rest :- ReadRanges(cs[1..]);
      Ok([s] + rest)
  }

  /** `getranges`: the ranges of one visibility element, which must
      number exactly 5. */
  function GetRanges(x: Elem): (r: Result<seq<LayerStyles.Span>>)
    ensures r.Ok? ==> |r.value| == 5
    ensures ReadRanges(x.children).Ok? && |ReadRanges(x.children).value| != 5 ==> r == Fail(ValueError)
  {
    var rs :- ReadRanges(x.children);
    if |rs| != 5 then Fail(ValueError) else Ok(rs)
  }

  /** The ranges the child `name` of an element sets, or None when that
      child is missing or has no children. */
  function Visibility(x: Elem, name: string): (r: Result<Option<seq<LayerStyles.Span>>>)
    ensures r.Ok? && r.value.Some? ==> |r.value.value| == 5
    ensures (FindChild(x.children, name).None? || !Truthy(FindChild(x.children, name).value)) ==> r == Ok(None)
  {
    match FindChild(x.children, name)
    case None => Ok(None)
    case Some(v) =>
      if !Truthy(v) then Ok(None)
      else
        var rs :- GetRanges(v);
        Ok(Some(rs))
  }

  function OrElse(o: Option<seq<LayerStyles.Span>>, d: seq<LayerStyles.Span>): seq<LayerStyles.Span>
  {
    if o.Some? then o.value else d
  }

  /** `set_visibility(layerstyle, element)`: each of the three visibility
      children present sets its range list of five; colour and style are
      untouched. */
  function SetVisibility(st: LayerStyles.LayerStyle, x: Elem): (r: Result<LayerStyles.LayerStyle>)
    ensures r.Ok? ==> r.value.color == st.color && r.value.style == st.style
    ensures r.Ok? ==>
      && (r.value.visiblerange == st.visiblerange || |r.value.visiblerange| == 5)
      && (r.value.labelrange == st.labelrange || |r.value.labelrange| == 5)
      && (r.value.hidebasemaprange == st.hidebasemaprange || |r.value.hidebasemaprange| == 5)
    ensures st.Levels5() && r.Ok? ==> r.value.Levels5()
  {
    var a :- Visibility(x, "layervisibility");
    var b :- Visibility(x, "labelvisibility");
    var c :- Visibility(x, "basemapvisibility");
    Ok(st.(visiblerange := OrElse(a, st.visiblerange), labelrange := OrElse(b, st.labelrange),
           hidebasemaprange := OrElse(c, st.hidebasemaprange)))
  }

  /** `get_visibility`'s `range` children for one range list. */
  function RangeElems(rs: seq<LayerStyles.Span>): (r: seq<Elem>)
    ensures |r| == |rs|
  {
    if |rs| == 0 then []
    else [Elem("range", map["from" := IntStr(rs[0].lo), "to" := IntStr(rs[0].hi)], [])] + RangeElems(rs[1..])
  }

  /** The three elements `get_visibility` appends to a layer element. */
  function GetVisibility(st: LayerStyles.LayerStyle): seq<Elem>
  {
    [Elem("layervisibility", map[], RangeElems(st.visiblerange)),
     Elem("labelvisibility", map[], RangeElems(st.labelrange)),
     Elem("basemapvisibility", map[], RangeElems(st.hidebasemaprange))]
  }

  /** A `range` element written from a level reads back as it. */
  lemma RangeElemRead(sp: LayerStyles.Span)
    ensures ReadRange(Elem("range", map["from" := IntStr(sp.lo), "to" := IntStr(sp.hi)], [])) == Ok(sp)
  {
    ParseIntStr(sp.lo);
    ParseIntStr(sp.hi);
  }

  lemma {:induction false} RangeElemsRead(rs: seq<LayerStyles.Span>)
    ensures ReadRanges(RangeElems(rs)) == Ok(rs)
  {
    if |rs| > 0 {
      var cs := RangeElems(rs);
      assert cs[1..] == RangeElems(rs[1..]);
      RangeElemRead(rs[0]);
      RangeElemsRead(rs[1..]);
      assert [rs[0]] + rs[1..] == rs;
    }
  }

  /** A visibility child written from five ranges reads back as them. */
  lemma VisibilityWritten(x: Elem, name: string, rs: seq<LayerStyles.Span>)
    requires |rs| == 5
    requires FindChild(x.children, name) == Some(Elem(name, map[], RangeElems(rs)))
    ensures Visibility(x, name) == Ok(Some(rs))
  {
    RangeElemsRead(rs);
  }

  /** `find` returns the child at `k` when it is the first with its tag. */
  lemma FindChildAt(cs: seq<Elem>, k: nat, tag: string)
    requires k < |cs| && cs[k].tag == tag
    requires forall j :: 0 <= j < k ==> cs[j].tag != tag
    ensures FindChild(cs, tag) == Some(cs[k])
  {
    FindChildAfter(cs[..k], cs[k..], tag);
    assert cs[..k] + cs[k..] == cs;
  }

  /** No child of a layer element is one of the visibility elements. */
  predicate NoVisibility(cs: seq<Elem>)
  {
    forall i :: 0 <= i < |cs| ==>
      cs[i].tag != "layervisibility" && cs[i].tag != "labelvisibility" && cs[i].tag != "basemapvisibility"
  }

  /** The three visibility tags differ from each other. */
  lemma VisibilityTagsDiffer()
    ensures "layervisibility" != "labelvisibility" && "layervisibility" != "basemapvisibility"
    ensures "labelvisibility" != "basemapvisibility"
  {
    assert "layervisibility"[2] == 'y' && "labelvisibility"[2] == 'b';
    assert |"layervisibility"| == 15 && |"labelvisibility"| == 15 && |"basemapvisibility"| == 17;
  }

  /** `find` on children with more appended reaches the appended child
      at `k` when nothing before it has its tag. */
  lemma FindAppended(cs: seq<Elem>, g: seq<Elem>, k: nat, tag: string)
    requires k < |g| && g[k].tag == tag
    requires forall j :: 0 <= j < |cs| ==> cs[j].tag != tag
    requires forall j :: 0 <= j < k ==> g[j].tag != tag
    ensures FindChild(cs + g, tag) == Some(g[k])
  {
    FindChildAfter(cs, g, tag);
    FindChildAt(g, k, tag);
  }

  /** `set_visibility` on an element whose three visibility children
      each hold five ranges takes over all three lists. */
  lemma SetAllThree(st0: LayerStyles.LayerStyle, y: Elem, a: seq<LayerStyles.Span>, b: seq<LayerStyles.Span>,
                    c: seq<LayerStyles.Span>)
    requires Visibility(y, "layervisibility") == Ok(Some(a))
    requires Visibility(y, "labelvisibility") == Ok(Some(b))
    requires Visibility(y, "basemapvisibility") == Ok(Some(c))
    ensures SetVisibility(st0, y) == Ok(st0.(visiblerange := a, labelrange := b, hidebasemaprange := c))
  {
  }

  /** An appended visibility child at `k`, first with its tag, reads
      back as the range list it was written from. */
  lemma ReadsBack(x: Elem, g: seq<Elem>, k: nat, rs: seq<LayerStyles.Span>)
    requires k < |g| && |rs| == 5 && g[k] == Elem(g[k].tag, map[], RangeElems(rs))
    requires forall j :: 0 <= j < |x.children| ==> x.children[j].tag != g[k].tag
    requires forall j :: 0 <= j < k ==> g[j].tag != g[k].tag
    ensures Visibility(x.(children := x.children + g), g[k].tag) == Ok(Some(rs))
  {
    FindAppended(x.children, g, k, g[k].tag);
    VisibilityWritten(x.(children := x.children + g), g[k].tag, rs);
  }

  /** Each range list `get_visibility` writes reads back from the layer
      element it was appended to. */
  lemma ReadsBackLayer(st: LayerStyles.LayerStyle, x: Elem)
    requires st.Levels5() && NoVisibility(x.children)
    ensures Visibility(x.(children := x.children + GetVisibility(st)), "layervisibility") == Ok(Some(st.visiblerange))
  {
    ReadsBack(x, GetVisibility(st), 0, st.visiblerange);
  }

  lemma ReadsBackLabel(st: LayerStyles.LayerStyle, x: Elem)
    requires st.Levels5() && NoVisibility(x.children)
    ensures Visibility(x.(children := x.children + GetVisibility(st)), "labelvisibility") == Ok(Some(st.labelrange))
  {
    VisibilityTagsDiffer();
    ReadsBack(x, GetVisibility(st), 1, st.labelrange);
  }

  lemma ReadsBackBasemap(st: LayerStyles.LayerStyle, x: Elem)
    requires st.Levels5() && NoVisibility(x.children)
    ensures Visibility(x.(children := x.children + GetVisibility(st)), "basemapvisibility") == Ok(Some(st.hidebasemaprange))
  {
    VisibilityTagsDiffer();
    ReadsBack(x, GetVisibility(st), 2, st.hidebasemaprange);
  }

  /** What `get_visibility` writes, `set_visibility` reads back: the three
      range lists of a style with five detail levels move over to any
      other style, whatever else the layer element holds. */
  lemma VisibilityRoundTrip(st0: LayerStyles.LayerStyle, st: LayerStyles.LayerStyle, x: Elem)
    requires st.Levels5() && NoVisibility(x.children)
    ensures SetVisibility(st0, x.(children := x.children + GetVisibility(st))) ==
      Ok(st0.(visiblerange := st.visiblerange, labelrange := st.labelrange, hidebasemaprange := st.hidebasemaprange))
  {
    ReadsBackLayer(st, x);
    ReadsBackLabel(st, x);
    ReadsBackBasemap(st, x);
    SetAllThree(st0, x.(children := x.children + GetVisibility(st)), st.visiblerange, st.labelrange, st.hidebasemaprange);
  }

  // ------------------------------------------------------------ indent

  function Spaces(n: int): (r: string)
    ensures |r| == if n < 0 then 0 else n
    ensures forall i :: 0 <= i < |r| ==> r[i] == ' '
  {
    if n <= 0 then "" else " " + Spaces(n - 1)
  }

  /** Every line with the prefix `p` in front. */
  function Prefixed(lines: seq<string>, p: string): (r: seq<string>)
    ensures |r| == |lines|
    ensures forall i :: 0 <= i < |lines| ==> r[i] == p + lines[i]
  {
    if |lines| == 0 then [] else [p + lines[0]] + Prefixed(lines[1..], p)
  }

  /** `indent(s, n)`: every line of `s` preceded by `n` spaces (none
      for a negative `n`). */
  function Indent(s: string, n: int): string
  {
    Join(Prefixed(Split(s, '\n'), Spaces(n)), '\n')
  }

  /** The lines of an indented string are the original lines with the
      spaces in front; there are as many of them. */
  lemma IndentLines(s: string, n: int)
    ensures Split(Indent(s, n), '\n') == Prefixed(Split(s, '\n'), Spaces(n))
  {
    var lines := Prefixed(Split(s, '\n'), Spaces(n));
    assert FreeOf(lines, '\n') by {
      forall i | 0 <= i < |lines| ensures '\n' !in lines[i] {
        assert lines[i] == Spaces(n) + Split(s, '\n')[i];
      }
    }
    SplitJoin(lines, '\n');
  }

  /** Each line with its first `n` characters removed. */
  function Dropped(lines: seq<string>, n: nat): (r: seq<string>)
    requires forall i :: 0 <= i < |lines| ==> n <= |lines[i]|
    ensures |r| == |lines|
    ensures forall i :: 0 <= i < |lines| ==> r[i] == lines[i][n..]
  {
    if |lines| == 0 then [] else [lines[0][n..]] + Dropped(lines[1..], n)
  }

  /** Removing the indentation line by line gives back the string. */
  lemma IndentUndone(s: string, n: nat)
    ensures var lines := Split(Indent(s, n), '\n');
            (forall i :: 0 <= i < |lines| ==> n <= |lines[i]|) && Join(Dropped(lines, n), '\n') == s
  {
    IndentLines(s, n);
    var orig := Split(s, '\n');
    var lines := Split(Indent(s, n), '\n');
    assert Dropped(lines, n) == orig by {
      forall i | 0 <= i < |orig| ensures Dropped(lines, n)[i] == orig[i] {
        assert lines[i] == Spaces(n) + orig[i];
      }
    }
    JoinSplit(s, '\n');
  }

  /** Three lines indented: each gets the spaces in front. */
  lemma IndentThree(a: string, b: string, c: string, n: int)
    requires '\n' !in a && '\n' !in b && '\n' !in c
    ensures Indent(a + "\n" + b + "\n" + c, n) == Spaces(n) + a + "\n" + (Spaces(n) + b) + "\n" + (Spaces(n) + c)
  {
    var lines := [a, b, c];
    assert Join(lines, '\n') == a + "\n" + b + "\n" + c by {
      assert lines[1..] == [b, c];
      assert lines[1..][1..] == [c];
      assert Join([b, c], '\n') == b + "\n" + c;
    }
    SplitJoin(lines, '\n');
    var sp := Spaces(n);
    var p := Prefixed(lines, sp);
    assert p == [sp + a, sp + b, sp + c];
    assert p[1..] == [sp + b, sp + c];
    assert p[1..][1..] == [sp + c];
    assert Join(p[1..], '\n') == sp + b + "\n" + (sp + c);
    assert Join(p, '\n') == sp + a + "\n" + Join(p[1..], '\n');
  }

  /** The documented example: `indent("apa\nrapa\nbapa", 4)`. */
  lemma IndentExample(s: string)
    requires s == "apa\nrapa\nbapa"
    ensures Indent(s, 4) == "    apa\n    rapa\n    bapa"
  {
    ExampleLines(s);
    IndentThree("apa", "rapa", "bapa", 4);
    FourSpaces();
  }

  lemma ExampleLines(s: string)
    requires s == "apa\nrapa\nbapa"
    ensures s == "apa" + "\n" + "rapa" + "\n" + "bapa"
    ensures "    apa\n    rapa\n    bapa" == "    " + "apa" + "\n" + ("    " + "rapa") + "\n" + ("    " + "bapa")
  {
  }

  lemma FourSpaces()
    ensures Spaces(4) == "    "
  {
  }
}
