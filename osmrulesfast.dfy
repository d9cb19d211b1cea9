/** The search-tree version of the rule filter (osmmagellan/osmrulesfast.py):
    `buildTree` files every rule of a rule file under its element name,
    each of its keys and each of its values, all three levels pointing at
    one subtree built from the rule's own children; `lookup` walks the
    tree along the element name and the tags.

    The Python nodes keep their children in dicts that `buildTree`
    updates in place. Here a node is a value whose children are an
    association list with one entry per dict key, in insertion order,
    and the building loop reassigns the node it is filling. Key and
    value nodes never receive leaves in the source, so only element
    nodes carry them. */
module OsmRulesFast {
  import opened Wrappers
  import opened PyStr
  import opened OsmRules

  /** `ElemSelectionNode`: children by element name (`None` for a rule
      without `e`), and the statements filed at this level. */
  datatype ENode = ENode(children: seq<(Option<string>, KNode)>, leaves: seq<Elem>)
  /** `KeySelectionNode`: children by tag key. */
  datatype KNode = KNode(children: seq<(string, VNode)>)
  /** `ValueSelectionNode`: children by tag value. */
  datatype VNode = VNode(children: seq<(string, ENode)>)

  // ------------------------------------------------------------ dict operations

  /** Where key `k` sits in an association list. */
  function IndexOf<K(==), V>(kv: seq<(K, V)>, k: K): (r: Option<nat>)
    ensures r.Some? ==> r.value < |kv| && kv[r.value].0 == k
    ensures r.Some? ==> forall i :: 0 <= i < r.value ==> kv[i].0 != k
    ensures r.None? <==> forall i :: 0 <= i < |kv| ==> kv[i].0 != k
  {
    if |kv| == 0 then None
    else if kv[0].0 == k then Some(0)
    else match IndexOf(kv[1..], k)
      case None => None
      case Some(j) => Some(j + 1)
  }

  /** `d.get(k)`. */
  function Lookup<K(==), V>(kv: seq<(K, V)>, k: K): Option<V>
  {
    match IndexOf(kv, k)
    case None => None
    case Some(i) => Some(kv[i].1)
  }

  /** `getChild(k) or addChild(k, made)`: the child at `k`, or `made`. */
  function ChildOr<K(==), V>(kv: seq<(K, V)>, k: K, made: V): V
  {
    match IndexOf(kv, k)
    case None => made
    case Some(i) => kv[i].1
  }

  /** The entries have distinct keys, as a dict's do. */
  predicate DistinctKeys<K(==), V>(kv: seq<(K, V)>)
  {
    forall i, j :: 0 <= i < j < |kv| ==> kv[i].0 != kv[j].0
  }

  /** `d[k] = v`: replaces the entry of `k` or adds one. */
  function Put<K(==), V>(kv: seq<(K, V)>, k: K, v: V): seq<(K, V)>
  {
    match IndexOf(kv, k)
    case None => kv + [(k, v)]
    case Some(i) => kv[i := (k, v)]
  }

  /** After `d[k] = v`, `d.get(k)` is `v` and every other key reads as before. */
  lemma PutLookup<K, V>(kv: seq<(K, V)>, k: K, v: V, k': K)
    ensures Lookup(Put(kv, k, v), k') == if k' == k then Some(v) else Lookup(kv, k')
  {
    match IndexOf(kv, k)
    case None =>
      AppendedIndex(kv, k, v, k');
    case Some(i) =>
      if k' == k {
        UniqueIndex(kv[i := (k, v)], k, i);
      } else {
        ReplacedIndex(kv, i, v, k');
      }
  }

  /** `d[k] = v` keeps the keys distinct, and every entry afterwards is
      an old one or the new one. */
  lemma PutDistinct<K, V>(kv: seq<(K, V)>, k: K, v: V)
    ensures DistinctKeys(kv) ==> DistinctKeys(Put(kv, k, v))
    ensures forall i :: 0 <= i < |Put(kv, k, v)| ==> Put(kv, k, v)[i] == (k, v) || Put(kv, k, v)[i] in kv
  {
  }

  lemma {:induction false} AppendedIndex<K, V>(kv: seq<(K, V)>, k: K, v: V, k': K)
    requires IndexOf(kv, k).None?
    ensures IndexOf(kv + [(k, v)], k') == if k' == k then Some(|kv|) else IndexOf(kv, k')
  {
    var r := kv + [(k, v)];
    if k' == k {
      assert r[|kv|].0 == k;
    } else {
      assert forall i :: 0 <= i < |kv| ==> r[i] == kv[i];
      if IndexOf(kv, k').None? {
        assert forall i :: 0 <= i < |r| ==> r[i].0 != k';
      } else {
        var j := IndexOf(kv, k').value;
        UniqueIndex(r, k', j);
      }
    }
  }

  lemma ReplacedIndex<K, V>(kv: seq<(K, V)>, i: nat, v: V, k': K)
    requires i < |kv| && k' != kv[i].0
    ensures IndexOf(kv[i := (kv[i].0, v)], k') == IndexOf(kv, k')
  {
    var r := kv[i := (kv[i].0, v)];
    assert forall j :: 0 <= j < |kv| ==> r[j].0 == kv[j].0;
    if IndexOf(kv, k').None? {
      assert forall j :: 0 <= j < |r| ==> r[j].0 != k';
    } else {
      UniqueIndex(r, k', IndexOf(kv, k').value);
    }
  }

  /** The first index holding `k` is the one `IndexOf` returns. */
  lemma UniqueIndex<K, V>(kv: seq<(K, V)>, k: K, j: nat)
    requires j < |kv| && kv[j].0 == k && forall i :: 0 <= i < j ==> kv[i].0 != k
    ensures IndexOf(kv, k) == Some(j)
  {
    var r := IndexOf(kv, k);
    assert r.Some?;
    if r.value < j {
    } else if r.value > j {
    }
  }

  // ------------------------------------------------------------ paths

  /** The key node filed under an element name. */
  function ElemAt(t: ENode, e: Option<string>): Option<KNode>
  {
    Lookup(t.children, e)
  }

  /** The subtree filed under a key and a value in a key node. */
  function KeyValueAt(k: KNode, key: string, value: string): Option<ENode>
  {
    match Lookup(k.children, key)
    case None => None
    case Some(vn) => Lookup(vn.children, value)
  }

  /** The subtree the tree files under element name, key and value. */
  function At(t: ENode, e: Option<string>, key: string, value: string): Option<ENode>
  {
    match ElemAt(t, e)
    case None => None
    case Some(kn) => KeyValueAt(kn, key, value)
  }

  // ------------------------------------------------------------ filing a rule

  /** The inner loop: `valuenode.addChild(value, newtree, key)` for each value. */
  function PutValues(v: VNode, values: seq<string>, sub: ENode): VNode
  {
    if |values| == 0 then v
    else VNode(Put(PutValues(v, values[..|values| - 1], sub).children, values[|values| - 1], sub))
  }

  /** The outer loop over the keys: each key's value node (an existing
      one, or a fresh one) receives every value. */
  function PutKeys(k: KNode, keys: seq<string>, values: seq<string>, sub: ENode): KNode
  {
    if |keys| == 0 then k
    else
      var k' := PutKeys(k, keys[..|keys| - 1], values, sub);
      var key := keys[|keys| - 1];
      KNode(Put(k'.children, key, PutValues(ChildOr(k'.children, key, VNode([])), values, sub)))
  }

  /** One rule filed into the tree under its element name. */
  function InsertRule(t: ENode, e: Option<string>, keys: seq<string>, values: seq<string>, sub: ENode): ENode
  {
    t.(children := Put(t.children, e, PutKeys(ChildOr(t.children, e, KNode([])), keys, values, sub)))
  }

  /** Every value names the shared subtree; other values keep theirs. */
  lemma {:induction false} PutValuesAt(v: VNode, values: seq<string>, sub: ENode, value: string)
    ensures Lookup(PutValues(v, values, sub).children, value) ==
            if value in values then Some(sub) else Lookup(v.children, value)
  {
    if |values| > 0 {
      var front := values[..|values| - 1];
      PutValuesAt(v, front, sub, value);
      PutLookup(PutValues(v, front, sub).children, values[|values| - 1], sub, value);
      assert values == front + [values[|values| - 1]];
      assert value in values <==> value in front || value == values[|values| - 1];
    }
  }

  /** Every key and value pair of the rule names the shared subtree;
      other pairs keep theirs. */
  lemma {:induction false} PutKeysAt(k: KNode, keys: seq<string>, values: seq<string>, sub: ENode,
                                     key: string, value: string)
    ensures KeyValueAt(PutKeys(k, keys, values, sub), key, value) ==
            if key in keys && value in values then Some(sub) else KeyValueAt(k, key, value)
  {
    if |keys| > 0 {
      var front := keys[..|keys| - 1];
      var last := keys[|keys| - 1];
      var k' := PutKeys(k, front, values, sub);
      PutKeysAt(k, front, values, sub, key, value);
      assert keys == front + [last];
      assert key in keys <==> key in front || key == last;
      var vn := ChildOr(k'.children, last, VNode([]));
      PutLookup(k'.children, last, PutValues(vn, values, sub), key);
      if key == last {
        PutValuesAt(vn, values, sub, value);
        assert Lookup(k'.children, last).None? ==> Lookup(vn.children, value).None?;
      }
    }
  }

  /** `buildTree`'s handling of one rule: all its element, key and value
      combinations lead to the one subtree, every other path is kept,
      and the leaves are untouched. */
  lemma InsertRuleAt(t: ENode, e: Option<string>, keys: seq<string>, values: seq<string>, sub: ENode,
                     e': Option<string>, key: string, value: string)
    ensures At(InsertRule(t, e, keys, values, sub), e', key, value) ==
            if e' == e && key in keys && value in values then Some(sub) else At(t, e', key, value)
    ensures InsertRule(t, e, keys, values, sub).leaves == t.leaves
  {
    var kn := ChildOr(t.children, e, KNode([]));
    PutLookup(t.children, e, PutKeys(kn, keys, values, sub), e');
    if e' == e {
      PutKeysAt(kn, keys, values, sub, key, value);
    }
  }

  // ------------------------------------------------------------ buildTree

  /** One child of the rules element: a rule is filed (its `k` and `v`
      are split before its own children are built), an else is skipped,
      anything else becomes a leaf. */
  function Step(t: ENode, c: Elem): (r: Result<ENode>)
    ensures r.Fail? ==> r.failure == AttributeError
    decreases c, 2
  {
    if c.tag == "rule" then
      if "k" !in c.attrs || "v" !in c.attrs then Fail(AttributeError)
      else
        var sub :- Build(c);
        Ok(InsertRule(t, Get(c, "e"), Split(c.attrs["k"], '|'), Split(c.attrs["v"], '|'), sub))
    else if c.tag == "else" then Ok(t)
    else Ok(t.(leaves := t.leaves + [c]))
  }

  /** The tree after the first `n` children. */
  function BuildPrefix(rules: Elem, n: nat): (r: Result<ENode>)
    requires n <= |rules.children|
    ensures r.Fail? ==> r.failure == AttributeError
    decreases rules, 0, n
  {
    if n == 0 then Ok(ENode([], []))
    else
      var t :- BuildPrefix(rules, n - 1);
      Step(t, rules.children[n - 1])
  }

  /** `buildTree(rules)`; the only exception is a rule without `k` or `v`. */
  function Build(rules: Elem): (r: Result<ENode>)
    ensures r.Fail? ==> r.failure == AttributeError
    decreases rules, 1
  {
    BuildPrefix(rules, |rules.children|)
  }

  /** Once the building fails it stays failed. */
  lemma {:induction false} PrefixFails(rules: Elem, i: nat, n: nat)
    requires i <= n <= |rules.children| && BuildPrefix(rules, i).Fail?
    ensures BuildPrefix(rules, n) == BuildPrefix(rules, i)
    decreases n - i
  {
    if i < n {
      PrefixFails(rules, i, n - 1);
    }
  }

  /** The loop over a rule's values, filling one value node. */
  method FillValues(valuenode: VNode, values: seq<string>, newtree: ENode) returns (filled: VNode)
    ensures filled == PutValues(valuenode, values, newtree)
  {
    filled := valuenode;
    var l := 0;
    while l < |values|
      invariant 0 <= l <= |values|
      invariant filled == PutValues(valuenode, values[..l], newtree)
    {
      filled := VNode(Put(filled.children, values[l], newtree));
      assert values[..l + 1][..l] == values[..l];
      l := l + 1;
    }
    assert values[..l] == values;
  }

  /** The loop over a rule's keys, filling the key node of its element name. */
  method FillKeys(keynode: KNode, keys: seq<string>, values: seq<string>, newtree: ENode) returns (filled: KNode)
    ensures filled == PutKeys(keynode, keys, values, newtree)
  {
    filled := keynode;
    var j := 0;
    while j < |keys|
      invariant 0 <= j <= |keys|
      invariant filled == PutKeys(keynode, keys[..j], values, newtree)
    {
      var valuenode := ChildOr(filled.children, keys[j], VNode([]));
      valuenode := FillValues(valuenode, values, newtree);
      filled := KNode(Put(filled.children, keys[j], valuenode));
      assert keys[..j + 1][..j] == keys[..j];
      j := j + 1;
    }
    assert keys[..j] == keys;
  }

  /** `buildTree` as the source writes it: a loop over the children that
      fills the root node. */
  method BuildTree(rules: Elem) returns (r: Result<ENode>)
    ensures r == Build(rules)
    decreases rules, 1
  {
    var root := ENode([], []);
    var i := 0;
    while i < |rules.children|
      invariant 0 <= i <= |rules.children|
      invariant BuildPrefix(rules, i) == Ok(root)
    {
      var c := rules.children[i];
      var next := StepChild(root, c);
      if next.Fail? {
        PrefixFails(rules, i + 1, |rules.children|);
        return next;
      }
      root := next.value;
      i := i + 1;
    }
    return Ok(root);
  }

  /** The body of `buildTree`'s loop for one child: for a rule, a loop
      over its keys and, inside, over its values, after the rule's own
      children are built. */
  method StepChild(root: ENode, c: Elem) returns (r: Result<ENode>)
    ensures r == Step(root, c)
    decreases c, 2
  {
    if c.tag == "rule" {
      var e := Get(c, "e");
      var keynode := ChildOr(root.children, e, KNode([]));
      if "k" !in c.attrs || "v" !in c.attrs {
        return Fail(AttributeError);
      }
      var keys := Split(c.attrs["k"], '|');
      var values := Split(c.attrs["v"], '|');
      var built := BuildTree(c);
      if built.Fail? {
        return Fail(built.failure);
      }
      keynode := FillKeys(keynode, keys, values, built.value);
      r := Ok(root.(children := Put(root.children, e, keynode)));
    } else if c.tag == "else" {
      r := Ok(root);
    } else {
      r := Ok(root.(leaves := root.leaves + [c]));
    }
  }

  // ------------------------------------------------------------ what the tree holds

  /** A rule child that files a subtree under this element name, key and value. */
  predicate Files(c: Elem, e: Option<string>, key: string, value: string)
  {
    c.tag == "rule" && "k" in c.attrs && "v" in c.attrs && Get(c, "e") == e
    && key in Split(c.attrs["k"], '|') && value in Split(c.attrs["v"], '|')
  }

  /** The last child that files under this path. */
  function LastFiling(cs: seq<Elem>, e: Option<string>, key: string, value: string): (r: Option<nat>)
    ensures r.Some? ==> r.value < |cs| && Files(cs[r.value], e, key, value)
    ensures r.Some? ==> forall j :: r.value < j < |cs| ==> !Files(cs[j], e, key, value)
    ensures r.None? ==> forall j :: 0 <= j < |cs| ==> !Files(cs[j], e, key, value)
  {
    if |cs| == 0 then None
    else if Files(cs[|cs| - 1], e, key, value) then Some(|cs| - 1)
    else LastFiling(cs[..|cs| - 1], e, key, value)
  }

  /** Non-rule, non-else children become the root's leaves, in order. */
  lemma {:induction false} BuiltLeaves(rules: Elem, n: nat)
    requires n <= |rules.children| && BuildPrefix(rules, n).Ok?
    ensures BuildPrefix(rules, n).value.leaves == Statements(rules.children[..n])
  {
    if n > 0 {
      BuiltLeaves(rules, n - 1);
      var c := rules.children[n - 1];
      assert rules.children[..n] == rules.children[..n - 1] + [c];
      StatementsSnoc(rules.children[..n - 1], c);
      var t := BuildPrefix(rules, n - 1).value;
      if c.tag == "rule" {
        InsertRuleAt(t, Get(c, "e"), Split(c.attrs["k"], '|'), Split(c.attrs["v"], '|'), Build(c).value, None, "", "");
      }
    } else {
      assert rules.children[..0] == [];
    }
  }

  lemma {:induction false} StatementsSnoc(cs: seq<Elem>, c: Elem)
    ensures Statements(cs + [c]) == Statements(cs) + (if IsStatement(c) then [c] else [])
  {
    if |cs| == 0 {
      assert cs + [c] == [c];
      assert [c][1..] == [];
    } else {
      assert (cs + [c])[1..] == cs[1..] + [c];
      StatementsSnoc(cs[1..], c);
    }
  }

  /** What `buildTree` files under an element name, key and value is the
      subtree built from the last rule naming all three; a path no rule
      names leads nowhere. Later rules replace what earlier ones filed. */
  lemma {:induction false} BuiltPaths(rules: Elem, n: nat, e: Option<string>, key: string, value: string)
    requires n <= |rules.children| && BuildPrefix(rules, n).Ok?
    ensures var last := LastFiling(rules.children[..n], e, key, value);
            var at := At(BuildPrefix(rules, n).value, e, key, value);
            && (last.None? ==> at.None?)
            && (last.Some? ==> at.Some? && Build(rules.children[last.value]) == Ok(at.value))
  {
    if n > 0 {
      var cs := rules.children[..n];
      var c := rules.children[n - 1];
      assert cs[..n - 1] == rules.children[..n - 1];
      assert cs[n - 1] == c;
      BuiltPaths(rules, n - 1, e, key, value);
      StepPaths(BuildPrefix(rules, n - 1).value, c, e, key, value);
    }
  }

  /** One child of the rules element files its subtree under exactly
      the paths it names, and leaves the other paths alone. */
  lemma StepPaths(t: ENode, c: Elem, e: Option<string>, key: string, value: string)
    requires Step(t, c).Ok?
    ensures Files(c, e, key, value) ==> Build(c).Ok? && At(Step(t, c).value, e, key, value) == Some(Build(c).value)
    ensures !Files(c, e, key, value) ==> At(Step(t, c).value, e, key, value) == At(t, e, key, value)
  {
    if c.tag == "rule" {
      InsertRuleAt(t, Get(c, "e"), Split(c.attrs["k"], '|'), Split(c.attrs["v"], '|'), Build(c).value, e, key, value);
    }
  }

  /** Every key node under the root has distinct keys. */
  predicate KeysDistinct(t: ENode)
  {
    forall i :: 0 <= i < |t.children| ==> DistinctKeys(t.children[i].1.children)
  }

  lemma {:induction false} PutKeysDistinct(k: KNode, keys: seq<string>, values: seq<string>, sub: ENode)
    requires DistinctKeys(k.children)
    ensures DistinctKeys(PutKeys(k, keys, values, sub).children)
  {
    if |keys| > 0 {
      PutKeysDistinct(k, keys[..|keys| - 1], values, sub);
    }
  }

  /** The key nodes `buildTree` makes are dicts: no key twice. */
  lemma {:induction false} BuiltKeysDistinct(rules: Elem, n: nat)
    requires n <= |rules.children| && BuildPrefix(rules, n).Ok?
    ensures KeysDistinct(BuildPrefix(rules, n).value)
  {
    if n > 0 {
      BuiltKeysDistinct(rules, n - 1);
      var c := rules.children[n - 1];
      var t := BuildPrefix(rules, n - 1).value;
      if c.tag == "rule" {
        var e := Get(c, "e");
        var kn := ChildOr(t.children, e, KNode([]));
        assert DistinctKeys(kn.children);
        var kn' := PutKeys(kn, Split(c.attrs["k"], '|'), Split(c.attrs["v"], '|'), Build(c).value);
        PutKeysDistinct(kn, Split(c.attrs["k"], '|'), Split(c.attrs["v"], '|'), Build(c).value);
        PutDistinct(t.children, e, kn');
      }
    }
  }

  // ------------------------------------------------------------ lookup

  /** `ElemSelectionNode.lookup`: the leaves, then what the key node
      filed under the element name gives. */
  function ELookup(t: ENode, e: string, tags: Tags): (r: seq<Elem>)
    ensures |t.leaves| <= |r| && r[..|t.leaves|] == t.leaves
    decreases t, 2
  {
    match IndexOf(t.children, Some(e))
    case None => t.leaves
    case Some(i) => t.leaves + KLookup(t.children[i].1, 0, e, tags)
  }

  /** `KeySelectionNode.lookup` from child `i` on: every key that is also
      a tag contributes what its value node gives. */
  function KLookup(k: KNode, i: nat, e: string, tags: Tags): seq<Elem>
    requires i <= |k.children|
    decreases k, |k.children| - i
  {
    if i == |k.children| then []
    else
      var key := k.children[i].0;
      (if key in tags then VLookup(k.children[i].1, tags[key], e, tags) else []) + KLookup(k, i + 1, e, tags)
  }

  /** `ValueSelectionNode.lookup`, given the tag value of the key it is
      filed under: only a literally equal value leads on. */
  function VLookup(v: VNode, value: string, e: string, tags: Tags): seq<Elem>
    decreases v
  {
    match IndexOf(v.children, value)
    case None => []
    case Some(i) => ELookup(v.children[i].1, e, tags)
  }

  /** Whatever a lookup returns is a leaf of the node or comes from a
      subtree filed under the element name, a tag key and that tag's
      value. */
  lemma LookupSound(t: ENode, e: string, tags: Tags, x: Elem)
    requires KeysDistinct(t) && x in ELookup(t, e, tags)
    ensures x in t.leaves ||
            exists key :: key in tags && At(t, Some(e), key, tags[key]).Some?
                          && x in ELookup(At(t, Some(e), key, tags[key]).value, e, tags)
  {
    if x !in t.leaves {
      var i := IndexOf(t.children, Some(e)).value;
      var kn := t.children[i].1;
      assert ElemAt(t, Some(e)) == Some(kn);
      var key := KLookupSound(kn, 0, e, tags, x);
      assert At(t, Some(e), key, tags[key]) == KeyValueAt(kn, key, tags[key]);
    }
  }

  lemma {:induction false} KLookupSound(k: KNode, i: nat, e: string, tags: Tags, x: Elem) returns (key: string)
    requires i <= |k.children| && x in KLookup(k, i, e, tags) && DistinctKeys(k.children)
    ensures key in tags && KeyValueAt(k, key, tags[key]).Some?
    ensures x in ELookup(KeyValueAt(k, key, tags[key]).value, e, tags)
    decreases |k.children| - i
  {
    var here := k.children[i].0;
    if here in tags && x in VLookup(k.children[i].1, tags[here], e, tags) {
      UniqueIndex(k.children, here, i);
      key := here;
    } else {
      key := KLookupSound(k, i + 1, e, tags, x);
    }
  }

  /** Every subtree filed under the element name, a tag key and that
      tag's value contributes all of its own lookup. */
  lemma LookupComplete(t: ENode, e: string, tags: Tags, key: string)
    requires key in tags && At(t, Some(e), key, tags[key]).Some?
    ensures multiset(ELookup(At(t, Some(e), key, tags[key]).value, e, tags)) <= multiset(ELookup(t, e, tags))
  {
    var i := IndexOf(t.children, Some(e)).value;
    var kn := t.children[i].1;
    var j := IndexOf(kn.children, key).value;
    KLookupHas(kn, 0, j, e, tags);
  }

  lemma {:induction false} KLookupHas(k: KNode, i: nat, j: nat, e: string, tags: Tags)
    requires i <= j < |k.children| && k.children[j].0 in tags
    ensures multiset(VLookup(k.children[j].1, tags[k.children[j].0], e, tags)) <= multiset(KLookup(k, i, e, tags))
    decreases j - i
  {
    var key := k.children[i].0;
    var here := if key in tags then VLookup(k.children[i].1, tags[key], e, tags) else [];
    var rest := KLookup(k, i + 1, e, tags);
    assert KLookup(k, i, e, tags) == here + rest;
    if i < j {
      KLookupHas(k, i + 1, j, e, tags);
      InBehind(VLookup(k.children[j].1, tags[k.children[j].0], e, tags), here, rest);
    } else {
      InFront(here, rest);
    }
  }

  lemma InBehind<T>(a: seq<T>, b: seq<T>, c: seq<T>)
    requires multiset(a) <= multiset(c)
    ensures multiset(a) <= multiset(b + c)
  {
    assert multiset(b + c) == multiset(b) + multiset(c);
  }

  lemma InFront<T>(a: seq<T>, c: seq<T>)
    ensures multiset(a) <= multiset(a + c)
  {
    assert multiset(a + c) == multiset(a) + multiset(c);
  }

  /** When no tag leads anywhere under the element name, a lookup
      returns just the leaves. */
  lemma LookupOnlyLeaves(t: ENode, e: string, tags: Tags)
    requires KeysDistinct(t)
    requires forall key :: key in tags ==> At(t, Some(e), key, tags[key]).None?
    ensures ELookup(t, e, tags) == t.leaves
  {
    match IndexOf(t.children, Some(e)) {
      case None =>
      case Some(i) =>
        var kn := t.children[i].1;
        assert ElemAt(t, Some(e)) == Some(kn);
        var found := KLookup(kn, 0, e, tags);
        if |found| > 0 {
          var key := KLookupSound(kn, 0, e, tags, found[0]);
          assert false;
        }
        assert found == [];
    }
  }

  /** Without tags only the leaves come back: unlike `applyRules`, the
      tree gives `~` no meaning. */
  lemma NoTagsOnlyLeaves(t: ENode, e: string)
    requires KeysDistinct(t)
    ensures ELookup(t, e, map[]) == t.leaves
  {
    LookupOnlyLeaves(t, e, map[]);
  }

  // ------------------------------------------------------------ against applyRules

  lemma {:induction false} StatementsAll(cs: seq<Elem>)
    requires forall k :: 0 <= k < |cs| ==> IsStatement(cs[k])
    ensures Statements(cs) == cs
  {
    if |cs| > 0 {
      StatementsAll(cs[1..]);
      assert [cs[0]] + cs[1..] == cs;
    }
  }

  /** Over children that are all statements the tree is built. */
  lemma {:induction false} PlainBuilds(rules: Elem, n: nat)
    requires n <= |rules.children|
    requires forall k :: 0 <= k < |rules.children| ==> IsStatement(rules.children[k])
    ensures BuildPrefix(rules, n).Ok?
  {
    if n > 0 {
      PlainBuilds(rules, n - 1);
    }
  }

  /** A rules element holding only statements gives the same statements,
      in the same order, through the tree as through `applyRules`. */
  lemma AgreeWithoutRules(rules: Elem, e: string, tags: Tags)
    requires forall k :: 0 <= k < |rules.children| ==> IsStatement(rules.children[k])
    ensures Build(rules).Ok? && ELookup(Build(rules).value, e, tags) == rules.children
    ensures Apply(rules, e, tags) == Ok(rules.children)
  {
    var cs := rules.children;
    var n := |cs|;
    PlainBuilds(rules, n);
    var t := Build(rules).value;
    BuiltLeaves(rules, n);
    assert cs[..n] == cs;
    StatementsAll(cs);
    BuiltKeysDistinct(rules, n);
    forall key | key in tags ensures At(t, Some(e), key, tags[key]).None? {
      BuiltPaths(rules, n, Some(e), key, tags[key]);
    }
    LookupOnlyLeaves(t, e, tags);
    NoRuleFires(rules, e, tags);
  }

  /** A single rule with one key and the value `*`: `applyRules` takes
      `*` as any value of the key. */
  lemma StarSlow(rules: Elem, rule: Elem, e: string, key: string, tags: Tags)
    requires rules.children == [rule] && rule.tag == "rule"
    requires rule.attrs == map["e" := e, "k" := key, "v" := "*"] && '|' !in key
    requires forall k :: 0 <= k < |rule.children| ==> IsStatement(rule.children[k])
    requires key in tags
    ensures Apply(rules, e, tags) == Ok(rule.children)
  {
    SplitJoin([key], '|');
    SplitJoin(["*"], '|');
    assert KeyMatches(key, ["*"], tags);
    assert RuleFires(rule, e, tags) == Ok(true);
    AgreeWithoutRules(rule, e, tags);
    FirstMatch(rules, 0, e, tags);
    assert rules.children[..0] == [];
  }

  /** The same rule in the tree: only a tag whose value is literally `*`
      reaches it. */
  lemma StarFast(rules: Elem, rule: Elem, e: string, key: string, tags: Tags)
    requires rules.children == [rule] && rule.tag == "rule"
    requires rule.attrs == map["e" := e, "k" := key, "v" := "*"] && '|' !in key
    requires forall k :: 0 <= k < |rule.children| ==> IsStatement(rule.children[k])
    requires key in tags && tags[key] != "*"
    ensures Build(rules).Ok? && ELookup(Build(rules).value, e, tags) == []
  {
    SplitJoin([key], '|');
    SplitJoin(["*"], '|');
    AgreeWithoutRules(rule, e, tags);
    var sub := Build(rule).value;
    OneChildTree(rules, rule);
    StarTreeEmpty(e, key, sub, tags);
  }

  /** The tree with one rule filed under `e`, `key` and the value `*`. */
  lemma StarTreeEmpty(e: string, key: string, sub: ENode, tags: Tags)
    requires key in tags ==> tags[key] != "*"
    ensures ELookup(InsertRule(ENode([], []), Some(e), [key], ["*"], sub), e, tags) == []
  {
    var t := InsertRule(ENode([], []), Some(e), [key], ["*"], sub);
    PutKeysDistinct(KNode([]), [key], ["*"], sub);
    PutDistinct([], Some(e), PutKeys(KNode([]), [key], ["*"], sub));
    forall key' | key' in tags ensures At(t, Some(e), key', tags[key']).None? {
      InsertRuleAt(ENode([], []), Some(e), [key], ["*"], sub, Some(e), key', tags[key']);
    }
    LookupOnlyLeaves(t, e, tags);
  }

  /** The tree of a rules element with one child is that child's step
      from the empty root. */
  lemma OneChildTree(rules: Elem, c: Elem)
    requires rules.children == [c]
    ensures Build(rules) == Step(ENode([], []), c)
  {
    assert BuildPrefix(rules, 0) == Ok(ENode([], []));
    assert rules.children[0] == c;
  }

  /** `*` as a rule's value is a wildcard for `applyRules` and a literal
      for the tree: a tag of the rule's key with another value gets the
      rule's statements from the one and nothing from the other. */
  lemma StarIsLiteral(rules: Elem, rule: Elem, e: string, key: string, tags: Tags)
    requires rules.children == [rule] && rule.tag == "rule"
    requires rule.attrs == map["e" := e, "k" := key, "v" := "*"] && '|' !in key
    requires forall k :: 0 <= k < |rule.children| ==> IsStatement(rule.children[k])
    requires key in tags && tags[key] != "*"
    ensures Apply(rules, e, tags) == Ok(rule.children)
    ensures Build(rules).Ok? && ELookup(Build(rules).value, e, tags) == []
  {
    StarSlow(rules, rule, e, key, tags);
    StarFast(rules, rule, e, key, tags);
  }

  // ------------------------------------------------------------ filterOSMElement

  /** `OSMMagRulesFast.__init__`: the tree of the `rules` child; a rule
      file without one hands None to `buildTree`, an AttributeError. */
  function SearchTree(root: Elem): (r: Result<ENode>)
    ensures FindChild(root.children, "rules").None? ==> r == Fail(AttributeError)
    ensures FindChild(root.children, "rules").Some? ==> r == Build(FindChild(root.children, "rules").value)
  {
    match FindChild(root.children, "rules")
    case None => Fail(AttributeError)
    case Some(rules) => Build(rules)
  }

  /** `OSMMagRulesFast.filterOSMElement`: the lookup's statements in a
      `result` element, or None when there are none. */
  function FilterFast(tree: ENode, e: string, tags: Tags): (r: Option<Elem>)
    ensures r.None? <==> |ELookup(tree, e, tags)| == 0
    ensures r.Some? ==> r.value.tag == "result" && r.value.children == ELookup(tree, e, tags)
  {
    var elements := ELookup(tree, e, tags);
    if |elements| == 0 then None else Some(Elem("result", map[], elements))
  }
}
