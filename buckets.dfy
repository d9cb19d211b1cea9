/** Lists kept in a dictionary keyed by cell number, as the bucket search
    of magellan/Layer.py keeps them: the items all the lists hold
    together, and the grouping of a list of items by a cell function. The
    dictionary is a map together with its keys in the order they were
    added; every key is listed once. */
module Buckets {

  predicate Distinct(keys: seq<int>)
  {
    forall i, j :: 0 <= i < j < |keys| ==> keys[i] != keys[j]
  }

  /** `keys` lists every key of m once. */
  predicate KeyOrder<T>(m: map<int, seq<T>>, keys: seq<int>)
  {
    Distinct(keys) && (forall c :: c in m ==> c in keys)
    && forall i :: 0 <= i < |keys| ==> keys[i] in m
  }

  /** All the items the lists of `keys` hold. */
  ghost function Total<T>(m: map<int, seq<T>>, keys: seq<int>): multiset<T>
    requires forall i :: 0 <= i < |keys| ==> keys[i] in m
  {
    if |keys| == 0 then multiset{}
    else Total(m, keys[..|keys| - 1]) + multiset(m[keys[|keys| - 1]])
  }

  /** The items of `items` whose cell under f is c, in their order. */
  function Filter<T>(f: T -> int, items: seq<T>, c: int): (r: seq<T>)
    ensures forall i :: 0 <= i < |r| ==> f(r[i]) == c
  {
    if |items| == 0 then []
    else Filter(f, items[..|items| - 1], c) + (if f(items[|items| - 1]) == c then [items[|items| - 1]] else [])
  }

  /** The list of c holds only items of cell c. */
  predicate Settled<T>(f: T -> int, m: map<int, seq<T>>, c: int)
    requires c in m
  {
    forall i :: 0 <= i < |m[c]| ==> f(m[c][i]) == c
  }

  /** The lists hold exactly the items of `data`, each in the list of its
      cell, and the list of cell 1 is among them. */
  ghost predicate Grouped<T>(f: T -> int, m: map<int, seq<T>>, keys: seq<int>, data: seq<T>)
  {
    KeyOrder(m, keys) && 1 in m && (forall c :: c in m ==> Settled(f, m, c))
    && Total(m, keys) == multiset(data)
  }

  // ------------------------------------------------------------ lemmas

  /** Replacing one list changes the items held by exactly that list. */
  lemma {:induction false} TotalUpdate<T>(m: map<int, seq<T>>, keys: seq<int>, c: int, s: seq<T>)
    requires forall i :: 0 <= i < |keys| ==> keys[i] in m
    requires Distinct(keys)
    ensures c in keys ==> Total(m[c := s], keys) + multiset(m[c]) == Total(m, keys) + multiset(s)
    ensures c !in keys ==> Total(m[c := s], keys) == Total(m, keys)
  {
    if |keys| > 0 {
      var m' := m[c := s];
      var pre, last := keys[..|keys| - 1], keys[|keys| - 1];
      assert keys == pre + [last];
      TotalUpdate(m, pre, c, s);
      assert Total(m', keys) == Total(m', pre) + multiset(m'[last]);
      assert Total(m, keys) == Total(m, pre) + multiset(m[last]);
      if last == c {
        assert c !in pre;
      } else {
        assert m'[last] == m[last];
        if c in keys {
          assert c in pre;
          calc {
            Total(m', keys) + multiset(m[c]);
            (Total(m', pre) + multiset(m[c])) + multiset(m[last]);
            (Total(m, pre) + multiset(s)) + multiset(m[last]);
            Total(m, keys) + multiset(s);
          }
        }
      }
    }
  }

  /** A new key is listed after the others. */
  lemma KeyOrderAdd<T>(m: map<int, seq<T>>, keys: seq<int>, n: int, s: seq<T>)
    requires KeyOrder(m, keys) && n !in m
    ensures KeyOrder(m[n := s], keys + [n])
  {
    var keys' := keys + [n];
    assert forall i :: 0 <= i < |keys| ==> keys'[i] == keys[i];
  }

  /** The list of a new key adds its items. */
  lemma TotalAppend<T>(m: map<int, seq<T>>, keys: seq<int>, n: int, s: seq<T>)
    requires forall i :: 0 <= i < |keys| ==> keys[i] in m
    requires Distinct(keys) && n !in keys
    ensures Total(m[n := s], keys + [n]) == Total(m, keys) + multiset(s)
  {
    assert (keys + [n])[..|keys|] == keys;
    TotalUpdate(m, keys, n, s);
  }

  /** An item held by no list but c's is counted as often as c's list
      holds it. */
  lemma {:induction false} TotalCount<T>(m: map<int, seq<T>>, keys: seq<int>, x: T, c: int)
    requires forall i :: 0 <= i < |keys| ==> keys[i] in m
    requires Distinct(keys)
    requires forall i :: 0 <= i < |keys| && keys[i] != c ==> x !in m[keys[i]]
    ensures Total(m, keys)[x] == if c in keys then multiset(m[c])[x] else 0
  {
    if |keys| > 0 {
      var pre, last := keys[..|keys| - 1], keys[|keys| - 1];
      assert keys == pre + [last];
      TotalCount(m, pre, x, c);
      if last == c {
        assert c !in pre;
      }
    }
  }

  lemma {:induction false} FilterCount<T>(f: T -> int, items: seq<T>, c: int, x: T)
    ensures multiset(Filter(f, items, c))[x] == if f(x) == c then multiset(items)[x] else 0
  {
    if |items| > 0 {
      assert items == items[..|items| - 1] + [items[|items| - 1]];
      FilterCount(f, items[..|items| - 1], c, x);
    }
  }

  /** On grouped lists an item of cell c is counted in the list of c as
      often as in the cell's part of the data. */
  lemma BucketCount<T>(f: T -> int, m: map<int, seq<T>>, keys: seq<int>, data: seq<T>, c: int, x: T)
    requires Grouped(f, m, keys, data)
    ensures multiset(Filter(f, data, c))[x] == if c in m then multiset(m[c])[x] else 0
  {
    FilterCount(f, data, c, x);
    if f(x) == c {
      forall i | 0 <= i < |keys| && keys[i] != c
        ensures x !in m[keys[i]]
      {
        assert Settled(f, m, keys[i]);
      }
      TotalCount(m, keys, x, c);
    } else if c in m {
      assert Settled(f, m, c);
    }
  }

  /** On grouped lists the list of cell c holds the items of cell c, and
      a cell without a list has none. */
  lemma BucketIsFilter<T>(f: T -> int, m: map<int, seq<T>>, keys: seq<int>, data: seq<T>, c: int)
    requires Grouped(f, m, keys, data)
    ensures c in m ==> multiset(m[c]) == multiset(Filter(f, data, c))
    ensures c !in m ==> Filter(f, data, c) == []
  {
    var cell := Filter(f, data, c);
    if c in m {
      forall x | true
        ensures multiset(cell)[x] == multiset(m[c])[x]
      {
        BucketCount(f, m, keys, data, c, x);
      }
      SameCounts(multiset(cell), multiset(m[c]));
    } else {
      forall x | true
        ensures multiset(cell)[x] == 0
      {
        BucketCount(f, m, keys, data, c, x);
      }
      SameCounts(multiset(cell), multiset{});
    }
  }

  lemma SameCounts<T>(a: multiset<T>, b: multiset<T>)
    requires forall x :: a[x] == b[x]
    ensures a == b
  {
  }

  /** When every item is of cell c, the part of cell c is all of them and
      every other cell's part is empty. */
  lemma {:induction false} FilterAll<T>(f: T -> int, items: seq<T>, c: int)
    requires forall i :: 0 <= i < |items| ==> f(items[i]) == c
    ensures Filter(f, items, c) == items
    ensures forall d :: d != c ==> Filter(f, items, d) == []
  {
    if |items| > 0 {
      FilterAll(f, items[..|items| - 1], c);
      assert items == items[..|items| - 1] + [items[|items| - 1]];
    }
  }

  /** One list under key 1 holds its own items. */
  lemma TotalOne<T>(s: seq<T>)
    ensures Total(map[1 := s], [1]) == multiset(s)
  {
    var m: map<int, seq<T>> := map[];
    assert [1] == [] + [1];
    TotalAppend(m, [], 1, s);
  }

  /** The list of m' after moving the item at index i of c's list to the
      end of the list of its cell n. */
  function Moved<T>(m: map<int, seq<T>>, c: int, i: nat, n: int): map<int, seq<T>>
    requires c in m && i < |m[c]|
  {
    m[c := m[c][..i] + m[c][i + 1..]][n := (if n in m then m[n] else []) + [m[c][i]]]
  }

  /** One step of settling the list of c, walked from its end: the item
      at index i, of cell n, moves to the list of n. The items from i on
      stay of cell c, and every list other than c's that held only items
      of its cell, or that a list of m0 did not hold, keeps doing so. */
  lemma SettleStep<T>(f: T -> int, m0: map<int, seq<T>>, m: map<int, seq<T>>, c: int, i: nat, n: int)
    requires c in m && i < |m[c]| && f(m[c][i]) == n && n != c
    requires forall k :: i < k < |m[c]| ==> f(m[c][k]) == c
    requires forall d :: d in m && d != c && (d in m0 ==> Settled(f, m0, d)) ==> Settled(f, m, d)
    ensures c in Moved(m, c, i, n) && (forall d :: d in m ==> d in Moved(m, c, i, n))
    ensures |Moved(m, c, i, n)[c]| == |m[c]| - 1
    ensures forall k :: i <= k < |Moved(m, c, i, n)[c]| ==> f(Moved(m, c, i, n)[c][k]) == c
    ensures forall d :: d in Moved(m, c, i, n) && d != c && (d in m0 ==> Settled(f, m0, d))
              ==> Settled(f, Moved(m, c, i, n), d)
  {
    var m' := Moved(m, c, i, n);
    var rest := m'[c];
    assert forall k :: i <= k < |rest| ==> rest[k] == m[c][k + 1];
    forall d | d in m' && d != c && (d in m0 ==> Settled(f, m0, d))
      ensures Settled(f, m', d)
    {
      if d == n && n in m {
        assert Settled(f, m, n);
      }
    }
  }

  /** The one list of cell 1 holding everything is grouped when every
      item is of cell 1. */
  lemma SingleGrouped<T>(f: T -> int, data: seq<T>)
    requires forall i :: 0 <= i < |data| ==> f(data[i]) == 1
    ensures Grouped(f, map[1 := data], [1], data)
  {
    TotalOne(data);
  }
}
