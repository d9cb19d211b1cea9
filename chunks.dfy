/** Sequences cut into pieces of one length: the rows of a table, the
    slots of a page. */
module Chunks {
  import opened Arith

  /** The pieces joined in order. */
  function Concat<T>(xs: seq<seq<T>>): seq<T>
  {
    if |xs| == 0 then [] else Concat(xs[..|xs| - 1]) + xs[|xs| - 1]
  }

  /** `n` copies of `z`. */
  function Repeat<T>(z: T, n: nat): (r: seq<T>)
    ensures |r| == n && forall i :: 0 <= i < n ==> r[i] == z
  {
    if n == 0 then [] else Repeat(z, n - 1) + [z]
  }

  /** `s[0:n] + (n - len(s[0:n])) * z`: cut to n items, or filled up to
      n with z. */
  function Fit<T>(s: seq<T>, n: nat, z: T): (r: seq<T>)
    ensures |r| == n
    ensures |s| >= n ==> r == s[..n]
    ensures |s| < n ==> r[..|s|] == s && forall i :: |s| <= i < n ==> r[i] == z
  {
    if |s| >= n then s[..n] else s + Repeat(z, n - |s|)
  }

  predicate AllOfLength<T>(xs: seq<seq<T>>, n: nat)
  {
    forall i :: 0 <= i < |xs| ==> |xs[i]| == n
  }

  lemma ConcatAppend<T>(xs: seq<seq<T>>, x: seq<T>)
    ensures Concat(xs + [x]) == Concat(xs) + x
  {
    assert (xs + [x])[..|xs|] == xs;
  }

  lemma MulSucc(k: nat, n: nat)
    ensures (k + 1) * n == k * n + n
  {
  }

  lemma {:induction false} ConcatLength<T>(xs: seq<seq<T>>, n: nat)
    requires AllOfLength(xs, n)
    ensures |Concat(xs)| == |xs| * n
  {
    if |xs| > 0 {
      ConcatLength(xs[..|xs| - 1], n);
      MulSucc(|xs| - 1, n);
    }
  }

  /** Piece i of equal pieces of length n sits at [i * n, i * n + n). */
  lemma {:induction false} ConcatAt<T>(xs: seq<seq<T>>, n: nat, i: nat)
    requires AllOfLength(xs, n) && i < |xs|
    ensures |Concat(xs)| == |xs| * n
    ensures i * n + n <= |Concat(xs)| && Concat(xs)[i * n .. i * n + n] == xs[i]
  {
    ConcatLength(xs, n);
    var init := xs[..|xs| - 1];
    var a, b := i * n, i * n + n;
    assert Concat(xs) == Concat(init) + xs[|xs| - 1];
    if i < |xs| - 1 {
      ConcatAt(init, n, i);
      assert Concat(xs)[a..b] == Concat(init)[a..b];
    } else {
      ConcatLength(init, n);
      assert a == |Concat(init)|;
    }
  }

  /** Replacing piece i replaces exactly its stretch of the join. */
  lemma {:induction false} ConcatUpdate<T>(xs: seq<seq<T>>, n: nat, i: nat, x: seq<T>)
    requires AllOfLength(xs, n) && i < |xs| && |x| == n
    ensures |Concat(xs)| == |xs| * n && i * n + n <= |Concat(xs)|
    ensures Concat(xs[i := x]) == Concat(xs)[..i * n] + x + Concat(xs)[i * n + n..]
  {
    ConcatAt(xs, n, i);
    var init := xs[..|xs| - 1];
    var last := xs[|xs| - 1];
    var a, b := i * n, i * n + n;
    var whole := Concat(xs);
    assert whole == Concat(init) + last;
    if i < |xs| - 1 {
      ConcatUpdate(init, n, i, x);
      var c := Concat(init);
      assert xs[i := x] == init[i := x] + [last];
      ConcatAppend(init[i := x], last);
      assert whole[..a] == c[..a] && whole[b..] == c[b..] + last;
    } else {
      assert xs[i := x] == init + [x];
      ConcatAppend(init, x);
      ConcatLength(init, n);
      assert a == |Concat(init)| && whole[..a] == Concat(init);
    }
  }

  /** Replacing item r of piece g of equal pieces of length n replaces
      item g * n + r of the join. */
  lemma {:induction false} UpdateInPiece<T>(xs: seq<seq<T>>, n: nat, g: nat, r: nat, d: T)
    requires AllOfLength(xs, n) && g < |xs| && r < n
    ensures g * n + r < |Concat(xs)|
    ensures Concat(xs[g := xs[g][r := d]]) == Concat(xs)[g * n + r := d]
  {
    ConcatAt(xs, n, g);
    ConcatUpdate(xs, n, g, xs[g][r := d]);
    SpliceUpdate(Concat(xs), g * n, n, xs[g], r, d);
  }

  /** Splicing in a stretch with item r replaced replaces one item. */
  lemma SpliceUpdate<T>(c: seq<T>, a: nat, n: nat, piece: seq<T>, r: nat, d: T)
    requires a + n <= |c| && c[a..a + n] == piece && r < n
    ensures c[..a] + piece[r := d] + c[a + n..] == c[a + r := d]
  {
    var s := c[..a] + piece[r := d] + c[a + n..];
    forall k | 0 <= k < |c|
      ensures s[k] == c[a + r := d][k]
    {
      if a <= k < a + n {
        assert s[k] == piece[r := d][k - a];
        assert piece[k - a] == c[k];
      }
    }
  }

  lemma AppendAssoc<T>(a: seq<T>, b: seq<T>, c: seq<T>)
    ensures a + b + c == a + (b + c)
  {
  }

  lemma ConsSplit<T>(s: seq<T>)
    requires |s| > 0
    ensures [s[0]] + s[1..] == s
  {
  }

  /** A stretch of b read through a + b. */
  lemma SliceAfter<T>(a: seq<T>, b: seq<T>, i: nat, j: nat)
    requires i <= j <= |b|
    ensures (a + b)[|a| + i .. |a| + j] == b[i..j]
  {
  }

  /** Piece i of equal pieces of length n, read after a prefix. */
  lemma PieceAfter<T>(a: seq<T>, xs: seq<seq<T>>, n: nat, i: nat)
    requires AllOfLength(xs, n) && i < |xs|
    ensures |a| + i * n + n <= |a + Concat(xs)|
    ensures (a + Concat(xs))[|a| + i * n .. |a| + i * n + n] == xs[i]
  {
    ConcatAt(xs, n, i);
    SliceAfter(a, Concat(xs), i * n, i * n + n);
  }

  /** Item k = g * n + r of pieces of length n followed by a shorter
      tail: item r of piece g, or item r of the tail when g is past the
      pieces. */
  lemma ItemAt<T>(xs: seq<seq<T>>, tail: seq<T>, n: nat, g: nat, r: nat, k: nat)
    requires AllOfLength(xs, n) && r < n && k == g * n + r && k < |xs| * n + |tail| && |tail| < n
    ensures |Concat(xs) + tail| == |xs| * n + |tail| && g <= |xs|
    ensures g < |xs| ==> r < |xs[g]| && (Concat(xs) + tail)[k] == xs[g][r]
    ensures g == |xs| ==> r < |tail| && (Concat(xs) + tail)[k] == tail[r]
  {
    ConcatLength(xs, n);
    if g < |xs| {
      ConcatAt(xs, n, g);
      assert Concat(xs)[g * n .. g * n + n][r] == Concat(xs)[k];
    } else if g > |xs| {
      MulLe(|xs| + 1, g, n);
      MulSucc(|xs|, n);
      assert false;
    }
  }

  /** A stretch of t read through the stretch of s that t is. */
  lemma SliceIn<T>(s: seq<T>, a: nat, n: nat, t: seq<T>, i: nat, j: nat)
    requires a + n <= |s| && s[a..a + n] == t && i <= j <= n
    ensures t[i..j] == s[a + i..a + j]
  {
    assert forall k :: i <= k < j ==> t[k] == s[a + k];
  }

  /** The first n items from position a. */
  lemma PrefixOfDrop<T>(s: seq<T>, a: nat, n: nat)
    requires a + n <= |s|
    ensures s[a..][..n] == s[a..a + n]
  {
  }

  /** The first item past a prefix ending in x. */
  lemma PrefixBefore<T>(s: seq<T>, t: seq<T>, x: T)
    requires |t| < |s| && s[..|t| + 1] == t + [x]
    ensures s[..|t|] == t && s[|t|] == x
  {
    assert s[..|t|] == s[..|t| + 1][..|t|];
    assert s[|t|] == s[..|t| + 1][|t|];
  }

  lemma NotInPrefix<T>(s: seq<T>, m: nat, x: T)
    requires m <= |s| && x !in s
    ensures x !in s[..m]
  {
    assert forall k :: 0 <= k < m ==> s[..m][k] == s[k];
  }

  lemma AppendNil<T>(s: seq<T>)
    ensures s + [] == s
  {
  }

  /** Concatenation read from the front. */
  lemma {:induction false} ConcatCons<T>(x: seq<T>, xs: seq<seq<T>>)
    ensures Concat([x] + xs) == x + Concat(xs)
    decreases |xs|
  {
    if |xs| > 0 {
      var m := |xs| - 1;
      assert ([x] + xs)[..|xs|] == [x] + xs[..m];
      ConcatCons(x, xs[..m]);
    } else {
      assert ([x] + xs)[..0] == [];
    }
  }

  lemma TakeDrop<T>(s: seq<T>, n: nat)
    requires n <= |s|
    ensures s[..n] + s[n..] == s
  {
  }

  /** A prefix grows by its next item. */
  lemma TakeSucc<T>(s: seq<T>, n: nat)
    requires n < |s|
    ensures s[..n + 1] == s[..n] + [s[n]]
  {
  }

  lemma TakeAll<T>(s: seq<T>)
    ensures s[..|s|] == s
  {
  }
}
