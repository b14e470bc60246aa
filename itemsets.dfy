/** Itemsets as lists of column indices, their canonical form (sorted and
    duplicate-free, what `sorted(set(s))` gives in Python) and the generic list
    facts the miner needs: order-preserving duplicate removal and subsequences. */
module Itemsets {

  /** An itemset names columns of the data frame by their index. */
  type Itemset = seq<nat>

  /** The items of an itemset, forgetting order and repetition. */
  function Elems(s: Itemset): set<nat> {
    set x | x in s
  }

  predicate StrictlySorted(s: Itemset) {
    forall i, j :: 0 <= i < j < |s| ==> s[i] < s[j]
  }

  predicate NoDups<T(==)>(s: seq<T>) {
    forall i, j :: 0 <= i < j < |s| ==> s[i] != s[j]
  }

  /** Adds x to a sorted, duplicate-free itemset, in its place. */
  function Insert(s: Itemset, x: nat): Itemset {
    if s == [] then [x]
    else if x < s[0] then [x] + s
    else if x == s[0] then s
    else [s[0]] + Insert(s[1..], x)
  }

  /** The canonical form of an itemset: its items in ascending order, each once. */
  function Canon(s: Itemset): Itemset {
    if s == [] then [] else Insert(Canon(s[..|s| - 1]), s[|s| - 1])
  }

  /** The items of a and b together, in ascending order, each once. */
  ghost function Union(a: Itemset, b: Itemset): Itemset {
    UnionExists(a, b);
    var r :| StrictlySorted(r) && Elems(r) == Elems(a) + Elems(b); r
  }

  lemma ElemsConcat(a: Itemset, b: Itemset)
    ensures Elems(a + b) == Elems(a) + Elems(b)
  {
  }

  lemma {:induction false} InsertElems(s: Itemset, x: nat)
    ensures Elems(Insert(s, x)) == Elems(s) + {x}
  {
    if s != [] {
      assert s == [s[0]] + s[1..];
      ElemsConcat([s[0]], s[1..]);
      if x == s[0] {
      } else if x < s[0] {
        ElemsConcat([x], s);
      } else {
        InsertElems(s[1..], x);
        ElemsConcat([s[0]], Insert(s[1..], x));
      }
    }
  }

  lemma {:induction false} InsertSorted(s: Itemset, x: nat)
    requires StrictlySorted(s)
    ensures StrictlySorted(Insert(s, x))
  {
    if s != [] && x > s[0] {
      var tail := Insert(s[1..], x);
      InsertSorted(s[1..], x);
      InsertElems(s[1..], x);
      forall k | 0 <= k < |tail|
        ensures s[0] < tail[k]
      {
        assert tail[k] in Elems(s[1..]) + {x};
      }
    }
  }

  /** Canon sorts and removes repeats without adding or losing items. */
  lemma {:induction false} CanonSpec(s: Itemset)
    ensures StrictlySorted(Canon(s))
    ensures Elems(Canon(s)) == Elems(s)
  {
    if s != [] {
      CanonSpec(s[..|s| - 1]);
      InsertSorted(Canon(s[..|s| - 1]), s[|s| - 1]);
      InsertElems(Canon(s[..|s| - 1]), s[|s| - 1]);
      assert s == s[..|s| - 1] + [s[|s| - 1]];
    }
  }

  lemma UnionExists(a: Itemset, b: Itemset)
    ensures exists r :: StrictlySorted(r) && Elems(r) == Elems(a) + Elems(b)
  {
    CanonSpec(a + b);
    ElemsConcat(a, b);
  }

  /** The union is sorted, duplicate-free and holds the items of both sides. */
  lemma UnionSpec(a: Itemset, b: Itemset)
    ensures StrictlySorted(Union(a, b))
    ensures Elems(Union(a, b)) == Elems(a) + Elems(b)
  {
  }

  /** The union does not depend on the order of its arguments. */
  lemma UnionSymmetric(a: Itemset, b: Itemset)
    ensures Union(a, b) == Union(b, a)
  {
    UnionSpec(a, b);
    UnionSpec(b, a);
    SortedUnique(Union(a, b), Union(b, a));
  }

  /** Dropping the last or the second-to-last item of a sorted itemset gives
      two different sorted itemsets, one item smaller, whose union is s. */
  lemma DropOneOfLastTwo(s: Itemset)
    requires StrictlySorted(s) && |s| >= 2
    ensures var a, b := s[..|s| - 1], s[..|s| - 2] + [s[|s| - 1]];
      StrictlySorted(a) && StrictlySorted(b) && |a| == |b| == |s| - 1 && a != b &&
      Elems(a) <= Elems(s) && Elems(b) <= Elems(s) && Elems(a) + Elems(b) == Elems(s)
  {
    var a, b := s[..|s| - 1], s[..|s| - 2] + [s[|s| - 1]];
    assert a[|s| - 2] != b[|s| - 2];
    assert s == a + [s[|s| - 1]];
    ElemsConcat(a, [s[|s| - 1]]);
    ElemsConcat(s[..|s| - 2], [s[|s| - 1]]);
    assert a == s[..|s| - 2] + [s[|s| - 2]];
    ElemsConcat(s[..|s| - 2], [s[|s| - 2]]);
  }

  lemma SortedTail(s: Itemset)
    requires StrictlySorted(s) && s != []
    ensures StrictlySorted(s[1..])
    ensures Elems(s[1..]) == Elems(s) - {s[0]}
  {
    assert s == [s[0]] + s[1..];
  }

  /** A sorted, duplicate-free itemset is determined by its items. */
  lemma {:induction false} SortedUnique(a: Itemset, b: Itemset)
    requires StrictlySorted(a) && StrictlySorted(b)
    requires Elems(a) == Elems(b)
    ensures a == b
  {
    SortedCard(a);
    SortedCard(b);
    if a != [] {
      assert a[0] == b[0] by {
        assert b[0] in Elems(a);
        assert a[0] in Elems(b);
      }
      SortedTail(a);
      SortedTail(b);
      SortedUnique(a[1..], b[1..]);
      assert a == [a[0]] + a[1..];
      assert b == [b[0]] + b[1..];
    }
  }

  /** Sorting an already canonical itemset changes nothing. */
  lemma CanonOfSorted(s: Itemset)
    requires StrictlySorted(s)
    ensures Canon(s) == s
  {
    CanonSpec(s);
    SortedUnique(Canon(s), s);
  }

  /** Two itemsets have the same canonical form exactly when they have the same items. */
  lemma CanonEqual(a: Itemset, b: Itemset)
    ensures Canon(a) == Canon(b) <==> Elems(a) == Elems(b)
  {
    CanonSpec(a);
    CanonSpec(b);
    if Elems(a) == Elems(b) {
      SortedUnique(Canon(a), Canon(b));
    }
  }

  /** `list(set(a) | set(b))` followed by `.sort()`: computes the union. */
  method SortedUnion(a: Itemset, b: Itemset) returns (c: Itemset)
    ensures c == Union(a, b)
  {
    c := Canon(a + b);
    CanonSpec(a + b);
    SortedUnique(c, Union(a, b));
  }

  /** In a sorted, duplicate-free itemset the item at position i is at least i. */
  lemma {:induction false} SortedAtLeastIndex(s: Itemset, i: nat)
    requires StrictlySorted(s) && i < |s|
    ensures s[i] >= i
  {
    if i > 0 {
      SortedAtLeastIndex(s, i - 1);
    }
  }

  /** A sorted, duplicate-free itemset over columns below n has at most n items. */
  lemma SortedLengthBound(s: Itemset, n: nat)
    requires StrictlySorted(s)
    requires forall k :: 0 <= k < |s| ==> s[k] < n
    ensures |s| <= n
  {
    if s != [] {
      SortedAtLeastIndex(s, |s| - 1);
    }
  }

  /** Sorted, duplicate-free itemsets have no repeated item. */
  lemma SortedCard(s: Itemset)
    requires StrictlySorted(s)
    ensures |Elems(s)| == |s|
  {
    if s != [] {
      SortedTail(s);
      SortedCard(s[1..]);
    }
  }

  /** The number of distinct items of an itemset. */
  lemma CanonLength(s: Itemset)
    ensures |Canon(s)| == |Elems(s)|
  {
    CanonSpec(s);
    SortedCard(Canon(s));
  }

  /** The guarded append of `merge_itemsets`: keep each value of xs that has
      exactly n items and was not kept before, in the order first found. */
  function KeepNew(xs: seq<Itemset>, n: nat): seq<Itemset> {
    if xs == [] then []
    else
      var prev := KeepNew(xs[..|xs| - 1], n);
      var x := xs[|xs| - 1];
      if |x| == n && x !in prev then prev + [x] else prev
  }

  /** The kept values are those of xs with n items, each once. */
  lemma {:induction false} KeepNewMembers(xs: seq<Itemset>, n: nat)
    ensures NoDups(KeepNew(xs, n))
    ensures forall x :: x in KeepNew(xs, n) <==> x in xs && |x| == n
  {
    if xs != [] {
      KeepNewMembers(xs[..|xs| - 1], n);
      assert xs == xs[..|xs| - 1] + [xs[|xs| - 1]];
    }
  }

  /** One more value at the end is kept exactly when it has n items and is new. */
  lemma KeepNewSnoc(xs: seq<Itemset>, u: Itemset, n: nat)
    ensures KeepNew(xs + [u], n) ==
      if |u| == n && u !in KeepNew(xs, n) then KeepNew(xs, n) + [u] else KeepNew(xs, n)
  {
    assert (xs + [u])[..|xs|] == xs;
  }

  /** xs is obtained from ys by deleting elements: nothing is added or reordered. */
  predicate IsSubsequence<T(==)>(xs: seq<T>, ys: seq<T>)
    decreases |ys|
  {
    if xs == [] then true
    else if ys == [] then false
    else
      (xs[|xs| - 1] == ys[|ys| - 1] && IsSubsequence(xs[..|xs| - 1], ys[..|ys| - 1]))
      || IsSubsequence(xs, ys[..|ys| - 1])
  }

  lemma {:induction false} SubsequenceRefl<T>(xs: seq<T>)
    ensures IsSubsequence(xs, xs)
  {
    if xs != [] {
      SubsequenceRefl(xs[..|xs| - 1]);
    }
  }

  lemma {:induction false} SubsequenceTrans<T>(xs: seq<T>, ys: seq<T>, zs: seq<T>)
    requires IsSubsequence(xs, ys) && IsSubsequence(ys, zs)
    ensures IsSubsequence(xs, zs)
    decreases |zs|
  {
    if xs == [] {
    } else if IsSubsequence(ys, zs[..|zs| - 1]) {
      SubsequenceTrans(xs, ys, zs[..|zs| - 1]);
    } else if xs[|xs| - 1] == ys[|ys| - 1] && IsSubsequence(xs[..|xs| - 1], ys[..|ys| - 1]) {
      SubsequenceTrans(xs[..|xs| - 1], ys[..|ys| - 1], zs[..|zs| - 1]);
    } else {
      SubsequenceTrans(xs, ys[..|ys| - 1], zs[..|zs| - 1]);
    }
  }

  /** Filtering only deletes: it keeps the order in which values were found. */
  lemma {:induction false} KeepNewSubsequence(xs: seq<Itemset>, n: nat)
    ensures IsSubsequence(KeepNew(xs, n), xs)
  {
    if xs != [] {
      var prefix := xs[..|xs| - 1];
      KeepNewSubsequence(prefix, n);
      var r := KeepNew(xs, n);
      var x := xs[|xs| - 1];
      if |x| == n && x !in KeepNew(prefix, n) {
        assert r[..|r| - 1] == KeepNew(prefix, n);
      } else if r != [] {
        assert r == KeepNew(prefix, n);
      }
    }
  }

  /** Position of the first occurrence of x in xs. */
  function FirstIndex<T(==)>(xs: seq<T>, x: T): (i: nat)
    requires x in xs
    ensures i < |xs| && xs[i] == x && x !in xs[..i]
  {
    if xs[0] == x then 0
    else
      assert xs == [xs[0]] + xs[1..];
      1 + FirstIndex(xs[1..], x)
  }

  lemma {:induction false} FirstIndexPrefix<T>(xs: seq<T>, ys: seq<T>, x: T)
    requires x in xs
    ensures FirstIndex(xs + ys, x) == FirstIndex(xs, x)
  {
    if xs[0] != x {
      assert (xs + ys)[1..] == xs[1..] + ys;
      FirstIndexPrefix(xs[1..], ys, x);
    }
  }

  /** The kept values appear in the order of their first occurrence in xs. */
  lemma {:induction false} KeepNewFirstFound(xs: seq<Itemset>, n: nat, p: nat, q: nat)
    requires p < q < |KeepNew(xs, n)|
    ensures var r := KeepNew(xs, n);
      r[p] in xs && r[q] in xs && FirstIndex(xs, r[p]) < FirstIndex(xs, r[q])
  {
    KeepNewMembers(xs, n);
    var prefix := xs[..|xs| - 1];
    var last := xs[|xs| - 1];
    assert xs == prefix + [last];
    var r := KeepNew(xs, n);
    var rp := KeepNew(prefix, n);
    KeepNewMembers(prefix, n);
    assert r[p] == rp[p];
    FirstIndexPrefix(prefix, [last], r[p]);
    if !(|last| == n && last !in rp) || q < |rp| {
      assert r[q] == rp[q];
      KeepNewFirstFound(prefix, n, p, q);
      FirstIndexPrefix(prefix, [last], r[q]);
    } else {
      assert r[q] == last && last !in prefix;
    }
  }
}
