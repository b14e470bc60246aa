/** The level-wise search of `RuleMiner.get_frequent_itemsets`: filter the
    candidates of one size by support, merge the survivors into candidates
    one item larger, and stop at the first size with no frequent candidate. */
module Frequent {
  import opened Itemsets
  import opened Counting
  import opened Merge

  /** `[[i] for i in data.columns]`: one single-item itemset per column. */
  function Singletons(width: nat): seq<Itemset> {
    seq(width, i requires 0 <= i < width => [i])
  }

  lemma SingletonsShape(width: nat)
    ensures |Singletons(width)| == width
    ensures forall i :: 0 <= i < width ==> Singletons(width)[i] == [i]
    ensures NoDups(Singletons(width))
  {
  }

  /** Every itemset of xs names columns of d. */
  predicate AllValid(d: DataFrame, xs: seq<Itemset>) {
    forall x :: x in xs ==> ValidItemset(d, x)
  }

  /** The itemsets of xs whose support reaches t, in their order in xs. */
  function FrequentOf(d: DataFrame, t: int, xs: seq<Itemset>): seq<Itemset>
    requires WellFormed(d) && AllValid(d, xs)
  {
    if xs == [] then []
    else
      var last := xs[|xs| - 1];
      FrequentOf(d, t, xs[..|xs| - 1]) + (if Support(d, last) >= t then [last] else [])
  }

  /** The support filter keeps exactly the itemsets whose support reaches t. */
  lemma {:induction false} FrequentOfMembers(d: DataFrame, t: int, xs: seq<Itemset>)
    requires WellFormed(d) && AllValid(d, xs)
    ensures forall x :: x in FrequentOf(d, t, xs) <==> x in xs && Support(d, x) >= t
  {
    if xs != [] {
      FrequentOfMembers(d, t, xs[..|xs| - 1]);
      assert xs == xs[..|xs| - 1] + [xs[|xs| - 1]];
    }
  }

  /** The support filter keeps the order of the candidates and adds nothing. */
  lemma {:induction false} FrequentOfSubsequence(d: DataFrame, t: int, xs: seq<Itemset>)
    requires WellFormed(d) && AllValid(d, xs)
    ensures IsSubsequence(FrequentOf(d, t, xs), xs)
  {
    if xs != [] {
      var prefix := xs[..|xs| - 1];
      FrequentOfSubsequence(d, t, prefix);
      var r := FrequentOf(d, t, xs);
      if Support(d, xs[|xs| - 1]) >= t {
        assert r[..|r| - 1] == FrequentOf(d, t, prefix);
      } else if r != [] {
        assert r == FrequentOf(d, t, prefix);
      }
    }
  }

  /** Nothing passes the filter when no candidate reaches the threshold. */
  lemma {:induction false} FrequentOfNone(d: DataFrame, t: int, xs: seq<Itemset>)
    requires WellFormed(d) && AllValid(d, xs)
    requires forall x :: x in xs ==> Support(d, x) < t
    ensures FrequentOf(d, t, xs) == []
  {
    if xs != [] {
      assert xs[|xs| - 1] in xs;
      FrequentOfNone(d, t, xs[..|xs| - 1]);
    }
  }

  /** Filtering a list without repeats gives a list without repeats. */
  lemma {:induction false} FrequentOfNoDups(d: DataFrame, t: int, xs: seq<Itemset>)
    requires WellFormed(d) && AllValid(d, xs) && NoDups(xs)
    ensures NoDups(FrequentOf(d, t, xs))
  {
    if xs != [] {
      var prefix := xs[..|xs| - 1];
      FrequentOfNoDups(d, t, prefix);
      FrequentOfMembers(d, t, prefix);
      assert xs[|xs| - 1] !in prefix;
    }
  }

  /** Candidates of one size, sorted, over the columns of d. */
  predicate Shaped(d: DataFrame, xs: seq<Itemset>, k: nat) {
    forall x :: x in xs ==> |x| == k && StrictlySorted(x) && ValidItemset(d, x)
  }

  lemma SinglesJoin(d: DataFrame, a: Itemset, b: Itemset)
    requires |a| == 1 && |b| == 1 && a != b
    requires ValidItemset(d, a) && ValidItemset(d, b)
    ensures var x := SortedPair(a[0], b[0]); |x| == 2 && StrictlySorted(x) && ValidItemset(d, x)
  {
    assert a == [a[0]] && b == [b[0]];
  }

  /** Merging different single columns gives sorted pairs of columns. */
  lemma MergedShapeSingles(d: DataFrame, its: seq<Itemset>)
    requires |its| > 0 && Shaped(d, its, 1) && NoDups(its)
    ensures Shaped(d, Merged(its), 2)
  {
    MergeSingletons(its);
    forall x | x in Merged(its)
      ensures |x| == 2 && StrictlySorted(x) && ValidItemset(d, x)
    {
      var p :| 0 <= p < |Merged(its)| && Merged(its)[p] == x;
      var i, j := Pairs(|its|)[p].0, Pairs(|its|)[p].1;
      assert x == SortedPair(its[i][0], its[j][0]);
      SinglesJoin(d, its[i], its[j]);
    }
  }

  /** Merging sorted k-itemsets, k > 1, gives sorted (k+1)-itemsets over the same columns. */
  lemma MergedShapeLarger(d: DataFrame, its: seq<Itemset>, k: nat)
    requires |its| > 0 && k > 1 && Shaped(d, its, k)
    ensures Shaped(d, Merged(its), k + 1)
  {
    assert its[0] in its;
    MergeLarger(its);
    forall x | x in Merged(its)
      ensures ValidItemset(d, x)
    {
      var i, j :| 0 <= i < j < |its| && x == Union(its[i], its[j]);
      assert its[i] in its && its[j] in its;
      UnionSpec(its[i], its[j]);
      ValidWithin(d, its[i], its[j], x);
    }
  }

  lemma MergeFrequentShape(d: DataFrame, t: int, prev: seq<Itemset>, k: nat)
    requires WellFormed(d) && k >= 1 && Shaped(d, prev, k)
    requires k == 1 ==> NoDups(prev)
    requires FrequentOf(d, t, prev) != []
    ensures Shaped(d, Merged(FrequentOf(d, t, prev)), k + 1)
  {
    FrequentOfMembers(d, t, prev);
    if k == 1 {
      FrequentOfNoDups(d, t, prev);
      MergedShapeSingles(d, FrequentOf(d, t, prev));
    } else {
      MergedShapeLarger(d, FrequentOf(d, t, prev), k);
    }
  }

  /** Merging itemsets over the columns of d gives itemsets over the same columns. */
  lemma MergedValid(d: DataFrame, its: seq<Itemset>)
    requires |its| > 0 && AllValid(d, its)
    ensures AllValid(d, Merged(its))
  {
    var unions := AllUnions(its);
    AllUnionsMembers(its);
    forall x | x in unions
      ensures ValidItemset(d, x)
    {
      var i, j :| 0 <= i < j < |its| && x == Union(its[i], its[j]);
      assert its[i] in its && its[j] in its;
      UnionSpec(its[i], its[j]);
      ValidWithin(d, its[i], its[j], x);
    }
    KeepNewMembers(unions, |its[0]| + 1);
  }

  lemma MergeFrequentValid(d: DataFrame, t: int, prev: seq<Itemset>)
    requires WellFormed(d) && AllValid(d, prev) && FrequentOf(d, t, prev) != []
    ensures AllValid(d, Merged(FrequentOf(d, t, prev)))
  {
    FrequentOfMembers(d, t, prev);
    MergedValid(d, FrequentOf(d, t, prev));
  }

  /** The candidates of size k for support threshold t: the single columns
      at k = 1, then the merge of the frequent candidates of size k-1, or no
      candidates at all once a size had no frequent one. */
  ghost function Level(d: DataFrame, t: int, k: nat): (r: seq<Itemset>)
    requires WellFormed(d) && k >= 1
    ensures AllValid(d, r)
    decreases k
  {
    if k == 1 then Singletons(d.width)
    else
      var prev := Level(d, t, k - 1);
      var frequent := FrequentOf(d, t, prev);
      if frequent == [] then []
      else
        MergeFrequentValid(d, t, prev);
        Merged(frequent)
  }

  /** The candidates of size k are sorted k-itemsets over the columns of d. */
  lemma {:induction false} LevelShape(d: DataFrame, t: int, k: nat)
    requires WellFormed(d) && k >= 1
    ensures Shaped(d, Level(d, t, k), k)
  {
    SingletonsShape(d.width);
    if k > 1 {
      LevelShape(d, t, k - 1);
      if FrequentOf(d, t, Level(d, t, k - 1)) != [] {
        MergeFrequentShape(d, t, Level(d, t, k - 1), k - 1);
      }
    }
  }

  /** The frequent itemsets of size k. */
  ghost function FrequentLevel(d: DataFrame, t: int, k: nat): seq<Itemset>
    requires WellFormed(d) && k >= 1
  {
    FrequentOf(d, t, Level(d, t, k))
  }

  /** The frequent itemsets of the largest size k <= top that has any. */
  ghost function LastFrequent(d: DataFrame, t: int, top: nat): seq<Itemset>
    requires WellFormed(d)
  {
    if top == 0 then []
    else if FrequentLevel(d, t, top) != [] then FrequentLevel(d, t, top)
    else LastFrequent(d, t, top - 1)
  }

  /** What `get_frequent_itemsets` returns: the frequent itemsets of the
      largest size that has any, or none. No itemset has more items than
      there are columns. */
  ghost function FrequentItemsets(d: DataFrame, t: int): seq<Itemset>
    requires WellFormed(d)
  {
    LastFrequent(d, t, d.width)
  }

  /** No candidate has more items than there are columns. */
  lemma LevelBound(d: DataFrame, t: int, k: nat)
    requires WellFormed(d) && k >= 1
    ensures Level(d, t, k) != [] ==> k <= d.width
    ensures FrequentLevel(d, t, k) != [] ==> k <= d.width
  {
    FrequentOfMembers(d, t, Level(d, t, k));
    LevelShape(d, t, k);
    if Level(d, t, k) != [] {
      var x := Level(d, t, k)[0];
      assert x in Level(d, t, k);
      SortedLengthBound(x, d.width);
    }
  }

  /** Candidates one item larger are the merge of the frequent itemsets,
      while there are any; there are then no more items than columns. */
  lemma LevelStep(d: DataFrame, t: int, k: nat)
    requires WellFormed(d) && k >= 1 && FrequentLevel(d, t, k) != []
    ensures k <= d.width
    ensures Level(d, t, k + 1) == Merged(FrequentLevel(d, t, k))
  {
    LevelBound(d, t, k);
  }

  /** Once a size has no frequent itemset, no larger size has one. */
  lemma {:induction false} EmptyStaysEmpty(d: DataFrame, t: int, k: nat, k2: nat)
    requires WellFormed(d) && 1 <= k <= k2
    requires FrequentLevel(d, t, k) == []
    ensures FrequentLevel(d, t, k2) == []
    decreases k2
  {
    if k2 > k {
      EmptyStaysEmpty(d, t, k, k2 - 1);
      assert Level(d, t, k2) == [];
    }
  }

  /** Size e has no frequent itemset, and the size before it (if any) has one. */
  ghost predicate FirstEmpty(d: DataFrame, t: int, e: nat)
    requires WellFormed(d)
  {
    && 1 <= e
    && FrequentLevel(d, t, e) == []
    && (e >= 2 ==> FrequentLevel(d, t, e - 1) != [])
  }

  /** If size k is the first without frequent itemsets, the largest size with
      any is k-1 (none at all when k = 1). */
  lemma {:induction false} LastFrequentIs(d: DataFrame, t: int, top: nat, k: nat)
    requires WellFormed(d) && FirstEmpty(d, t, k) && k - 1 <= top
    ensures LastFrequent(d, t, top) == if k == 1 then [] else FrequentLevel(d, t, k - 1)
  {
    if top >= k {
      EmptyStaysEmpty(d, t, k, top);
      assert LastFrequent(d, t, top) == LastFrequent(d, t, top - 1);
      LastFrequentIs(d, t, top - 1, k);
    }
  }

  /** The body of the `while flag` loop of `get_frequent_itemsets` up to the
      emptiness test: append each candidate whose support reaches the threshold. */
  method KeepFrequent(m: RuleMiner, d: DataFrame, itemsets: seq<Itemset>) returns (newItemsets: seq<Itemset>)
    requires WellFormed(d) && AllValid(d, itemsets)
    ensures newItemsets == FrequentOf(d, m.supportT, itemsets)
  {
    newItemsets := [];
    for n := 0 to |itemsets|
      invariant newItemsets == FrequentOf(d, m.supportT, itemsets[..n])
    {
      assert itemsets[..n + 1][..n] == itemsets[..n];
      assert itemsets[n] in itemsets;
      if Support(d, itemsets[n]) >= m.supportT {
        newItemsets := newItemsets + [itemsets[n]];
      }
    }
    assert itemsets[..|itemsets|] == itemsets;
  }

  /** The state of `get_frequent_itemsets` before each test of `flag`: the
      candidates of size k while searching, else the last frequent list; and
      the frequent list of the size before k, if any, kept aside. */
  ghost predicate Searching(d: DataFrame, t: int, k: nat, flag: bool,
                            itemsets: seq<Itemset>, oldItemsets: seq<Itemset>)
    requires WellFormed(d)
  {
    && 1 <= k <= d.width + 1
    && (flag ==> itemsets == Level(d, t, k))
    && (!flag ==> FrequentLevel(d, t, k) == [] && itemsets == oldItemsets)
    && (if k == 1 then oldItemsets == [] else oldItemsets == FrequentLevel(d, t, k - 1) != [])
  }

  /** `get_frequent_itemsets(data)`: while the current candidates have a
      frequent one, keep the frequent ones and merge them into the next
      candidates; then return the last frequent list kept. The ghost k is the
      size of the current candidates. */
  method GetFrequentItemsets(m: RuleMiner, d: DataFrame) returns (itemsets: seq<Itemset>)
    requires WellFormed(d)
    ensures itemsets == FrequentItemsets(d, m.supportT)
  {
    itemsets := Singletons(d.width);
    var oldItemsets: seq<Itemset> := [];
    var flag := true;
    ghost var k: nat := 1;
    while flag
      invariant Searching(d, m.supportT, k, flag, itemsets, oldItemsets)
      decreases d.width + 1 - k, flag
    {
      var newItemsets := KeepFrequent(m, d, itemsets);
      assert newItemsets == FrequentLevel(d, m.supportT, k);
      if |newItemsets| != 0 {
        oldItemsets := newItemsets;
        assert k <= d.width && Level(d, m.supportT, k + 1) == Merged(newItemsets) by {
          LevelStep(d, m.supportT, k);
        }
        itemsets := MergeItemsets(newItemsets);
        k := k + 1;
      } else {
        flag := false;
        itemsets := oldItemsets;
      }
    }
    LastFrequentIs(d, m.supportT, d.width, k);
  }

  /** The frequent itemsets of size k are sorted, frequent k-itemsets over the columns of d. */
  lemma FrequentLevelShape(d: DataFrame, t: int, k: nat)
    requires WellFormed(d) && k >= 1
    ensures forall x :: x in FrequentLevel(d, t, k) ==>
      |x| == k && ValidItemset(d, x) && Support(d, x) >= t && StrictlySorted(x)
  {
    FrequentOfMembers(d, t, Level(d, t, k));
    LevelShape(d, t, k);
  }

  /** A non-empty result of the search is the list of frequent itemsets of one size. */
  lemma {:induction false} LastFrequentLevel(d: DataFrame, t: int, top: nat) returns (k: nat)
    requires WellFormed(d)
    ensures LastFrequent(d, t, top) != [] ==> 1 <= k && LastFrequent(d, t, top) == FrequentLevel(d, t, k)
  {
    k := 0;
    if top > 0 {
      if FrequentLevel(d, t, top) != [] {
        k := top;
      } else {
        k := LastFrequentLevel(d, t, top - 1);
      }
    }
  }

  /** `get_frequent_itemsets` returns only non-empty frequent itemsets, all of one size. */
  lemma FrequentItemsetsSound(d: DataFrame, t: int)
    requires WellFormed(d)
    ensures forall x :: x in FrequentItemsets(d, t) ==>
      |x| > 0 && ValidItemset(d, x) && Support(d, x) >= t && StrictlySorted(x)
    ensures forall x, y :: x in FrequentItemsets(d, t) && y in FrequentItemsets(d, t) ==> |x| == |y|
  {
    var k := LastFrequentLevel(d, t, d.width);
    if FrequentItemsets(d, t) != [] {
      FrequentLevelShape(d, t, k);
    }
  }

  lemma {:induction false} LastFrequentNonEmpty(d: DataFrame, t: int, top: nat, k: nat)
    requires WellFormed(d) && 1 <= k <= top
    requires FrequentLevel(d, t, k) != []
    ensures LastFrequent(d, t, top) != []
  {
    if k < top && FrequentLevel(d, t, top) == [] {
      LastFrequentNonEmpty(d, t, top - 1, k);
    }
  }

  /** The search finds nothing exactly when no single column is frequent (in
      particular when there are no columns). */
  lemma FrequentItemsetsEmpty(d: DataFrame, t: int)
    requires WellFormed(d)
    ensures FrequentItemsets(d, t) == [] <==>
      forall c :: 0 <= c < d.width ==> Support(d, [c]) < t
  {
    SingletonsShape(d.width);
    FrequentOfMembers(d, t, Level(d, t, 1));
    if forall c :: 0 <= c < d.width ==> Support(d, [c]) < t {
      assert FrequentLevel(d, t, 1) == [] by {
        forall x | x in Singletons(d.width)
          ensures Support(d, x) < t
        {
          var c :| 0 <= c < d.width && Singletons(d.width)[c] == x;
        }
        FrequentOfNone(d, t, Singletons(d.width));
      }
      LastFrequentIs(d, t, d.width, 1);
    } else {
      var c :| 0 <= c < d.width && Support(d, [c]) >= t;
      assert [c] == Singletons(d.width)[c];
      LastFrequentNonEmpty(d, t, d.width, 1);
    }
  }

  /** A support threshold above the number of baskets leaves nothing frequent. */
  lemma FrequentItemsetsAboveRows(d: DataFrame, t: int)
    requires WellFormed(d) && t > |d.rows|
    ensures FrequentItemsets(d, t) == []
  {
    FrequentItemsetsEmpty(d, t);
  }

  /** Apriori completeness: every sorted itemset of k items whose support
      reaches t is found at size k. Its two subsets without one of the last
      two items are frequent by anti-monotonicity, hence found at size k-1,
      and their union is the itemset. */
  lemma {:induction false} LevelComplete(d: DataFrame, t: int, k: nat, s: Itemset)
    requires WellFormed(d) && k >= 1
    requires |s| == k && StrictlySorted(s) && ValidItemset(d, s) && Support(d, s) >= t
    ensures s in FrequentLevel(d, t, k)
  {
    FrequentOfMembers(d, t, Level(d, t, k));
    if k == 1 {
      SingletonsShape(d.width);
      assert Singletons(d.width)[s[0]] == s;
    } else {
      var a, b := s[..k - 1], s[..k - 2] + [s[k - 1]];
      DropOneOfLastTwo(s);
      SupportAntiMonotone(d, a, s);
      SupportAntiMonotone(d, b, s);
      LevelComplete(d, t, k - 1, a);
      LevelComplete(d, t, k - 1, b);
      var found := FrequentLevel(d, t, k - 1);
      var i :| 0 <= i < |found| && found[i] == a;
      var j :| 0 <= j < |found| && found[j] == b;
      FrequentLevelShape(d, t, k - 1);
      assert found[0] in found;
      assert Union(a, b) == s by {
        UnionSpec(a, b);
        SortedUnique(Union(a, b), s);
      }
      MergedComplete(found, i, j);
    }
  }

  /** Searching upward from size k, a first size without frequent itemsets
      exists and is at most one more than the number of columns. */
  lemma {:induction false} FirstEmptyFrom(d: DataFrame, t: int, k: nat) returns (e: nat)
    requires WellFormed(d) && 1 <= k <= d.width + 1
    requires k >= 2 ==> FrequentLevel(d, t, k - 1) != []
    ensures k <= e <= d.width + 1 && FirstEmpty(d, t, e)
    decreases d.width + 1 - k
  {
    if FrequentLevel(d, t, k) == [] {
      e := k;
    } else {
      assert k <= d.width by {
        LevelBound(d, t, k);
      }
      e := FirstEmptyFrom(d, t, k + 1);
    }
  }

  /** Once size e has no frequent itemset, no sorted itemset of e items or
      more is frequent: its first e items would be. */
  lemma NoneBeyond(d: DataFrame, t: int, e: nat, c: Itemset)
    requires WellFormed(d) && e >= 1 && FrequentLevel(d, t, e) == []
    requires StrictlySorted(c) && ValidItemset(d, c)
    ensures Support(d, c) >= t ==> |c| < e
  {
    if |c| >= e && Support(d, c) >= t {
      var p := c[..e];
      SupportAntiMonotone(d, p, c);
      LevelComplete(d, t, e, p);
      assert false;
    }
  }

  /** The search result is maximal and complete: no set of items whose
      support reaches t is larger than the returned itemsets (nor non-empty
      when nothing is returned), and every such set of that size is returned,
      in sorted form. */
  lemma FrequentItemsetsMaximal(d: DataFrame, t: int, s: Itemset)
    requires WellFormed(d) && ValidItemset(d, s) && Support(d, s) >= t
    ensures var r := FrequentItemsets(d, t);
      |Elems(s)| <= if r == [] then 0 else |r[0]|
    ensures var r := FrequentItemsets(d, t);
      r != [] && |Elems(s)| == |r[0]| ==> Canon(s) in r
  {
    var e := FirstEmptyFrom(d, t, 1);
    var r := FrequentItemsets(d, t);
    assert r == if e == 1 then [] else FrequentLevel(d, t, e - 1) by {
      LastFrequentIs(d, t, d.width, e);
    }
    var c := Canon(s);
    assert StrictlySorted(c) && ValidItemset(d, c) && Support(d, c) >= t && |c| == |Elems(s)| by {
      CanonSpec(s);
      CanonLength(s);
      SupportOfItems(d, s, c);
    }
    assert |c| < e by {
      NoneBeyond(d, t, e, c);
    }
    if r != [] {
      var k := e - 1;
      assert r == FrequentLevel(d, t, k);
      assert |r[0]| == k by {
        assert r[0] in FrequentLevel(d, t, k);
        FrequentLevelShape(d, t, k);
      }
      if |c| == k {
        LevelComplete(d, t, k, c);
      }
    }
  }
}
