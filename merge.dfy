/** Candidate generation (`RuleMiner.merge_itemsets`): pairwise unions of the
    itemsets of one level, visited by the nested index loops `i < j`. */
module Merge {
  import opened Itemsets

  /** The pairs (i, i+1), ..., (i, n-1): one pass of the inner loop. */
  function RowPairs(n: nat, i: nat): seq<(nat, nat)>
    requires i < n
  {
    seq(n - i - 1, k requires 0 <= k < n - i - 1 => (i, i + 1 + k))
  }

  /** The pairs visited by the outer loop before it reaches row i. */
  function PairsBefore(n: nat, i: nat): seq<(nat, nat)>
    requires i <= n
  {
    if i == 0 then [] else PairsBefore(n, i - 1) + RowPairs(n, i - 1)
  }

  /** `for i in range(n): for j in range(i + 1, n)`: the index pairs in visiting order. */
  function Pairs(n: nat): seq<(nat, nat)> {
    PairsBefore(n, n)
  }

  /** Every pair indexes two different positions below n, the smaller first. */
  predicate IndexPairs(ps: seq<(nat, nat)>, n: nat) {
    forall p :: 0 <= p < |ps| ==> ps[p].0 < ps[p].1 < n
  }

  predicate LexLess(a: (nat, nat), b: (nat, nat)) {
    a.0 < b.0 || (a.0 == b.0 && a.1 < b.1)
  }

  lemma {:induction false} PairsBeforeShape(n: nat, i: nat)
    requires i <= n
    ensures IndexPairs(PairsBefore(n, i), n)
    ensures forall p :: 0 <= p < |PairsBefore(n, i)| ==> PairsBefore(n, i)[p].0 < i
    ensures 2 * |PairsBefore(n, i)| == i * (2 * n - i - 1)
  {
    if i > 0 {
      PairsBeforeShape(n, i - 1);
      var before := PairsBefore(n, i - 1);
      var row := RowPairs(n, i - 1);
      assert forall p :: 0 <= p < |row| ==> row[p].0 == i - 1 && i - 1 < row[p].1 < n;
      assert forall p :: 0 <= p < |before| + |row| ==>
        (before + row)[p] == if p < |before| then before[p] else row[p - |before|];
      assert 2 * |PairsBefore(n, i)| == (i - 1) * (2 * n - (i - 1) - 1) + 2 * (n - i);
    }
  }

  /** There are n(n-1)/2 index pairs. */
  lemma PairsCount(n: nat)
    ensures IndexPairs(Pairs(n), n)
    ensures 2 * |Pairs(n)| == n * (n - 1)
  {
    PairsBeforeShape(n, n);
  }

  lemma {:induction false} PairsBeforeComplete(n: nat, i: nat, a: nat, b: nat)
    requires i <= n && a < i && a < b < n
    ensures (a, b) in PairsBefore(n, i)
  {
    if a == i - 1 {
      assert RowPairs(n, i - 1)[b - i] == (a, b);
    } else {
      PairsBeforeComplete(n, i - 1, a, b);
    }
  }

  /** Every pair i < j < n is visited. */
  lemma PairsComplete(n: nat, a: nat, b: nat)
    ensures (a, b) in Pairs(n) <==> a < b < n
  {
    PairsCount(n);
    if a < b < n {
      PairsBeforeComplete(n, n, a, b);
    }
  }

  lemma {:induction false} PairsBeforeAscending(n: nat, i: nat, p: nat, q: nat)
    requires i <= n && p < q < |PairsBefore(n, i)|
    ensures LexLess(PairsBefore(n, i)[p], PairsBefore(n, i)[q])
  {
    var before := PairsBefore(n, i - 1);
    PairsBeforeShape(n, i - 1);
    if q < |before| {
      PairsBeforeAscending(n, i - 1, p, q);
    }
  }

  /** The pairs are visited in ascending lexicographic order of (i, j). */
  lemma PairsAscending(n: nat, p: nat, q: nat)
    requires p < q < |Pairs(n)|
    ensures LexLess(Pairs(n)[p], Pairs(n)[q])
  {
    PairsBeforeAscending(n, n, p, q);
  }

  /** The unions `itemsets[i] | itemsets[k]` for i < k < j: the first passes of
      the inner loop for row i. */
  ghost function RowUnions(its: seq<Itemset>, i: nat, j: nat): seq<Itemset>
    requires i < j <= |its|
    decreases j
  {
    if j == i + 1 then [] else RowUnions(its, i, j - 1) + [Union(its[i], its[j - 1])]
  }

  /** The unions produced by the outer loop before it reaches row i. */
  ghost function UnionsBefore(its: seq<Itemset>, i: nat): seq<Itemset>
    requires i <= |its|
  {
    if i == 0 then [] else UnionsBefore(its, i - 1) + RowUnions(its, i - 1, |its|)
  }

  /** Every pairwise union `list(set(itemsets[i]) | set(itemsets[j]))`, i < j, in loop order. */
  ghost function AllUnions(its: seq<Itemset>): seq<Itemset> {
    UnionsBefore(its, |its|)
  }

  lemma {:induction false} RowUnionsAt(its: seq<Itemset>, i: nat, j: nat)
    requires i < j <= |its|
    ensures |RowUnions(its, i, j)| == j - i - 1
    ensures forall k :: 0 <= k < j - i - 1 ==>
      RowUnions(its, i, j)[k] == Union(its[RowPairs(|its|, i)[k].0], its[RowPairs(|its|, i)[k].1])
    decreases j
  {
    if j > i + 1 {
      RowUnionsAt(its, i, j - 1);
    }
  }

  lemma {:induction false} UnionsBeforeLength(its: seq<Itemset>, i: nat)
    requires i <= |its|
    ensures |UnionsBefore(its, i)| == |PairsBefore(|its|, i)|
  {
    if i > 0 {
      UnionsBeforeLength(its, i - 1);
      RowUnionsAt(its, i - 1, |its|);
    }
  }

  lemma {:induction false} UnionsBeforeAt(its: seq<Itemset>, i: nat, p: nat)
    requires i <= |its| && p < |PairsBefore(|its|, i)|
    ensures PairsBefore(|its|, i)[p].0 < PairsBefore(|its|, i)[p].1 < |its|
    ensures p < |UnionsBefore(its, i)|
    ensures UnionsBefore(its, i)[p] == Union(its[PairsBefore(|its|, i)[p].0], its[PairsBefore(|its|, i)[p].1])
  {
    PairsBeforeShape(|its|, i);
    UnionsBeforeLength(its, i);
    UnionsBeforeLength(its, i - 1);
    var before := PairsBefore(|its|, i - 1);
    if p < |before| {
      UnionsBeforeAt(its, i - 1, p);
    } else {
      RowUnionsAt(its, i - 1, |its|);
    }
  }

  /** The p-th union is that of the itemsets at the p-th index pair. */
  lemma AllUnionsAt(its: seq<Itemset>)
    ensures |AllUnions(its)| == |Pairs(|its|)|
    ensures forall p :: 0 <= p < |AllUnions(its)| ==>
      Pairs(|its|)[p].0 < Pairs(|its|)[p].1 < |its| &&
      AllUnions(its)[p] == Union(its[Pairs(|its|)[p].0], its[Pairs(|its|)[p].1])
  {
    UnionsBeforeLength(its, |its|);
    forall p | 0 <= p < |AllUnions(its)|
      ensures Pairs(|its|)[p].0 < Pairs(|its|)[p].1 < |its|
      ensures AllUnions(its)[p] == Union(its[Pairs(|its|)[p].0], its[Pairs(|its|)[p].1])
    {
      UnionsBeforeAt(its, |its|, p);
    }
  }

  /** What `merge_itemsets` returns. For single items, every pairwise union;
      otherwise the unions with exactly one item more than the inputs, each
      kept once, in the order first found. */
  ghost function Merged(its: seq<Itemset>): seq<Itemset>
    requires |its| > 0
  {
    if |its[0]| == 1 then AllUnions(its)
    else KeepNew(AllUnions(its), |its[0]| + 1)
  }

  /** What `merge_itemsets` has appended after forming the unions so far:
      every one of them for single items, else each new union of k + 1 items. */
  ghost predicate Gathered(k: nat, unions: seq<Itemset>, newItemsets: seq<Itemset>) {
    if k == 1 then newItemsets == unions else newItemsets == KeepNew(unions, k + 1)
  }

  /** `merge_itemsets(itemsets)`, with the two branches and nested loops of
      the source; `combined_list not in new_itemsets` is the membership test.
      The ghost `unions` records every union formed so far. */
  method MergeItemsets(itemsets: seq<Itemset>) returns (newItemsets: seq<Itemset>)
    requires |itemsets| > 0
    ensures newItemsets == Merged(itemsets)
  {
    var n := |itemsets|;
    var curNumItems := |itemsets[0]|;
    newItemsets := [];
    ghost var unions: seq<Itemset> := [];
    for i := 0 to n
      invariant unions == UnionsBefore(itemsets, i)
      invariant Gathered(curNumItems, unions, newItemsets)
    {
      for j := i + 1 to n
        invariant unions == UnionsBefore(itemsets, i) + RowUnions(itemsets, i, j)
        invariant Gathered(curNumItems, unions, newItemsets)
      {
        var combinedList := SortedUnion(itemsets[i], itemsets[j]);
        if curNumItems == 1 {
          newItemsets := newItemsets + [combinedList];
        } else {
          KeepNewSnoc(unions, combinedList, curNumItems + 1);
          if |combinedList| == curNumItems + 1 && combinedList !in newItemsets {
            newItemsets := newItemsets + [combinedList];
          }
        }
        assert unions + [combinedList] == UnionsBefore(itemsets, i) + RowUnions(itemsets, i, j + 1) by {
          assert RowUnions(itemsets, i, j + 1) == RowUnions(itemsets, i, j) + [combinedList];
        }
        unions := unions + [combinedList];
      }
    }
  }

  /** A list holds the union of exactly the pairs of itemsets at two positions i < j. */
  lemma AllUnionsMembers(its: seq<Itemset>)
    ensures forall x :: x in AllUnions(its) <==>
      exists i, j :: 0 <= i < j < |its| && x == Union(its[i], its[j])
  {
    AllUnionsAt(its);
    var n := |its|;
    forall x | x in AllUnions(its)
      ensures exists i, j :: 0 <= i < j < n && x == Union(its[i], its[j])
    {
      var p :| 0 <= p < |AllUnions(its)| && AllUnions(its)[p] == x;
      var (i, j) := Pairs(n)[p];
      assert x == Union(its[i], its[j]);
    }
    forall i, j | 0 <= i < j < n
      ensures Union(its[i], its[j]) in AllUnions(its)
    {
      PairsComplete(n, i, j);
      var p :| 0 <= p < |Pairs(n)| && Pairs(n)[p] == (i, j);
      assert AllUnions(its)[p] == Union(its[i], its[j]);
    }
  }

  /** The items a and b in ascending order, once each. */
  function SortedPair(a: nat, b: nat): Itemset {
    if a < b then [a, b] else if a == b then [a] else [b, a]
  }

  /** Merging n single-item itemsets gives the n(n-1)/2 pairs in the order
      (0,1), (0,2), ..., (n-2,n-1): the p-th output joins the items of the
      inputs at the p-th index pair, sorted, as one item when they coincide. */
  lemma MergeSingletons(its: seq<Itemset>)
    requires |its| > 0
    requires forall i :: 0 <= i < |its| ==> |its[i]| == 1
    ensures |Merged(its)| == |Pairs(|its|)|
    ensures 2 * |Merged(its)| == |its| * (|its| - 1)
    ensures forall p :: 0 <= p < |Merged(its)| ==>
      Pairs(|its|)[p].0 < Pairs(|its|)[p].1 < |its| &&
      Merged(its)[p] == SortedPair(its[Pairs(|its|)[p].0][0], its[Pairs(|its|)[p].1][0])
  {
    var n := |its|;
    AllUnionsAt(its);
    PairsCount(n);
    forall p | 0 <= p < |Merged(its)|
      ensures Merged(its)[p] == SortedPair(its[Pairs(n)[p].0][0], its[Pairs(n)[p].1][0])
    {
      var i, j := Pairs(n)[p].0, Pairs(n)[p].1;
      var a, b := its[i][0], its[j][0];
      UnionSpec(its[i], its[j]);
      assert its[i] == [a] && its[j] == [b];
      assert Elems(SortedPair(a, b)) == Elems(its[i]) + Elems(its[j]);
      SortedUnique(Merged(its)[p], SortedPair(a, b));
    }
  }

  /** Merging itemsets of k > 1 items keeps the unions of two inputs that have
      exactly k+1 items: every such union once, nothing else, each sorted, in
      the order in which the loops first meet them. */
  lemma MergeLarger(its: seq<Itemset>)
    requires |its| > 0 && |its[0]| != 1
    ensures NoDups(Merged(its))
    ensures forall x :: x in Merged(its) <==>
      |x| == |its[0]| + 1 && exists i, j :: 0 <= i < j < |its| && x == Union(its[i], its[j])
    ensures forall x :: x in Merged(its) ==> StrictlySorted(x)
    ensures IsSubsequence(Merged(its), AllUnions(its))
    ensures forall p, q :: 0 <= p < q < |Merged(its)| ==>
      Merged(its)[p] in AllUnions(its) && Merged(its)[q] in AllUnions(its) &&
      FirstIndex(AllUnions(its), Merged(its)[p]) < FirstIndex(AllUnions(its), Merged(its)[q])
  {
    var k := |its[0]|;
    KeepNewMembers(AllUnions(its), k + 1);
    AllUnionsMembers(its);
    forall x | x in Merged(its)
      ensures StrictlySorted(x)
    {
      var i, j :| 0 <= i < j < |its| && x == Union(its[i], its[j]);
      UnionSpec(its[i], its[j]);
    }
    KeepNewSubsequence(AllUnions(its), k + 1);
    forall p, q | 0 <= p < q < |Merged(its)|
      ensures Merged(its)[p] in AllUnions(its) && Merged(its)[q] in AllUnions(its) &&
        FirstIndex(AllUnions(its), Merged(its)[p]) < FirstIndex(AllUnions(its), Merged(its)[q])
    {
      KeepNewFirstFound(AllUnions(its), k + 1, p, q);
    }
  }


  /** Any two inputs whose union has one item more than the inputs have
      contribute that union to the result. */
  lemma MergedComplete(its: seq<Itemset>, i: nat, j: nat)
    requires i < |its| && j < |its| && i != j
    requires |Union(its[i], its[j])| == |its[0]| + 1
    ensures Union(its[i], its[j]) in Merged(its)
  {
    UnionSymmetric(its[i], its[j]);
    AllUnionsMembers(its);
    var lo, hi := if i < j then i else j, if i < j then j else i;
    assert Union(its[lo], its[hi]) in AllUnions(its);
    KeepNewMembers(AllUnions(its), |its[0]| + 1);
  }
}
