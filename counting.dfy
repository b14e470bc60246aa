/** The transaction matrix, the miner's thresholds and support counting
    (`RuleMiner.__init__` and `RuleMiner.get_support`). */
module Counting {
  import opened Itemsets

  /** A boolean data frame: `width` item columns, named 0 .. width-1 in the
      order of `data.columns`, and one row of presence flags per basket. */
  datatype DataFrame = DataFrame(width: nat, rows: seq<seq<bool>>)

  /** `RuleMiner(support_t, confidence_t)`: the two thresholds, set once at
      construction and only read afterwards. Confidence is a ratio, so its
      threshold is a real number. */
  datatype RuleMiner = RuleMiner(supportT: int, confidenceT: real)

  /** Every row has one cell per column. */
  predicate WellFormed(d: DataFrame) {
    forall i :: 0 <= i < |d.rows| ==> |d.rows[i]| == d.width
  }

  /** Every item of s names a column of d; pandas raises KeyError otherwise. */
  predicate ValidItemset(d: DataFrame, s: Itemset) {
    forall k :: 0 <= k < |s| ==> s[k] < d.width
  }

  /** The basket holds every item of s: one row of `data[s].all(axis=1)`.
      Vacuously true for the empty itemset. (The bound on the index always
      holds for the itemsets that `Support` accepts.) */
  predicate Covers(row: seq<bool>, s: Itemset) {
    forall k :: 0 <= k < |s| ==> s[k] < |row| && row[s[k]]
  }

  /** Number of the given rows that hold every item of s. */
  function CountCovering(rows: seq<seq<bool>>, s: Itemset): (n: nat)
    ensures n <= |rows|
  {
    if rows == [] then 0
    else
      CountCovering(rows[..|rows| - 1], s)
      + (if Covers(rows[|rows| - 1], s) then 1 else 0)
  }

  /** `get_support(data, itemset)`: `data[itemset].all(axis=1).sum()`. */
  function Support(d: DataFrame, s: Itemset): (n: nat)
    requires WellFormed(d) && ValidItemset(d, s)
    ensures n <= |d.rows|
  {
    CountCovering(d.rows, s)
  }

  /** Indices of the rows that hold every item of s. */
  ghost function CoveringRows(d: DataFrame, s: Itemset, m: nat): set<nat>
    requires WellFormed(d) && ValidItemset(d, s) && m <= |d.rows|
  {
    set i | 0 <= i < m && Covers(d.rows[i], s)
  }

  lemma {:induction false} CountCoveringPrefix(d: DataFrame, s: Itemset, m: nat)
    requires WellFormed(d) && ValidItemset(d, s) && m <= |d.rows|
    ensures CountCovering(d.rows[..m], s) == |CoveringRows(d, s, m)|
  {
    if m > 0 {
      var before := CoveringRows(d, s, m - 1);
      var added: set<nat> := if Covers(d.rows[m - 1], s) then {m - 1} else {};
      assert CoveringRows(d, s, m) == before + added by {
        var now := CoveringRows(d, s, m);
        forall i | i in now ensures i in before + added {
        }
        forall i | i in before + added ensures i in now {
        }
      }
      assert |before + added| == |before| + |added| by {
        assert before !! added;
      }
      assert CountCovering(d.rows[..m], s) == CountCovering(d.rows[..m - 1], s) + |added| by {
        assert d.rows[..m][..m - 1] == d.rows[..m - 1];
      }
      CountCoveringPrefix(d, s, m - 1);
    }
  }

  /** The support of s is the number of baskets that contain every item of s. */
  lemma SupportCountsRows(d: DataFrame, s: Itemset)
    requires WellFormed(d) && ValidItemset(d, s)
    ensures Support(d, s) == |CoveringRows(d, s, |d.rows|)|
  {
    CountCoveringPrefix(d, s, |d.rows|);
    assert d.rows[..|d.rows|] == d.rows;
  }

  /** The empty itemset is held by every basket. */
  lemma {:induction false} SupportOfEmpty(d: DataFrame)
    requires WellFormed(d)
    ensures Support(d, []) == |d.rows|
    decreases |d.rows|
  {
    if d.rows != [] {
      SupportOfEmpty(DataFrame(d.width, d.rows[..|d.rows| - 1]));
    }
  }

  lemma {:induction false} CountAntiMonotone(rows: seq<seq<bool>>, a: Itemset, b: Itemset)
    requires Elems(a) <= Elems(b)
    ensures CountCovering(rows, b) <= CountCovering(rows, a)
  {
    if rows != [] {
      CountAntiMonotone(rows[..|rows| - 1], a, b);
      var row := rows[|rows| - 1];
      if Covers(row, b) {
        forall k | 0 <= k < |a|
          ensures a[k] < |row| && row[a[k]]
        {
          assert a[k] in Elems(b);
          var j :| 0 <= j < |b| && b[j] == a[k];
        }
      }
    }
  }

  /** Apriori's anti-monotonicity: adding items can only lose baskets. */
  lemma SupportAntiMonotone(d: DataFrame, a: Itemset, b: Itemset)
    requires WellFormed(d) && ValidItemset(d, b)
    requires Elems(a) <= Elems(b)
    ensures ValidItemset(d, a)
    ensures Support(d, b) <= Support(d, a)
  {
    forall k | 0 <= k < |a|
      ensures a[k] < d.width
    {
      assert a[k] in Elems(b);
    }
    CountAntiMonotone(d.rows, a, b);
  }

  /** An itemset drawn from the items of two valid itemsets is valid. */
  lemma ValidWithin(d: DataFrame, a: Itemset, b: Itemset, x: Itemset)
    requires ValidItemset(d, a) && ValidItemset(d, b)
    requires Elems(x) <= Elems(a) + Elems(b)
    ensures ValidItemset(d, x)
  {
    forall k | 0 <= k < |x|
      ensures x[k] < d.width
    {
      assert x[k] in Elems(a) + Elems(b);
    }
  }

  /** Support ignores the order of the items and repeated items. */
  lemma SupportOfItems(d: DataFrame, a: Itemset, b: Itemset)
    requires WellFormed(d) && ValidItemset(d, a)
    requires Elems(a) == Elems(b)
    ensures ValidItemset(d, b)
    ensures Support(d, a) == Support(d, b)
  {
    SupportAntiMonotone(d, b, a);
    SupportAntiMonotone(d, a, b);
  }

  lemma {:induction false} CountAppend(xs: seq<seq<bool>>, ys: seq<seq<bool>>, s: Itemset)
    ensures CountCovering(xs + ys, s) == CountCovering(xs, s) + CountCovering(ys, s)
  {
    if ys == [] {
      assert xs + ys == xs;
    } else {
      CountAppend(xs, ys[..|ys| - 1], s);
      assert (xs + ys)[..|xs + ys| - 1] == xs + ys[..|ys| - 1];
    }
  }

  lemma CountRemove(ys: seq<seq<bool>>, j: nat, s: Itemset)
    requires j < |ys|
    ensures CountCovering(ys, s) == CountCovering(ys[..j] + ys[j + 1..], s) + CountCovering([ys[j]], s)
  {
    assert ys == (ys[..j] + [ys[j]]) + ys[j + 1..];
    CountAppend(ys[..j] + [ys[j]], ys[j + 1..], s);
    CountAppend(ys[..j], [ys[j]], s);
    CountAppend(ys[..j], ys[j + 1..], s);
  }

  lemma MultisetRemove(ys: seq<seq<bool>>, j: nat)
    requires j < |ys|
    ensures multiset(ys[..j] + ys[j + 1..]) == multiset(ys) - multiset{ys[j]}
  {
    assert ys == ys[..j] + [ys[j]] + ys[j + 1..];
  }

  lemma {:induction false} CountPermutation(xs: seq<seq<bool>>, ys: seq<seq<bool>>, s: Itemset)
    requires multiset(xs) == multiset(ys)
    ensures CountCovering(xs, s) == CountCovering(ys, s)
    decreases |xs|
  {
    if xs != [] {
      var x := xs[|xs| - 1];
      var rest := xs[..|xs| - 1];
      assert xs == rest + [x];
      assert x in multiset(ys);
      var j :| 0 <= j < |ys| && ys[j] == x;
      var others := ys[..j] + ys[j + 1..];
      MultisetRemove(ys, j);
      CountPermutation(rest, others, s);
      CountRemove(ys, j, s);
      CountAppend(rest, [x], s);
    }
  }

  /** Support does not depend on the order of the baskets. */
  lemma SupportRowOrder(d: DataFrame, e: DataFrame, s: Itemset)
    requires WellFormed(d) && ValidItemset(d, s)
    requires e.width == d.width && multiset(e.rows) == multiset(d.rows)
    ensures WellFormed(e)
    ensures Support(d, s) == Support(e, s)
  {
    forall i | 0 <= i < |e.rows|
      ensures |e.rows[i]| == e.width
    {
      assert e.rows[i] in multiset(d.rows);
    }
    CountPermutation(d.rows, e.rows, s);
  }
}
