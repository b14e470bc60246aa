/** Rule generation (`RuleMiner.get_rules`): every split of an itemset into
    all-but-one of its items and the rest, in both directions. */
module Rules {
  import opened Itemsets

  /** A rule X -> Y, the list `[X, Y]` of the source. */
  datatype Rule = Rule(antecedent: Itemset, consequent: Itemset)

  /** s without its item at position i. */
  function Omit(s: Itemset, i: nat): Itemset
    requires i < |s|
  {
    s[..i] + s[i + 1..]
  }

  /** Each combination of cs, with x put in front. */
  function Prepend(x: nat, cs: seq<Itemset>): (r: seq<Itemset>)
    ensures |r| == |cs|
    ensures forall k :: 0 <= k < |cs| ==> r[k] == [x] + cs[k]
  {
    if cs == [] then [] else [[x] + cs[0]] + Prepend(x, cs[1..])
  }

  /** `itertools.combinations(s, r)`: the subsequences of s of length r, by
      positions, in lexicographic order of the positions taken. */
  function Combinations(s: Itemset, r: nat): seq<Itemset>
    decreases |s|
  {
    if r == 0 then [[]]
    else if |s| < r then []
    else Prepend(s[0], Combinations(s[1..], r - 1)) + Combinations(s[1..], r)
  }

  /** Taking every position gives the whole sequence, once. */
  lemma {:induction false} CombinationsAll(s: Itemset)
    ensures Combinations(s, |s|) == [s]
    decreases |s|
  {
    if s != [] {
      CombinationsAll(s[1..]);
      assert [s[0]] + s[1..] == s;
    }
  }

  lemma OmitFront(s: Itemset, i: nat)
    requires 1 <= i < |s|
    ensures Omit(s, i) == [s[0]] + Omit(s[1..], i - 1)
  {
    assert s[1..][..i - 1] == s[1..i];
    assert s[1..][i..] == s[i + 1..];
  }

  /** The step of CombinationsOmitOne: s[0] in front of the combinations
      of the tail that drop one item, then the tail itself. */
  lemma OmitOneJoin(s: Itemset, t: Itemset, inner: seq<Itemset>, c: seq<Itemset>)
    requires |s| > 1 && t == s[1..] && |inner| == |t|
    requires forall i :: 0 <= i < |t| ==> inner[|t| - 1 - i] == Omit(t, i)
    requires c == Prepend(s[0], inner) + [t]
    ensures |c| == |s|
    ensures forall i :: 0 <= i < |s| ==> c[|s| - 1 - i] == Omit(s, i)
  {
    var n := |s|;
    forall i | 0 <= i < n
      ensures c[n - 1 - i] == Omit(s, i)
    {
      if i > 0 {
        assert inner[|t| - 1 - (i - 1)] == Omit(t, i - 1);
        OmitFront(s, i);
      }
    }
  }

  /** The combinations of all but one item leave out the last position
      first, then the one before, down to the first. */
  lemma {:induction false} CombinationsOmitOne(s: Itemset)
    requires |s| > 0
    ensures |Combinations(s, |s| - 1)| == |s|
    ensures forall i :: 0 <= i < |s| ==> Combinations(s, |s| - 1)[|s| - 1 - i] == Omit(s, i)
    decreases |s|
  {
    var n := |s|;
    if n > 1 {
      var t := s[1..];
      assert Combinations(s, n - 1) == Prepend(s[0], Combinations(t, |t| - 1)) + [t] by {
        CombinationsAll(t);
      }
      CombinationsOmitOne(t);
      OmitOneJoin(s, t, Combinations(t, |t| - 1), Combinations(s, n - 1));
    }
  }

  /** The items of s that c does not hold, in the order of s. */
  function Minus(s: Itemset, c: Itemset): Itemset {
    if s == [] then []
    else Minus(s[..|s| - 1], c) + (if s[|s| - 1] in c then [] else [s[|s| - 1]])
  }

  lemma {:induction false} MinusElems(s: Itemset, c: Itemset)
    ensures Elems(Minus(s, c)) == Elems(s) - Elems(c)
  {
    if s != [] {
      MinusElems(s[..|s| - 1], c);
      assert s == s[..|s| - 1] + [s[|s| - 1]];
      ElemsConcat(s[..|s| - 1], [s[|s| - 1]]);
      ElemsConcat(Minus(s[..|s| - 1], c), if s[|s| - 1] in c then [] else [s[|s| - 1]]);
    }
  }

  lemma DifferenceExists(s: Itemset, c: Itemset)
    ensures exists r :: StrictlySorted(r) && Elems(r) == Elems(s) - Elems(c)
  {
    CanonSpec(Minus(s, c));
    MinusElems(s, c);
  }

  /** `list(set(s) - set(c))`, listed in ascending order. */
  ghost function Difference(s: Itemset, c: Itemset): Itemset {
    DifferenceExists(s, c);
    var r :| StrictlySorted(r) && Elems(r) == Elems(s) - Elems(c); r
  }

  /** The difference is sorted, duplicate-free and holds the items of s missing from c. */
  lemma DifferenceSpec(s: Itemset, c: Itemset)
    ensures StrictlySorted(Difference(s, c))
    ensures Elems(Difference(s, c)) == Elems(s) - Elems(c)
  {
  }

  /** Computes `list(set(s) - set(c))`. */
  method SortedDifference(s: Itemset, c: Itemset) returns (r: Itemset)
    ensures r == Difference(s, c)
  {
    var rest := Minus(s, c);
    r := Canon(rest);
    CanonSpec(rest);
    MinusElems(s, c);
    DifferenceSpec(s, c);
    SortedUnique(r, Difference(s, c));
  }

  /** The two rules of each combination, `[c, diff]` then `[diff, c]`, in
      the order of the combinations. */
  ghost function RulesFor(s: Itemset, combs: seq<Itemset>): seq<Rule> {
    if combs == [] then []
    else
      var c := combs[|combs| - 1];
      RulesFor(s, combs[..|combs| - 1]) + [Rule(c, Difference(s, c)), Rule(Difference(s, c), c)]
  }

  /** What `get_rules(s)` returns. */
  ghost function RulesOf(s: Itemset): seq<Rule>
    requires |s| > 0
  {
    RulesFor(s, Combinations(s, |s| - 1))
  }

  /** `get_rules(itemset)`: for each combination of all but one item, the
      rule from it to the rest and the rule back. An empty itemset makes
      `itertools.combinations` fail (a negative length), hence the precondition. */
  method GetRules(itemset: Itemset) returns (rules: seq<Rule>)
    requires |itemset| > 0
    ensures rules == RulesOf(itemset)
  {
    var combinations := Combinations(itemset, |itemset| - 1);
    rules := [];
    for n := 0 to |combinations|
      invariant rules == RulesFor(itemset, combinations[..n])
    {
      var combination := combinations[n];
      var diff := SortedDifference(itemset, combination);
      assert combinations[..n + 1][..n] == combinations[..n];
      rules := rules + [Rule(combination, diff)];
      rules := rules + [Rule(diff, combination)];
    }
    assert combinations[..|combinations|] == combinations;
  }

  lemma {:induction false} RulesForAt(s: Itemset, combs: seq<Itemset>)
    ensures |RulesFor(s, combs)| == 2 * |combs|
    ensures forall m :: 0 <= m < |combs| ==>
      RulesFor(s, combs)[2 * m] == Rule(combs[m], Difference(s, combs[m])) &&
      RulesFor(s, combs)[2 * m + 1] == Rule(Difference(s, combs[m]), combs[m])
  {
    if combs != [] {
      RulesForAt(s, combs[..|combs| - 1]);
    }
  }

  /** `get_rules` gives 2n rules for n items: the combination leaving out the
      item at position i yields rules 2(n-1-i), from the combination to the
      remaining items, and 2(n-1-i)+1, back. */
  lemma RulesOfAt(s: Itemset)
    requires |s| > 0
    ensures |RulesOf(s)| == 2 * |s|
    ensures forall i :: 0 <= i < |s| ==>
      RulesOf(s)[2 * (|s| - 1 - i)] == Rule(Omit(s, i), Difference(s, Omit(s, i))) &&
      RulesOf(s)[2 * (|s| - 1 - i) + 1] == Rule(Difference(s, Omit(s, i)), Omit(s, i))
  {
    CombinationsOmitOne(s);
    RulesForAt(s, Combinations(s, |s| - 1));
  }

  /** Leaving out one item of an itemset without repeats leaves exactly that item over. */
  lemma DifferenceOfOmit(s: Itemset, i: nat)
    requires NoDups(s) && i < |s|
    ensures Difference(s, Omit(s, i)) == [s[i]]
  {
    assert s == s[..i] + [s[i]] + s[i + 1..];
    assert Elems(s) - Elems(Omit(s, i)) == {s[i]} by {
      ElemsConcat(s[..i], s[i + 1..]);
      ElemsConcat(s[..i] + [s[i]], s[i + 1..]);
      ElemsConcat(s[..i], [s[i]]);
      assert s[i] !in Omit(s, i);
    }
    DifferenceSpec(s, Omit(s, i));
    SortedUnique(Difference(s, Omit(s, i)), [s[i]]);
  }

  /** For n different items, the rules are the n splits into n-1 items and
      one, each in both directions. */
  lemma RulesOfDistinct(s: Itemset)
    requires |s| > 0 && NoDups(s)
    ensures |RulesOf(s)| == 2 * |s|
    ensures forall i :: 0 <= i < |s| ==>
      RulesOf(s)[2 * (|s| - 1 - i)] == Rule(Omit(s, i), [s[i]]) &&
      RulesOf(s)[2 * (|s| - 1 - i) + 1] == Rule([s[i]], Omit(s, i))
  {
    RulesOfAt(s);
    forall i | 0 <= i < |s|
      ensures Difference(s, Omit(s, i)) == [s[i]]
    {
      DifferenceOfOmit(s, i);
    }
  }

  /** Every rule splits the items of s in two: together they are s, and they share none. */
  lemma RulesSplit(s: Itemset)
    requires |s| > 0
    ensures forall r :: r in RulesOf(s) ==>
      Elems(r.antecedent) + Elems(r.consequent) == Elems(s) &&
      Elems(r.antecedent) * Elems(r.consequent) == {}
  {
    RulesOfAt(s);
    var n := |s|;
    forall r | r in RulesOf(s)
      ensures Elems(r.antecedent) + Elems(r.consequent) == Elems(s)
      ensures Elems(r.antecedent) * Elems(r.consequent) == {}
    {
      var p :| 0 <= p < |RulesOf(s)| && RulesOf(s)[p] == r;
      var i := n - 1 - p / 2;
      assert p == 2 * (n - 1 - i) || p == 2 * (n - 1 - i) + 1;
      DifferenceSpec(s, Omit(s, i));
      ElemsConcat(s[..i], s[i + 1..]);
      assert s == s[..i] + s[i..];
      ElemsConcat(s[..i], s[i..]);
    }
  }

  /** A single item gives the two rules with an empty side. */
  lemma RulesOfSingle(x: nat)
    ensures RulesOf([x]) == [Rule([], [x]), Rule([x], [])]
  {
    RulesOfDistinct([x]);
    assert Omit([x], 0) == [];
  }
}
