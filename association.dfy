/** Confidence and the final filter (`RuleMiner.get_confidence` and
    `RuleMiner.get_association_rules`). */
module Association {
  import opened Itemsets
  import opened Counting
  import opened Frequent
  import opened Rules

  /** The outcome of the floating-point division `support(X + Y) / support(X)`:
      a ratio, or NaN for 0/0. (x/0 with x > 0 cannot arise: see GetConfidence.) */
  datatype Quotient = Value(v: real) | NaN

  /** `confidence >= confidence_t`: false for NaN, as every ordered comparison with NaN is. */
  predicate AtLeast(q: Quotient, t: real) {
    q.Value? && q.v >= t
  }

  /** Both sides of the rule name columns of d. */
  predicate ValidRule(d: DataFrame, r: Rule) {
    ValidItemset(d, r.antecedent) && ValidItemset(d, r.consequent)
  }

  /** `get_confidence(data, rule)`: the support of the antecedent and the
      consequent together over the support of the antecedent. It is NaN
      exactly when the antecedent is in no basket, and then the combined
      support is 0 too; otherwise it lies between 0 and 1. */
  function GetConfidence(d: DataFrame, r: Rule): (q: Quotient)
    requires WellFormed(d) && ValidRule(d, r)
    ensures ValidItemset(d, r.antecedent + r.consequent)
    ensures q.NaN? <==> Support(d, r.antecedent) == 0
    ensures q.NaN? ==> Support(d, r.antecedent + r.consequent) == 0
    ensures q.Value? ==> 0.0 <= q.v <= 1.0
    ensures q.Value? ==>
      q.v * (Support(d, r.antecedent) as real) == Support(d, r.antecedent + r.consequent) as real
  {
    var combined := r.antecedent + r.consequent;
    ElemsConcat(r.antecedent, r.consequent);
    ValidWithin(d, r.antecedent, r.consequent, combined);
    SupportAntiMonotone(d, r.antecedent, combined);
    var num := Support(d, combined);
    var den := Support(d, r.antecedent);
    if den == 0 then NaN else Value(num as real / den as real)
  }

  /** The threshold test compared by cross-multiplication, without division. */
  lemma ConfidenceAtLeast(d: DataFrame, r: Rule, t: real)
    requires WellFormed(d) && ValidRule(d, r)
    ensures ValidItemset(d, r.antecedent + r.consequent)
    ensures AtLeast(GetConfidence(d, r), t) <==>
      Support(d, r.antecedent) > 0 &&
      Support(d, r.antecedent + r.consequent) as real >= t * Support(d, r.antecedent) as real
  {
    var q := GetConfidence(d, r);
    var den := Support(d, r.antecedent) as real;
    if q.Value? {
      assert q.v * den >= t * den <==> q.v >= t;
    }
  }

  /** Every itemset is non-empty, as `get_rules` needs. */
  predicate NonEmpty(its: seq<Itemset>) {
    forall x :: x in its ==> |x| > 0
  }

  predicate AllValidRules(d: DataFrame, rs: seq<Rule>) {
    forall r :: r in rs ==> ValidRule(d, r)
  }

  /** `rules.append(self.get_rules(itemset))` for each itemset in turn. */
  ghost function RuleLists(its: seq<Itemset>): seq<seq<Rule>>
    requires NonEmpty(its)
  {
    if its == [] then [] else RuleLists(its[..|its| - 1]) + [RulesOf(its[|its| - 1])]
  }

  /** The lists of rules one after the other. */
  function Flatten(xss: seq<seq<Rule>>): seq<Rule> {
    if xss == [] then [] else Flatten(xss[..|xss| - 1]) + xss[|xss| - 1]
  }

  /** Every rule of every itemset, itemset by itemset, in the order of `get_rules`. */
  ghost function AllRules(its: seq<Itemset>): seq<Rule>
    requires NonEmpty(its)
  {
    Flatten(RuleLists(its))
  }

  /** The rules of rs whose confidence reaches t, in their order in rs. */
  function KeepConfident(d: DataFrame, t: real, rs: seq<Rule>): seq<Rule>
    requires WellFormed(d) && AllValidRules(d, rs)
  {
    if rs == [] then []
    else
      var r := rs[|rs| - 1];
      KeepConfident(d, t, rs[..|rs| - 1]) + (if AtLeast(GetConfidence(d, r), t) then [r] else [])
  }

  lemma {:induction false} FlattenMembers(xss: seq<seq<Rule>>)
    ensures forall r :: r in Flatten(xss) <==> exists k :: 0 <= k < |xss| && r in xss[k]
  {
    if xss != [] {
      FlattenMembers(xss[..|xss| - 1]);
    }
  }

  lemma {:induction false} RuleListsAt(its: seq<Itemset>)
    requires NonEmpty(its)
    ensures |RuleLists(its)| == |its|
    ensures forall k :: 0 <= k < |its| ==> RuleLists(its)[k] == RulesOf(its[k])
  {
    if its != [] {
      RuleListsAt(its[..|its| - 1]);
    }
  }

  /** A rule is generated exactly when it is a rule of one of the itemsets. */
  lemma AllRulesMembers(its: seq<Itemset>)
    requires NonEmpty(its)
    ensures forall r :: r in AllRules(its) <==> exists k :: 0 <= k < |its| && r in RulesOf(its[k])
  {
    RuleListsAt(its);
    FlattenMembers(RuleLists(its));
  }

  /** The rules of itemsets over the columns of d are over those columns. */
  lemma AllRulesValid(d: DataFrame, its: seq<Itemset>)
    requires NonEmpty(its) && AllValid(d, its)
    ensures AllValidRules(d, AllRules(its))
  {
    RuleListsValid(d, its);
    FlattenValid(d, RuleLists(its));
  }

  /** The frequent itemsets are non-empty and their rules name columns of d. */
  lemma FrequentRulesValid(d: DataFrame, t: int)
    requires WellFormed(d)
    ensures NonEmpty(FrequentItemsets(d, t))
    ensures AllValidRules(d, AllRules(FrequentItemsets(d, t)))
  {
    FrequentItemsetsSound(d, t);
    AllRulesValid(d, FrequentItemsets(d, t));
  }

  /** What `get_association_rules(data)` returns: the rules of the frequent
      itemsets whose confidence reaches the threshold, in generation order. */
  ghost function AssociationRules(d: DataFrame, m: RuleMiner): seq<Rule>
    requires WellFormed(d)
  {
    FrequentRulesValid(d, m.supportT);
    KeepConfident(d, m.confidenceT, AllRules(FrequentItemsets(d, m.supportT)))
  }

  lemma KeepConfidentSnoc(d: DataFrame, t: real, rs: seq<Rule>, r: Rule)
    requires WellFormed(d) && AllValidRules(d, rs) && ValidRule(d, r)
    ensures AllValidRules(d, rs + [r])
    ensures KeepConfident(d, t, rs + [r]) ==
      KeepConfident(d, t, rs) + (if AtLeast(GetConfidence(d, r), t) then [r] else [])
  {
    assert (rs + [r])[..|rs|] == rs;
  }

  lemma ConcatSnoc(a: seq<Rule>, b: seq<Rule>, j: nat)
    requires j < |b|
    ensures a + b[..j + 1] == (a + b[..j]) + [b[j]]
  {
    assert b[..j + 1] == b[..j] + [b[j]];
  }

  lemma ConcatValid(d: DataFrame, a: seq<Rule>, b: seq<Rule>, j: nat)
    requires AllValidRules(d, a) && AllValidRules(d, b) && j <= |b|
    ensures AllValidRules(d, a + b[..j])
  {
    forall r | r in a + b[..j]
      ensures ValidRule(d, r)
    {
      if r !in a {
        assert r in b;
      }
    }
  }

  lemma {:induction false} FlattenValid(d: DataFrame, xss: seq<seq<Rule>>)
    requires forall k :: 0 <= k < |xss| ==> AllValidRules(d, xss[k])
    ensures AllValidRules(d, Flatten(xss))
  {
    if xss != [] {
      FlattenValid(d, xss[..|xss| - 1]);
      var last := xss[|xss| - 1];
      ConcatValid(d, Flatten(xss[..|xss| - 1]), last, |last|);
      assert last[..|last|] == last;
    }
  }

  /** The rule lists of itemsets over the columns of d are over those columns. */
  lemma RuleListsValid(d: DataFrame, its: seq<Itemset>)
    requires NonEmpty(its) && AllValid(d, its)
    ensures forall k :: 0 <= k < |RuleLists(its)| ==> AllValidRules(d, RuleLists(its)[k])
  {
    RuleListsAt(its);
    forall k, r | 0 <= k < |its| && r in RuleLists(its)[k]
      ensures ValidRule(d, r)
    {
      assert its[k] in its;
      RulesSplit(its[k]);
      ValidWithin(d, its[k], its[k], r.antecedent);
      ValidWithin(d, its[k], its[k], r.consequent);
    }
  }

  /** The filter keeps exactly the rules that reach the threshold. */
  lemma {:induction false} KeepConfidentMembers(d: DataFrame, t: real, rs: seq<Rule>)
    requires WellFormed(d) && AllValidRules(d, rs)
    ensures forall r :: r in KeepConfident(d, t, rs) <==> r in rs && AtLeast(GetConfidence(d, r), t)
  {
    if rs != [] {
      KeepConfidentMembers(d, t, rs[..|rs| - 1]);
      assert rs == rs[..|rs| - 1] + [rs[|rs| - 1]];
    }
  }

  /** The filter keeps the rules in the order it meets them. */
  lemma {:induction false} KeepConfidentSubsequence(d: DataFrame, t: real, rs: seq<Rule>)
    requires WellFormed(d) && AllValidRules(d, rs)
    ensures IsSubsequence(KeepConfident(d, t, rs), rs)
  {
    if rs != [] {
      var init := rs[..|rs| - 1];
      var r := rs[|rs| - 1];
      KeepConfidentSubsequence(d, t, init);
      var kept := KeepConfident(d, t, init);
      if AtLeast(GetConfidence(d, r), t) {
        assert (kept + [r])[..|kept|] == kept;
      } else {
        assert kept + [] == kept;
      }
    }
  }

  /** When every rule reaches the threshold, the filter keeps them all. */
  lemma {:induction false} KeepConfidentAll(d: DataFrame, t: real, rs: seq<Rule>)
    requires WellFormed(d) && AllValidRules(d, rs)
    requires forall r :: r in rs ==> AtLeast(GetConfidence(d, r), t)
    ensures KeepConfident(d, t, rs) == rs
  {
    if rs != [] {
      var init, last := rs[..|rs| - 1], rs[|rs| - 1];
      assert rs == init + [last];
      assert AtLeast(GetConfidence(d, last), t);
      KeepConfidentAll(d, t, init);
    }
  }

  /** A rule of itemset x joins back to the items of x, so its combined
      support is the support of x, and its antecedent is in at least as
      many baskets. */
  lemma RuleSupport(d: DataFrame, x: Itemset, r: Rule)
    requires WellFormed(d) && |x| > 0 && ValidItemset(d, x) && r in RulesOf(x)
    ensures ValidRule(d, r) && ValidItemset(d, r.antecedent + r.consequent)
    ensures Support(d, r.antecedent + r.consequent) == Support(d, x)
    ensures Support(d, r.antecedent) >= Support(d, x)
  {
    RulesSplit(x);
    ElemsConcat(r.antecedent, r.consequent);
    SupportOfItems(d, x, r.antecedent + r.consequent);
    ValidWithin(d, x, x, r.consequent);
    SupportAntiMonotone(d, r.antecedent, x);
  }

  /** With a positive support threshold no confidence is NaN: the confidence
      of a rule of frequent itemset x is the support of x over the support
      of the antecedent. */
  lemma ConfidenceOfFrequent(d: DataFrame, t: int, x: Itemset, r: Rule)
    requires WellFormed(d) && t > 0
    requires |x| > 0 && ValidItemset(d, x) && Support(d, x) >= t && r in RulesOf(x)
    ensures ValidRule(d, r)
    ensures GetConfidence(d, r).Value?
    ensures GetConfidence(d, r).v * Support(d, r.antecedent) as real == Support(d, x) as real
  {
    RuleSupport(d, x, r);
  }

  /** `get_association_rules` returns a rule exactly when it is a rule of a
      frequent itemset and its confidence reaches the threshold. */
  lemma AssociationRulesMembers(d: DataFrame, m: RuleMiner)
    requires WellFormed(d)
    ensures NonEmpty(FrequentItemsets(d, m.supportT))
    ensures forall x, r :: x in FrequentItemsets(d, m.supportT) && r in RulesOf(x) ==> ValidRule(d, r)
    ensures forall r :: r in AssociationRules(d, m) ==>
      exists x :: x in FrequentItemsets(d, m.supportT) && r in RulesOf(x)
    ensures forall x, r :: x in FrequentItemsets(d, m.supportT) && r in RulesOf(x) ==>
      (r in AssociationRules(d, m) <==> AtLeast(GetConfidence(d, r), m.confidenceT))
  {
    var its := FrequentItemsets(d, m.supportT);
    FrequentRulesValid(d, m.supportT);
    FrequentItemsetsSound(d, m.supportT);
    AllRulesMembers(its);
    KeepConfidentMembers(d, m.confidenceT, AllRules(its));
    forall x, r | x in its && r in RulesOf(x)
      ensures r in AllRules(its)
    {
      var k :| 0 <= k < |its| && its[k] == x;
    }
    forall r | r in AssociationRules(d, m)
      ensures exists x :: x in its && r in RulesOf(x)
    {
      var k :| 0 <= k < |its| && r in RulesOf(its[k]);
      assert its[k] in its;
    }
  }

  /** Every returned rule reaches both thresholds: its confidence reaches
      confidence_t (so its antecedent is in some basket), and the support of
      its two sides together, the support of the frequent itemset it comes
      from, reaches support_t. */
  lemma AssociationRulesConfident(d: DataFrame, m: RuleMiner, r: Rule)
    requires WellFormed(d) && r in AssociationRules(d, m)
    ensures ValidRule(d, r) && AtLeast(GetConfidence(d, r), m.confidenceT)
    ensures Support(d, r.antecedent) > 0
    ensures ValidItemset(d, r.antecedent + r.consequent)
    ensures Support(d, r.antecedent + r.consequent) >= m.supportT
  {
    FrequentRulesValid(d, m.supportT);
    var its := FrequentItemsets(d, m.supportT);
    assert r in AllRules(its) && AtLeast(GetConfidence(d, r), m.confidenceT) by {
      KeepConfidentMembers(d, m.confidenceT, AllRules(its));
    }
    assert exists k :: 0 <= k < |its| && r in RulesOf(its[k]) by {
      AllRulesMembers(its);
    }
    var k :| 0 <= k < |its| && r in RulesOf(its[k]);
    var x := its[k];
    assert |x| > 0 && ValidItemset(d, x) && Support(d, x) >= m.supportT by {
      assert x in its;
      FrequentItemsetsSound(d, m.supportT);
    }
    RuleSupport(d, x, r);
  }

  /** The returned rules keep their generation order. */
  lemma AssociationRulesOrder(d: DataFrame, m: RuleMiner)
    requires WellFormed(d)
    ensures NonEmpty(FrequentItemsets(d, m.supportT))
    ensures IsSubsequence(AssociationRules(d, m), AllRules(FrequentItemsets(d, m.supportT)))
  {
    FrequentRulesValid(d, m.supportT);
    KeepConfidentSubsequence(d, m.confidenceT, AllRules(FrequentItemsets(d, m.supportT)));
  }

  /** A positive support threshold and a confidence threshold of at most 0
      keep every rule of every frequent itemset. */
  lemma AssociationRulesAll(d: DataFrame, m: RuleMiner)
    requires WellFormed(d) && m.supportT > 0 && m.confidenceT <= 0.0
    ensures NonEmpty(FrequentItemsets(d, m.supportT))
    ensures AssociationRules(d, m) == AllRules(FrequentItemsets(d, m.supportT))
  {
    var its := FrequentItemsets(d, m.supportT);
    FrequentRulesValid(d, m.supportT);
    AllRulesMembers(its);
    forall r | r in AllRules(its)
      ensures AtLeast(GetConfidence(d, r), m.confidenceT)
    {
      var k :| 0 <= k < |its| && r in RulesOf(its[k]);
      assert its[k] in its;
      FrequentItemsetsSound(d, m.supportT);
      ConfidenceOfFrequent(d, m.supportT, its[k], r);
    }
    KeepConfidentAll(d, m.confidenceT, AllRules(its));
  }

  /** No frequent itemset, no rule: in particular when the support threshold
      exceeds the number of baskets. */
  lemma AssociationRulesNone(d: DataFrame, m: RuleMiner)
    requires WellFormed(d)
    requires FrequentItemsets(d, m.supportT) == [] || m.supportT > |d.rows|
    ensures AssociationRules(d, m) == []
  {
    if m.supportT > |d.rows| {
      FrequentItemsetsAboveRows(d, m.supportT);
    }
    assert RuleLists([]) == [];
  }

  /** The first loop of `get_association_rules`: the rules of each itemset
      in turn, one list per itemset. */
  method CollectRules(itemsets: seq<Itemset>) returns (rules: seq<seq<Rule>>)
    requires NonEmpty(itemsets)
    ensures rules == RuleLists(itemsets)
  {
    rules := [];
    for n := 0 to |itemsets|
      invariant rules == RuleLists(itemsets[..n])
    {
      assert itemsets[n] in itemsets;
      var r := GetRules(itemsets[n]);
      assert itemsets[..n + 1][..n] == itemsets[..n];
      rules := rules + [r];
    }
    assert itemsets[..|itemsets|] == itemsets;
  }

  /** The second loop of `get_association_rules`: list by list and rule by
      rule, keep the rules whose confidence reaches the threshold. */
  method FilterConfident(m: RuleMiner, d: DataFrame, rules: seq<seq<Rule>>)
    returns (associationRules: seq<Rule>)
    requires WellFormed(d)
    requires forall k :: 0 <= k < |rules| ==> AllValidRules(d, rules[k])
    ensures AllValidRules(d, Flatten(rules))
    ensures associationRules == KeepConfident(d, m.confidenceT, Flatten(rules))
  {
    associationRules := [];
    for n := 0 to |rules|
      invariant AllValidRules(d, Flatten(rules[..n]))
      invariant associationRules == KeepConfident(d, m.confidenceT, Flatten(rules[..n]))
    {
      var done := Flatten(rules[..n]);
      var rule := rules[n];
      assert done + rule[..0] == done;
      for j := 0 to |rule|
        invariant AllValidRules(d, done + rule[..j])
        invariant associationRules == KeepConfident(d, m.confidenceT, done + rule[..j])
      {
        var i := rule[j];
        KeepConfidentSnoc(d, m.confidenceT, done + rule[..j], i);
        ConcatSnoc(done, rule, j);
        if AtLeast(GetConfidence(d, i), m.confidenceT) {
          associationRules := associationRules + [i];
        }
      }
      assert rules[..n + 1][..n] == rules[..n];
      assert rule[..|rule|] == rule;
    }
    assert rules[..|rules|] == rules;
  }

  /** `get_association_rules(data)`: the frequent itemsets, their rules, and
      of those the rules whose confidence reaches the threshold. */
  method GetAssociationRules(m: RuleMiner, d: DataFrame) returns (associationRules: seq<Rule>)
    requires WellFormed(d)
    ensures associationRules == AssociationRules(d, m)
  {
    var itemsets := GetFrequentItemsets(m, d);
    FrequentRulesValid(d, m.supportT);
    FrequentItemsetsSound(d, m.supportT);
    var rules := CollectRules(itemsets);
    RuleListsValid(d, itemsets);
    associationRules := FilterConfident(m, d, rules);
  }
}
