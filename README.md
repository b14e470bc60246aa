# Apriori rule miner, modelled in Dafny

This project models the `RuleMiner` class of `rule_miner.py`, a textbook
Apriori miner over a boolean basket matrix (one row per basket, one column per
item). The class is built with two thresholds. It offers:

- `get_support`: counts the baskets that hold every item of an itemset;
- `merge_itemsets`: joins frequent k-itemsets pairwise into (k+1)-candidates;
- `get_frequent_itemsets`: a level-wise `while flag` search that returns the
  frequent itemsets of the largest size that has any;
- `get_rules`: splits an itemset into "all but one item" and "the rest", in
  both directions;
- `get_confidence`: the combined support over the antecedent's support;
- `get_association_rules`: keeps the rules of the frequent itemsets whose
  confidence reaches the threshold.

The model has six modules, one file each:

- `itemsets.dfy` (`Itemsets`): itemsets as `seq<nat>` of column indices. It
  defines the sorted, duplicate-free form of a Python `set` turned back into a
  list (`Canon`, `Union`). It also defines the first-occurrence filter behind
  the `not in new_itemsets` test (`KeepNew`) and order-preserving subsequences.
- `counting.dfy` (`Counting`): the data frame and the miner's thresholds.
  `RuleMiner.__init__` becomes the immutable datatype `RuleMiner(supportT,
  confidenceT)`, because the fields are set once and only read afterwards.
  The module also defines support and its laws.
- `merge.dfy` (`Merge`): `merge_itemsets` as a method with the source's two
  branches and nested index loops. It is proved against the reference
  `Merged`, built from the unions of all index pairs i < j in loop order.
- `frequent.dfy` (`Frequent`): `get_frequent_itemsets` as a method with the
  source's `flag` loop and its inner filter loop. It is proved against
  `FrequentItemsets`, the last non-empty level of the level-wise search
  (`Level`, `FrequentLevel`). Soundness, emptiness, completeness and
  maximality are proved about that function.
- `rules.dfy` (`Rules`): `get_rules` as a loop over a reference enumeration
  `Combinations` of `itertools.combinations`. The m-th combination of n-1
  items leaves out position n-1-m.
- `association.dfy` (`Association`): `get_confidence` as a function with the
  NaN of a 0/0 division made explicit (`Quotient`). `get_association_rules`
  is written as its two loops (`CollectRules`, `FilterConfident`) and proved
  against `AssociationRules`, a filter over all rules in generation order.

## Model

| member | source | states |
|---|---|---|
| Counting.Support | rule_miner.py:26-31 | support of a valid itemset is the number of rows covering it, never more than the number of rows |
| Counting.SupportCountsRows | rule_miner.py:28-29 | support equals the size of the set of indices of the rows in which every item of the itemset is true |
| Counting.SupportOfEmpty | rule_miner.py:28-29 | the empty itemset is in every row: its support is the row count |
| Counting.SupportAntiMonotone | rule_miner.py:28-29 | if the items of a are among those of b, then a is valid and support(b) <= support(a) |
| Counting.SupportOfItems | rule_miner.py:26-29 | two itemsets with the same items (any order, any repeats) have the same support |
| Counting.SupportRowOrder | rule_miner.py:28-29 | reordering the rows (same multiset) leaves every support unchanged |
| Counting.ValidWithin | rule_miner.py:28 | an itemset whose items come from two valid itemsets names only existing columns |
| Itemsets.UnionSymmetric | rule_miner.py:51 | the union of a and b equals the union of b and a |
| Itemsets.SortedUnion | rule_miner.py:56-57 | `list(set(a) \| set(b))` then sort computes exactly Union(a, b) |
| Itemsets.CanonSpec | rule_miner.py:56-57 | the canonical form is strictly sorted and has the same items as its input |
| Itemsets.CanonEqual | rule_miner.py:56-58 | two lists have the same canonical form iff they hold the same items |
| Itemsets.CanonLength | rule_miner.py:58 | `len(combined_list)` after sorting the union is the number of distinct items |
| Itemsets.SortedUnique | rule_miner.py:57-58 | two strictly sorted lists with the same items are equal, so `not in` on sorted unions is a set test |
| Itemsets.DropOneOfLastTwo | rule_miner.py:56-58 | a sorted (k+1)-itemset is the union of two different sorted k-itemsets, itself without its last item and itself without the one before |
| Itemsets.KeepNewMembers | rule_miner.py:58-59 | the first-occurrence filter has no duplicates and keeps x iff x was seen and has the required size |
| Itemsets.KeepNewSubsequence | rule_miner.py:58-59 | the kept unions are a subsequence of the unions formed |
| Itemsets.KeepNewFirstFound | rule_miner.py:58-59 | kept unions appear in the order in which each was first formed |
| Merge.PairsCount | rule_miner.py:49-50 | the loop visits only pairs i < j < n, and n(n-1)/2 of them |
| Merge.PairsComplete | rule_miner.py:49-50 | a pair (a, b) is visited iff a < b < n |
| Merge.PairsAscending | rule_miner.py:49-50 | pairs are visited in ascending lexicographic order |
| Merge.UnionsBeforeAt | rule_miner.py:49-51 | the p-th union formed before row i is the union of the p-th visited pair |
| Merge.AllUnionsAt | rule_miner.py:54-56 | the p-th union formed is the union of the inputs at the p-th visited pair |
| Merge.AllUnionsMembers | rule_miner.py:54-56 | a list is formed as a union iff it is the union of the inputs at some i < j |
| Merge.MergeItemsets | rule_miner.py:44-61 | the nested loops with both branches return exactly Merged(itemsets) |
| Merge.MergeSingletons | rule_miner.py:48-51 | on single items: n(n-1)/2 results, the p-th being the sorted pair of the items at the p-th visited (i, j) with i < j |
| Merge.MergeLarger | rule_miner.py:53-59 | on larger itemsets: no duplicates; x is returned iff it has k+1 items and is the union of inputs i < j; each result is sorted and in first-found order |
| Merge.MergedComplete | rule_miner.py:53-59 | any union of two different inputs with k+1 items is returned |
| Frequent.FrequentOfMembers | rule_miner.py:99-101 | the support filter keeps x iff x is a candidate with support >= t |
| Frequent.FrequentOfSubsequence | rule_miner.py:99-101 | the support filter keeps candidates in their order |
| Frequent.FrequentOfNoDups | rule_miner.py:99-101 | filtering a duplicate-free list gives a duplicate-free list |
| Frequent.KeepFrequent | rule_miner.py:98-101 | the inner loop returns exactly the candidates whose support reaches the threshold |
| Frequent.MergeFrequentShape | rule_miner.py:103-105 | merging frequent sorted k-itemsets yields sorted, valid (k+1)-itemsets |
| Frequent.LevelShape | rule_miner.py:93-105 | the candidates of round k are sorted, valid k-itemsets |
| Frequent.LevelBound | rule_miner.py:97-105 | a round with candidates or frequent itemsets has k <= column count |
| Frequent.LevelStep | rule_miner.py:103-105 | when round k has frequent itemsets, the next candidates are their merge, and k <= column count |
| Frequent.EmptyStaysEmpty | rule_miner.py:103-108 | once a round has no frequent itemset, no later round has one |
| Frequent.LastFrequentIs | rule_miner.py:106-110 | if k is the first round with no frequent itemset, the result is round k-1's frequent list ([] when k = 1) |
| Frequent.FirstEmptyFrom | rule_miner.py:97-108 | a first round with no frequent itemset exists and is at most columns + 1, so the loop ends |
| Frequent.GetFrequentItemsets | rule_miner.py:93-110 | the `while flag` loop returns exactly FrequentItemsets(d, support_t) |
| Frequent.FrequentLevelShape | rule_miner.py:97-101 | frequent itemsets of round k are sorted, valid k-itemsets with support >= t |
| Frequent.FrequentItemsetsSound | rule_miner.py:93-110 | every returned itemset is non-empty, valid, sorted, with support >= support_t, and all have one size |
| Frequent.FrequentItemsetsEmpty | rule_miner.py:93-110 | the result is [] iff no single column has support >= support_t (in particular with no columns) |
| Frequent.FrequentItemsetsAboveRows | rule_miner.py:93-110 | a threshold above the row count gives [] |
| Frequent.LevelComplete | rule_miner.py:97-105 | every sorted valid k-itemset with support >= t is frequent in round k (Apriori completeness) |
| Frequent.NoneBeyond | rule_miner.py:97-108 | after the first empty round e, no sorted itemset of e items or more is frequent |
| Frequent.FrequentItemsetsMaximal | rule_miner.py:93-110 | no frequent set of items is larger than the returned ones, and every frequent set of that size is returned in sorted form |
| Rules.CombinationsAll | rule_miner.py:71 | taking all positions gives the itemset itself, once |
| Rules.CombinationsOmitOne | rule_miner.py:71-72 | there are n combinations of n-1 positions, and the m-th leaves out position n-1-m |
| Rules.MinusElems | rule_miner.py:76 | the items of s not in c are exactly the set difference |
| Rules.SortedDifference | rule_miner.py:76-77 | `list(set(s) - set(c))` computes the sorted set difference Difference(s, c) |
| Rules.GetRules | rule_miner.py:71-80 | the loop returns exactly RulesOf(itemset) |
| Rules.RulesForAt | rule_miner.py:75-78 | each combination contributes [c, diff] at 2m and [diff, c] at 2m+1 |
| Rules.RulesOfAt | rule_miner.py:71-80 | 2n rules; the pair leaving out position i sits at 2(n-1-i) and 2(n-1-i)+1 |
| Rules.DifferenceOfOmit | rule_miner.py:76 | for distinct items, the difference with "all but position i" is [s[i]] |
| Rules.RulesOfDistinct | rule_miner.py:71-80 | for distinct items, the rules are [C, [d]] then [[d], C] for each left-out d, 2n in all |
| Rules.RulesSplit | rule_miner.py:71-80 | the two sides of each rule are disjoint and together hold exactly the itemset's items |
| Rules.RulesOfSingle | rule_miner.py:71-78 | a single item x gives exactly [[], [x]] and [[x], []] |
| Association.GetConfidence | rule_miner.py:124-125 | NaN iff the antecedent has support 0 (the combined support is then 0); otherwise a value in [0, 1] with value * support(X) = support(X + Y) |
| Association.ConfidenceAtLeast | rule_miner.py:147 | the threshold test holds iff support(X) > 0 and support(X + Y) >= t * support(X) |
| Association.RuleSupport | rule_miner.py:124-125 | for a rule of itemset x, support(X + Y) = support(x) <= support(X) |
| Association.ConfidenceOfFrequent | rule_miner.py:124-125 | with support_t > 0, no rule of a frequent itemset has NaN confidence; its confidence is support(x) / support(X) |
| Association.CollectRules | rule_miner.py:140-142 | the first loop returns the rule list of each itemset, in order |
| Association.AllRulesMembers | rule_miner.py:140-142 | a rule is generated iff it is a rule of one of the itemsets |
| Association.KeepConfidentMembers | rule_miner.py:144-148 | the filter keeps r iff r is a candidate whose confidence reaches t |
| Association.KeepConfidentSubsequence | rule_miner.py:144-148 | the filter keeps rules in order, adding nothing |
| Association.KeepConfidentAll | rule_miner.py:144-148 | if every rule passes, all rules are kept unchanged |
| Association.FilterConfident | rule_miner.py:144-148 | the nested loops return exactly the passing rules of the flattened lists |
| Association.GetAssociationRules | rule_miner.py:138-150 | the method returns exactly AssociationRules(d, m) |
| Association.AssociationRulesMembers | rule_miner.py:138-150 | a rule is returned iff it is a rule of a frequent itemset and its confidence reaches confidence_t |
| Association.AssociationRulesConfident | rule_miner.py:138-148 | every returned rule passes the confidence test with antecedent support > 0, and the support of its two sides together (that of its frequent itemset) is >= support_t |
| Association.AssociationRulesOrder | rule_miner.py:144-150 | the result is a subsequence of all rules in generation order |
| Association.AssociationRulesAll | rule_miner.py:138-150 | with support_t > 0 and confidence_t <= 0 every rule of every frequent itemset is returned |
| Association.AssociationRulesNone | rule_miner.py:138-150 | no frequent itemset (for example support_t above the row count) gives no rule |

## Left out

- pandas and numpy mechanics (`data[itemset].all(axis=1).sum()`, numpy integer types): the data frame is a matrix of booleans with columns named 0 to width-1, in the order of `data.columns`.
- Column labels: the model sorts items by column position, which matches `combined_list.sort()` only when the labels ascend in `data.columns` order. With other labels, the order of the items inside itemsets of 3 or more items differs from the source, and so does the order of the combinations built from them and of the rules.
- A column name that is not in the frame makes pandas raise KeyError. Support therefore requires valid column indices, and every itemset the miner forms is proved valid.
- Floating point: confidence is an exact rational (`real`). A 0/0 division gives NaN, which no `>=` test passes, so such a rule is dropped; this is modelled by the `NaN` case of `Quotient`. x/0 with x > 0 cannot occur, because the combined support never exceeds the antecedent's.
- Python `set` iteration order: `list(set(a) | set(b))` in the single-item branch and `list(set(s) - set(c))` in `get_rules` have a hash-dependent order. Both are modelled in sorted order. The sets of candidates, frequent itemsets and rules are the same, but orders can differ. A size-2 candidate is held as its sorted pair, and `itertools.combinations` follows the order of the pair. So when the last frequent level has size 2, the order of the rules of each pair (and of the output of `get_association_rules`) follows the sorted pair, not the source's hash order.
- `itertools.combinations` is replaced by the reference enumeration `Combinations`, with its order proved.
- `merge_itemsets([])` (IndexError on `itemsets[0]`) and `get_rules([])` (ValueError from a negative length) are preconditions. Neither happens inside `get_frequent_itemsets` or `get_association_rules`, as proved.
- Thresholds are not validated by the source and are not constrained here. `support_t` is an `int`, and `confidence_t` a `real`.
- ruleMiner.py is not part of this model: it is an earlier variant whose `getSupport` repeats `get_support` and whose `getRules` has no body.
- `RuleMiner.__init__` is the datatype constructor `Counting.RuleMiner`: it stores the two thresholds and has nothing else to state.
