# arm-go association-rule miner: rule store, support index, rule generator and item dictionary

This project is a Dafny model of the algorithmic core of a Go association-rule miner. It covers two parts.

- **The rule-mining core (`rules.go`)**:
  - `RuleSet` is a deduplicating rule store. It is a prefix trie with separate antecedent and consequent edges, over an append-only rule list.
  - `itemsetSupportLookup` is a build-once index of itemset supports. It is sorted by `itemSliceLess` and searched by bisection.
  - `makeStats` derives support, confidence and lift from three lookups.
  - `generateRules` is the level-wise rule generator.
- **The item dictionary (`fpgrowth/itemizer.go`)**:
  - `Itemizer` is a two-way string↔item dictionary with a monotone counter.
  - `itemCount` is a growable count array.

Modules:

- `Wrappers`: `Option` and `Result`.
- `Items`: canonical itemsets, which are strictly ascending sequences of items. It also holds `Union`, `SetMinus` and `IntersectionSize`, the set helpers the generator calls, with lemmas giving their set meaning.
- `ItemOrder`:
  - `SliceLess` is the order of `itemSliceLess`. `ItemSliceLess` is its loop, proved against it.
  - Lemmas show that it is a strict total order.
  - `SortBy` is a verified sort that stands in for `sort.Sort` and `sort.SliceStable`.
- `SupportLookup`:
  - The class `ItemsetSupportLookup` (append, sort, bisection lookup) and `CreateSupportLookup`.
  - `SupportOf` is the reference definition of a lookup.
- `RuleStore`:
  - The `Rule` datatype and `NewRule`, which builds one.
  - An abstract store (`Store`, `Inserted`, `Find`).
  - The trie, as an arena of nodes, with its validity invariant.
  - The class `RuleSet`, whose `Insert` and `Get` are proved against the abstract store.
- `RuleGeneration`: `MakeStats`, `SortCandidates` and `GenerateRules`, with its two generation steps.
  - `TryOne`, `TryAll` and `Survivors` are folds over the consequents a generation tries. `FirstGeneration` and `NextGeneration` are proved to store and keep exactly what those folds give.
  - `GenerateRules` is proved sound: every stored rule satisfies `SoundRule`.
- `ItemDictionary`:
  - `strings.TrimSpace` as `Trim`.
  - The dictionary as a value (`Dictionary`, `Learn`, `LearnAll`) with its lemmas.
  - The classes `Itemizer` and `ItemCount`, whose methods are proved against those functions.

Supports, confidences and lifts are exact `real` numbers. A support is `count / numTransactions`.

## Model

| member | source | states |
|---|---|---|
| `Items.UnionMeaning` | rules.go:266 | `union` of two canonical itemsets is canonical and holds exactly the items of both |
| `Items.SetMinusMeaning` | rules.go:243 | the antecedent `setMinus(itemset, consequent)` of a canonical itemset is canonical and holds exactly the items of the first set that are not in the second |
| `Items.IntersectionSizeCounts` | rules.go:263 | on a canonical itemset, `intersectionSize` is the number of items the two itemsets share |
| `Items.AscendingUnique` | rules.go:266-267 | two canonical itemsets with the same items are the same sequence, so a rebuilt union equals the mined itemset |
| `ItemOrder.ItemSliceLess` | rules.go:195-210 | the loop returns exactly `SliceLess`: shorter first, then the first differing item decides, and equal sequences are not less |
| `ItemOrder.SliceLessIrreflexive` | rules.go:195-210 | no itemset is less than itself |
| `ItemOrder.SliceLessAsymmetric` | rules.go:195-210 | `a < b` excludes `b < a` |
| `ItemOrder.SliceLessTransitive` | rules.go:195-210 | the order is transitive |
| `ItemOrder.SliceLessTotal` | rules.go:195-210 | any two distinct itemsets are ordered one way or the other |
| `ItemOrder.ShorterIsLess` | rules.go:196-200 | a shorter itemset is always less than a longer one, and never the reverse |
| `ItemOrder.FirstDifferenceDecides` | rules.go:201-209 | between equal-length itemsets with a common prefix of length k and different items at k, the order is the order of those items |
| `ItemOrder.SortBy` | rules.go:160-162 | the result is a permutation (same multiset) of the input, sorted by `itemSliceLess` on the key |
| `SupportLookup.SupportOf` | rules.go:164-172 | a lookup's reference answer: present iff some entry holds exactly that itemset, and then the support is the one stored with such an entry |
| `SupportLookup.Supports` | rules.go:176-179 | one entry per input itemset, in order, each with support `count / numTransactions` |
| `SupportLookup.ItemsetSupportLookup.constructor` | rules.go:150-154 | a new index is empty |
| `SupportLookup.ItemsetSupportLookup.Insert` | rules.go:156-158 | the pair (itemset, support) is appended and nothing else changes |
| `SupportLookup.ItemsetSupportLookup.Sort` | rules.go:134-144 | the entries become a permutation of themselves, sorted by `itemSliceLess` on the itemsets |
| `SupportLookup.ItemsetSupportLookup.Lookup` | rules.go:164-172 | on a sorted index: succeeds iff the itemset is present, returning its stored support; fails with the out-of-range index iff every entry is less than the itemset; otherwise fails as the explicit panic |
| `SupportLookup.CreateSupportLookup` | rules.go:174-183 | the index's entries are a permutation of `(itemset, count / numTransactions)` for the inputs, and sorted |
| `SupportLookup.LookupFindsEveryInput` | rules.go:174-183 | after the build, every input itemset can be looked up, and its support is `count / numTransactions` of an input with that itemset (its own when itemsets are unique) |
| `RuleStore.NewRule` | rules.go:33-42 | the new rule has the given antecedent and consequent as its key and carries the given support, confidence and lift |
| `RuleStore.NewTreeNode` | rules.go:51-56 | a new trie node has no antecedent edges, no consequent edges and no rule |
| `RuleStore.EmptyStore` | rules.go:65-67 | the store of a new rule set is well formed |
| `RuleStore.Inserted` | rules.go:88-92 | insertion appends the rule only when its (antecedent, consequent) key is new; a present key leaves the store unchanged; existing rules are never modified and at most one is appended; afterwards the key finds the earlier rule or the new one, and every other key finds what it found before |
| `RuleStore.FoundRuleHasKey` | rules.go:123-126 | a key is found iff it is stored, and the rule found carries that key |
| `RuleStore.FirstInsertWins` | rules.go:70-93 | after any run of insertions into an empty set, a key finds the first rule ever inserted with it |
| `RuleStore.InsertAllIdempotent` | rules.go:88-92 | inserting the same run of rules a second time changes nothing |
| `RuleStore.MissingAntecedentEdge` | rules.go:109-113 | a walk that meets a missing antecedent edge proves that no node stands for the key |
| `RuleStore.MissingConsequentEdge` | rules.go:116-120 | a walk that meets a missing consequent edge proves that no node stands for the key |
| `RuleStore.AddAntecedentChildValid` | rules.go:73-77 | creating a missing antecedent child keeps the trie invariant and the rule markers |
| `RuleStore.AddConsequentChildValid` | rules.go:81-85 | creating a missing consequent child keeps the trie invariant and the rule markers |
| `RuleStore.AddAntecedentChildComplete` | rules.go:73-77 | after a missing antecedent child is created, every node on the way to another node, the new one included, has the edge towards it |
| `RuleStore.AddAntecedentChildSound` | rules.go:73-77 | after a missing antecedent child is created, every edge, the new one included, leads to the node whose key extends its parent's key by the edge's item |
| `RuleStore.AddConsequentChildComplete` | rules.go:81-85 | after a missing consequent child is created, every node on the way to another node, the new one included, has the edge towards it |
| `RuleStore.AddConsequentChildSound` | rules.go:81-85 | after a missing consequent child is created, every edge, the new one included, leads to the node whose key extends its parent's key by the edge's item |
| `RuleStore.MarkRuleKeepsTrie` | rules.go:88-92 | marking a node changes no edge, so the trie stays valid |
| `RuleStore.MarkRuleMarks` | rules.go:88-92 | after the node for a new key is marked with a position, the markers are exactly the stored keys with that key added at that position |
| `RuleStore.MarkRuleValid` | rules.go:88-92 | marking the unmarked node reached for a key appends the rule at position `len(rules)` and keeps trie and store consistent; this is exactly the abstract insertion |
| `RuleStore.WalkAntecedents` | rules.go:71-79 | the walk, creating missing nodes, ends at the node that stands for (antecedent, []) and keeps the trie valid |
| `RuleStore.WalkConsequents` | rules.go:80-87 | the walk, creating missing nodes, ends at the node that stands for (antecedent, consequent) and keeps the trie valid |
| `RuleStore.InsertPath` | rules.go:70-93 | the two walks and the conditional append keep the rule-set invariant and store exactly `Inserted(old, rule)` |
| `RuleStore.RuleSet.constructor` | rules.go:64-67 | a new rule set holds only a root and no rules |
| `RuleStore.RuleSet.Insert` | rules.go:69-93 | the trie invariant is kept and the stored rules become `Inserted(old, rule)` |
| `RuleStore.RuleSet.Size` | rules.go:95-98 | the size is the number of distinct keys stored |
| `RuleStore.RuleSet.Rules` | rules.go:100-103 | the rules come in first-insertion order, and no two share a key |
| `RuleStore.RuleSet.Get` | rules.go:105-127 | the read-only walk finds exactly the rule stored under the query's key (the first one inserted), and reports not found for a key never inserted |
| `RuleGeneration.Stats` | rules.go:185-193 | the statistics are defined iff a ∪ c, a and c are all in the table |
| `RuleGeneration.MetricsRatios` | rules.go:189-191 | confidence × supp(a) = supp(a ∪ c) and lift × supp(c) = confidence, both positive |
| `RuleGeneration.StatsFromSupports` | rules.go:185-193 | defined statistics are the metrics of the three positive supports found |
| `RuleGeneration.MakeStats` | rules.go:185-193 | three lookups succeed iff the statistics are defined, and then return them; otherwise the error is that of the first failing lookup |
| `RuleGeneration.SortCandidates` | rules.go:212-220 | the candidates become a permutation of themselves, sorted by `itemSliceLess` |
| `RuleGeneration.SoundRuleNeedsTwoItems` | rules.go:236-238 | every sound rule comes from a mined itemset of at least two items |
| `RuleGeneration.SoundRuleMetrics` | rules.go:185-193 | a sound rule's support, confidence and lift are supp(a ∪ c), supp(a ∪ c)/supp(a) and supp(a ∪ c)/(supp(a)·supp(c)) of positive supports |
| `RuleGeneration.EntriesPositive` | rules.go:174-179 | the table built from positive counts has positive supports |
| `RuleGeneration.SubsetIsFound` | rules.go:244 | under downward closure, every non-empty sub-itemset of a mined itemset can be looked up |
| `RuleGeneration.SplitRebuilds` | rules.go:243 | removing a smaller consequent from an itemset leaves a non-empty antecedent, and the two rebuild the itemset |
| `RuleGeneration.CandidateSplit` | rules.go:243-244 | the lookups of `makeStats` on (itemset \ consequent, consequent) all succeed |
| `RuleGeneration.JoinGrows` | rules.go:263-266 | joining two size-m consequents that share m − 1 items gives a consequent of size m + 1 inside the itemset |
| `RuleGeneration.GenerationPermuted` | rules.go:280-281 | sorting the next generation keeps it a generation of same-size sub-itemsets |
| `RuleGeneration.SplitIsSound` | rules.go:243-251 | the rule (itemset \ consequent ⇒ consequent) with the split's metrics is sound once both thresholds are met |
| `RuleGeneration.JudgeConsequent` | rules.go:243-251 | the statistics are defined; the consequent survives iff confidence ≥ minConfidence; a rule is produced iff it also has lift ≥ minLift, it is (itemset \ consequent ⇒ consequent), and it is sound |
| `RuleGeneration.TryConsequent` | rules.go:243-251 | the statistics are defined; the consequent survives iff confidence ≥ minConfidence; the new store is `TryOne` of the old one: the rule (itemset \ consequent ⇒ consequent) with those statistics inserted when confidence ≥ minConfidence and lift ≥ minLift, the old store otherwise; sound stores stay sound |
| `RuleGeneration.TryNext` | rules.go:241-251 | trying one more consequent after those already tried: it survives iff `Survives`, and the store becomes the fold `TryAll` over the longer list |
| `RuleGeneration.TrySnoc` | rules.go:241-251 | trying one more consequent is one more `TryOne` step after the consequents already tried |
| `RuleGeneration.SurvivorsSnoc` | rules.go:245-251 | one more consequent tried joins the survivors exactly when it survives |
| `RuleGeneration.TryAppend` | rules.go:260-279 | trying two lists of consequents in turn is trying their concatenation |
| `RuleGeneration.SurvivorsAppend` | rules.go:260-279 | the survivors of a concatenation are the survivors of each part, in order |
| `RuleGeneration.SurvivorsMembers` | rules.go:245-251 | a consequent is kept iff it was tried and its confidence reaches minConfidence |
| `RuleGeneration.TryAllStoresQualifying` | rules.go:241-251 | trying consequents never drops a stored key, and every tried consequent whose confidence and lift meet both thresholds has its rule's key stored afterwards |
| `RuleGeneration.TryOneSound` | rules.go:243-251 | trying one consequent of a mined itemset keeps every stored rule sound |
| `RuleGeneration.TryAllSound` | rules.go:240-279 | trying a whole generation of smaller consequents keeps every stored rule sound |
| `RuleGeneration.SurvivorsGeneration` | rules.go:251 | the survivors of a generation are a generation of the same size |
| `RuleGeneration.SingletonsAt` | rules.go:241-242 | the first generation's j-th consequent is the j-th item of the itemset |
| `RuleGeneration.SingletonsGeneration` | rules.go:241-242 | the first generation consists of canonical one-item sub-itemsets |
| `RuleGeneration.TrySingles` | rules.go:240-252 | each single item in itemset order is tried; the candidates are exactly the `Survivors` of the one-item consequents and the store is exactly `TryAll` of the old store over them |
| `RuleGeneration.FirstGeneration` | rules.go:240-252 | the same exact candidates and store as `TrySingles`; the candidates form a generation of one-item sub-itemsets and every stored rule stays sound |
| `RuleGeneration.JoinRunAt` | rules.go:262-266 | the row of joins of candidate i is contiguous: its t-th join is with candidate j + t, which shares all but one item with candidate i |
| `RuleGeneration.JoinsUpToAt` | rules.go:260-266 | every join tried in a later generation is the union of two candidates, the first before the second, that share all but one item |
| `RuleGeneration.JoinsGeneration` | rules.go:260-266 | the joins tried in a later generation are canonical sub-itemsets one item larger than the candidates |
| `RuleGeneration.JoinStep` | rules.go:263-277 | the join of two candidates that share all but one item is tried: it survives iff `Survives`, and the store takes one more `TryAll` step |
| `RuleGeneration.JoinRow` | rules.go:262-278 | candidate i is joined with the candidates after it up to the first that does not share all but one item (the `break`); the survivors are exactly `Survivors` of that row, and the store is `TryAll` of the old store over it |
| `RuleGeneration.RowsAreJoins` | rules.go:260-279 | trying the rows one after another is trying all joins in order: `TryRows` and `SurvivorRows` equal `TryAll` and `Survivors` over `JoinsUpTo` |
| `RuleGeneration.GenerationSound` | rules.go:259-280 | the survivors of a later generation are sub-itemsets one item larger than the candidates, and trying its joins keeps every stored rule sound |
| `RuleGeneration.NextGeneration` | rules.go:259-280 | the next generation is exactly the survivors of all rows in candidate order, and the store is exactly the rows tried in turn (`SurvivorRows`, `TryRows`, equal to the folds over `JoinsUpTo` by `RowsAreJoins`); the survivors form a generation one item larger, and every stored rule stays sound |
| `RuleGeneration.GenerateRules` | rules.go:222-286 | every rule in the output is sound: non-empty, canonical, disjoint antecedent and consequent whose union is a mined itemset; consequent smaller than it; metrics as `makeStats` derives them; confidence ≥ minConfidence and lift ≥ minLift |
| `ItemDictionary.Trim` | fpgrowth/itemizer.go:77 | the result neither starts nor ends with white space, and it is the middle of the input: only white space comes before it and only white space after it |
| `ItemDictionary.TrimOfTrimmed` | fpgrowth/itemizer.go:77 | a trimmed string is its own trim |
| `ItemDictionary.TrimIdempotent` | fpgrowth/itemizer.go:77 | trimming twice is trimming once |
| `ItemDictionary.EmptyDictionary` | fpgrowth/itemizer.go:96-102 | the new dictionary is consistent |
| `ItemDictionary.LearnOne` | fpgrowth/itemizer.go:77-88 | an empty trimmed token is skipped; a known token reuses its item and changes nothing; a new token is given numItems + 1, not issued before, and numItems grows by one; consistency is kept and no mapping is overwritten |
| `ItemDictionary.LearnCases` | fpgrowth/itemizer.go:77-88 | one token's step: an empty trimmed token changes nothing and emits nothing; a known one emits its stored item; a new one is mapped both ways to numItems + 1, which is emitted |
| `ItemDictionary.LearnAllMeaning` | fpgrowth/itemizer.go:75-90 | over a token list: consistency is kept, the dictionary only grows, and one item is emitted per non-empty trimmed token, in order, each standing for that token in the new dictionary |
| `ItemDictionary.LearnAllLength` | fpgrowth/itemizer.go:46-54 | at most one item is emitted per input token |
| `ItemDictionary.LearnAllKnown` | fpgrowth/itemizer.go:81-88 | when every non-empty trimmed token is already known, the dictionary is unchanged and the emitted items are, in order, the stored items of those tokens |
| `ItemDictionary.ReitemizeIsStable` | fpgrowth/itemizer.go:81-88 | itemizing the same tokens again yields the same items and leaves the dictionary as it is |
| `ItemDictionary.RoundTrip` | fpgrowth/itemizer.go:57-63 | an itemized token converts back to its trimmed form, and a trimmed token to itself |
| `ItemDictionary.SelectMembers` | fpgrowth/itemizer.go:65-73 | the kept items are exactly the input items that satisfy the predicate |
| `ItemDictionary.SelectAll` | fpgrowth/itemizer.go:65-73 | a predicate every item meets keeps the whole sequence in order |
| `ItemDictionary.StrLessIrreflexive` | fpgrowth/itemizer.go:93 | the string order is irreflexive |
| `ItemDictionary.StrLessTransitive` | fpgrowth/itemizer.go:93 | the string order is transitive |
| `ItemDictionary.StrLessTotal` | fpgrowth/itemizer.go:93 | the string order is total on distinct strings |
| `ItemDictionary.Itemizer.constructor` | fpgrowth/itemizer.go:96-102 | a new itemizer is consistent and empty |
| `ItemDictionary.FillBuffer` | fpgrowth/itemizer.go:46-54 | the items copied into the buffer sized by the token count come back as the emitted items, in order |
| `ItemDictionary.SelectInOrder` | fpgrowth/itemizer.go:65-73 | the filtering loop returns exactly `Select` of the emitted items, in their order |
| `ItemDictionary.Itemizer.Register` | fpgrowth/itemizer.go:76-88 | one step of the loop: the new state and the emitted items are `Learn` of the old state and the token |
| `ItemDictionary.Itemizer.ForEachItem` | fpgrowth/itemizer.go:75-90 | the loop's new state and emitted items are exactly `LearnAll` of the old state and the tokens |
| `ItemDictionary.Itemizer.Itemize` | fpgrowth/itemizer.go:46-54 | consistency is kept, and the items returned and the new state are those of `LearnAll` |
| `ItemDictionary.Itemizer.Filter` | fpgrowth/itemizer.go:65-73 | every non-empty token is registered, including rejected ones, and the result is the in-order selection of the emitted items |
| `ItemDictionary.Itemizer.ToStr` | fpgrowth/itemizer.go:57-63 | an issued item's token maps back to the item, is non-empty and trimmed, and the item lies in 1..numItems |
| `ItemDictionary.Itemizer.Cmp` | fpgrowth/itemizer.go:92-94 | an item is never less than itself; between issued items, `cmp` is the string order of their tokens; an unknown item (token "") comes before every issued one |
| `ItemDictionary.Itemizer.CmpOrder` | fpgrowth/itemizer.go:92-94 | `cmp` is irreflexive, asymmetric and transitive, total on issued items, and puts unknown items (token "") before issued ones |
| `ItemDictionary.EnsureInBounds` | fpgrowth/itemizer.go:13-19 | the result has length max(len, index + 1), keeps the input as a prefix and zero-fills the new slots |
| `ItemDictionary.EnsureInBoundsKeepsCounts` | fpgrowth/itemizer.go:13-19 | growing the array changes no count `get` reports |
| `ItemDictionary.Incremented` | fpgrowth/itemizer.go:21-25 | the incremented array is as long as `ensureInBounds` makes it |
| `ItemDictionary.IncrementedCounts` | fpgrowth/itemizer.go:21-33 | `get` after `increment` is the old count plus `count` at the item, and unchanged at every other index, 0 included past the end |
| `ItemDictionary.ItemCount.constructor` | fpgrowth/itemizer.go:9-11 | a new count array is empty |
| `ItemDictionary.ItemCount.Get` | fpgrowth/itemizer.go:27-33 | the count stored at the item, and 0 past the end of the array |
| `ItemDictionary.ItemCount.Increment` | fpgrowth/itemizer.go:21-25 | the counts become `Incremented(old counts, item, count)` |

## Left out

- Progress logging in `generateRules`, with its clock and percentage, only observes. It is not modelled.
- float64 arithmetic is modelled as exact `real`. IEEE-754 rounding is not modelled.
- `GenerateRules` requires `numTransactions > 0` and a positive count for every itemset. The Go code would produce Inf or NaN ratios there.
- `GenerateRules` requires canonical (strictly ascending) itemsets that are closed under non-empty subsets. This is the downward closure the frequent-itemset miner provides; it is assumed of the input, not proved about the miner.
- `GenerateRules`: its own contract states soundness only. What each generation tries, keeps and stores is stated exactly by `FirstGeneration` and `NextGeneration`. Completeness over all sub-itemsets is not stated, because the early `break` depends on the candidate order.
- `GenerateRules` does not return the support index, so its ghost output `entries` names the support table the rules are judged against.
- `SortBy` stands in for `sort.Sort` and `sort.SliceStable`. Their internals, the `Len`/`Swap`/`Less` plumbing and the stability of `SliceStable` are not modelled. Stability cannot be observed on distinct itemsets.
- `Items.UnionMeaning`, `Items.SetMinusMeaning`, `Items.IntersectionSizeCounts`: `union`, `setMinus`, `intersectionSize` and `itemSliceEquals` are not part of this model. Here they are merge and filter recursions whose set meaning these lemmas state on canonical itemsets.
- `SupportLookup.ItemsetSupportLookup.Lookup`: the index-out-of-range panic and the explicit panic are the two `Failure` values.
- `RuleGeneration.NextGeneration`: each row's survivors are collected by `JoinRow` and appended after the row, where Go appends inside the inner loop. The sequence is the same.
- `RuleGeneration.MakeStats`: a failed lookup is returned as a `Failure` (Go panics). The three lookups keep Go's order. Confidence and lift are computed together after the third lookup, which gives the same values.
- `RuleStore.RuleSet`:
  - Node pointers are positions in an arena of nodes.
  - `Rules()` returns a value, not the internal slice.
  - `Get` returns the stored rule, not a pointer into it.
  - Aliasing through those pointers is not modelled.
- `ItemDictionary.Itemizer.ForEachItem`: the callback is modelled by returning the emitted items in order. `Itemize` and `Filter` consume them after the loop, not interleaved with it. This makes no difference for their callbacks, which only append.
- `ItemDictionary.Itemizer.ToStr`: the panic on an unknown item is a precondition.
- `ItemDictionary.ItemCount.Increment` and `ItemDictionary.ItemCount.Get` require a non-negative item. A negative index panics in Go.
- `ItemDictionary.Trim`: strings are sequences of Unicode scalar values. Invalid UTF-8 in Go byte strings is not modelled. Go compares strings byte-wise on UTF-8, which orders like the code points, so `StrLess` compares code points.
- Integer widths: `Item` and the counts are unbounded integers. Go's `int` overflow is not modelled.
