/** Rule statistics (`makeStats`) and the level-wise rule generator
    (`generateRules`, `sortCandidates`) of rules.go.

    Supports, confidences and lifts are exact rationals: a support is
    `count / numTransactions` and the two ratios are taken on supports. */
module RuleGeneration {
  import opened Wrappers
  import opened Items
  import opened ItemOrder
  import opened SupportLookup
  import opened RuleStore

  /** The three numbers `makeStats` returns. */
  datatype Metrics = Metrics(support: real, confidence: real, lift: real)

  /** Every support in the table is positive, so the ratios are defined. */
  ghost predicate PositiveSupports(entries: seq<ItemsetWithSupport>) {
    forall t :: 0 <= t < |entries| ==> entries[t].support > 0.0
  }

  lemma FoundSupportIsPositive(entries: seq<ItemsetWithSupport>, itemset: seq<Item>)
    requires PositiveSupports(entries) && SupportOf(entries, itemset).Some?
    ensures SupportOf(entries, itemset).value > 0.0
  {
    var v := SupportOf(entries, itemset).value;
    var t :| 0 <= t < |entries| && entries[t] == ItemsetWithSupport(itemset, v);
  }

  /** The metrics of a rule from the supports of a ∪ c, a and c. */
  function MetricsOf(acSup: real, aSup: real, cSup: real): Metrics
    requires aSup > 0.0 && cSup > 0.0
  {
    Metrics(acSup, acSup / aSup, acSup / (aSup * cSup))
  }

  /** What `makeStats` derives from a table: the support of a ∪ c, the
      confidence supp(a ∪ c) / supp(a) and the lift
      supp(a ∪ c) / (supp(a) * supp(c)); nothing when one of the three
      itemsets is missing. */
  function Stats(entries: seq<ItemsetWithSupport>, a: seq<Item>, c: seq<Item>): (r: Option<Metrics>)
    requires PositiveSupports(entries)
    ensures r.Some? <==> SupportOf(entries, Union(a, c)).Some? && SupportOf(entries, a).Some? && SupportOf(entries, c).Some?
  {
    var ac, sa, sc := SupportOf(entries, Union(a, c)), SupportOf(entries, a), SupportOf(entries, c);
    if ac.Some? && sa.Some? && sc.Some? then
      FoundSupportIsPositive(entries, a);
      FoundSupportIsPositive(entries, c);
      Some(MetricsOf(ac.value, sa.value, sc.value))
    else
      None
  }

  /** Confidence times the antecedent's support is the joint support, and
      lift times the consequent's support is the confidence; all three are
      positive when the supports are. */
  lemma MetricsRatios(acSup: real, aSup: real, cSup: real)
    requires acSup > 0.0 && aSup > 0.0 && cSup > 0.0
    ensures MetricsOf(acSup, aSup, cSup).confidence * aSup == acSup
    ensures MetricsOf(acSup, aSup, cSup).lift * cSup == MetricsOf(acSup, aSup, cSup).confidence
    ensures MetricsOf(acSup, aSup, cSup).confidence > 0.0 && MetricsOf(acSup, aSup, cSup).lift > 0.0
  {
    var confidence, lift, product := acSup / aSup, acSup / (aSup * cSup), aSup * cSup;
    assert product > 0.0;
    assert confidence * aSup == acSup;
    assert lift * product == acSup;
    assert (lift * cSup) * aSup == acSup;
    assert (lift * cSup - confidence) * aSup == 0.0;
  }

  /** When `makeStats` succeeds, its metrics are those of the three
      supports found, all positive. */
  lemma StatsFromSupports(entries: seq<ItemsetWithSupport>, a: seq<Item>, c: seq<Item>)
    requires PositiveSupports(entries)
    requires Stats(entries, a, c).Some?
    ensures SupportOf(entries, Union(a, c)).value > 0.0
    ensures SupportOf(entries, a).value > 0.0 && SupportOf(entries, c).value > 0.0
    ensures Stats(entries, a, c).value ==
      MetricsOf(SupportOf(entries, Union(a, c)).value, SupportOf(entries, a).value, SupportOf(entries, c).value)
  {
    FoundSupportIsPositive(entries, Union(a, c));
    FoundSupportIsPositive(entries, a);
    FoundSupportIsPositive(entries, c);
  }

  /** The error of the first of the lookups of a ∪ c, a and c that misses. */
  ghost function FirstMiss(entries: seq<ItemsetWithSupport>, a: seq<Item>, c: seq<Item>): LookupError
  {
    if SupportOf(entries, Union(a, c)).None? then MissError(entries, Union(a, c))
    else if SupportOf(entries, a).None? then MissError(entries, a)
    else MissError(entries, c)
  }

  /** `makeStats`: three lookups in the order a ∪ c, a, c; the first that
      fails is the panic the Go code raises. */
  method MakeStats(a: seq<Item>, c: seq<Item>, supportLookup: ItemsetSupportLookup)
    returns (r: Result<Metrics, LookupError>)
    requires SortedBy(supportLookup.itemsets, ItemsetOf) && PositiveSupports(supportLookup.itemsets)
    ensures r.Success? <==> Stats(supportLookup.itemsets, a, c).Some?
    ensures r.Success? ==> r.value == Stats(supportLookup.itemsets, a, c).value
    ensures r.Failure? ==> r.error == FirstMiss(supportLookup.itemsets, a, c)
  {
    var ac := Union(a, c);
    var acSup := supportLookup.Lookup(ac);
    if acSup.Failure? {
      return Failure(acSup.error);
    }
    var aSup := supportLookup.Lookup(a);
    if aSup.Failure? {
      return Failure(aSup.error);
    }
    FoundSupportIsPositive(supportLookup.itemsets, a);
    var cSup := supportLookup.Lookup(c);
    if cSup.Failure? {
      return Failure(cSup.error);
    }
    FoundSupportIsPositive(supportLookup.itemsets, c);
    return Success(MetricsOf(acSup.value, aSup.value, cSup.value));
  }

  /** `sortCandidates`: consequents in `itemSliceLess` order. */
  method SortCandidates(candidates: seq<seq<Item>>) returns (sorted: seq<seq<Item>>)
    ensures multiset(sorted) == multiset(candidates)
    ensures SortedBy(sorted, c => c)
  {
    sorted := SortBy(candidates, c => c);
  }

  // ---------------------------------------------------------------------
  // What the generator is given and what it promises.
  // ---------------------------------------------------------------------

  /** Every non-empty sub-itemset of a mined itemset was mined too (the
      downward closure frequent-itemset mining provides), so every lookup
      the generator makes has an answer. */
  ghost predicate SubsetClosed(itemsets: seq<ItemsetWithCount>) {
    forall i, s :: 0 <= i < |itemsets| && SubItemset(s, itemsets[i].itemset) ==>
      exists j :: 0 <= j < |itemsets| && itemsets[j].itemset == s
  }

  /** `s` is a non-empty canonical itemset whose items all lie in `itemset`. */
  ghost predicate SubItemset(s: seq<Item>, itemset: seq<Item>) {
    Ascending(s) && s != [] && Elems(s) <= Elems(itemset)
  }

  /** What the generator accepts: canonical itemsets with positive counts,
      closed under taking non-empty subsets. */
  ghost predicate GeneratorInput(itemsets: seq<ItemsetWithCount>) {
    && (forall i :: 0 <= i < |itemsets| ==> Ascending(itemsets[i].itemset) && itemsets[i].count > 0)
    && SubsetClosed(itemsets)
  }

  /** A rule the generator may emit from `itemsets`, judged against the
      support table `entries` built from them: antecedent and consequent
      are non-empty, disjoint and canonical, together they make up one of
      the mined itemsets, the consequent is smaller than it, the metrics are
      those `makeStats` derives, and both thresholds are met (inclusively). */
  ghost predicate SoundRule(entries: seq<ItemsetWithSupport>, itemsets: seq<ItemsetWithCount>, rule: Rule,
                            minConfidence: real, minLift: real)
  {
    && rule.antecedent != [] && rule.consequent != []
    && Ascending(rule.antecedent) && Ascending(rule.consequent)
    && Elems(rule.antecedent) !! Elems(rule.consequent)
    && (exists i :: 0 <= i < |itemsets| && itemsets[i].itemset == Union(rule.antecedent, rule.consequent))
    && |rule.consequent| < |Union(rule.antecedent, rule.consequent)|
    && PositiveSupports(entries)
    && Stats(entries, rule.antecedent, rule.consequent) == Some(Metrics(rule.support, rule.confidence, rule.lift))
    && rule.confidence >= minConfidence && rule.lift >= minLift
  }

  /** A sound rule comes from an itemset of at least two items: itemsets
      of size 0 or 1 never contribute a rule. */
  lemma SoundRuleNeedsTwoItems(entries: seq<ItemsetWithSupport>, itemsets: seq<ItemsetWithCount>, rule: Rule,
                               minConfidence: real, minLift: real)
    requires SoundRule(entries, itemsets, rule, minConfidence, minLift)
    ensures exists i :: 0 <= i < |itemsets| && |itemsets[i].itemset| >= 2 &&
                        itemsets[i].itemset == Union(rule.antecedent, rule.consequent)
  {
    var a, c := rule.antecedent, rule.consequent;
    var u := Union(a, c);
    UnionMeaning(a, c);
    AscendingCard(a);
    AscendingCard(c);
    AscendingCard(u);
    assert a[0] in Elems(a) && c[0] in Elems(c);
    assert |Elems(u)| == |Elems(a)| + |Elems(c)|;
  }

  /** A sound rule's metrics are those of the supports of a mined itemset
      and of its two parts, all positive; `MetricsRatios` then relates them. */
  lemma SoundRuleMetrics(entries: seq<ItemsetWithSupport>, itemsets: seq<ItemsetWithCount>, rule: Rule,
                         minConfidence: real, minLift: real)
    requires SoundRule(entries, itemsets, rule, minConfidence, minLift)
    ensures SupportOf(entries, Union(rule.antecedent, rule.consequent)).value > 0.0
    ensures SupportOf(entries, rule.antecedent).value > 0.0 && SupportOf(entries, rule.consequent).value > 0.0
    ensures Metrics(rule.support, rule.confidence, rule.lift) ==
      MetricsOf(SupportOf(entries, Union(rule.antecedent, rule.consequent)).value,
                SupportOf(entries, rule.antecedent).value, SupportOf(entries, rule.consequent).value)
  {
    StatsFromSupports(entries, rule.antecedent, rule.consequent);
  }

  /** The table built from the input has positive supports. */
  lemma EntriesPositive(entries: seq<ItemsetWithSupport>, itemsets: seq<ItemsetWithCount>, numTransactions: int)
    requires numTransactions > 0 && GeneratorInput(itemsets)
    requires multiset(entries) == multiset(Supports(itemsets, numTransactions))
    ensures PositiveSupports(entries)
  {
    var all := Supports(itemsets, numTransactions);
    forall t | 0 <= t < |entries| ensures entries[t].support > 0.0 {
      assert entries[t] in multiset(all);
      var j :| 0 <= j < |all| && all[j] == entries[t];
    }
  }

  /** A non-empty sub-itemset of a mined itemset can be looked up. */
  lemma SubsetIsFound(entries: seq<ItemsetWithSupport>, itemsets: seq<ItemsetWithCount>, numTransactions: int,
                      i: nat, s: seq<Item>)
    requires numTransactions > 0 && GeneratorInput(itemsets) && i < |itemsets|
    requires multiset(entries) == multiset(Supports(itemsets, numTransactions))
    requires Ascending(s) && s != [] && Elems(s) <= Elems(itemsets[i].itemset)
    ensures SupportOf(entries, s).Some?
  {
    assert SubItemset(s, itemsets[i].itemset);
    var j :| 0 <= j < |itemsets| && itemsets[j].itemset == s;
    LookupFindsEveryInput(entries, itemsets, numTransactions, j);
  }

  /** Taking a smaller non-empty sub-itemset `c` out of a canonical itemset
      leaves a non-empty rest, and the two rebuild the itemset. */
  lemma SplitRebuilds(itemset: seq<Item>, c: seq<Item>)
    requires Ascending(itemset) && Ascending(c) && Elems(c) <= Elems(itemset) && |c| < |itemset|
    ensures SetMinus(itemset, c) != []
    ensures Union(SetMinus(itemset, c), c) == itemset
  {
    var a := SetMinus(itemset, c);
    SetMinusMeaning(itemset, c);
    UnionMeaning(a, c);
    AscendingCard(itemset);
    AscendingCard(c);
    AscendingCard(a);
    assert |Elems(a)| == |Elems(itemset)| - |Elems(c)|;
    AscendingUnique(Union(a, c), itemset);
  }

  /** Splitting a mined itemset into a candidate consequent and the rest:
      `makeStats` succeeds on them. */
  lemma CandidateSplit(entries: seq<ItemsetWithSupport>, itemsets: seq<ItemsetWithCount>, numTransactions: int,
                       i: nat, c: seq<Item>)
    requires numTransactions > 0 && GeneratorInput(itemsets) && i < |itemsets|
    requires multiset(entries) == multiset(Supports(itemsets, numTransactions))
    requires Ascending(c) && c != [] && Elems(c) <= Elems(itemsets[i].itemset) && |c| < |itemsets[i].itemset|
    ensures PositiveSupports(entries)
    ensures SetMinus(itemsets[i].itemset, c) != []
    ensures Union(SetMinus(itemsets[i].itemset, c), c) == itemsets[i].itemset
    ensures Stats(entries, SetMinus(itemsets[i].itemset, c), c).Some?
  {
    var itemset := itemsets[i].itemset;
    var a := SetMinus(itemset, c);
    EntriesPositive(entries, itemsets, numTransactions);
    SplitRebuilds(itemset, c);
    SetMinusMeaning(itemset, c);
    SubsetIsFound(entries, itemsets, numTransactions, i, c);
    SubsetIsFound(entries, itemsets, numTransactions, i, a);
    LookupFindsEveryInput(entries, itemsets, numTransactions, i);
  }

  /** The consequents of one generation: canonical sub-itemsets of
      `itemset` with `size` items each. */
  ghost predicate Generation(candidates: seq<seq<Item>>, itemset: seq<Item>, size: nat) {
    forall t :: 0 <= t < |candidates| ==>
      Ascending(candidates[t]) && |candidates[t]| == size && Elems(candidates[t]) <= Elems(itemset)
  }

  /** Joining two consequents of size m that share m - 1 items gives one
      of size m + 1 inside the same itemset. */
  lemma JoinGrows(c1: seq<Item>, c2: seq<Item>, itemset: seq<Item>, m: nat)
    requires Ascending(c1) && Ascending(c2) && |c1| == m && |c2| == m
    requires Elems(c1) <= Elems(itemset) && Elems(c2) <= Elems(itemset)
    requires IntersectionSize(c1, c2) == m - 1 && m >= 1
    ensures Ascending(Union(c1, c2))
    ensures |Union(c1, c2)| == m + 1 && Elems(Union(c1, c2)) <= Elems(itemset)
  {
    IntersectionSizeCounts(c1, c2);
    UnionMeaning(c1, c2);
    AscendingCard(c1);
    AscendingCard(c2);
    AscendingCard(Union(c1, c2));
    assert |Elems(c1) + Elems(c2)| + |Elems(c1) * Elems(c2)| == |Elems(c1)| + |Elems(c2)|;
  }

  /** Every stored rule is sound. */
  ghost predicate AllSound(rules: seq<Rule>, entries: seq<ItemsetWithSupport>, itemsets: seq<ItemsetWithCount>,
                           minConfidence: real, minLift: real)
  {
    forall r :: r in rules ==> SoundRule(entries, itemsets, r, minConfidence, minLift)
  }

  /** The support table the generator works from: built from valid input,
      and sorted for lookup. */
  ghost predicate Table(entries: seq<ItemsetWithSupport>, itemsets: seq<ItemsetWithCount>, numTransactions: int) {
    && numTransactions > 0 && GeneratorInput(itemsets)
    && multiset(entries) == multiset(Supports(itemsets, numTransactions))
    && SortedBy(entries, ItemsetOf)
  }

  /** Storing a sound rule keeps every stored rule sound. */
  lemma InsertKeepsSound(s: Store, rule: Rule, entries: seq<ItemsetWithSupport>, itemsets: seq<ItemsetWithCount>,
                         minConfidence: real, minLift: real)
    requires AllSound(s.rules, entries, itemsets, minConfidence, minLift)
    requires SoundRule(entries, itemsets, rule, minConfidence, minLift)
    ensures AllSound(Inserted(s, rule).rules, entries, itemsets, minConfidence, minLift)
  {
  }

  /** Splitting a mined itemset into a candidate consequent and the rest
      gives a sound rule once the metrics of the split meet both thresholds. */
  lemma SplitIsSound(entries: seq<ItemsetWithSupport>, itemsets: seq<ItemsetWithCount>, numTransactions: int,
                     index: nat, consequent: seq<Item>, metrics: Metrics, minConfidence: real, minLift: real)
    requires Table(entries, itemsets, numTransactions) && index < |itemsets|
    requires Ascending(consequent) && consequent != [] && Elems(consequent) <= Elems(itemsets[index].itemset)
    requires |consequent| < |itemsets[index].itemset|
    requires PositiveSupports(entries)
    requires Stats(entries, SetMinus(itemsets[index].itemset, consequent), consequent) == Some(metrics)
    requires metrics.confidence >= minConfidence && metrics.lift >= minLift
    ensures SoundRule(entries, itemsets,
                      Rule(SetMinus(itemsets[index].itemset, consequent), consequent,
                           metrics.support, metrics.confidence, metrics.lift),
                      minConfidence, minLift)
  {
    CandidateSplit(entries, itemsets, numTransactions, index, consequent);
    var a := SetMinus(itemsets[index].itemset, consequent);
    SetMinusMeaning(itemsets[index].itemset, consequent);
    assert Elems(a) !! Elems(consequent);
    assert itemsets[index].itemset == Union(a, consequent);
  }

  // ---------------------------------------------------------------------
  // What one generation tries, keeps and stores.
  // ---------------------------------------------------------------------

  /** Consequent `c` of `itemset` survives into the next generation when
      the confidence of (itemset \ c => c) reaches `minConfidence`. */
  ghost predicate Survives(entries: seq<ItemsetWithSupport>, itemset: seq<Item>, c: seq<Item>, minConfidence: real)
    requires PositiveSupports(entries)
  {
    var st := Stats(entries, SetMinus(itemset, c), c);
    st.Some? && st.value.confidence >= minConfidence
  }

  /** The store once consequent `c` of `itemset` has been tried: the rule
      (itemset \ c => c) is inserted when its confidence reaches
      `minConfidence` and its lift reaches `minLift`, both inclusively. */
  ghost function TryOne(s: Store, entries: seq<ItemsetWithSupport>, itemset: seq<Item>, c: seq<Item>,
                        minConfidence: real, minLift: real): Store
    requires PositiveSupports(entries)
  {
    var st := Stats(entries, SetMinus(itemset, c), c);
    if st.Some? && st.value.confidence >= minConfidence && st.value.lift >= minLift then
      Inserted(s, NewRule(SetMinus(itemset, c), c, st.value.support, st.value.confidence, st.value.lift))
    else s
  }

  /** The store once the consequents `cs` have been tried in order. */
  ghost function TryAll(s: Store, entries: seq<ItemsetWithSupport>, itemset: seq<Item>, cs: seq<seq<Item>>,
                        minConfidence: real, minLift: real): Store
    requires PositiveSupports(entries)
    decreases |cs|
  {
    if cs == [] then s
    else TryOne(TryAll(s, entries, itemset, cs[..|cs| - 1], minConfidence, minLift),
                entries, itemset, cs[|cs| - 1], minConfidence, minLift)
  }

  /** The consequents among `cs` that survive, in their order. */
  ghost function Survivors(entries: seq<ItemsetWithSupport>, itemset: seq<Item>, cs: seq<seq<Item>>,
                           minConfidence: real): seq<seq<Item>>
    requires PositiveSupports(entries)
    decreases |cs|
  {
    if cs == [] then []
    else Survivors(entries, itemset, cs[..|cs| - 1], minConfidence) +
         (if Survives(entries, itemset, cs[|cs| - 1], minConfidence) then [cs[|cs| - 1]] else [])
  }

  /** One more consequent tried: one more step of the store. */
  lemma TrySnoc(s: Store, entries: seq<ItemsetWithSupport>, itemset: seq<Item>, cs: seq<seq<Item>>, c: seq<Item>,
                minConfidence: real, minLift: real)
    requires PositiveSupports(entries)
    ensures TryAll(s, entries, itemset, cs + [c], minConfidence, minLift) ==
      TryOne(TryAll(s, entries, itemset, cs, minConfidence, minLift), entries, itemset, c, minConfidence, minLift)
  {
    assert (cs + [c])[..|cs|] == cs;
  }

  /** One more consequent tried: it joins the survivors when it survives. */
  lemma SurvivorsSnoc(entries: seq<ItemsetWithSupport>, itemset: seq<Item>, cs: seq<seq<Item>>, c: seq<Item>,
                      minConfidence: real)
    requires PositiveSupports(entries)
    ensures Survivors(entries, itemset, cs + [c], minConfidence) ==
      Survivors(entries, itemset, cs, minConfidence) + (if Survives(entries, itemset, c, minConfidence) then [c] else [])
  {
    assert (cs + [c])[..|cs|] == cs;
  }

  /** Trying `xs` then `ys` is trying `xs + ys`. */
  lemma {:induction false} TryAppend(s: Store, entries: seq<ItemsetWithSupport>, itemset: seq<Item>,
                                     xs: seq<seq<Item>>, ys: seq<seq<Item>>, minConfidence: real, minLift: real)
    requires PositiveSupports(entries)
    ensures TryAll(s, entries, itemset, xs + ys, minConfidence, minLift) ==
      TryAll(TryAll(s, entries, itemset, xs, minConfidence, minLift), entries, itemset, ys, minConfidence, minLift)
    decreases |ys|
  {
    if ys == [] {
      assert xs + ys == xs;
    } else {
      var init, last := ys[..|ys| - 1], ys[|ys| - 1];
      assert ys == init + [last];
      TryAppend(s, entries, itemset, xs, init, minConfidence, minLift);
      assert xs + ys == (xs + init) + [last];
      TrySnoc(s, entries, itemset, xs + init, last, minConfidence, minLift);
    }
  }

  /** The survivors of `xs + ys` are those of `xs` followed by those of `ys`. */
  lemma {:induction false} SurvivorsAppend(entries: seq<ItemsetWithSupport>, itemset: seq<Item>,
                                           xs: seq<seq<Item>>, ys: seq<seq<Item>>, minConfidence: real)
    requires PositiveSupports(entries)
    ensures Survivors(entries, itemset, xs + ys, minConfidence) ==
      Survivors(entries, itemset, xs, minConfidence) + Survivors(entries, itemset, ys, minConfidence)
    decreases |ys|
  {
    if ys == [] {
      assert xs + ys == xs;
    } else {
      var init, last := ys[..|ys| - 1], ys[|ys| - 1];
      assert ys == init + [last];
      assert xs + ys == (xs + init) + [last];
      SurvivorsAppend(entries, itemset, xs, init, minConfidence);
      SurvivorsSnoc(entries, itemset, xs + init, last, minConfidence);
      SurvivorsSnoc(entries, itemset, init, last, minConfidence);
      var before, rest := Survivors(entries, itemset, xs, minConfidence), Survivors(entries, itemset, init, minConfidence);
      var step := if Survives(entries, itemset, last, minConfidence) then [last] else [];
      assert (before + rest) + step == before + (rest + step);
    }
  }

  /** The survivors are exactly the consequents tried that survive. */
  lemma {:induction false} SurvivorsMembers(entries: seq<ItemsetWithSupport>, itemset: seq<Item>,
                                            cs: seq<seq<Item>>, minConfidence: real, c: seq<Item>)
    requires PositiveSupports(entries)
    ensures c in Survivors(entries, itemset, cs, minConfidence) <==>
      c in cs && Survives(entries, itemset, c, minConfidence)
    decreases |cs|
  {
    if cs != [] {
      var init := cs[..|cs| - 1];
      SurvivorsMembers(entries, itemset, init, minConfidence, c);
      assert cs == init + [cs[|cs| - 1]];
    }
  }

  /** Trying consequents only ever adds keys, and once all of them have
      been tried, every one that meets both thresholds has its rule's key
      stored: no qualifying rule is missed within the consequents tried. */
  lemma {:induction false} TryAllStoresQualifying(s: Store, entries: seq<ItemsetWithSupport>, itemset: seq<Item>,
                                                  cs: seq<seq<Item>>, minConfidence: real, minLift: real)
    requires PositiveSupports(entries)
    ensures s.index.Keys <= TryAll(s, entries, itemset, cs, minConfidence, minLift).index.Keys
    ensures forall t :: (0 <= t < |cs| &&
                         Survives(entries, itemset, cs[t], minConfidence) &&
                         Stats(entries, SetMinus(itemset, cs[t]), cs[t]).value.lift >= minLift) ==>
      (SetMinus(itemset, cs[t]), cs[t]) in TryAll(s, entries, itemset, cs, minConfidence, minLift).index
    decreases |cs|
  {
    if cs != [] {
      var init := cs[..|cs| - 1];
      TryAllStoresQualifying(s, entries, itemset, init, minConfidence, minLift);
      var before := TryAll(s, entries, itemset, init, minConfidence, minLift);
      assert before.index.Keys <= TryAll(s, entries, itemset, cs, minConfidence, minLift).index.Keys;
      forall t | 0 <= t < |cs| - 1 ensures cs[t] == init[t] {
      }
    }
  }

  /** The one-item consequents of the first generation, in itemset order. */
  function Singletons(itemset: seq<Item>): (cs: seq<seq<Item>>)
    ensures |cs| == |itemset|
  {
    if itemset == [] then [] else Singletons(itemset[..|itemset| - 1]) + [[itemset[|itemset| - 1]]]
  }

  /** The j-th one-item consequent holds the j-th item. */
  lemma {:induction false} SingletonsAt(itemset: seq<Item>, j: nat)
    requires j < |itemset|
    ensures Singletons(itemset)[j] == [itemset[j]]
  {
    var init := itemset[..|itemset| - 1];
    if j < |itemset| - 1 {
      SingletonsAt(init, j);
    }
  }

  /** The joins a later generation tries for candidate `i`: with each
      candidate from `j` on, up to the first that does not share all but
      one of candidate `i`'s items. */
  ghost function JoinRun(candidates: seq<seq<Item>>, i: nat, j: nat): seq<seq<Item>>
    requires i < |candidates|
    decreases |candidates| - j
  {
    if j >= |candidates| || IntersectionSize(candidates[i], candidates[j]) != |candidates[i]| - 1 then []
    else [Union(candidates[i], candidates[j])] + JoinRun(candidates, i, j + 1)
  }

  /** The joins tried for the first `n` candidates, row after row. */
  ghost function JoinsUpTo(candidates: seq<seq<Item>>, n: nat): seq<seq<Item>>
    requires n <= |candidates|
  {
    if n == 0 then [] else JoinsUpTo(candidates, n - 1) + JoinRun(candidates, n - 1, n)
  }

  /** The store once the rows of the first `n` candidates have been tried, row by row. */
  ghost function TryRows(s: Store, entries: seq<ItemsetWithSupport>, itemset: seq<Item>, candidates: seq<seq<Item>>,
                         n: nat, minConfidence: real, minLift: real): Store
    requires PositiveSupports(entries) && n <= |candidates|
  {
    if n == 0 then s
    else TryAll(TryRows(s, entries, itemset, candidates, n - 1, minConfidence, minLift),
                entries, itemset, JoinRun(candidates, n - 1, n), minConfidence, minLift)
  }

  /** The survivors of the rows of the first `n` candidates, row by row. */
  ghost function SurvivorRows(entries: seq<ItemsetWithSupport>, itemset: seq<Item>, candidates: seq<seq<Item>>,
                              n: nat, minConfidence: real): seq<seq<Item>>
    requires PositiveSupports(entries) && n <= |candidates|
  {
    if n == 0 then []
    else SurvivorRows(entries, itemset, candidates, n - 1, minConfidence) +
         Survivors(entries, itemset, JoinRun(candidates, n - 1, n), minConfidence)
  }

  /** Trying the rows one by one is trying all the joins in order. */
  lemma {:induction false} RowsAreJoins(s: Store, entries: seq<ItemsetWithSupport>, itemset: seq<Item>,
                                        candidates: seq<seq<Item>>, n: nat, minConfidence: real, minLift: real)
    requires PositiveSupports(entries) && n <= |candidates|
    ensures TryRows(s, entries, itemset, candidates, n, minConfidence, minLift) ==
      TryAll(s, entries, itemset, JoinsUpTo(candidates, n), minConfidence, minLift)
    ensures SurvivorRows(entries, itemset, candidates, n, minConfidence) ==
      Survivors(entries, itemset, JoinsUpTo(candidates, n), minConfidence)
  {
    if n > 0 {
      RowsAreJoins(s, entries, itemset, candidates, n - 1, minConfidence, minLift);
      TryAppend(s, entries, itemset, JoinsUpTo(candidates, n - 1), JoinRun(candidates, n - 1, n), minConfidence, minLift);
      SurvivorsAppend(entries, itemset, JoinsUpTo(candidates, n - 1), JoinRun(candidates, n - 1, n), minConfidence);
    }
  }

  /** One more join in the row of candidate `i`. */
  lemma RowStep(candidates: seq<seq<Item>>, i: nat, j: nat, row: seq<seq<Item>>)
    requires i < j < |candidates|
    requires IntersectionSize(candidates[i], candidates[j]) == |candidates[i]| - 1
    ensures JoinRun(candidates, i, j) == [Union(candidates[i], candidates[j])] + JoinRun(candidates, i, j + 1)
    ensures (row + [Union(candidates[i], candidates[j])]) + JoinRun(candidates, i, j + 1) ==
      row + JoinRun(candidates, i, j)
  {
    var u, rest := Union(candidates[i], candidates[j]), JoinRun(candidates, i, j + 1);
    assert JoinRun(candidates, i, j) == [u] + rest;
    assert (row + [u]) + rest == row + ([u] + rest);
  }

  /** The row of joins for candidate `i` is contiguous: its t-th join is
      with candidate j + t, which shares all but one of its items. */
  lemma {:induction false} JoinRunAt(candidates: seq<seq<Item>>, i: nat, j: nat, t: nat)
    requires i < |candidates| && t < |JoinRun(candidates, i, j)|
    ensures j + t < |candidates|
    ensures IntersectionSize(candidates[i], candidates[j + t]) == |candidates[i]| - 1
    ensures JoinRun(candidates, i, j)[t] == Union(candidates[i], candidates[j + t])
    decreases |candidates| - j
  {
    if t > 0 {
      JoinRunAt(candidates, i, j + 1, t - 1);
    }
  }

  /** The test `generateRules` applies to one consequent of `itemset`: the
      statistics of (itemset \ consequent => consequent) are computed; the
      consequent survives when the confidence reaches `minConfidence`, and
      the rule is to be stored when the lift also reaches `minLift`. */
  method JudgeConsequent(itemsetSupport: ItemsetSupportLookup, itemset: seq<Item>,
                         consequent: seq<Item>, minConfidence: real, minLift: real,
                         ghost itemsets: seq<ItemsetWithCount>, ghost numTransactions: int, ghost index: nat)
    returns (kept: bool, rule: Option<Rule>)
    requires Table(itemsetSupport.itemsets, itemsets, numTransactions)
    requires index < |itemsets| && itemsets[index].itemset == itemset
    requires Ascending(consequent) && consequent != [] && Elems(consequent) <= Elems(itemset)
    requires |consequent| < |itemset|
    ensures PositiveSupports(itemsetSupport.itemsets)
    ensures Stats(itemsetSupport.itemsets, SetMinus(itemset, consequent), consequent).Some?
    ensures kept <==> Stats(itemsetSupport.itemsets, SetMinus(itemset, consequent), consequent).value.confidence >= minConfidence
    ensures rule.Some? <==> kept && Stats(itemsetSupport.itemsets, SetMinus(itemset, consequent), consequent).value.lift >= minLift
    ensures rule.Some? ==> rule.value == NewRule(SetMinus(itemset, consequent), consequent,
      Stats(itemsetSupport.itemsets, SetMinus(itemset, consequent), consequent).value.support,
      Stats(itemsetSupport.itemsets, SetMinus(itemset, consequent), consequent).value.confidence,
      Stats(itemsetSupport.itemsets, SetMinus(itemset, consequent), consequent).value.lift)
    ensures rule.Some? ==> SoundRule(itemsetSupport.itemsets, itemsets, rule.value, minConfidence, minLift)
  {
    ghost var entries := itemsetSupport.itemsets;
    var antecedent := SetMinus(itemset, consequent);
    CandidateSplit(entries, itemsets, numTransactions, index, consequent);
    var stats := MakeStats(antecedent, consequent, itemsetSupport);
    var metrics := stats.value;
    if metrics.confidence < minConfidence {
      return false, None;
    }
    if metrics.lift >= minLift {
      SplitIsSound(entries, itemsets, numTransactions, index, consequent, metrics, minConfidence, minLift);
      return true, Some(NewRule(antecedent, consequent, metrics.support, metrics.confidence, metrics.lift));
    }
    return true, None;
  }

  /** Trying a consequent of a mined itemset keeps every stored rule sound. */
  lemma TryOneSound(s: Store, entries: seq<ItemsetWithSupport>, itemsets: seq<ItemsetWithCount>, numTransactions: int,
                    index: nat, c: seq<Item>, minConfidence: real, minLift: real)
    requires Table(entries, itemsets, numTransactions) && index < |itemsets|
    requires Ascending(c) && c != [] && Elems(c) <= Elems(itemsets[index].itemset) && |c| < |itemsets[index].itemset|
    requires AllSound(s.rules, entries, itemsets, minConfidence, minLift)
    ensures Ascending(itemsets[index].itemset) && PositiveSupports(entries)
    ensures AllSound(TryOne(s, entries, itemsets[index].itemset, c, minConfidence, minLift).rules,
                     entries, itemsets, minConfidence, minLift)
  {
    EntriesPositive(entries, itemsets, numTransactions);
    var itemset := itemsets[index].itemset;
    var st := Stats(entries, SetMinus(itemset, c), c);
    if st.Some? && st.value.confidence >= minConfidence && st.value.lift >= minLift {
      SplitIsSound(entries, itemsets, numTransactions, index, c, st.value, minConfidence, minLift);
      InsertKeepsSound(s, NewRule(SetMinus(itemset, c), c, st.value.support, st.value.confidence, st.value.lift),
                       entries, itemsets, minConfidence, minLift);
    }
  }

  /** Trying any generation of consequents of a mined itemset, each
      smaller than it, keeps every stored rule sound. */
  lemma {:induction false} TryAllSound(s: Store, entries: seq<ItemsetWithSupport>, itemsets: seq<ItemsetWithCount>,
                                       numTransactions: int, index: nat, cs: seq<seq<Item>>, size: nat,
                                       minConfidence: real, minLift: real)
    requires Table(entries, itemsets, numTransactions) && index < |itemsets|
    requires Generation(cs, itemsets[index].itemset, size) && 1 <= size < |itemsets[index].itemset|
    requires AllSound(s.rules, entries, itemsets, minConfidence, minLift)
    ensures Ascending(itemsets[index].itemset) && PositiveSupports(entries)
    ensures AllSound(TryAll(s, entries, itemsets[index].itemset, cs, minConfidence, minLift).rules,
                     entries, itemsets, minConfidence, minLift)
    decreases |cs|
  {
    EntriesPositive(entries, itemsets, numTransactions);
    if cs != [] {
      var init := cs[..|cs| - 1];
      assert Generation(init, itemsets[index].itemset, size);
      TryAllSound(s, entries, itemsets, numTransactions, index, init, size, minConfidence, minLift);
      TryOneSound(TryAll(s, entries, itemsets[index].itemset, init, minConfidence, minLift),
                  entries, itemsets, numTransactions, index, cs[|cs| - 1], minConfidence, minLift);
    }
  }

  /** Survivors of a generation form a generation of the same size. */
  lemma SurvivorsGeneration(entries: seq<ItemsetWithSupport>, itemset: seq<Item>, cs: seq<seq<Item>>,
                            size: nat, minConfidence: real)
    requires Ascending(itemset) && Generation(cs, itemset, size) && PositiveSupports(entries)
    ensures Generation(Survivors(entries, itemset, cs, minConfidence), itemset, size)
  {
    var kept := Survivors(entries, itemset, cs, minConfidence);
    forall t | 0 <= t < |kept|
      ensures Ascending(kept[t]) && |kept[t]| == size && Elems(kept[t]) <= Elems(itemset)
    {
      SurvivorsMembers(entries, itemset, cs, minConfidence, kept[t]);
    }
  }

  /** The first generation tries the one-item sub-itemsets. */
  lemma SingletonsGeneration(itemset: seq<Item>)
    ensures Generation(Singletons(itemset), itemset, 1)
  {
    var cs := Singletons(itemset);
    forall t | 0 <= t < |cs| ensures Ascending(cs[t]) && |cs[t]| == 1 && Elems(cs[t]) <= Elems(itemset) {
      SingletonsAt(itemset, t);
      assert Elems([itemset[t]]) == {itemset[t]};
    }
  }

  /** A join tried in a later generation is the union of two candidates,
      the first before the second, that share all but one item. */
  lemma {:induction false} JoinsUpToAt(candidates: seq<seq<Item>>, n: nat, t: nat)
    requires n <= |candidates| && t < |JoinsUpTo(candidates, n)|
    ensures exists i, k :: (0 <= i < k < |candidates| &&
                            IntersectionSize(candidates[i], candidates[k]) == |candidates[i]| - 1 &&
                            JoinsUpTo(candidates, n)[t] == Union(candidates[i], candidates[k]))
  {
    var prev, row := JoinsUpTo(candidates, n - 1), JoinRun(candidates, n - 1, n);
    assert JoinsUpTo(candidates, n) == prev + row;
    if t < |prev| {
      JoinsUpToAt(candidates, n - 1, t);
    } else {
      JoinRunAt(candidates, n - 1, n, t - |prev|);
      assert JoinsUpTo(candidates, n)[t] == row[t - |prev|];
      var k := n + (t - |prev|);
      assert 0 <= n - 1 < k < |candidates|;
    }
  }

  /** A later generation tries sub-itemsets one item larger than its
      candidates. */
  lemma JoinsGeneration(candidates: seq<seq<Item>>, n: nat, itemset: seq<Item>, size: nat)
    requires Generation(candidates, itemset, size) && 1 <= size && n <= |candidates|
    ensures Generation(JoinsUpTo(candidates, n), itemset, size + 1)
  {
    var joins := JoinsUpTo(candidates, n);
    forall t | 0 <= t < |joins|
      ensures Ascending(joins[t]) && |joins[t]| == size + 1 && Elems(joins[t]) <= Elems(itemset)
    {
      JoinsUpToAt(candidates, n, t);
      var i, k :| 0 <= i < k < |candidates| &&
                  IntersectionSize(candidates[i], candidates[k]) == |candidates[i]| - 1 &&
                  joins[t] == Union(candidates[i], candidates[k]);
      JoinGrows(candidates[i], candidates[k], itemset, size);
    }
  }

  /** One consequent in either generation of `generateRules`: judged, and
      its rule stored in `output` when both thresholds are met. */
  method TryConsequent(output: RuleSet, itemsetSupport: ItemsetSupportLookup, itemset: seq<Item>,
                       consequent: seq<Item>, minConfidence: real, minLift: real,
                       ghost itemsets: seq<ItemsetWithCount>, ghost numTransactions: int, ghost index: nat)
    returns (kept: bool)
    requires Table(itemsetSupport.itemsets, itemsets, numTransactions)
    requires index < |itemsets| && itemsets[index].itemset == itemset
    requires Ascending(consequent) && consequent != [] && Elems(consequent) <= Elems(itemset)
    requires |consequent| < |itemset|
    requires output.Valid()
    modifies output
    ensures output.Valid()
    ensures AllSound(old(output.rules), itemsetSupport.itemsets, itemsets, minConfidence, minLift) ==>
      AllSound(output.rules, itemsetSupport.itemsets, itemsets, minConfidence, minLift)
    ensures PositiveSupports(itemsetSupport.itemsets)
    ensures Stats(itemsetSupport.itemsets, SetMinus(itemset, consequent), consequent).Some?
    ensures kept <==> Stats(itemsetSupport.itemsets, SetMinus(itemset, consequent), consequent).value.confidence >= minConfidence
    ensures output.Abstract() ==
      TryOne(old(output.Abstract()), itemsetSupport.itemsets, itemset, consequent, minConfidence, minLift)
  {
    var rule;
    kept, rule := JudgeConsequent(itemsetSupport, itemset, consequent, minConfidence, minLift,
                                  itemsets, numTransactions, index);
    if rule.Some? {
      if AllSound(output.rules, itemsetSupport.itemsets, itemsets, minConfidence, minLift) {
        InsertKeepsSound(output.Abstract(), rule.value, itemsetSupport.itemsets, itemsets, minConfidence, minLift);
      }
      output.Insert(rule.value);
    }
  }

  /** `TryConsequent` as one more step of the folds over the consequents
      `tried` before it. */
  method TryNext(output: RuleSet, itemsetSupport: ItemsetSupportLookup, itemset: seq<Item>,
                 consequent: seq<Item>, minConfidence: real, minLift: real,
                 ghost itemsets: seq<ItemsetWithCount>, ghost numTransactions: int, ghost index: nat,
                 ghost start: Store, ghost tried: seq<seq<Item>>)
    returns (survives: bool)
    requires Table(itemsetSupport.itemsets, itemsets, numTransactions)
    requires index < |itemsets| && itemsets[index].itemset == itemset
    requires Ascending(consequent) && consequent != [] && Elems(consequent) <= Elems(itemset)
    requires |consequent| < |itemset|
    requires PositiveSupports(itemsetSupport.itemsets)
    requires output.Valid()
    requires output.Abstract() == TryAll(start, itemsetSupport.itemsets, itemset, tried, minConfidence, minLift)
    modifies output
    ensures output.Valid()
    ensures survives == Survives(itemsetSupport.itemsets, itemset, consequent, minConfidence)
    ensures output.Abstract() ==
      TryAll(start, itemsetSupport.itemsets, itemset, tried + [consequent], minConfidence, minLift)
  {
    TrySnoc(start, itemsetSupport.itemsets, itemset, tried, consequent, minConfidence, minLift);
    survives := TryConsequent(output, itemsetSupport, itemset, consequent, minConfidence, minLift,
                              itemsets, numTransactions, index);
  }

  /** The loop of the first generation: each single item of `itemset` in
      turn tried as the consequent; the survivors, in item order. */
  method TrySingles(output: RuleSet, itemsetSupport: ItemsetSupportLookup, itemset: seq<Item>,
                    minConfidence: real, minLift: real,
                    ghost itemsets: seq<ItemsetWithCount>, ghost numTransactions: int, ghost index: nat)
    returns (candidates: seq<seq<Item>>)
    requires Table(itemsetSupport.itemsets, itemsets, numTransactions)
    requires index < |itemsets| && itemsets[index].itemset == itemset && |itemset| >= 2
    requires PositiveSupports(itemsetSupport.itemsets)
    requires output.Valid()
    modifies output
    ensures output.Valid()
    ensures candidates == Survivors(itemsetSupport.itemsets, itemset, Singletons(itemset), minConfidence)
    ensures output.Abstract() ==
      TryAll(old(output.Abstract()), itemsetSupport.itemsets, itemset, Singletons(itemset), minConfidence, minLift)
  {
    ghost var entries, start := itemsetSupport.itemsets, output.Abstract();
    candidates := [];
    for j := 0 to |itemset|
      invariant output.Valid()
      invariant candidates == Survivors(entries, itemset, Singletons(itemset[..j]), minConfidence)
      invariant output.Abstract() == TryAll(start, entries, itemset, Singletons(itemset[..j]), minConfidence, minLift)
    {
      var consequent := [itemset[j]];
      assert Elems(consequent) == {itemset[j]};
      ghost var tried := Singletons(itemset[..j]);
      assert itemset[..j + 1][..j] == itemset[..j];
      assert Singletons(itemset[..j + 1]) == tried + [consequent];
      SurvivorsSnoc(entries, itemset, tried, consequent, minConfidence);
      var kept := TryNext(output, itemsetSupport, itemset, consequent, minConfidence, minLift,
                          itemsets, numTransactions, index, start, tried);
      if kept {
        candidates := candidates + [consequent];
      }
    }
    assert itemset[..|itemset|] == itemset;
  }

  /** The first generation for one itemset: each single item in turn as
      the consequent; the survivors, in item order. */
  method FirstGeneration(output: RuleSet, itemsetSupport: ItemsetSupportLookup, itemset: seq<Item>,
                         minConfidence: real, minLift: real,
                         ghost itemsets: seq<ItemsetWithCount>, ghost numTransactions: int, ghost index: nat)
    returns (candidates: seq<seq<Item>>)
    requires Table(itemsetSupport.itemsets, itemsets, numTransactions)
    requires index < |itemsets| && itemsets[index].itemset == itemset && |itemset| >= 2
    requires output.Valid() && AllSound(output.rules, itemsetSupport.itemsets, itemsets, minConfidence, minLift)
    modifies output
    ensures output.Valid() && AllSound(output.rules, itemsetSupport.itemsets, itemsets, minConfidence, minLift)
    ensures Generation(candidates, itemset, 1)
    ensures Ascending(itemset) && PositiveSupports(itemsetSupport.itemsets)
    ensures candidates == Survivors(itemsetSupport.itemsets, itemset, Singletons(itemset), minConfidence)
    ensures output.Abstract() ==
      TryAll(old(output.Abstract()), itemsetSupport.itemsets, itemset, Singletons(itemset), minConfidence, minLift)
  {
    ghost var start := output.Abstract();
    EntriesPositive(itemsetSupport.itemsets, itemsets, numTransactions);
    candidates := TrySingles(output, itemsetSupport, itemset, minConfidence, minLift, itemsets, numTransactions, index);
    SingletonsGeneration(itemset);
    TryAllSound(start, itemsetSupport.itemsets, itemsets, numTransactions, index, Singletons(itemset), 1,
                minConfidence, minLift);
    SurvivorsGeneration(itemsetSupport.itemsets, itemset, Singletons(itemset), 1, minConfidence);
  }

  /** One join of a later generation: candidates `i` and `j`, which share
      all but one item, joined and tried as a consequent. */
  method JoinStep(output: RuleSet, itemsetSupport: ItemsetSupportLookup, itemset: seq<Item>,
                  candidates: seq<seq<Item>>, i: nat, j: nat, ghost size: nat, minConfidence: real, minLift: real,
                  ghost itemsets: seq<ItemsetWithCount>, ghost numTransactions: int, ghost index: nat,
                  ghost start: Store, ghost row: seq<seq<Item>>)
    returns (consequent: seq<Item>, survives: bool)
    requires Table(itemsetSupport.itemsets, itemsets, numTransactions)
    requires index < |itemsets| && itemsets[index].itemset == itemset
    requires 1 <= size && size + 1 < |itemset| && Generation(candidates, itemset, size) && i < j < |candidates|
    requires IntersectionSize(candidates[i], candidates[j]) == |candidates[i]| - 1
    requires PositiveSupports(itemsetSupport.itemsets)
    requires output.Valid()
    requires output.Abstract() == TryAll(start, itemsetSupport.itemsets, itemset, row, minConfidence, minLift)
    modifies output
    ensures output.Valid()
    ensures consequent == Union(candidates[i], candidates[j])
    ensures survives == Survives(itemsetSupport.itemsets, itemset, consequent, minConfidence)
    ensures output.Abstract() ==
      TryAll(start, itemsetSupport.itemsets, itemset, row + [consequent], minConfidence, minLift)
  {
    consequent := Union(candidates[i], candidates[j]);
    JoinGrows(candidates[i], candidates[j], itemset, size);
    survives := TryNext(output, itemsetSupport, itemset, consequent, minConfidence, minLift,
                        itemsets, numTransactions, index, start, row);
  }

  /** One row of a later generation: candidate `i` joined with each
      candidate after it while they share all but one item (the row stops
      at the first that does not); the surviving joins, in order. */
  method JoinRow(output: RuleSet, itemsetSupport: ItemsetSupportLookup, itemset: seq<Item>,
                 candidates: seq<seq<Item>>, i: nat, ghost size: nat, minConfidence: real, minLift: real,
                 ghost itemsets: seq<ItemsetWithCount>, ghost numTransactions: int, ghost index: nat)
    returns (kept: seq<seq<Item>>)
    requires Table(itemsetSupport.itemsets, itemsets, numTransactions)
    requires index < |itemsets| && itemsets[index].itemset == itemset
    requires 1 <= size && size + 1 < |itemset| && Generation(candidates, itemset, size) && i < |candidates|
    requires output.Valid()
    modifies output
    ensures output.Valid()
    ensures Ascending(itemset) && PositiveSupports(itemsetSupport.itemsets)
    ensures kept == Survivors(itemsetSupport.itemsets, itemset, JoinRun(candidates, i, i + 1), minConfidence)
    ensures output.Abstract() ==
      TryAll(old(output.Abstract()), itemsetSupport.itemsets, itemset, JoinRun(candidates, i, i + 1),
             minConfidence, minLift)
  {
    ghost var entries, start := itemsetSupport.itemsets, output.Abstract();
    EntriesPositive(entries, itemsets, numTransactions);
    var c1 := candidates[i];
    var m := |c1|;
    ghost var row: seq<seq<Item>> := [];
    kept := [];
    for idx2 := i + 1 to |candidates|
      invariant output.Valid()
      invariant row + JoinRun(candidates, i, idx2) == JoinRun(candidates, i, i + 1)
      invariant kept == Survivors(entries, itemset, row, minConfidence)
      invariant output.Abstract() == TryAll(start, entries, itemset, row, minConfidence, minLift)
    {
      if IntersectionSize(c1, candidates[idx2]) != m - 1 {
        assert row == JoinRun(candidates, i, i + 1);
        break;
      }
      var consequent, survives := JoinStep(output, itemsetSupport, itemset, candidates, i, idx2, size,
                                           minConfidence, minLift, itemsets, numTransactions, index, start, row);
      SurvivorsSnoc(entries, itemset, row, consequent, minConfidence);
      RowStep(candidates, i, idx2, row);
      if survives {
        kept := kept + [consequent];
      }
      row := row + [consequent];
    }
    assert row == JoinRun(candidates, i, i + 1);
  }

  /** One later generation: every candidate's row of joins, in candidate
      order; the surviving joins, unsorted. */
  method NextGeneration(output: RuleSet, itemsetSupport: ItemsetSupportLookup, itemset: seq<Item>,
                        candidates: seq<seq<Item>>, ghost size: nat, minConfidence: real, minLift: real,
                        ghost itemsets: seq<ItemsetWithCount>, ghost numTransactions: int, ghost index: nat)
    returns (nextGen: seq<seq<Item>>)
    requires Table(itemsetSupport.itemsets, itemsets, numTransactions)
    requires index < |itemsets| && itemsets[index].itemset == itemset
    requires 1 <= size && size + 1 < |itemset| && Generation(candidates, itemset, size)
    requires output.Valid() && AllSound(output.rules, itemsetSupport.itemsets, itemsets, minConfidence, minLift)
    modifies output
    ensures output.Valid() && AllSound(output.rules, itemsetSupport.itemsets, itemsets, minConfidence, minLift)
    ensures Generation(nextGen, itemset, size + 1)
    ensures Ascending(itemset) && PositiveSupports(itemsetSupport.itemsets)
    ensures nextGen == SurvivorRows(itemsetSupport.itemsets, itemset, candidates, |candidates|, minConfidence)
    ensures output.Abstract() ==
      TryRows(old(output.Abstract()), itemsetSupport.itemsets, itemset, candidates, |candidates|, minConfidence, minLift)
  {
    ghost var start := output.Abstract();
    EntriesPositive(itemsetSupport.itemsets, itemsets, numTransactions);
    nextGen := [];
    for idx1 := 0 to |candidates|
      invariant output.Valid()
      invariant nextGen == SurvivorRows(itemsetSupport.itemsets, itemset, candidates, idx1, minConfidence)
      invariant output.Abstract() == TryRows(start, itemsetSupport.itemsets, itemset, candidates, idx1, minConfidence, minLift)
    {
      var kept := JoinRow(output, itemsetSupport, itemset, candidates, idx1, size, minConfidence, minLift,
                          itemsets, numTransactions, index);
      nextGen := nextGen + kept;
    }
    GenerationSound(start, itemsetSupport.itemsets, itemsets, numTransactions, index, candidates, size,
                    minConfidence, minLift);
  }

  /** The joins of a later generation form a generation one item larger;
      trying them keeps every stored rule sound. */
  lemma GenerationSound(start: Store, entries: seq<ItemsetWithSupport>, itemsets: seq<ItemsetWithCount>,
                        numTransactions: int, index: nat, candidates: seq<seq<Item>>, size: nat,
                        minConfidence: real, minLift: real)
    requires Table(entries, itemsets, numTransactions) && index < |itemsets|
    requires 1 <= size && size + 1 < |itemsets[index].itemset| && Generation(candidates, itemsets[index].itemset, size)
    requires AllSound(start.rules, entries, itemsets, minConfidence, minLift)
    ensures Ascending(itemsets[index].itemset) && PositiveSupports(entries)
    ensures Generation(SurvivorRows(entries, itemsets[index].itemset, candidates, |candidates|, minConfidence),
                       itemsets[index].itemset, size + 1)
    ensures AllSound(TryRows(start, entries, itemsets[index].itemset, candidates, |candidates|,
                             minConfidence, minLift).rules, entries, itemsets, minConfidence, minLift)
  {
    var itemset, joins := itemsets[index].itemset, JoinsUpTo(candidates, |candidates|);
    EntriesPositive(entries, itemsets, numTransactions);
    RowsAreJoins(start, entries, itemset, candidates, |candidates|, minConfidence, minLift);
    JoinsGeneration(candidates, |candidates|, itemset, size);
    TryAllSound(start, entries, itemsets, numTransactions, index, joins, size + 1, minConfidence, minLift);
    SurvivorsGeneration(entries, itemset, joins, size + 1, minConfidence);
  }

  /** Sorting keeps a generation a generation. */
  lemma GenerationPermuted(candidates: seq<seq<Item>>, sorted: seq<seq<Item>>, itemset: seq<Item>, size: nat)
    requires Generation(candidates, itemset, size) && multiset(sorted) == multiset(candidates)
    ensures Generation(sorted, itemset, size)
  {
    forall t | 0 <= t < |sorted|
      ensures Ascending(sorted[t]) && |sorted[t]| == size && Elems(sorted[t]) <= Elems(itemset)
    {
      assert sorted[t] in multiset(candidates);
    }
  }

  /** `generateRules`: for each mined itemset of two or more items, the
      first generation tries each single item as consequent; later
      generations join pairs of same-size consequents, sorted in
      `itemSliceLess` order, until a consequent would leave a one-item
      antecedent behind. A consequent whose confidence is below
      `minConfidence` is dropped; a rule is stored when its lift is at
      least `minLift`. `entries` is the support table the rules are
      judged against. */
  method GenerateRules(itemsets: seq<ItemsetWithCount>, numTransactions: int, minConfidence: real, minLift: real)
    returns (output: RuleSet, ghost entries: seq<ItemsetWithSupport>)
    requires numTransactions > 0 && GeneratorInput(itemsets)
    ensures fresh(output) && output.Valid()
    ensures multiset(entries) == multiset(Supports(itemsets, numTransactions))
    ensures forall r :: r in output.rules ==> SoundRule(entries, itemsets, r, minConfidence, minLift)
  {
    output := new RuleSet();
    var itemsetSupport := CreateSupportLookup(itemsets, numTransactions);
    entries := itemsetSupport.itemsets;
    for index := 0 to |itemsets|
      invariant output.Valid() && fresh(output)
      invariant itemsetSupport.itemsets == entries && Table(entries, itemsets, numTransactions)
      invariant AllSound(output.rules, entries, itemsets, minConfidence, minLift)
    {
      var itemset := itemsets[index].itemset;
      if |itemset| < 2 {
        continue;
      }
      var candidates := FirstGeneration(output, itemsetSupport, itemset, minConfidence, minLift,
                                        itemsets, numTransactions, index);
      var k := |itemset|;
      ghost var size := 1;
      while |candidates| > 0 && |candidates[0]| + 1 < k
        invariant output.Valid() && fresh(output)
        invariant itemsetSupport.itemsets == entries
        invariant AllSound(output.rules, entries, itemsets, minConfidence, minLift)
        invariant 1 <= size < k && Generation(candidates, itemset, size)
        decreases k - size
      {
        var nextGen := NextGeneration(output, itemsetSupport, itemset, candidates, size, minConfidence, minLift,
                                      itemsets, numTransactions, index);
        candidates := SortCandidates(nextGen);
        GenerationPermuted(nextGen, candidates, itemset, size + 1);
        size := size + 1;
      }
    }
  }
}
