/** The canonical order on itemsets (`itemSliceLess`, rules.go) and the
    sorts the miner applies with it (`sort.Sort` on the support lookup,
    `sort.SliceStable` in `sortCandidates`). */
module ItemOrder {
  import opened Items

  /** Equal-length comparison: the first differing position decides. */
  function LexLess(a: seq<Item>, b: seq<Item>): bool
    requires |a| == |b|
  {
    if a == [] then false
    else if a[0] > b[0] then false
    else if a[0] < b[0] then true
    else LexLess(a[1..], b[1..])
  }

  /** Shorter itemsets first; among equal lengths, element-wise by item value. */
  function SliceLess(a: seq<Item>, b: seq<Item>): bool {
    if |a| < |b| then true
    else if |a| > |b| then false
    else LexLess(a, b)
  }

  /** `!SliceLess(b, a)`: the non-strict companion order. */
  predicate SliceLessEq(a: seq<Item>, b: seq<Item>) {
    !SliceLess(b, a)
  }

  /** The loop of `itemSliceLess`, proved against SliceLess. */
  method ItemSliceLess(a: seq<Item>, b: seq<Item>) returns (less: bool)
    ensures less == SliceLess(a, b)
  {
    if |a| < |b| {
      return true;
    } else if |a| > |b| {
      return false;
    }
    var idx := 0;
    while idx < |a|
      invariant 0 <= idx <= |a|
      invariant a[..idx] == b[..idx]
      invariant LexLess(a, b) == LexLess(a[idx..], b[idx..])
    {
      if a[idx] > b[idx] {
        return false;
      }
      if a[idx] < b[idx] {
        return true;
      }
      assert a[idx..][1..] == a[idx + 1..] && b[idx..][1..] == b[idx + 1..];
      idx := idx + 1;
    }
    return false;
  }

  lemma {:induction false} LexIrreflexive(a: seq<Item>)
    ensures !LexLess(a, a)
  {
    if a != [] {
      LexIrreflexive(a[1..]);
    }
  }

  lemma {:induction false} LexAsymmetric(a: seq<Item>, b: seq<Item>)
    requires |a| == |b|
    ensures LexLess(a, b) ==> !LexLess(b, a)
  {
    if a != [] && a[0] == b[0] {
      LexAsymmetric(a[1..], b[1..]);
    }
  }

  lemma {:induction false} LexTransitive(a: seq<Item>, b: seq<Item>, c: seq<Item>)
    requires |a| == |b| == |c|
    requires LexLess(a, b) && LexLess(b, c)
    ensures LexLess(a, c)
  {
    if a[0] == b[0] && b[0] == c[0] {
      LexTransitive(a[1..], b[1..], c[1..]);
    }
  }

  lemma {:induction false} LexConnected(a: seq<Item>, b: seq<Item>)
    requires |a| == |b| && a != b
    ensures LexLess(a, b) || LexLess(b, a)
  {
    if a[0] == b[0] {
      assert a == [a[0]] + a[1..] && b == [b[0]] + b[1..];
      LexConnected(a[1..], b[1..]);
    }
  }

  /** `itemSliceLess` is a strict order: never `a < a`. */
  lemma SliceLessIrreflexive(a: seq<Item>)
    ensures !SliceLess(a, a)
  {
    LexIrreflexive(a);
  }

  lemma SliceLessAsymmetric(a: seq<Item>, b: seq<Item>)
    ensures SliceLess(a, b) ==> !SliceLess(b, a)
  {
    if |a| == |b| {
      LexAsymmetric(a, b);
    }
  }

  lemma SliceLessTransitive(a: seq<Item>, b: seq<Item>, c: seq<Item>)
    requires SliceLess(a, b) && SliceLess(b, c)
    ensures SliceLess(a, c)
  {
    if |a| == |b| == |c| {
      LexTransitive(a, b, c);
    }
  }

  /** Any two distinct itemsets are ordered one way or the other. */
  lemma SliceLessTotal(a: seq<Item>, b: seq<Item>)
    requires a != b
    ensures SliceLess(a, b) || SliceLess(b, a)
  {
    if |a| == |b| {
      LexConnected(a, b);
    }
  }

  /** A shorter itemset always sorts first. */
  lemma ShorterIsLess(a: seq<Item>, b: seq<Item>)
    requires |a| < |b|
    ensures SliceLess(a, b) && !SliceLess(b, a)
  {
  }

  /** Between equal-length itemsets the first differing item decides. */
  lemma {:induction false} FirstDifferenceDecides(a: seq<Item>, b: seq<Item>, k: nat)
    requires |a| == |b| && k < |a|
    requires a[..k] == b[..k] && a[k] != b[k]
    ensures SliceLess(a, b) <==> a[k] < b[k]
  {
    if k > 0 {
      assert a[1..][..k - 1] == a[1..k] == b[1..k] == b[1..][..k - 1];
      assert a[0] == a[..k][0] == b[..k][0] == b[0];
      FirstDifferenceDecides(a[1..], b[1..], k - 1);
    }
  }

  lemma LessEqTransitive(a: seq<Item>, b: seq<Item>, c: seq<Item>)
    requires SliceLessEq(a, b) && SliceLessEq(b, c)
    ensures SliceLessEq(a, c)
  {
    if a != b && b != c {
      SliceLessTotal(a, b);
      SliceLessTotal(b, c);
      SliceLessTransitive(a, b, c);
      SliceLessAsymmetric(a, c);
    }
  }

  lemma LessEqLessTransitive(a: seq<Item>, b: seq<Item>, c: seq<Item>)
    requires SliceLessEq(a, b) && SliceLess(b, c)
    ensures SliceLess(a, c)
  {
    if a == b {
    } else {
      SliceLessTotal(a, b);
      SliceLessTransitive(a, b, c);
    }
  }

  lemma LessLessEqTransitive(a: seq<Item>, b: seq<Item>, c: seq<Item>)
    requires SliceLess(a, b) && SliceLessEq(b, c)
    ensures SliceLess(a, c)
  {
    if b != c {
      SliceLessTotal(b, c);
      SliceLessTransitive(a, b, c);
    }
  }

  lemma LessEqAndDistinctIsLess(a: seq<Item>, b: seq<Item>)
    requires SliceLessEq(a, b) && a != b
    ensures SliceLess(a, b)
  {
    SliceLessTotal(a, b);
  }

  /** Every earlier element is at most every later one under `key`. */
  ghost predicate SortedBy<T>(s: seq<T>, key: T -> seq<Item>) {
    forall i, j :: 0 <= i < j < |s| ==> SliceLessEq(key(s[i]), key(s[j]))
  }

  ghost predicate AdjacentSortedBy<T>(s: seq<T>, key: T -> seq<Item>) {
    forall i :: 0 <= i < |s| - 1 ==> SliceLessEq(key(s[i]), key(s[i + 1]))
  }

  lemma {:induction false} AdjacentSortedIsSorted<T>(s: seq<T>, key: T -> seq<Item>)
    requires AdjacentSortedBy(s, key)
    ensures SortedBy(s, key)
  {
    if |s| > 1 {
      var t := s[..|s| - 1];
      assert AdjacentSortedBy(t, key) by {
        forall i | 0 <= i < |t| - 1 ensures SliceLessEq(key(t[i]), key(t[i + 1])) {
          assert t[i] == s[i] && t[i + 1] == s[i + 1];
        }
      }
      AdjacentSortedIsSorted(t, key);
      forall i, j | 0 <= i < j < |s| ensures SliceLessEq(key(s[i]), key(s[j])) {
        if j < |s| - 1 {
          assert s[i] == t[i] && s[j] == t[j];
        } else if i < j - 1 {
          assert s[i] == t[i] && s[j - 1] == t[j - 1];
          LessEqTransitive(key(s[i]), key(s[j - 1]), key(s[j]));
        }
      }
    }
  }

  /** The state of one insertion pass: `r[..i + 1]` is sorted except that
      the element at `j` is still moving left. */
  ghost predicate SiftInvariant<T>(r: seq<T>, i: nat, j: nat, key: T -> seq<Item>) {
    && j <= i < |r|
    && (forall t :: 0 <= t < i && t != j - 1 && t != j ==> SliceLessEq(key(r[t]), key(r[t + 1])))
    && (0 < j < i ==> SliceLessEq(key(r[j - 1]), key(r[j + 1])))
    && (j < i ==> SliceLessEq(key(r[j]), key(r[j + 1])))
  }

  lemma SiftStart<T>(r: seq<T>, i: nat, key: T -> seq<Item>)
    requires i < |r| && AdjacentSortedBy(r[..i], key)
    ensures SiftInvariant(r, i, i, key)
  {
    forall t | 0 <= t < i && t != i - 1 && t != i ensures SliceLessEq(key(r[t]), key(r[t + 1])) {
      assert r[t] == r[..i][t] && r[t + 1] == r[..i][t + 1];
    }
  }

  lemma SiftSwap<T>(r: seq<T>, i: nat, j: nat, key: T -> seq<Item>)
    requires SiftInvariant(r, i, j, key) && 0 < j
    requires SliceLess(key(r[j]), key(r[j - 1]))
    ensures SiftInvariant(r[j - 1 := r[j]][j := r[j - 1]], i, j - 1, key)
    ensures multiset(r[j - 1 := r[j]][j := r[j - 1]]) == multiset(r)
  {
    SiftSwapKeepsOrder(r, i, j, key);
    SwapMultiset(r, j - 1, j);
  }

  lemma SiftSwapKeepsOrder<T>(r: seq<T>, i: nat, j: nat, key: T -> seq<Item>)
    requires SiftInvariant(r, i, j, key) && 0 < j
    requires SliceLess(key(r[j]), key(r[j - 1]))
    ensures SiftInvariant(r[j - 1 := r[j]][j := r[j - 1]], i, j - 1, key)
  {
    var r' := r[j - 1 := r[j]][j := r[j - 1]];
    assert |r'| == |r| && r'[j - 1] == r[j] && r'[j] == r[j - 1];
    SliceLessAsymmetric(key(r[j]), key(r[j - 1]));
    forall t | 0 <= t < i && t != j - 2 && t != j - 1 ensures SliceLessEq(key(r'[t]), key(r'[t + 1])) {
      if t == j {
        assert r'[t] == r[j - 1] && r'[t + 1] == r[j + 1];
      } else {
        assert r'[t] == r[t] && r'[t + 1] == r[t + 1];
      }
    }
  }

  lemma SwapMultiset<T>(r: seq<T>, a: nat, b: nat)
    requires a < b < |r|
    ensures multiset(r[a := r[b]][b := r[a]]) == multiset(r)
  {
  }

  lemma SiftDone<T>(r: seq<T>, i: nat, j: nat, key: T -> seq<Item>)
    requires SiftInvariant(r, i, j, key)
    requires j == 0 || !SliceLess(key(r[j]), key(r[j - 1]))
    ensures AdjacentSortedBy(r[..i + 1], key)
  {
    var p := r[..i + 1];
    forall t | 0 <= t < |p| - 1 ensures SliceLessEq(key(p[t]), key(p[t + 1])) {
      assert p[t] == r[t] && p[t + 1] == r[t + 1];
    }
  }

  /** Stable insertion sort by adjacent swaps: a sorted permutation of `s`. */
  method SortBy<T>(s: seq<T>, key: T -> seq<Item>) returns (r: seq<T>)
    ensures multiset(r) == multiset(s)
    ensures SortedBy(r, key)
  {
    r := s;
    if |r| == 0 {
      return;
    }
    var i := 1;
    while i < |r|
      invariant 1 <= i <= |r| == |s|
      invariant multiset(r) == multiset(s)
      invariant AdjacentSortedBy(r[..i], key)
    {
      SiftStart(r, i, key);
      var j := i;
      while j > 0
        invariant |r| == |s| && multiset(r) == multiset(s)
        invariant SiftInvariant(r, i, j, key)
      {
        var less := ItemSliceLess(key(r[j]), key(r[j - 1]));
        if !less {
          break;
        }
        SiftSwap(r, i, j, key);
        r := r[j - 1 := r[j]][j := r[j - 1]];
        j := j - 1;
      }
      SiftDone(r, i, j, key);
      i := i + 1;
    }
    assert r[..i] == r;
    AdjacentSortedIsSorted(r, key);
  }
}
