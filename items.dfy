/** Items and canonical itemsets.

    An itemset is handled in its canonical form: a strictly ascending
    sequence of item identifiers. The set helpers `union`, `setMinus` and
    `intersectionSize` that the rule generator calls live outside the
    modelled files; here they are merge and filter recursions whose
    contracts give their set meaning. */
module Items {

  /** An item identifier; the miner orders items by numeric value. */
  type Item = int

  /** Canonical form: strictly ascending, hence without duplicates. */
  predicate Ascending(s: seq<Item>) {
    forall i, j :: 0 <= i < j < |s| ==> s[i] < s[j]
  }

  function Elems(s: seq<Item>): set<Item> {
    set x | x in s
  }

  lemma AscendingTail(s: seq<Item>)
    requires Ascending(s) && s != []
    ensures Ascending(s[1..])
    ensures forall y :: y in Elems(s[1..]) ==> s[0] < y
    ensures Elems(s) == {s[0]} + Elems(s[1..])
  {
    assert s == [s[0]] + s[1..];
  }

  lemma AscendingCons(x: Item, t: seq<Item>)
    requires Ascending(t)
    requires forall y :: y in Elems(t) ==> x < y
    ensures Ascending([x] + t)
    ensures Elems([x] + t) == {x} + Elems(t)
  {
    forall i, j | 0 <= i < j < |[x] + t| ensures ([x] + t)[i] < ([x] + t)[j] {
      if i == 0 {
        assert t[j - 1] in Elems(t);
      }
    }
  }

  /** A canonical itemset has as many distinct items as it has positions. */
  lemma {:induction false} AscendingCard(s: seq<Item>)
    requires Ascending(s)
    ensures |Elems(s)| == |s|
  {
    if s != [] {
      AscendingTail(s);
      AscendingCard(s[1..]);
    }
  }

  /** The head of a canonical itemset is its least item. */
  lemma HeadIsLeast(s: seq<Item>, x: Item)
    requires Ascending(s) && x in Elems(s)
    ensures s[0] <= x
  {
    var k :| 0 <= k < |s| && s[k] == x;
  }

  lemma NoElemsIsEmpty(s: seq<Item>)
    ensures Elems(s) == {} ==> s == []
  {
    if s != [] {
      assert s[0] in Elems(s);
    }
  }

  /** Two canonical itemsets with the same items are the same sequence. */
  lemma {:induction false} AscendingUnique(a: seq<Item>, b: seq<Item>)
    requires Ascending(a) && Ascending(b) && Elems(a) == Elems(b)
    ensures a == b
    decreases |a|
  {
    if a == [] {
      NoElemsIsEmpty(b);
    } else {
      assert a[0] in Elems(a);
      assert b != [];
      assert b[0] in Elems(b);
      HeadIsLeast(a, b[0]);
      HeadIsLeast(b, a[0]);
      AscendingTail(a);
      AscendingTail(b);
      var ta, tb := Elems(a[1..]), Elems(b[1..]);
      assert a[0] !in ta && b[0] !in tb;
      assert ta == Elems(a) - {a[0]};
      assert tb == Elems(b) - {b[0]};
      AscendingUnique(a[1..], b[1..]);
      assert a == [a[0]] + a[1..];
      assert b == [b[0]] + b[1..];
    }
  }

  /** The repository's `union`: a merge of two sorted itemsets;
      `UnionMeaning` gives its set meaning on canonical itemsets. */
  function Union(a: seq<Item>, b: seq<Item>): seq<Item>
    decreases |a| + |b|
  {
    if a == [] then b
    else if b == [] then a
    else if a[0] < b[0] then [a[0]] + Union(a[1..], b)
    else if b[0] < a[0] then [b[0]] + Union(a, b[1..])
    else [a[0]] + Union(a[1..], b[1..])
  }

  /** The merge of two canonical itemsets is the canonical form of their union. */
  lemma {:induction false} UnionMeaning(a: seq<Item>, b: seq<Item>)
    requires Ascending(a) && Ascending(b)
    ensures Ascending(Union(a, b))
    ensures Elems(Union(a, b)) == Elems(a) + Elems(b)
    decreases |a| + |b|
  {
    if a == [] {
      assert Elems(a) == {};
    } else if b == [] {
      assert Elems(b) == {};
    } else {
      AscendingTail(a);
      AscendingTail(b);
      if a[0] < b[0] {
        UnionMeaning(a[1..], b);
        MergeStep(a[0], Union(a[1..], b), a, a[1..], b);
      } else if b[0] < a[0] {
        UnionMeaning(a, b[1..]);
        MergeStep(b[0], Union(a, b[1..]), b, b[1..], a);
        assert Elems(a) + Elems(b) == Elems(b) + Elems(a);
      } else {
        UnionMeaning(a[1..], b[1..]);
        MergeStep(a[0], Union(a[1..], b[1..]), a, a[1..], b[1..]);
        assert Elems(b) == {a[0]} + Elems(b[1..]);
      }
    }
  }

  /** One merge step: the least item `x`, taken from `s`, in front of the
      merge `rest` of the remainder of `s` with `other`. */
  lemma MergeStep(x: Item, rest: seq<Item>, s: seq<Item>, tail: seq<Item>, other: seq<Item>)
    requires Ascending(rest) && Elems(rest) == Elems(tail) + Elems(other)
    requires Elems(s) == {x} + Elems(tail)
    requires forall y :: y in Elems(tail) ==> x < y
    requires Ascending(other) && (other != [] ==> x < other[0])
    ensures Ascending([x] + rest)
    ensures Elems([x] + rest) == Elems(s) + Elems(other)
  {
    forall y | y in Elems(rest) ensures x < y {
      if y in Elems(other) {
        HeadIsLeast(other, y);
      }
    }
    AscendingCons(x, rest);
  }

  /** The repository's `setMinus`: the items of `a`, in order, that `b`
      lacks; `SetMinusMeaning` gives its set meaning. */
  function SetMinus(a: seq<Item>, b: seq<Item>): seq<Item> {
    if a == [] then []
    else if a[0] in b then SetMinus(a[1..], b)
    else [a[0]] + SetMinus(a[1..], b)
  }

  /** Removing items from a canonical itemset leaves the canonical form of
      the set difference. */
  lemma {:induction false} SetMinusMeaning(a: seq<Item>, b: seq<Item>)
    requires Ascending(a)
    ensures Ascending(SetMinus(a, b))
    ensures Elems(SetMinus(a, b)) == Elems(a) - Elems(b)
  {
    if a == [] {
      assert Elems(a) == {};
    } else {
      AscendingTail(a);
      SetMinusMeaning(a[1..], b);
      if a[0] !in b {
        AscendingCons(a[0], SetMinus(a[1..], b));
      }
    }
  }

  /** The repository's `intersectionSize`: the positions of `a` whose item
      `b` also holds; `IntersectionSizeCounts` gives its set meaning. */
  function IntersectionSize(a: seq<Item>, b: seq<Item>): nat {
    if a == [] then 0
    else (if a[0] in b then 1 else 0) + IntersectionSize(a[1..], b)
  }

  /** On a canonical itemset, `intersectionSize` is the number of items the
      two itemsets share. */
  lemma {:induction false} IntersectionSizeCounts(a: seq<Item>, b: seq<Item>)
    requires Ascending(a)
    ensures IntersectionSize(a, b) == |Elems(a) * Elems(b)|
  {
    if a == [] {
      assert Elems(a) * Elems(b) == {};
    } else {
      IntersectionStep(a, b);
      IntersectionSizeCounts(a[1..], b);
    }
  }

  /** The shared items: the head, if `b` has it, and those shared by the tail. */
  lemma IntersectionStep(a: seq<Item>, b: seq<Item>)
    requires Ascending(a) && a != []
    ensures Ascending(a[1..])
    ensures |Elems(a) * Elems(b)| == (if a[0] in b then 1 else 0) + |Elems(a[1..]) * Elems(b)|
  {
    AscendingTail(a);
    var all, tail, other := Elems(a), Elems(a[1..]), Elems(b);
    assert all == {a[0]} + tail && a[0] !in tail;
    if a[0] in b {
      assert a[0] in other;
      assert all * other == {a[0]} + tail * other;
      assert {a[0]} * (tail * other) == {};
    } else {
      assert a[0] !in other;
      assert all * other == tail * other;
    }
  }
}
