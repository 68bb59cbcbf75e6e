/** The build-once itemset support index of rules.go (`itemsetSupportLookup`,
    `createSupportLookup`): (itemset, support) pairs sorted by the canonical
    itemset order and searched by bisection. */
module SupportLookup {
  import opened Wrappers
  import opened Items
  import opened ItemOrder

  /** A mined itemset and the number of transactions that contain it. */
  datatype ItemsetWithCount = ItemsetWithCount(itemset: seq<Item>, count: int)

  /** An index entry: an itemset and its support as an exact fraction. */
  datatype ItemsetWithSupport = ItemsetWithSupport(itemset: seq<Item>, support: real)

  /** The sort key of an entry. */
  function ItemsetOf(e: ItemsetWithSupport): seq<Item> {
    e.itemset
  }

  /** Why a lookup fails: the bisection ran past the end (Go indexes out of
      range), or it stopped at an entry holding a different itemset (Go's
      explicit panic). */
  datatype LookupError = IndexOutOfRange | NotFound

  /** How a lookup of an absent itemset fails: past the end when every
      entry is below it, at an entry holding another itemset otherwise. */
  ghost function MissError(entries: seq<ItemsetWithSupport>, itemset: seq<Item>): LookupError {
    if forall t :: 0 <= t < |entries| ==> SliceLess(entries[t].itemset, itemset) then IndexOutOfRange else NotFound
  }

  /** Reference definition of a lookup: the support stored with the first
      entry whose itemset is exactly `itemset`. */
  function SupportOf(entries: seq<ItemsetWithSupport>, itemset: seq<Item>): (r: Option<real>)
    ensures r.Some? <==> exists i :: 0 <= i < |entries| && entries[i].itemset == itemset
    ensures r.Some? ==> exists i :: 0 <= i < |entries| && entries[i] == ItemsetWithSupport(itemset, r.value)
  {
    if entries == [] then None
    else if entries[0].itemset == itemset then Some(entries[0].support)
    else
      var r := SupportOf(entries[1..], itemset);
      assert forall i :: 1 <= i < |entries| ==> entries[i] == entries[1..][i - 1];
      r
  }

  lemma {:induction false} SupportOfFirstMatch(entries: seq<ItemsetWithSupport>, itemset: seq<Item>, k: nat)
    requires k < |entries| && entries[k].itemset == itemset
    requires forall t :: 0 <= t < k ==> entries[t].itemset != itemset
    ensures SupportOf(entries, itemset) == Some(entries[k].support)
  {
    if k > 0 {
      SupportOfFirstMatch(entries[1..], itemset, k - 1);
    }
  }

  /** The entries `createSupportLookup` inserts: one per mined itemset, in
      input order, with support `count / numTransactions`. */
  function Supports(itemsets: seq<ItemsetWithCount>, numTransactions: int): (r: seq<ItemsetWithSupport>)
    requires numTransactions > 0
    ensures |r| == |itemsets|
    ensures forall i :: 0 <= i < |r| ==>
      r[i].itemset == itemsets[i].itemset && r[i].support == itemsets[i].count as real / numTransactions as real
  {
    seq(|itemsets|, i requires 0 <= i < |itemsets| =>
      ItemsetWithSupport(itemsets[i].itemset, itemsets[i].count as real / numTransactions as real))
  }

  /** The index: a slice of entries, appended to while building, then sorted. */
  class ItemsetSupportLookup {
    var itemsets: seq<ItemsetWithSupport>

    /** `newItemsetSupportLookup`. */
    constructor ()
      ensures itemsets == []
    {
      itemsets := [];
    }

    method Insert(itemset: seq<Item>, support: real)
      modifies this
      ensures itemsets == old(itemsets) + [ItemsetWithSupport(itemset, support)]
    {
      itemsets := itemsets + [ItemsetWithSupport(itemset, support)];
    }

    /** `sort.Sort` with `Less` = `itemSliceLess` on the itemsets. */
    method Sort()
      modifies this
      ensures multiset(itemsets) == multiset(old(itemsets))
      ensures SortedBy(itemsets, ItemsetOf)
    {
      itemsets := SortBy(itemsets, ItemsetOf);
    }

    /** Bisection for the first entry not below `itemset` (`sort.Search`),
        then an exact-match check. */
    method Lookup(itemset: seq<Item>) returns (r: Result<real, LookupError>)
      requires SortedBy(itemsets, ItemsetOf)
      ensures r.Success? <==> SupportOf(itemsets, itemset).Some?
      ensures r.Success? ==> r.value == SupportOf(itemsets, itemset).value
      ensures r == Failure(IndexOutOfRange) <==>
        forall t :: 0 <= t < |itemsets| ==> SliceLess(itemsets[t].itemset, itemset)
      ensures r.Failure? ==> r.error == MissError(itemsets, itemset)
    {
      var lo, hi := 0, |itemsets|;
      while lo < hi
        invariant 0 <= lo <= hi <= |itemsets|
        invariant forall t :: 0 <= t < lo ==> SliceLess(itemsets[t].itemset, itemset)
        invariant forall t :: hi <= t < |itemsets| ==> !SliceLess(itemsets[t].itemset, itemset)
      {
        var h := (lo + hi) / 2;
        var below := ItemSliceLess(itemsets[h].itemset, itemset);
        if below {
          forall t | lo <= t <= h ensures SliceLess(itemsets[t].itemset, itemset) {
            if t < h {
              assert SliceLessEq(ItemsetOf(itemsets[t]), ItemsetOf(itemsets[h]));
              LessEqLessTransitive(itemsets[t].itemset, itemsets[h].itemset, itemset);
            }
          }
          lo := h + 1;
        } else {
          forall t | h <= t < hi ensures !SliceLess(itemsets[t].itemset, itemset) {
            if h < t {
              assert SliceLessEq(ItemsetOf(itemsets[h]), ItemsetOf(itemsets[t]));
              LessEqTransitive(itemset, itemsets[h].itemset, itemsets[t].itemset);
            }
          }
          hi := h;
        }
      }
      forall t | 0 <= t < lo ensures itemsets[t].itemset != itemset {
        SliceLessIrreflexive(itemset);
      }
      if lo == |itemsets| {
        return Failure(IndexOutOfRange);
      }
      if itemsets[lo].itemset != itemset {
        LessEqAndDistinctIsLess(itemset, itemsets[lo].itemset);
        forall t | lo <= t < |itemsets| ensures itemsets[t].itemset != itemset {
          if lo < t {
            assert SliceLessEq(ItemsetOf(itemsets[lo]), ItemsetOf(itemsets[t]));
            LessLessEqTransitive(itemset, itemsets[lo].itemset, itemsets[t].itemset);
          }
          SliceLessIrreflexive(itemset);
        }
        return Failure(NotFound);
      }
      SupportOfFirstMatch(itemsets, itemset, lo);
      return Success(itemsets[lo].support);
    }
  }

  /** `createSupportLookup`: one entry per mined itemset, then sorted. */
  method CreateSupportLookup(itemsets: seq<ItemsetWithCount>, numTransactions: int)
    returns (isl: ItemsetSupportLookup)
    requires numTransactions > 0
    ensures fresh(isl)
    ensures multiset(isl.itemsets) == multiset(Supports(itemsets, numTransactions))
    ensures SortedBy(isl.itemsets, ItemsetOf)
  {
    isl := new ItemsetSupportLookup();
    var f := numTransactions as real;
    var i := 0;
    while i < |itemsets|
      invariant 0 <= i <= |itemsets|
      invariant isl.itemsets == Supports(itemsets[..i], numTransactions)
    {
      isl.Insert(itemsets[i].itemset, itemsets[i].count as real / f);
      i := i + 1;
    }
    assert itemsets[..i] == itemsets;
    isl.Sort();
  }

  /** Every mined itemset can be looked up after the build, and the support
      found is `count / numTransactions` of an input entry with that itemset;
      when the input holds each itemset once, it is that itemset's own. */
  lemma LookupFindsEveryInput(entries: seq<ItemsetWithSupport>, itemsets: seq<ItemsetWithCount>,
                              numTransactions: int, i: nat)
    requires numTransactions > 0 && i < |itemsets|
    requires multiset(entries) == multiset(Supports(itemsets, numTransactions))
    ensures SupportOf(entries, itemsets[i].itemset).Some?
    ensures exists j :: 0 <= j < |itemsets| && itemsets[j].itemset == itemsets[i].itemset &&
                        SupportOf(entries, itemsets[i].itemset).value == itemsets[j].count as real / numTransactions as real
    ensures (forall j :: 0 <= j < |itemsets| && j != i ==> itemsets[j].itemset != itemsets[i].itemset) ==>
      SupportOf(entries, itemsets[i].itemset).value == itemsets[i].count as real / numTransactions as real
  {
    var all := Supports(itemsets, numTransactions);
    assert all[i] in multiset(entries);
    var key := itemsets[i].itemset;
    var v := SupportOf(entries, key).value;
    var t :| 0 <= t < |entries| && entries[t] == ItemsetWithSupport(key, v);
    assert entries[t] in multiset(all);
    var j :| 0 <= j < |all| && all[j] == entries[t];
  }
}
