/** The item dictionary and the growable count array of
    fpgrowth/itemizer.go (`Itemizer`, `itemCount`).

    Tokens are `seq<char>` over Unicode scalar values. `strings.TrimSpace`
    is modelled on scalar values with the white-space set of Go's
    `unicode.IsSpace`. */
module ItemDictionary {
  import opened Items

  // ---------------------------------------------------------------------
  // strings.TrimSpace
  // ---------------------------------------------------------------------

  /** Go's `unicode.IsSpace`: the ASCII spaces, U+0085, U+00A0 and the
      Unicode space separators, line and paragraph separators. */
  predicate IsSpace(ch: char) {
    || ch == '\t' || ch == '\n' || ch == '\U{000B}' || ch == '\U{000C}' || ch == '\r' || ch == ' '
    || ch == '\U{0085}' || ch == '\U{00A0}' || ch == '\U{1680}'
    || ('\U{2000}' <= ch <= '\U{200A}')
    || ch == '\U{2028}' || ch == '\U{2029}' || ch == '\U{202F}' || ch == '\U{205F}' || ch == '\U{3000}'
  }

  /** The end of the run of white space that starts at `i`. */
  function SpaceRunEnd(s: string, i: nat): (n: nat)
    requires i <= |s|
    ensures i <= n <= |s|
    ensures forall k :: i <= k < n ==> IsSpace(s[k])
    ensures n < |s| ==> !IsSpace(s[n])
    decreases |s| - i
  {
    if i < |s| && IsSpace(s[i]) then SpaceRunEnd(s, i + 1) else i
  }

  /** The start of the run of white space that ends at `j`, not going
      below `lo`. */
  function SpaceRunStart(s: string, lo: nat, j: nat): (n: nat)
    requires lo <= j <= |s|
    ensures lo <= n <= j
    ensures forall k :: n <= k < j ==> IsSpace(s[k])
    ensures lo < n ==> !IsSpace(s[n - 1])
    decreases j
  {
    if lo < j && IsSpace(s[j - 1]) then SpaceRunStart(s, lo, j - 1) else j
  }

  /** Neither starts nor ends with white space. */
  predicate Trimmed(s: string) {
    s == [] || (!IsSpace(s[0]) && !IsSpace(s[|s| - 1]))
  }

  /** How many leading white-space characters `strings.TrimSpace` drops. */
  function LeadingSpaces(s: string): nat
    ensures LeadingSpaces(s) <= |s|
  {
    SpaceRunEnd(s, 0)
  }

  /** `strings.TrimSpace`: the middle of `s`, trimmed, between a leading and
      a trailing run of white space. */
  function Trim(s: string): (r: string)
    ensures Trimmed(r)
    ensures LeadingSpaces(s) + |r| <= |s| && r == s[LeadingSpaces(s)..LeadingSpaces(s) + |r|]
    ensures forall k :: 0 <= k < LeadingSpaces(s) ==> IsSpace(s[k])
    ensures forall k :: LeadingSpaces(s) + |r| <= k < |s| ==> IsSpace(s[k])
  {
    var i := SpaceRunEnd(s, 0);
    var j := SpaceRunStart(s, i, |s|);
    s[i..j]
  }

  /** A trimmed string is its own trim. */
  lemma TrimOfTrimmed(s: string)
    requires Trimmed(s)
    ensures Trim(s) == s
  {
    assert SpaceRunEnd(s, 0) == 0;
    assert SpaceRunStart(s, 0, |s|) == |s|;
    assert s[0..|s|] == s;
  }

  /** Trimming is idempotent. */
  lemma TrimIdempotent(s: string)
    ensures Trim(Trim(s)) == Trim(s)
  {
    TrimOfTrimmed(Trim(s));
  }

  // ---------------------------------------------------------------------
  // The dictionary as a value, and what `forEachItem` does to it.
  // ---------------------------------------------------------------------

  /** The state of an `Itemizer`. */
  datatype Dictionary = Dictionary(strToItem: map<string, Item>, itemToStr: map<Item, string>, numItems: int)

  /** The two maps are mutual inverses, the issued items are exactly
      1..numItems, and every stored token is non-empty and trimmed. */
  ghost predicate Consistent(d: Dictionary) {
    && d.numItems >= 0
    && (forall i :: i in d.itemToStr <==> 1 <= i <= d.numItems)
    && (forall t :: t in d.strToItem ==> d.strToItem[t] in d.itemToStr && d.itemToStr[d.strToItem[t]] == t)
    && (forall i :: i in d.itemToStr ==> d.itemToStr[i] in d.strToItem && d.strToItem[d.itemToStr[i]] == i)
    && (forall t :: t in d.strToItem ==> t != [] && Trimmed(t))
  }

  lemma ConsistentInverse(d: Dictionary, i: Item)
    requires Consistent(d) && i in d.itemToStr
    ensures d.itemToStr[i] in d.strToItem && d.strToItem[d.itemToStr[i]] == i
  {
  }

  /** `newItemizer`'s state. */
  function EmptyDictionary(): (d: Dictionary)
    ensures Consistent(d)
  {
    Dictionary(map[], map[], 0)
  }

  /** One token through `forEachItem`: trimmed, skipped when empty,
      otherwise looked up or issued the next item; the items handed to the
      callback. */
  function Learn(d: Dictionary, token: string): (Dictionary, seq<Item>) {
    var val := Trim(token);
    if |val| == 0 then (d, [])
    else if val in d.strToItem then (d, [d.strToItem[val]])
    else
      var id := d.numItems + 1;
      (Dictionary(d.strToItem[val := id], d.itemToStr[id := val], id), [id])
  }

  /** `forEachItem` over a token list: the final state and the items handed
      to the callback, in order. */
  function LearnAll(d: Dictionary, tokens: seq<string>): (Dictionary, seq<Item>)
    decreases |tokens|
  {
    if tokens == [] then (d, [])
    else
      var (d1, e1) := LearnAll(d, tokens[..|tokens| - 1]);
      var (d2, e2) := Learn(d1, tokens[|tokens| - 1]);
      (d2, e1 + e2)
  }

  /** The three cases of one step, with the trimmed token named. */
  lemma LearnCases(d: Dictionary, token: string, val: string)
    requires val == Trim(token)
    ensures val == [] ==> Learn(d, token) == (d, [])
    ensures val != [] && val in d.strToItem ==> Learn(d, token) == (d, [d.strToItem[val]])
    ensures val != [] && val !in d.strToItem ==>
      Learn(d, token) == (Dictionary(d.strToItem[val := d.numItems + 1], d.itemToStr[d.numItems + 1 := val], d.numItems + 1),
                          [d.numItems + 1])
  {
  }

  /** One more token: the run over the first i + 1 tokens is the run over
      the first i followed by one step. */
  lemma LearnAllSnoc(d: Dictionary, tokens: seq<string>, i: nat)
    requires i < |tokens|
    ensures LearnAll(d, tokens[..i + 1]) ==
      (Learn(LearnAll(d, tokens[..i]).0, tokens[i]).0,
       LearnAll(d, tokens[..i]).1 + Learn(LearnAll(d, tokens[..i]).0, tokens[i]).1)
  {
    assert tokens[..i + 1][..i] == tokens[..i];
  }

  /** The non-empty trimmed tokens, in order: what gets an item. */
  function Kept(tokens: seq<string>): (r: seq<string>)
    ensures |r| <= |tokens|
    decreases |tokens|
  {
    if tokens == [] then []
    else
      var val := Trim(tokens[|tokens| - 1]);
      Kept(tokens[..|tokens| - 1]) + (if |val| == 0 then [] else [val])
  }

  /** The dictionary only grows: every mapping is kept and the counter
      never decreases. */
  ghost predicate Extends(d': Dictionary, d: Dictionary) {
    && d'.numItems >= d.numItems
    && (forall t :: t in d.strToItem ==> t in d'.strToItem && d'.strToItem[t] == d.strToItem[t])
    && (forall i :: i in d.itemToStr ==> i in d'.itemToStr && d'.itemToStr[i] == d.itemToStr[i])
  }

  /** One token: a known token reuses its item and changes nothing; a new
      one is given numItems + 1, an item not issued before, and numItems
      grows by one; an empty token is skipped. Consistency is kept. */
  lemma LearnOne(d: Dictionary, token: string)
    requires Consistent(d)
    ensures Consistent(Learn(d, token).0) && Extends(Learn(d, token).0, d)
    ensures Trim(token) == [] ==> Learn(d, token) == (d, [])
    ensures Trim(token) != [] && Trim(token) in d.strToItem ==>
      Learn(d, token).0 == d && Learn(d, token).1 == [d.strToItem[Trim(token)]]
    ensures Trim(token) != [] && Trim(token) !in d.strToItem ==>
      && d.numItems + 1 !in d.itemToStr
      && Learn(d, token).1 == [d.numItems + 1]
      && Learn(d, token).0.numItems == d.numItems + 1
    ensures Trim(token) != [] ==>
      && |Learn(d, token).1| == 1 && Learn(d, token).1[0] in Learn(d, token).0.itemToStr
      && Learn(d, token).0.itemToStr[Learn(d, token).1[0]] == Trim(token)
  {
    var val := Trim(token);
    LearnCases(d, token, val);
    if val != [] && val !in d.strToItem {
      AddTokenConsistent(d, val);
    }
  }

  /** Recording a new non-empty trimmed token under numItems + 1 keeps the
      dictionary consistent and only adds to it. */
  lemma AddTokenConsistent(d: Dictionary, val: string)
    requires Consistent(d) && val != [] && Trimmed(val) && val !in d.strToItem
    ensures d.numItems + 1 !in d.itemToStr
    ensures Consistent(Dictionary(d.strToItem[val := d.numItems + 1], d.itemToStr[d.numItems + 1 := val], d.numItems + 1))
    ensures Extends(Dictionary(d.strToItem[val := d.numItems + 1], d.itemToStr[d.numItems + 1 := val], d.numItems + 1), d)
  {
    var id := d.numItems + 1;
    var d' := Dictionary(d.strToItem[val := id], d.itemToStr[id := val], id);
    assert id !in d.itemToStr;
    forall t | t in d'.strToItem ensures d'.strToItem[t] in d'.itemToStr && d'.itemToStr[d'.strToItem[t]] == t {
      if t != val {
        assert d'.strToItem[t] == d.strToItem[t] != id;
      }
    }
    forall i | i in d'.itemToStr ensures d'.itemToStr[i] in d'.strToItem && d'.strToItem[d'.itemToStr[i]] == i {
      if i != id {
        assert d'.itemToStr[i] == d.itemToStr[i] != val;
      }
    }
  }

  /** The items `items` stand, position by position, for the tokens `kept`. */
  ghost predicate StandFor(d: Dictionary, items: seq<Item>, kept: seq<string>) {
    |items| == |kept| && forall k :: 0 <= k < |items| ==> items[k] in d.itemToStr && d.itemToStr[items[k]] == kept[k]
  }

  lemma ExtendsTransitive(d3: Dictionary, d2: Dictionary, d1: Dictionary)
    requires Extends(d3, d2) && Extends(d2, d1)
    ensures Extends(d3, d1)
  {
  }

  /** Items issued earlier keep standing for their tokens as the dictionary
      grows, next to the items issued since. */
  lemma StandForAppend(d1: Dictionary, d2: Dictionary, e1: seq<Item>, e2: seq<Item>, k1: seq<string>, k2: seq<string>)
    requires StandFor(d1, e1, k1) && Extends(d2, d1) && StandFor(d2, e2, k2)
    ensures StandFor(d2, e1 + e2, k1 + k2)
  {
    forall k | 0 <= k < |e1 + e2| ensures (e1 + e2)[k] in d2.itemToStr && d2.itemToStr[(e1 + e2)[k]] == (k1 + k2)[k] {
      if k < |e1| {
        assert (e1 + e2)[k] == e1[k] && (k1 + k2)[k] == k1[k];
      } else {
        assert (e1 + e2)[k] == e2[k - |e1|] && (k1 + k2)[k] == k2[k - |e1|];
      }
    }
  }

  /** A token list: consistency is kept, the dictionary only grows, and the
      callback receives one item per non-empty trimmed token, in order,
      each mapping back to its token. */
  lemma {:induction false} LearnAllMeaning(d: Dictionary, tokens: seq<string>)
    requires Consistent(d)
    ensures Consistent(LearnAll(d, tokens).0) && Extends(LearnAll(d, tokens).0, d)
    ensures StandFor(LearnAll(d, tokens).0, LearnAll(d, tokens).1, Kept(tokens))
    decreases |tokens|
  {
    if tokens != [] {
      var init, last := tokens[..|tokens| - 1], tokens[|tokens| - 1];
      var val := Trim(last);
      var extra := if |val| == 0 then [] else [val];
      assert Kept(tokens) == Kept(init) + extra;
      LearnAllMeaning(d, init);
      var (d1, e1) := LearnAll(d, init);
      LearnOne(d1, last);
      var (d2, e2) := Learn(d1, last);
      assert LearnAll(d, tokens) == (d2, e1 + e2);
      assert StandFor(d2, e2, extra);
      ExtendsTransitive(d2, d1, d);
      StandForAppend(d1, d2, e1, e2, Kept(init), extra);
    }
  }

  /** `Itemize` hands back at most one item per input token. */
  lemma LearnAllLength(d: Dictionary, tokens: seq<string>)
    requires Consistent(d)
    ensures |LearnAll(d, tokens).1| <= |tokens|
  {
    LearnAllMeaning(d, tokens);
  }

  /** The items `items` are, position by position, the stored items of the
      tokens `kept`. */
  ghost predicate Answers(d: Dictionary, items: seq<Item>, kept: seq<string>) {
    |items| == |kept| && forall k :: 0 <= k < |kept| ==> kept[k] in d.strToItem && items[k] == d.strToItem[kept[k]]
  }

  lemma AnswersAppend(d: Dictionary, e1: seq<Item>, e2: seq<Item>, k1: seq<string>, k2: seq<string>)
    requires Answers(d, e1, k1) && Answers(d, e2, k2)
    ensures Answers(d, e1 + e2, k1 + k2)
  {
    forall k | 0 <= k < |k1 + k2| ensures (k1 + k2)[k] in d.strToItem && (e1 + e2)[k] == d.strToItem[(k1 + k2)[k]] {
      if k < |k1| {
        assert (e1 + e2)[k] == e1[k] && (k1 + k2)[k] == k1[k];
      } else {
        assert (e1 + e2)[k] == e2[k - |k1|] && (k1 + k2)[k] == k2[k - |k1|];
      }
    }
  }

  /** Tokens the dictionary already knows leave it unchanged, and each is
      answered with its stored item. */
  lemma {:induction false} LearnAllKnown(d: Dictionary, tokens: seq<string>)
    requires Consistent(d)
    requires forall t :: t in Kept(tokens) ==> t in d.strToItem
    ensures LearnAll(d, tokens).0 == d
    ensures Answers(d, LearnAll(d, tokens).1, Kept(tokens))
    decreases |tokens|
  {
    if tokens != [] {
      var init, last := tokens[..|tokens| - 1], tokens[|tokens| - 1];
      var val := Trim(last);
      var extra := if |val| == 0 then [] else [val];
      assert Kept(tokens) == Kept(init) + extra;
      assert forall t :: t in extra ==> t in Kept(tokens);
      LearnAllKnown(d, init);
      var e1 := LearnAll(d, init).1;
      LearnCases(d, last, val);
      var e2 := Learn(d, last).1;
      assert Learn(d, last).0 == d && Answers(d, e2, extra);
      assert LearnAll(d, tokens) == (d, e1 + e2);
      AnswersAppend(d, e1, e2, Kept(init), extra);
    }
  }

  /** Itemizing the same tokens again gives the same items and leaves the
      dictionary as it is. */
  lemma ReitemizeIsStable(d: Dictionary, tokens: seq<string>)
    requires Consistent(d)
    ensures LearnAll(LearnAll(d, tokens).0, tokens) == LearnAll(d, tokens)
  {
    var d1, e1 := LearnAll(d, tokens).0, LearnAll(d, tokens).1;
    LearnAllMeaning(d, tokens);
    assert Consistent(d1);
    forall k | 0 <= k < |Kept(tokens)| ensures Kept(tokens)[k] in d1.strToItem && d1.strToItem[Kept(tokens)[k]] == e1[k] {
      assert e1[k] in d1.itemToStr && d1.itemToStr[e1[k]] == Kept(tokens)[k];
      ConsistentInverse(d1, e1[k]);
    }
    assert forall t :: t in Kept(tokens) ==> t in d1.strToItem;
    LearnAllKnown(d1, tokens);
    var e2 := LearnAll(d1, tokens).1;
    assert |e2| == |e1| && forall k :: 0 <= k < |e1| ==> e2[k] == e1[k];
    assert e2 == e1;
  }

  /** Round trip: a token, once itemized, converts back to its trimmed
      form; for a trimmed token, to itself. */
  lemma RoundTrip(d: Dictionary, token: string)
    requires Consistent(d) && Trim(token) != []
    ensures |LearnAll(d, [token]).1| == 1
    ensures LearnAll(d, [token]).1[0] in LearnAll(d, [token]).0.itemToStr
    ensures LearnAll(d, [token]).0.itemToStr[LearnAll(d, [token]).1[0]] == Trim(token)
    ensures Trimmed(token) ==> LearnAll(d, [token]).0.itemToStr[LearnAll(d, [token]).1[0]] == token
  {
    assert [token][..0] == [];
    LearnOne(d, token);
    if Trimmed(token) {
      TrimOfTrimmed(token);
    }
  }

  // ---------------------------------------------------------------------
  // Order-preserving filtering and the string order used by `cmp`.
  // ---------------------------------------------------------------------

  /** The items satisfying `keep`, in their original order. */
  function Select(items: seq<Item>, keep: Item -> bool): (r: seq<Item>)
    ensures |r| <= |items|
    decreases |items|
  {
    if items == [] then []
    else Select(items[..|items| - 1], keep) + (if keep(items[|items| - 1]) then [items[|items| - 1]] else [])
  }

  /** Exactly the items satisfying `keep` are selected. */
  lemma {:induction false} SelectMembers(items: seq<Item>, keep: Item -> bool)
    ensures forall x :: x in Select(items, keep) <==> x in items && keep(x)
    decreases |items|
  {
    if items != [] {
      var init, last := items[..|items| - 1], items[|items| - 1];
      SelectMembers(init, keep);
      assert items == init + [last];
    }
  }

  /** Selecting with a predicate every item meets keeps all of them. */
  lemma {:induction false} SelectAll(items: seq<Item>, keep: Item -> bool)
    requires forall k :: 0 <= k < |items| ==> keep(items[k])
    ensures Select(items, keep) == items
    decreases |items|
  {
    if items != [] {
      var init, last := items[..|items| - 1], items[|items| - 1];
      assert keep(last);
      assert forall k :: 0 <= k < |init| ==> init[k] == items[k];
      SelectAll(init, keep);
      assert items == init + [last];
    }
  }

  /** The callback of `Itemize`: a buffer of `capacity` slots is filled,
      by a running index, with the items in turn; the filled prefix is
      returned. */
  method FillBuffer(emitted: seq<Item>, capacity: nat) returns (items: seq<Item>)
    requires |emitted| <= capacity
    ensures items == emitted
  {
    var buffer := new Item[capacity];
    var j := 0;
    while j < |emitted|
      invariant 0 <= j <= |emitted| <= buffer.Length
      invariant buffer[..j] == emitted[..j]
      modifies buffer
    {
      buffer[j] := emitted[j];
      j := j + 1;
    }
    assert emitted[..j] == emitted;
    items := buffer[..j];
  }

  /** The appending callback of `filter`: each item that satisfies `keep`
      is appended, in turn. */
  method SelectInOrder(emitted: seq<Item>, keep: Item -> bool) returns (items: seq<Item>)
    ensures items == Select(emitted, keep)
  {
    items := [];
    for k := 0 to |emitted|
      invariant items == Select(emitted[..k], keep)
    {
      assert emitted[..k + 1][..k] == emitted[..k];
      if keep(emitted[k]) {
        items := items + [emitted[k]];
      }
    }
    assert emitted[..|emitted|] == emitted;
  }


  /** Go's `<` on strings: byte-wise lexicographic on the UTF-8 encoding,
      which orders like the code points. */
  function StrLess(a: string, b: string): bool {
    if a == [] then b != []
    else b != [] && (a[0] < b[0] || (a[0] == b[0] && StrLess(a[1..], b[1..])))
  }

  lemma {:induction false} StrLessIrreflexive(a: string)
    ensures !StrLess(a, a)
  {
    if a != [] {
      StrLessIrreflexive(a[1..]);
    }
  }

  lemma {:induction false} StrLessTransitive(a: string, b: string, c: string)
    requires StrLess(a, b) && StrLess(b, c)
    ensures StrLess(a, c)
  {
    if a != [] && a[0] == b[0] && b[0] == c[0] {
      StrLessTransitive(a[1..], b[1..], c[1..]);
    }
  }

  lemma {:induction false} StrLessTotal(a: string, b: string)
    requires a != b
    ensures StrLess(a, b) || StrLess(b, a)
  {
    if a != [] && b != [] && a[0] == b[0] {
      assert a == [a[0]] + a[1..] && b == [b[0]] + b[1..];
      StrLessTotal(a[1..], b[1..]);
    }
  }

  /** The empty string comes before every other one. */
  lemma EmptyIsLeast(b: string)
    requires b != []
    ensures StrLess([], b) && !StrLess(b, [])
  {
  }

  // ---------------------------------------------------------------------
  // The classes.
  // ---------------------------------------------------------------------

  /** `Itemizer`: the two maps and the counter, updated in place. */
  class Itemizer {
    var strToItem: map<string, Item>
    var itemToStr: map<Item, string>
    var numItems: int

    function State(): Dictionary
      reads this
    {
      Dictionary(strToItem, itemToStr, numItems)
    }

    ghost predicate Valid()
      reads this
    {
      Consistent(State())
    }

    /** `newItemizer`. */
    constructor ()
      ensures Valid() && State() == EmptyDictionary()
    {
      strToItem := map[];
      itemToStr := map[];
      numItems := 0;
    }

    /** One iteration of `forEachItem`: the token is trimmed and skipped
        when empty; otherwise its item is looked up, or the counter is
        advanced and the new item recorded in both maps. The item handed
        to the callback, if any, is returned. */
    method Register(token: string) returns (emitted: seq<Item>)
      modifies this
      ensures (State(), emitted) == Learn(old(State()), token)
    {
      ghost var d := State();
      var val := Trim(token);
      LearnCases(d, token, val);
      if |val| == 0 {
        return [];
      }
      var itemID;
      if val in strToItem {
        itemID := strToItem[val];
      } else {
        numItems := numItems + 1;
        itemID := numItems;
        strToItem := strToItem[val := itemID];
        itemToStr := itemToStr[itemID := val];
      }
      return [itemID];
    }

    /** `forEachItem`: the callback is modelled by returning, in order,
        the items it would have received. */
    method ForEachItem(tokens: seq<string>) returns (emitted: seq<Item>)
      modifies this
      ensures (State(), emitted) == LearnAll(old(State()), tokens)
    {
      emitted := [];
      for i := 0 to |tokens|
        invariant (State(), emitted) == LearnAll(old(State()), tokens[..i])
      {
        LearnAllSnoc(old(State()), tokens, i);
        var step := Register(tokens[i]);
        emitted := emitted + step;
      }
      assert tokens[..|tokens|] == tokens;
    }

    /** `Itemize`: the items are written into a buffer as long as the
        input, by a running index, and the filled prefix is returned. */
    method Itemize(values: seq<string>) returns (items: seq<Item>)
      requires Valid()
      modifies this
      ensures Valid()
      ensures (State(), items) == LearnAll(old(State()), values)
    {
      ghost var before := State();
      var emitted := ForEachItem(values);
      assert Valid() && |emitted| <= |values| by {
        LearnAllLength(before, values);
        LearnAllMeaning(before, values);
      }
      items := FillBuffer(emitted, |values|);
    }

    /** `filter`: every non-empty token is registered, and the items that
        satisfy `keep` are returned in order. */
    method Filter(tokens: seq<string>, keep: Item -> bool) returns (items: seq<Item>)
      requires Valid()
      modifies this
      ensures Valid()
      ensures State() == LearnAll(old(State()), tokens).0
      ensures items == Select(LearnAll(old(State()), tokens).1, keep)
    {
      ghost var before := State();
      var emitted := ForEachItem(tokens);
      assert Valid() by {
        LearnAllMeaning(before, tokens);
      }
      items := SelectInOrder(emitted, keep);
    }

    /** `ToStr`: the token an issued item stands for; an unknown item is
        the Go panic, excluded here. */
    function ToStr(item: Item): (token: string)
      reads this
      requires item in itemToStr
      ensures Valid() ==> token in strToItem && strToItem[token] == item
      ensures Valid() ==> token != [] && Trimmed(token) && 1 <= item <= numItems
    {
      itemToStr[item]
    }

    /** The token `cmp` compares: the map's zero value "" for an unknown
        item. */
    function TokenOf(item: Item): string
      reads this
    {
      if item in itemToStr then itemToStr[item] else ""
    }

    /** `cmp`: orders items by their tokens. */
    function Cmp(a: Item, b: Item): (less: bool)
      reads this
      ensures a == b ==> !less
      ensures Valid() && a in itemToStr && b in itemToStr ==> (less <==> StrLess(ToStr(a), ToStr(b)))
      ensures Valid() && a !in itemToStr && b in itemToStr ==> less
    {
      StrLessIrreflexive(TokenOf(a));
      StrLess(TokenOf(a), TokenOf(b))
    }

    /** `cmp` is a strict order, total on issued items (distinct items
        stand for distinct tokens), and puts unknown items first. */
    lemma CmpOrder(a: Item, b: Item, c: Item)
      requires Valid()
      ensures !Cmp(a, a)
      ensures Cmp(a, b) ==> !Cmp(b, a)
      ensures Cmp(a, b) && Cmp(b, c) ==> Cmp(a, c)
      ensures a in itemToStr && b in itemToStr && a != b ==> Cmp(a, b) || Cmp(b, a)
      ensures a !in itemToStr && b in itemToStr ==> Cmp(a, b)
    {
      StrLessIrreflexive(TokenOf(a));
      if Cmp(a, b) && Cmp(b, a) {
        StrLessTransitive(TokenOf(a), TokenOf(b), TokenOf(a));
        StrLessIrreflexive(TokenOf(a));
      }
      if Cmp(a, b) && Cmp(b, c) {
        StrLessTransitive(TokenOf(a), TokenOf(b), TokenOf(c));
      }
      if a in itemToStr && b in itemToStr && a != b {
        assert strToItem[itemToStr[a]] == a && strToItem[itemToStr[b]] == b;
        StrLessTotal(TokenOf(a), TokenOf(b));
      }
      if a !in itemToStr && b in itemToStr {
        assert itemToStr[b] in strToItem;
        EmptyIsLeast(TokenOf(b));
      }
    }
  }

  // ---------------------------------------------------------------------
  // itemCount
  // ---------------------------------------------------------------------

  /** `ensureInBounds`: `s` zero-extended so that `index` is a position. */
  function EnsureInBounds(s: seq<int>, index: nat): (r: seq<int>)
    ensures |r| == if index < |s| then |s| else index + 1
    ensures r[..|s|] == s
    ensures forall k :: |s| <= k < |r| ==> r[k] == 0
  {
    if index < |s| then s else s + seq(1 + index - |s|, _ => 0)
  }

  /** `get` on a count array: 0 past the end. */
  function CountAt(s: seq<int>, item: nat): int {
    if item >= |s| then 0 else s[item]
  }

  /** Growing the array changes no count. */
  lemma EnsureInBoundsKeepsCounts(s: seq<int>, index: nat, item: nat)
    ensures CountAt(EnsureInBounds(s, index), item) == CountAt(s, item)
  {
    var r := EnsureInBounds(s, index);
    if item < |s| {
      assert r[..|s|][item] == s[item];
    }
  }

  /** `increment` on a count array. */
  function Incremented(s: seq<int>, item: nat, count: int): (r: seq<int>)
    ensures |r| == if item < |s| then |s| else item + 1
  {
    var grown := EnsureInBounds(s, item);
    grown[item := grown[item] + count]
  }

  /** `increment` adds `count` at `item` and leaves every other count. */
  lemma IncrementedCounts(s: seq<int>, item: nat, count: int, other: nat)
    ensures CountAt(Incremented(s, item, count), other) == CountAt(s, other) + (if other == item then count else 0)
  {
    EnsureInBoundsKeepsCounts(s, item, other);
  }

  /** `itemCount`: per-item counts, grown on demand. */
  class ItemCount {
    var counts: seq<int>

    /** `makeCounts`. */
    constructor ()
      ensures counts == []
    {
      counts := [];
    }

    /** `increment`; a negative item is a Go index panic, excluded here. */
    method Increment(item: Item, count: int)
      requires item >= 0
      modifies this
      ensures counts == Incremented(old(counts), item, count)
    {
      counts := EnsureInBounds(counts, item);
      counts := counts[item := counts[item] + count];
    }

    /** `get`; a negative item is a Go index panic, excluded here. */
    function Get(item: Item): (n: int)
      reads this
      requires item >= 0
      ensures item < |counts| ==> n == counts[item]
      ensures item >= |counts| ==> n == 0
    {
      CountAt(counts, item)
    }
  }
}
