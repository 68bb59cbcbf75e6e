/** The deduplicating rule store of rules.go (`Rule`, `RuleSet`,
    `ruleTreeNode`).

    The store is a trie whose root-to-node path spells a rule's antecedent
    items along antecedent edges, then its consequent items along consequent
    edges; a node that terminates an inserted rule records the rule's
    position in an append-only list. Node pointers are modelled as positions
    in an arena `nodes`; a child map sends an item to its child's position. */
module RuleStore {
  import opened Wrappers
  import opened Items

  /** An antecedent-implies-consequent rule with its three metrics. */
  datatype Rule = Rule(antecedent: seq<Item>, consequent: seq<Item>,
                       support: real, confidence: real, lift: real)

  /** What the trie deduplicates on. ([1], [2]) and ([1, 2], []) differ. */
  type Key = (seq<Item>, seq<Item>)

  function KeyOf(r: Rule): Key {
    (r.antecedent, r.consequent)
  }

  /** `NewRule`: a rule stored under the key (antecedent, consequent) and
      carrying the three metrics as given. */
  function NewRule(antecedent: seq<Item>, consequent: seq<Item>, support: real, confidence: real, lift: real): (r: Rule)
    ensures KeyOf(r) == (antecedent, consequent)
    ensures r.support == support && r.confidence == confidence && r.lift == lift
  {
    Rule(antecedent, consequent, support, confidence, lift)
  }

  // ---------------------------------------------------------------------
  // The abstract store: key -> position, and the list in insertion order.
  // ---------------------------------------------------------------------

  datatype Store = Store(index: map<Key, nat>, rules: seq<Rule>)

  /** Every stored key points at a rule carrying that key, and every rule
      in the list is the one its key points at: keys are unique. */
  ghost predicate WellFormed(s: Store) {
    && |s.index| == |s.rules|
    && (forall k :: k in s.index ==> s.index[k] < |s.rules| && KeyOf(s.rules[s.index[k]]) == k)
    && (forall i :: 0 <= i < |s.rules| ==> KeyOf(s.rules[i]) in s.index && s.index[KeyOf(s.rules[i])] == i)
  }

  function EmptyStore(): (s: Store)
    ensures WellFormed(s)
  {
    Store(map[], [])
  }

  /** The rule stored under `k`, if any. */
  function Find(s: Store, k: Key): Option<Rule> {
    if k in s.index && s.index[k] < |s.rules| then Some(s.rules[s.index[k]]) else None
  }

  /** One insertion: append only if the key is new. */
  function Inserted(s: Store, r: Rule): (s': Store)
    ensures WellFormed(s) ==> WellFormed(s')
    ensures s'.rules == s.rules || s'.rules == s.rules + [r]
    ensures KeyOf(r) in s.index ==> s' == s
    ensures WellFormed(s) ==> Find(s', KeyOf(r)) == if KeyOf(r) in s.index then Find(s, KeyOf(r)) else Some(r)
    ensures WellFormed(s) ==> forall k :: k != KeyOf(r) ==> Find(s', k) == Find(s, k)
  {
    if KeyOf(r) in s.index then s
    else Store(s.index[KeyOf(r) := |s.rules|], s.rules + [r])
  }

  lemma FoundRuleHasKey(s: Store, k: Key)
    requires WellFormed(s)
    ensures Find(s, k).Some? <==> k in s.index
    ensures Find(s, k).Some? ==> KeyOf(Find(s, k).value) == k
  {
  }

  /** A run of insertions, in order. */
  function InsertAll(s: Store, rs: seq<Rule>): Store
    decreases |rs|
  {
    if rs == [] then s else Inserted(InsertAll(s, rs[..|rs| - 1]), rs[|rs| - 1])
  }

  /** The first rule in `rs` carrying key `k`. */
  function FirstWithKey(rs: seq<Rule>, k: Key): Option<Rule> {
    if rs == [] then None
    else if KeyOf(rs[0]) == k then Some(rs[0])
    else FirstWithKey(rs[1..], k)
  }

  lemma {:induction false} FirstWithKeyAppend(rs: seq<Rule>, r: Rule, k: Key)
    ensures FirstWithKey(rs + [r], k) ==
      if FirstWithKey(rs, k).Some? then FirstWithKey(rs, k)
      else if KeyOf(r) == k then Some(r) else None
  {
    if rs != [] {
      assert (rs + [r])[1..] == rs[1..] + [r];
      FirstWithKeyAppend(rs[1..], r, k);
    }
  }

  /** After any run of insertions into an empty store, the rule found under
      a key is the first one ever inserted with that key: later duplicates
      never overwrite it. */
  lemma {:induction false} FirstInsertWins(rs: seq<Rule>, k: Key)
    ensures WellFormed(InsertAll(EmptyStore(), rs))
    ensures Find(InsertAll(EmptyStore(), rs), k) == FirstWithKey(rs, k)
  {
    if rs != [] {
      var init, last := rs[..|rs| - 1], rs[|rs| - 1];
      assert rs == init + [last];
      FirstInsertWins(init, k);
      FirstInsertWins(init, KeyOf(last));
      FirstWithKeyAppend(init, last, k);
      FoundRuleHasKey(InsertAll(EmptyStore(), init), KeyOf(last));
    }
  }

  lemma {:induction false} InsertAllKeepsKeys(s: Store, rs: seq<Rule>)
    ensures s.index.Keys <= InsertAll(s, rs).index.Keys
    ensures forall r :: r in rs ==> KeyOf(r) in InsertAll(s, rs).index
    decreases |rs|
  {
    if rs != [] {
      InsertAllKeepsKeys(s, rs[..|rs| - 1]);
      assert forall r :: r in rs ==> r in rs[..|rs| - 1] || r == rs[|rs| - 1];
    }
  }

  lemma {:induction false} InsertAllOfPresentKeys(s: Store, rs: seq<Rule>)
    requires forall r :: r in rs ==> KeyOf(r) in s.index
    ensures InsertAll(s, rs) == s
    decreases |rs|
  {
    if rs != [] {
      InsertAllOfPresentKeys(s, rs[..|rs| - 1]);
    }
  }

  /** Re-inserting a run of rules changes nothing: insertion is idempotent,
      so merging stores by sequential re-insertion is safe. */
  lemma InsertAllIdempotent(s: Store, rs: seq<Rule>)
    ensures InsertAll(InsertAll(s, rs), rs) == InsertAll(s, rs)
  {
    InsertAllKeepsKeys(s, rs);
    InsertAllOfPresentKeys(InsertAll(s, rs), rs);
  }

  // ---------------------------------------------------------------------
  // The trie.
  // ---------------------------------------------------------------------

  /** `ruleTreeNode`: two child maps (to arena positions), the rule marker
      and the rule's position in the list. */
  datatype TreeNode = TreeNode(antecedents: map<Item, nat>, consequents: map<Item, nat>,
                               hasRule: bool, index: nat)

  /** `newRuleTreeNode`. */
  function NewTreeNode(): (n: TreeNode)
    ensures |n.antecedents| == 0 && |n.consequents| == 0 && !n.hasRule
  {
    TreeNode(map[], map[], false, 0)
  }

  predicate ProperPrefix(p: seq<Item>, q: seq<Item>) {
    |p| < |q| && p == q[..|p|]
  }

  /** Shape of the arena, given the key each node stands for (`paths`):
      node 0 is the root; distinct nodes stand for distinct keys; an edge
      extends its parent's key by its item (antecedent edges only leave
      nodes with an empty consequent part); and whenever some node stands
      for a key, every node on the way to it has the edge towards it. */
  ghost predicate TrieValid(nodes: seq<TreeNode>, paths: seq<Key>) {
    && Rooted(nodes, paths)
    && Distinct(paths)
    && AntecedentEdgesSound(nodes, paths)
    && ConsequentEdgesSound(nodes, paths)
    && AntecedentEdgesComplete(nodes, paths)
    && ConsequentEdgesComplete(nodes, paths)
  }

  ghost predicate Rooted(nodes: seq<TreeNode>, paths: seq<Key>) {
    |nodes| == |paths| >= 1 && paths[0] == ([], [])
  }

  ghost predicate Distinct(paths: seq<Key>) {
    forall i, j :: 0 <= i < |paths| && 0 <= j < |paths| && paths[i] == paths[j] ==> i == j
  }

  ghost predicate AntecedentEdgesSound(nodes: seq<TreeNode>, paths: seq<Key>)
    requires |nodes| == |paths|
  {
    forall n, x :: 0 <= n < |nodes| && x in nodes[n].antecedents ==>
      && nodes[n].antecedents[x] < |nodes|
      && paths[n].1 == []
      && paths[nodes[n].antecedents[x]] == (paths[n].0 + [x], [])
  }

  ghost predicate ConsequentEdgesSound(nodes: seq<TreeNode>, paths: seq<Key>)
    requires |nodes| == |paths|
  {
    forall n, x :: 0 <= n < |nodes| && x in nodes[n].consequents ==>
      && nodes[n].consequents[x] < |nodes|
      && paths[nodes[n].consequents[x]] == (paths[n].0, paths[n].1 + [x])
  }

  ghost predicate AntecedentEdgesComplete(nodes: seq<TreeNode>, paths: seq<Key>)
    requires |nodes| == |paths|
  {
    forall n, m {:trigger ProperPrefix(paths[n].0, paths[m].0)} ::
      (0 <= n < |nodes| && 0 <= m < |nodes| && paths[n].1 == [] && ProperPrefix(paths[n].0, paths[m].0)) ==>
      paths[m].0[|paths[n].0|] in nodes[n].antecedents
  }

  ghost predicate ConsequentEdgesComplete(nodes: seq<TreeNode>, paths: seq<Key>)
    requires |nodes| == |paths|
  {
    forall n, m {:trigger ProperPrefix(paths[n].1, paths[m].1)} ::
      (0 <= n < |nodes| && 0 <= m < |nodes| && paths[n].0 == paths[m].0 && ProperPrefix(paths[n].1, paths[m].1)) ==>
      paths[m].1[|paths[n].1|] in nodes[n].consequents
  }

  /** The rule markers agree with the abstract store. */
  ghost predicate MarksValid(nodes: seq<TreeNode>, paths: seq<Key>, s: Store)
    requires |nodes| == |paths|
  {
    && (forall n :: 0 <= n < |nodes| ==> (nodes[n].hasRule <==> paths[n] in s.index))
    && (forall n :: 0 <= n < |nodes| && nodes[n].hasRule ==> nodes[n].index == s.index[paths[n]])
    && (forall k :: k in s.index ==> k in paths)
  }

  function AddAntecedentChild(nodes: seq<TreeNode>, parent: nat, x: Item): seq<TreeNode>
    requires parent < |nodes|
  {
    nodes[parent := nodes[parent].(antecedents := nodes[parent].antecedents[x := |nodes|])] + [NewTreeNode()]
  }

  function AddConsequentChild(nodes: seq<TreeNode>, parent: nat, x: Item): seq<TreeNode>
    requires parent < |nodes|
  {
    nodes[parent := nodes[parent].(consequents := nodes[parent].consequents[x := |nodes|])] + [NewTreeNode()]
  }

  /** No node stands for a key below a missing antecedent edge. */
  lemma NoNodeBelowMissingAntecedent(nodes: seq<TreeNode>, paths: seq<Key>, parent: nat, x: Item)
    requires |nodes| == |paths| && AntecedentEdgesComplete(nodes, paths)
    requires parent < |nodes| && paths[parent].1 == [] && x !in nodes[parent].antecedents
    ensures forall m :: 0 <= m < |paths| ==> !ProperPrefix(paths[parent].0 + [x], paths[m].0)
    ensures forall m :: 0 <= m < |paths| ==> paths[m].0 != paths[parent].0 + [x]
  {
    var p := paths[parent].0;
    forall m | 0 <= m < |paths| ensures !ProperPrefix(p + [x], paths[m].0) && paths[m].0 != p + [x] {
      if ProperPrefix(p, paths[m].0) {
        assert paths[m].0[|p|] in nodes[parent].antecedents;
      }
    }
  }

  /** No node stands for a key below a missing consequent edge. */
  lemma NoNodeBelowMissingConsequent(nodes: seq<TreeNode>, paths: seq<Key>, parent: nat, x: Item)
    requires |nodes| == |paths| && ConsequentEdgesComplete(nodes, paths)
    requires parent < |nodes| && x !in nodes[parent].consequents
    ensures forall m :: 0 <= m < |paths| && paths[m].0 == paths[parent].0 ==>
      !ProperPrefix(paths[parent].1 + [x], paths[m].1) && paths[m].1 != paths[parent].1 + [x]
  {
    var q := paths[parent].1;
    forall m | 0 <= m < |paths| && paths[m].0 == paths[parent].0
      ensures !ProperPrefix(q + [x], paths[m].1) && paths[m].1 != q + [x]
    {
      if ProperPrefix(q, paths[m].1) {
        assert paths[m].1[|q|] in nodes[parent].consequents;
      }
    }
  }

  /** A walk that meets a missing antecedent edge proves the key absent. */
  lemma MissingAntecedentEdge(nodes: seq<TreeNode>, paths: seq<Key>, parent: nat, k: Key, i: nat)
    requires |nodes| == |paths| && AntecedentEdgesComplete(nodes, paths)
    requires i < |k.0| && parent < |nodes| && paths[parent] == (k.0[..i], [])
    requires k.0[i] !in nodes[parent].antecedents
    ensures k !in paths
  {
    NoNodeBelowMissingAntecedent(nodes, paths, parent, k.0[i]);
    assert k.0[..i] + [k.0[i]] == k.0[..i + 1];
    if i + 1 < |k.0| {
      assert ProperPrefix(k.0[..i + 1], k.0);
    } else {
      assert k.0[..i + 1] == k.0;
    }
  }

  /** A walk that meets a missing consequent edge proves the key absent. */
  lemma MissingConsequentEdge(nodes: seq<TreeNode>, paths: seq<Key>, parent: nat, k: Key, i: nat)
    requires |nodes| == |paths| && ConsequentEdgesComplete(nodes, paths)
    requires i < |k.1| && parent < |nodes| && paths[parent] == (k.0, k.1[..i])
    requires k.1[i] !in nodes[parent].consequents
    ensures k !in paths
  {
    NoNodeBelowMissingConsequent(nodes, paths, parent, k.1[i]);
    assert k.1[..i] + [k.1[i]] == k.1[..i + 1];
    if i + 1 < |k.1| {
      assert ProperPrefix(k.1[..i + 1], k.1);
    } else {
      assert k.1[..i + 1] == k.1;
    }
  }

  lemma AddAntecedentChildComplete(nodes: seq<TreeNode>, paths: seq<Key>, parent: nat, x: Item)
    requires Rooted(nodes, paths) && Distinct(paths)
    requires AntecedentEdgesComplete(nodes, paths) && ConsequentEdgesComplete(nodes, paths)
    requires parent < |nodes| && paths[parent].1 == [] && x !in nodes[parent].antecedents
    ensures AntecedentEdgesComplete(AddAntecedentChild(nodes, parent, x), paths + [(paths[parent].0 + [x], [])])
    ensures ConsequentEdgesComplete(AddAntecedentChild(nodes, parent, x), paths + [(paths[parent].0 + [x], [])])
  {
    var p := paths[parent].0;
    var nodes', paths' := AddAntecedentChild(nodes, parent, x), paths + [(p + [x], [])];
    var added := |nodes|;
    NoNodeBelowMissingAntecedent(nodes, paths, parent, x);
    forall n, m | 0 <= n < |nodes'| && 0 <= m < |nodes'| &&
        paths'[n].1 == [] && ProperPrefix(paths'[n].0, paths'[m].0)
      ensures paths'[m].0[|paths'[n].0|] in nodes'[n].antecedents
    {
      if m == added && n < added {
        if paths[n].0 == p {
          assert paths[n] == paths[parent];
        } else {
          assert ProperPrefix(paths[n].0, p);
        }
      } else if m < added && n < added {
        assert paths'[n] == paths[n] && paths'[m] == paths[m];
      }
    }
    forall n, m | 0 <= n < |nodes'| && 0 <= m < |nodes'| &&
        paths'[n].0 == paths'[m].0 && ProperPrefix(paths'[n].1, paths'[m].1)
      ensures paths'[m].1[|paths'[n].1|] in nodes'[n].consequents
    {
      if m < added && n < added {
        assert paths'[n] == paths[n] && paths'[m] == paths[m];
      }
    }
  }

  lemma AddAntecedentChildSound(nodes: seq<TreeNode>, paths: seq<Key>, parent: nat, x: Item)
    requires Rooted(nodes, paths) && AntecedentEdgesSound(nodes, paths) && ConsequentEdgesSound(nodes, paths)
    requires parent < |nodes| && paths[parent].1 == []
    ensures AntecedentEdgesSound(AddAntecedentChild(nodes, parent, x), paths + [(paths[parent].0 + [x], [])])
    ensures ConsequentEdgesSound(AddAntecedentChild(nodes, parent, x), paths + [(paths[parent].0 + [x], [])])
  {
    var nodes', paths' := AddAntecedentChild(nodes, parent, x), paths + [(paths[parent].0 + [x], [])];
    forall n, y | 0 <= n < |nodes'| && y in nodes'[n].antecedents
      ensures nodes'[n].antecedents[y] < |nodes'| && paths'[n].1 == [] &&
              paths'[nodes'[n].antecedents[y]] == (paths'[n].0 + [y], [])
    {
      if n != parent || y != x {
        assert paths'[nodes[n].antecedents[y]] == paths[nodes[n].antecedents[y]];
      }
    }
    forall n, y | 0 <= n < |nodes'| && y in nodes'[n].consequents
      ensures nodes'[n].consequents[y] < |nodes'| &&
              paths'[nodes'[n].consequents[y]] == (paths'[n].0, paths'[n].1 + [y])
    {
      assert paths'[nodes[n].consequents[y]] == paths[nodes[n].consequents[y]];
    }
  }

  lemma AddAntecedentChildValid(nodes: seq<TreeNode>, paths: seq<Key>, s: Store, parent: nat, x: Item)
    requires TrieValid(nodes, paths) && MarksValid(nodes, paths, s)
    requires parent < |nodes| && paths[parent].1 == [] && x !in nodes[parent].antecedents
    ensures TrieValid(AddAntecedentChild(nodes, parent, x), paths + [(paths[parent].0 + [x], [])])
    ensures MarksValid(AddAntecedentChild(nodes, parent, x), paths + [(paths[parent].0 + [x], [])], s)
  {
    NoNodeBelowMissingAntecedent(nodes, paths, parent, x);
    assert (paths[parent].0 + [x], []) !in paths;
    AddAntecedentChildComplete(nodes, paths, parent, x);
    AddAntecedentChildSound(nodes, paths, parent, x);
  }

  lemma AddConsequentChildComplete(nodes: seq<TreeNode>, paths: seq<Key>, parent: nat, x: Item)
    requires Rooted(nodes, paths) && Distinct(paths)
    requires AntecedentEdgesComplete(nodes, paths) && ConsequentEdgesComplete(nodes, paths)
    requires parent < |nodes| && x !in nodes[parent].consequents
    ensures AntecedentEdgesComplete(AddConsequentChild(nodes, parent, x), paths + [(paths[parent].0, paths[parent].1 + [x])])
    ensures ConsequentEdgesComplete(AddConsequentChild(nodes, parent, x), paths + [(paths[parent].0, paths[parent].1 + [x])])
  {
    var (a, q) := paths[parent];
    var nodes', paths' := AddConsequentChild(nodes, parent, x), paths + [(a, q + [x])];
    var added := |nodes|;
    NoNodeBelowMissingConsequent(nodes, paths, parent, x);
    forall n, m | 0 <= n < |nodes'| && 0 <= m < |nodes'| &&
        paths'[n].1 == [] && ProperPrefix(paths'[n].0, paths'[m].0)
      ensures paths'[m].0[|paths'[n].0|] in nodes'[n].antecedents
    {
      if m == added && n < added {
        assert paths[n].1 == [] && ProperPrefix(paths[n].0, paths[parent].0);
      } else if m < added && n < added {
        assert paths'[n] == paths[n] && paths'[m] == paths[m];
      }
    }
    forall n, m | 0 <= n < |nodes'| && 0 <= m < |nodes'| &&
        paths'[n].0 == paths'[m].0 && ProperPrefix(paths'[n].1, paths'[m].1)
      ensures paths'[m].1[|paths'[n].1|] in nodes'[n].consequents
    {
      if m == added && n < added {
        if paths[n].1 == q {
          assert paths[n] == paths[parent];
        } else {
          assert ProperPrefix(paths[n].1, q);
        }
      } else if m < added && n < added {
        assert paths'[n] == paths[n] && paths'[m] == paths[m];
      }
    }
  }

  lemma AddConsequentChildSound(nodes: seq<TreeNode>, paths: seq<Key>, parent: nat, x: Item)
    requires Rooted(nodes, paths) && AntecedentEdgesSound(nodes, paths) && ConsequentEdgesSound(nodes, paths)
    requires parent < |nodes|
    ensures AntecedentEdgesSound(AddConsequentChild(nodes, parent, x), paths + [(paths[parent].0, paths[parent].1 + [x])])
    ensures ConsequentEdgesSound(AddConsequentChild(nodes, parent, x), paths + [(paths[parent].0, paths[parent].1 + [x])])
  {
    var nodes', paths' := AddConsequentChild(nodes, parent, x), paths + [(paths[parent].0, paths[parent].1 + [x])];
    forall n, y | 0 <= n < |nodes'| && y in nodes'[n].antecedents
      ensures nodes'[n].antecedents[y] < |nodes'| && paths'[n].1 == [] &&
              paths'[nodes'[n].antecedents[y]] == (paths'[n].0 + [y], [])
    {
      assert paths'[nodes[n].antecedents[y]] == paths[nodes[n].antecedents[y]];
    }
    forall n, y | 0 <= n < |nodes'| && y in nodes'[n].consequents
      ensures nodes'[n].consequents[y] < |nodes'| &&
              paths'[nodes'[n].consequents[y]] == (paths'[n].0, paths'[n].1 + [y])
    {
      if n != parent || y != x {
        assert paths'[nodes[n].consequents[y]] == paths[nodes[n].consequents[y]];
      }
    }
  }

  lemma AddConsequentChildValid(nodes: seq<TreeNode>, paths: seq<Key>, s: Store, parent: nat, x: Item)
    requires TrieValid(nodes, paths) && MarksValid(nodes, paths, s)
    requires parent < |nodes| && x !in nodes[parent].consequents
    ensures TrieValid(AddConsequentChild(nodes, parent, x), paths + [(paths[parent].0, paths[parent].1 + [x])])
    ensures MarksValid(AddConsequentChild(nodes, parent, x), paths + [(paths[parent].0, paths[parent].1 + [x])], s)
  {
    NoNodeBelowMissingConsequent(nodes, paths, parent, x);
    assert (paths[parent].0, paths[parent].1 + [x]) !in paths;
    AddConsequentChildComplete(nodes, paths, parent, x);
    AddConsequentChildSound(nodes, paths, parent, x);
  }

  function MarkRule(nodes: seq<TreeNode>, parent: nat, position: nat): seq<TreeNode>
    requires parent < |nodes|
  {
    nodes[parent := nodes[parent].(hasRule := true, index := position)]
  }

  /** Marking a node changes no edge, so the trie stays valid. */
  lemma MarkRuleKeepsTrie(nodes: seq<TreeNode>, paths: seq<Key>, parent: nat, position: nat)
    requires TrieValid(nodes, paths) && parent < |nodes|
    ensures TrieValid(MarkRule(nodes, parent, position), paths)
  {
    var nodes' := MarkRule(nodes, parent, position);
    assert forall n :: 0 <= n < |nodes| ==>
      nodes'[n].antecedents == nodes[n].antecedents && nodes'[n].consequents == nodes[n].consequents;
    assert AntecedentEdgesSound(nodes', paths);
    assert ConsequentEdgesSound(nodes', paths);
    assert AntecedentEdgesComplete(nodes', paths);
    assert ConsequentEdgesComplete(nodes', paths);
  }

  /** Marking the node that stands for a new key keeps the trie valid and
      makes the markers encode the store with the rule appended. */
  lemma MarkRuleValid(nodes: seq<TreeNode>, paths: seq<Key>, index: map<Key, nat>, rules: seq<Rule>, parent: nat, r: Rule)
    requires TrieValid(nodes, paths) && MarksValid(nodes, paths, Store(index, rules)) && WellFormed(Store(index, rules))
    requires parent < |nodes| && paths[parent] == KeyOf(r) && !nodes[parent].hasRule
    ensures KeyOf(r) !in index
    ensures Inserted(Store(index, rules), r) == Store(index[KeyOf(r) := |rules|], rules + [r])
    ensures TrieValid(MarkRule(nodes, parent, |rules|), paths)
    ensures MarksValid(MarkRule(nodes, parent, |rules|), paths, Store(index[KeyOf(r) := |rules|], rules + [r]))
    ensures WellFormed(Store(index[KeyOf(r) := |rules|], rules + [r]))
  {
    assert KeyOf(r) !in index;
    assert Inserted(Store(index, rules), r) == Store(index[KeyOf(r) := |rules|], rules + [r]);
    MarkRuleKeepsTrie(nodes, paths, parent, |rules|);
    MarkRuleMarks(nodes, paths, index, parent, KeyOf(r), |rules|);
  }

  /** The marker set on the node for a new key records the position the
      key is given; every other marker is unchanged. */
  lemma MarkRuleMarks(nodes: seq<TreeNode>, paths: seq<Key>, index: map<Key, nat>, parent: nat, k: Key, position: nat)
    requires |nodes| == |paths| && Distinct(paths)
    requires forall n :: 0 <= n < |nodes| ==> (nodes[n].hasRule <==> paths[n] in index)
    requires forall n :: 0 <= n < |nodes| && nodes[n].hasRule ==> nodes[n].index == index[paths[n]]
    requires forall k' :: k' in index ==> k' in paths
    requires parent < |nodes| && paths[parent] == k && k !in index
    ensures forall n :: 0 <= n < |nodes| ==> (MarkRule(nodes, parent, position)[n].hasRule <==> paths[n] in index[k := position])
    ensures forall n :: 0 <= n < |nodes| && MarkRule(nodes, parent, position)[n].hasRule ==>
      MarkRule(nodes, parent, position)[n].index == index[k := position][paths[n]]
    ensures forall k' :: k' in index[k := position] ==> k' in paths
  {
    var nodes' := MarkRule(nodes, parent, position);
    forall n | 0 <= n < |nodes| && n != parent
      ensures nodes'[n] == nodes[n] && paths[n] != k
    {
    }
  }

  lemma PrefixStep(s: seq<Item>, i: nat)
    requires i < |s|
    ensures s[..i] + [s[i]] == s[..i + 1]
  {
  }

  /** The antecedent half of the walk in `Insert`: follows or creates one
      antecedent edge per item, starting at the root. */
  method WalkAntecedents(nodes: seq<TreeNode>, ghost paths: seq<Key>, ghost s: Store, antecedent: seq<Item>)
    returns (nodes': seq<TreeNode>, ghost paths': seq<Key>, parent: nat)
    requires |nodes| == |paths| && TrieValid(nodes, paths) && MarksValid(nodes, paths, s)
    ensures |nodes'| == |paths'| && TrieValid(nodes', paths') && MarksValid(nodes', paths', s)
    ensures parent < |nodes'| && paths'[parent] == (antecedent, [])
  {
    nodes', paths', parent := nodes, paths, 0;
    var i := 0;
    while i < |antecedent|
      invariant 0 <= i <= |antecedent|
      invariant |nodes'| == |paths'| && TrieValid(nodes', paths') && MarksValid(nodes', paths', s)
      invariant parent < |nodes'| && paths'[parent] == (antecedent[..i], [])
    {
      var item := antecedent[i];
      if item in nodes'[parent].antecedents {
        parent := nodes'[parent].antecedents[item];
      } else {
        AddAntecedentChildValid(nodes', paths', s, parent, item);
        nodes', paths', parent := AddAntecedentChild(nodes', parent, item), paths' + [(paths'[parent].0 + [item], [])], |nodes'|;
      }
      PrefixStep(antecedent, i);
      i := i + 1;
    }
    assert antecedent[..i] == antecedent;
  }

  /** The consequent half of the walk in `Insert`, from the node reached by
      the antecedent. */
  method WalkConsequents(nodes: seq<TreeNode>, ghost paths: seq<Key>, ghost s: Store, start: nat,
                         ghost antecedent: seq<Item>, consequent: seq<Item>)
    returns (nodes': seq<TreeNode>, ghost paths': seq<Key>, parent: nat)
    requires |nodes| == |paths| && TrieValid(nodes, paths) && MarksValid(nodes, paths, s)
    requires start < |nodes| && paths[start] == (antecedent, [])
    ensures |nodes'| == |paths'| && TrieValid(nodes', paths') && MarksValid(nodes', paths', s)
    ensures parent < |nodes'| && paths'[parent] == (antecedent, consequent)
  {
    nodes', paths', parent := nodes, paths, start;
    var i := 0;
    while i < |consequent|
      invariant 0 <= i <= |consequent|
      invariant |nodes'| == |paths'| && TrieValid(nodes', paths') && MarksValid(nodes', paths', s)
      invariant parent < |nodes'| && paths'[parent] == (antecedent, consequent[..i])
    {
      var item := consequent[i];
      if item in nodes'[parent].consequents {
        parent := nodes'[parent].consequents[item];
      } else {
        AddConsequentChildValid(nodes', paths', s, parent, item);
        nodes', paths', parent := AddConsequentChild(nodes', parent, item), paths' + [(paths'[parent].0, paths'[parent].1 + [item])], |nodes'|;
      }
      PrefixStep(consequent, i);
      i := i + 1;
    }
    assert consequent[..i] == consequent;
  }

  /** The invariant of a rule set: a valid trie whose markers encode a
      well-formed store. */
  ghost predicate RuleSetValid(nodes: seq<TreeNode>, paths: seq<Key>, s: Store) {
    && |nodes| == |paths|
    && TrieValid(nodes, paths)
    && MarksValid(nodes, paths, s)
    && WellFormed(s)
  }

  /** The body of `Insert` on the rule set's parts: the two walks, then the
      rule is appended and its node marked unless the node already holds a
      rule. */
  method InsertPath(nodes: seq<TreeNode>, ghost paths: seq<Key>, ghost index: map<Key, nat>, rules: seq<Rule>, rule: Rule)
    returns (nodes': seq<TreeNode>, ghost paths': seq<Key>, ghost index': map<Key, nat>, rules': seq<Rule>)
    requires RuleSetValid(nodes, paths, Store(index, rules))
    ensures RuleSetValid(nodes', paths', Store(index', rules'))
    ensures Store(index', rules') == Inserted(Store(index, rules), rule)
  {
    var walked, parent;
    ghost var walkedPaths;
    walked, walkedPaths, parent := WalkAntecedents(nodes, paths, Store(index, rules), rule.antecedent);
    walked, walkedPaths, parent := WalkConsequents(walked, walkedPaths, Store(index, rules), parent, rule.antecedent, rule.consequent);
    if !walked[parent].hasRule {
      MarkRuleValid(walked, walkedPaths, index, rules, parent, rule);
      nodes', paths', index', rules' := MarkRule(walked, parent, |rules|), walkedPaths, index[KeyOf(rule) := |rules|], rules + [rule];
    } else {
      nodes', paths', index', rules' := walked, walkedPaths, index, rules;
    }
  }

  /** `RuleSet`: the trie (as an arena) and the rules in insertion order. */
  class RuleSet {
    var nodes: seq<TreeNode>
    var rules: seq<Rule>
    /** The key each node stands for. */
    ghost var paths: seq<Key>
    /** The abstract key -> position map the markers encode. */
    ghost var index: map<Key, nat>

    ghost predicate Valid()
      reads this
    {
      RuleSetValid(nodes, paths, Store(index, rules))
    }

    ghost function Abstract(): Store
      reads this
    {
      Store(index, rules)
    }

    /** `NewRuleSet`: a bare root and no rules. */
    constructor ()
      ensures Valid() && Abstract() == EmptyStore()
    {
      nodes := [NewTreeNode()];
      rules := [];
      paths := [([], [])];
      index := map[];
    }

    /** Walks the antecedent edges, then the consequent edges, creating the
        nodes that are missing; appends the rule only if the last node does
        not hold one yet. */
    method Insert(rule: Rule)
      requires Valid()
      modifies this
      ensures Valid()
      ensures Abstract() == Inserted(old(Abstract()), rule)
    {
      nodes, paths, index, rules := InsertPath(nodes, paths, index, rules, rule);
    }

    /** The number of distinct keys stored. */
    function Size(): (n: nat)
      reads this
      ensures Valid() ==> n == |Abstract().index|
    {
      |rules|
    }

    /** The stored rules in first-insertion order; no two share a key. */
    function Rules(): (rs: seq<Rule>)
      reads this
      ensures Valid() ==> forall i, j :: 0 <= i < j < |rs| ==> KeyOf(rs[i]) != KeyOf(rs[j])
    {
      rules
    }

    /** The same walk, read-only: not found as soon as an edge is missing
        or the last node holds no rule. */
    method Get(rule: Rule) returns (found: Option<Rule>)
      requires Valid()
      ensures found == Find(Abstract(), KeyOf(rule))
    {
      var parent: nat := 0;
      var i := 0;
      while i < |rule.antecedent|
        invariant 0 <= i <= |rule.antecedent|
        invariant Valid()
        invariant parent < |nodes| && paths[parent] == (rule.antecedent[..i], [])
      {
        var item := rule.antecedent[i];
        if item !in nodes[parent].antecedents {
          MissingAntecedentEdge(nodes, paths, parent, KeyOf(rule), i);
          return None;
        }
        parent := nodes[parent].antecedents[item];
        PrefixStep(rule.antecedent, i);
        i := i + 1;
      }
      assert rule.antecedent[..i] == rule.antecedent;
      i := 0;
      while i < |rule.consequent|
        invariant 0 <= i <= |rule.consequent|
        invariant Valid()
        invariant parent < |nodes| && paths[parent] == (rule.antecedent, rule.consequent[..i])
      {
        var item := rule.consequent[i];
        if item !in nodes[parent].consequents {
          MissingConsequentEdge(nodes, paths, parent, KeyOf(rule), i);
          return None;
        }
        parent := nodes[parent].consequents[item];
        PrefixStep(rule.consequent, i);
        i := i + 1;
      }
      assert rule.consequent[..i] == rule.consequent;
      if !nodes[parent].hasRule {
        return None;
      }
      return Some(rules[nodes[parent].index]);
    }
  }
}
