/**
 The trie of domain rules (internal/domain_matcher/tree.go) and what the rules mean. Nodes are
 kept in a sequence: a pointer to a node is the node's idx, which newNode never gives twice.
 */
module DomainTrie {
  import opened Wrappers
  import opened WireBytes

  type int64 = v: int | -0x8000_0000_0000_0000 <= v < 0x8000_0000_0000_0000
  type int32 = v: int | -0x8000_0000 <= v < 0x8000_0000
  const MAX_INT32 := 0x7FFF_FFFF

  /** A domain rule: data, and whether it holds for subdomains. */
  datatype Rule = Rule(dataOff: int64, inherit: bool)

  /** Rules by name; a name is the path of its labels, top-level label first. */
  type Rules = map<seq<bytes>, Rule>

  // ---------------------------------------------------------------------------------
  // What a set of rules matches
  // ---------------------------------------------------------------------------------

  /** The answer of Match: data and level, the root's level being -1. */
  type Answer = (int64, int)

  const NO_MATCH: Answer := (0, -2)

  /** The deepest inheriting rule among the names of the first n labels of path or fewer. */
  function BestInherit(rules: Rules, path: seq<bytes>, n: nat): (a: Answer)
    requires n <= |path|
  {
    if path[..n] in rules && rules[path[..n]].inherit then (rules[path[..n]].dataOff, n - 1)
    else if n == 0 then NO_MATCH
    else BestInherit(rules, path, n - 1)
  }

  /** A rule for exactly this name, or else the deepest inherited one. */
  function MatchRules(rules: Rules, path: seq<bytes>): (a: Answer)
  {
    if path in rules && !rules[path].inherit then (rules[path].dataOff, |path| - 1)
    else BestInherit(rules, path, |path|)
  }

  // ---------------------------------------------------------------------------------
  // The trie
  // ---------------------------------------------------------------------------------

  datatype Node = Node(hasData: bool, inherit: bool, dataOff: int64, children: map<bytes, nat>)

  const EMPTY_NODE := Node(false, false, 0, map[])

  /** Children are nodes of the trie. */
  predicate Closed(ns: seq<Node>) {
    forall i | 0 <= i < |ns| :: forall l <- ns[i].children :: ns[i].children[l] < |ns|
  }

  /** The node that path leads to from node i. */
  function Walk(ns: seq<Node>, i: nat, path: seq<bytes>): (r: Option<nat>)
    requires Closed(ns) && i < |ns|
    ensures r.Some? ==> r.value < |ns|
    decreases |path|
  {
    if path == [] then Some(i)
    else if path[0] in ns[i].children then Walk(ns, ns[i].children[path[0]], path[1..])
    else None
  }

  function NodeRule(n: Node): Option<Rule> {
    if n.hasData then Some(Rule(n.dataOff, n.inherit)) else None
  }

  /** The rule at path, if the trie has one. */
  function RuleAt(ns: seq<Node>, path: seq<bytes>): Option<Rule>
    requires Closed(ns) && |ns| > 0
  {
    var k := Walk(ns, 0, path);
    if k.None? then None else NodeRule(ns[k.value])
  }

  function Lookup(rules: Rules, path: seq<bytes>): Option<Rule> {
    if path in rules then Some(rules[path]) else None
  }

  /** The trie has exactly these rules. */
  ghost predicate HoldsRules(ns: seq<Node>, rules: Rules)
    requires Closed(ns) && |ns| > 0
  {
    forall p :: RuleAt(ns, p) == Lookup(rules, p)
  }

  /** Matching path against the trie below node cur, which is at depth i. */
  function MatchFrom(ns: seq<Node>, cur: nat, path: seq<bytes>, i: nat, best: Answer): (a: Answer)
    requires Closed(ns) && cur < |ns|
    decreases |path|
  {
    var n := ns[cur];
    var best' := if n.hasData && n.inherit then (n.dataOff, i - 1) else best;
    if path == [] then (if n.hasData && !n.inherit then (n.dataOff, i - 1) else best')
    else if path[0] in n.children then MatchFrom(ns, n.children[path[0]], path[1..], i + 1, best')
    else best'
  }

  function MatchTrie(ns: seq<Node>, path: seq<bytes>): (a: Answer)
    requires Closed(ns)
  {
    if ns == [] then NO_MATCH else MatchFrom(ns, 0, path, 0, NO_MATCH)
  }

  lemma {:induction false} WalkConcat(ns: seq<Node>, i: nat, p: seq<bytes>, q: seq<bytes>)
    requires Closed(ns) && i < |ns|
    ensures Walk(ns, i, p + q) ==
      if Walk(ns, i, p).None? then None else Walk(ns, Walk(ns, i, p).value, q)
    decreases |p|
  {
    if p == [] {
      assert p + q == q;
    } else {
      assert (p + q)[0] == p[0] && (p + q)[1..] == p[1..] + q;
      if p[0] in ns[i].children {
        WalkConcat(ns, ns[i].children[p[0]], p[1..], q);
      }
    }
  }

  lemma WalkOne(ns: seq<Node>, i: nat, l: bytes)
    requires Closed(ns) && i < |ns|
    ensures Walk(ns, i, [l]) == if l in ns[i].children then Some(ns[i].children[l]) else None
  {
    var path := [l];
    assert path[1..] == [];
  }

  /** Depth d of path is node cur, and best is the answer of the shorter names. */
  lemma {:induction false} MatchFromIsRules(ns: seq<Node>, rules: Rules, path: seq<bytes>, d: nat, cur: nat, best: Answer)
    requires Closed(ns) && |ns| > 0 && cur < |ns| && d <= |path|
    requires HoldsRules(ns, rules)
    requires Walk(ns, 0, path[..d]) == Some(cur)
    requires best == if d == 0 then NO_MATCH else BestInherit(rules, path, d - 1)
    ensures MatchFrom(ns, cur, path[d..], d, best) == MatchRules(rules, path)
    decreases |path| - d
  {
    assert RuleAt(ns, path[..d]) == Lookup(rules, path[..d]);
    if d == |path| {
      assert path[..d] == path;
    } else {
      var l := path[d];
      assert path[..d + 1] == path[..d] + [l] && path[d..][1..] == path[d + 1..];
      WalkConcat(ns, 0, path[..d], [l]);
      WalkOne(ns, cur, l);
      if l in ns[cur].children {
        MatchFromIsRules(ns, rules, path, d + 1, ns[cur].children[l], BestInherit(rules, path, d));
      } else {
        NothingBelow(ns, rules, path, d, |path|);
        assert path[..|path|] == path;
      }
    }
  }

  /** Past the end of the trie no rule can match. */
  lemma {:induction false} NothingBelow(ns: seq<Node>, rules: Rules, path: seq<bytes>, d: nat, n: nat)
    requires Closed(ns) && |ns| > 0 && d < |path| && d <= n <= |path|
    requires HoldsRules(ns, rules)
    requires Walk(ns, 0, path[..d + 1]).None?
    ensures BestInherit(rules, path, n) == BestInherit(rules, path, d)
    ensures n > d ==> path[..n] !in rules
    decreases n
  {
    if n > d {
      assert path[..n] == path[..d + 1] + path[d + 1..n];
      WalkConcat(ns, 0, path[..d + 1], path[d + 1..n]);
      assert RuleAt(ns, path[..n]) == Lookup(rules, path[..n]);
      NothingBelow(ns, rules, path, d, n - 1);
    }
  }

  /** Matching against a trie that holds the rules is matching against the rules. */
  lemma MatchTrieIsRules(ns: seq<Node>, rules: Rules, path: seq<bytes>)
    requires Closed(ns) && |ns| > 0 && HoldsRules(ns, rules)
    ensures MatchTrie(ns, path) == MatchRules(rules, path)
  {
    assert path[0..] == path;
    MatchFromIsRules(ns, rules, path, 0, 0, NO_MATCH);
  }

  // ---------------------------------------------------------------------------------
  // Adding rules
  // ---------------------------------------------------------------------------------

  function Reversed<T>(s: seq<T>): (r: seq<T>)
    ensures |r| == |s|
  {
    seq(|s|, k requires 0 <= k < |s| => s[|s| - 1 - k])
  }

  lemma ReversedPrefix<T>(s: seq<T>, d: nat)
    requires d < |s|
    ensures Reversed(s)[..d + 1] == Reversed(s)[..d] + [s[|s| - 1 - d]]
  {
  }

  /** A tree that newNode and Add built: children come after their parents, and each node has one path. */
  ghost predicate Shaped(ns: seq<Node>, paths: seq<seq<bytes>>) {
    && |ns| == |paths| > 0 && Closed(ns) && paths[0] == []
    && (forall i | 0 <= i < |ns| :: forall l <- ns[i].children ::
          i < ns[i].children[l] && paths[ns[i].children[l]] == paths[i] + [l])
    && (forall k | 0 <= k < |ns| :: Walk(ns, 0, paths[k]) == Some(k))
    && (forall k | 0 <= k < |ns| :: !ns[k].hasData ==> !ns[k].inherit && ns[k].dataOff == 0)
  }

  lemma {:induction false} WalkGivesPath(ns: seq<Node>, paths: seq<seq<bytes>>, i: nat, p: seq<bytes>)
    requires Shaped(ns, paths) && i < |ns| && Walk(ns, i, p).Some?
    ensures paths[Walk(ns, i, p).value] == paths[i] + p
    decreases |p|
  {
    if p == [] {
      assert paths[i] + p == paths[i];
    } else {
      WalkGivesPath(ns, paths, ns[i].children[p[0]], p[1..]);
      assert paths[i] + [p[0]] + p[1..] == paths[i] + p;
    }
  }

  /** The trie with a new empty child below node i. */
  function Grown(ns: seq<Node>, i: nat, l: bytes): seq<Node>
    requires i < |ns|
  {
    ns[i := ns[i].(children := ns[i].children[l := |ns|])] + [EMPTY_NODE]
  }

  lemma {:induction false} WalkGrown(ns: seq<Node>, i: nat, l: bytes, from: nat, p: seq<bytes>)
    requires Closed(ns) && i < |ns| && from < |ns| && l !in ns[i].children
    ensures Closed(Grown(ns, i, l))
    ensures var r, r' := Walk(ns, from, p), Walk(Grown(ns, i, l), from, p);
      if r.Some? then r' == r else r' == None || r' == Some(|ns|)
    decreases |p|
  {
    if p != [] {
      var ns' := Grown(ns, i, l);
      if p[0] in ns[from].children {
        WalkGrown(ns, i, l, ns[from].children[p[0]], p[1..]);
      } else if p[0] in ns'[from].children {
        assert ns'[from].children[p[0]] == |ns| && ns'[|ns|] == EMPTY_NODE;
      }
    }
  }

  lemma GrownWalks(ns: seq<Node>, paths: seq<seq<bytes>>, i: nat, l: bytes, k: nat)
    requires Shaped(ns, paths) && i < |ns| && l !in ns[i].children && k <= |ns|
    ensures Closed(Grown(ns, i, l))
    ensures Walk(Grown(ns, i, l), 0, (paths + [paths[i] + [l]])[k]) == Some(k)
  {
    if k < |ns| {
      WalkGrown(ns, i, l, 0, paths[k]);
    } else {
      WalkGrown(ns, i, l, 0, paths[i]);
      WalkConcat(Grown(ns, i, l), 0, paths[i], [l]);
      WalkOne(Grown(ns, i, l), i, l);
    }
  }

  /** A new node keeps the shape and adds no rule. */
  lemma GrownKeeps(ns: seq<Node>, paths: seq<seq<bytes>>, i: nat, l: bytes)
    requires Shaped(ns, paths) && i < |ns| && l !in ns[i].children
    ensures Shaped(Grown(ns, i, l), paths + [paths[i] + [l]])
    ensures forall rules | HoldsRules(ns, rules) :: HoldsRules(Grown(ns, i, l), rules)
  {
    hide Walk;
    var ns', paths' := Grown(ns, i, l), paths + [paths[i] + [l]];
    forall k | 0 <= k < |ns'|
      ensures Closed(ns') && Walk(ns', 0, paths'[k]) == Some(k)
    {
      GrownWalks(ns, paths, i, l, k);
    }
    GrownWalks(ns, paths, i, l, 0);
    forall p
      ensures RuleAt(ns', p) == RuleAt(ns, p)
    {
      WalkGrown(ns, i, l, 0, p);
    }
    forall rules | HoldsRules(ns, rules)
      ensures HoldsRules(ns', rules)
    {
      assert forall p :: RuleAt(ns, p) == Lookup(rules, p);
    }
  }

  /** The trie with a rule put at node k. */
  function WithRule(ns: seq<Node>, k: nat, rule: Rule): seq<Node>
    requires k < |ns|
  {
    ns[k := Node(true, rule.inherit, rule.dataOff, ns[k].children)]
  }

  lemma {:induction false} WalkWithRule(ns: seq<Node>, k: nat, rule: Rule, from: nat, p: seq<bytes>)
    requires Closed(ns) && k < |ns| && from < |ns|
    ensures Closed(WithRule(ns, k, rule)) && Walk(WithRule(ns, k, rule), from, p) == Walk(ns, from, p)
    decreases |p|
  {
    if p != [] && p[0] in ns[from].children {
      WalkWithRule(ns, k, rule, ns[from].children[p[0]], p[1..]);
    }
  }

  /** A rule at a node changes the rule of that node's path, and no other. */
  lemma WithRuleSets(ns: seq<Node>, paths: seq<seq<bytes>>, k: nat, rule: Rule)
    requires Shaped(ns, paths) && k < |ns|
    ensures Shaped(WithRule(ns, k, rule), paths)
    ensures forall rules | HoldsRules(ns, rules) :: HoldsRules(WithRule(ns, k, rule), rules[paths[k] := rule])
  {
    var ns' := WithRule(ns, k, rule);
    WalkWithRule(ns, k, rule, 0, []);
    forall j | 0 <= j < |ns|
      ensures Walk(ns', 0, paths[j]) == Some(j)
    {
      WalkWithRule(ns, k, rule, 0, paths[j]);
    }
    forall p
      ensures RuleAt(ns', p) == if p == paths[k] then Some(rule) else RuleAt(ns, p)
    {
      WalkWithRule(ns, k, rule, 0, p);
      if Walk(ns, 0, p).Some? {
        WalkGivesPath(ns, paths, 0, p);
        assert [] + p == p;
      }
    }
    forall rules | HoldsRules(ns, rules)
      ensures HoldsRules(ns', rules[paths[k] := rule])
    {
      assert forall p :: RuleAt(ns, p) == Lookup(rules, p);
    }
  }

  lemma GrownSteps(ns: seq<Node>, i: nat, l: bytes)
    requires i < |ns|
    ensures var ns' := ns + [EMPTY_NODE];
      ns'[i := ns'[i].(children := ns'[i].children[l := |ns|])] == Grown(ns, i, l)
  {
  }

  lemma SamePathCount(ns: seq<Node>, paths: seq<seq<bytes>>)
    requires Shaped(ns, paths)
    ensures |ns| == |paths| > 0
  {
  }

  datatype TreeError = TooManyNodes

  /** How many nodes are missing on a path. */
  function Missing(ns: seq<Node>, i: nat, path: seq<bytes>): nat
    requires Closed(ns) && i < |ns|
    decreases |path|
  {
    if path == [] then 0
    else if path[0] in ns[i].children then Missing(ns, ns[i].children[path[0]], path[1..])
    else |path|
  }

  lemma MissingStep(ns: seq<Node>, i: nat, path: seq<bytes>)
    requires Closed(ns) && i < |ns|
    ensures path == [] ==> Missing(ns, i, path) == 0
    ensures path != [] && path[0] !in ns[i].children ==> Missing(ns, i, path) >= 1
    ensures path != [] && path[0] in ns[i].children ==>
      Missing(ns, i, path) == Missing(ns, ns[i].children[path[0]], path[1..])
  {
  }

  /** A new child takes care of one of them. */
  lemma MissingBelowNew(ns: seq<Node>, parent: nat, path: seq<bytes>)
    requires Closed(ns) && parent < |ns| && path != [] && path[0] !in ns[parent].children
    requires Closed(Grown(ns, parent, path[0]))
    ensures Missing(ns, parent, path) == Missing(Grown(ns, parent, path[0]), |ns|, path[1..]) + 1
  {
  }

  class Tree {
    var nodes: seq<Node>
    var assignedIdx: nat
    ghost var paths: seq<seq<bytes>>
    ghost var rules: Rules

    /** The trie holds exactly the rules. */
    ghost predicate Valid()
      reads this
    {
      Shaped(nodes, paths) && |nodes| == assignedIdx + 1 <= MAX_INT32 && HoldsRules(nodes, rules)
    }

    constructor ()
      ensures Valid() && rules == map[]
    {
      nodes, assignedIdx, paths, rules := [EMPTY_NODE], 0, [[]], map[];
    }

    /** newNode, and the link to it from its parent. */
    method NewChild(parent: nat, l: bytes) returns (r: Result<nat, TreeError>)
      requires Valid() && parent < |nodes| && l !in nodes[parent].children
      modifies this
      ensures Valid() && rules == old(rules)
      ensures r.Ok? <==> old(assignedIdx) < MAX_INT32 - 1
      ensures if r.Err? then nodes == old(nodes)
        else
          && nodes == Grown(old(nodes), parent, l) && r.value == |old(nodes)|
          && paths == old(paths) + [old(paths)[parent] + [l]]
    {
      SamePathCount(nodes, paths);
      hide Walk, RuleAt, Shaped, HoldsRules, Grown, Closed;
      if assignedIdx >= MAX_INT32 - 1 {
        return Err(TooManyNodes);
      }
      assignedIdx := assignedIdx + 1;
      ghost var grown := Grown(nodes, parent, l);
      GrownKeeps(nodes, paths, parent, l);
      GrownSteps(nodes, parent, l);
      paths := paths + [paths[parent] + [l]];
      nodes := nodes + [EMPTY_NODE];
      nodes := nodes[parent := nodes[parent].(children := nodes[parent].children[l := assignedIdx])];
      assert nodes == grown;
      return Ok(assignedIdx);
    }

    /** Add: the last rule given for a name is the one that counts. */
    method Add(labels: seq<bytes>, dataOff: int64, inherit: bool) returns (r: Result<(), TreeError>)
      requires Valid()
      modifies this
      ensures Valid()
      ensures r.Ok? <==> old(assignedIdx) + old(Missing(nodes, 0, Reversed(labels))) < MAX_INT32
      ensures rules == if r.Ok? then old(rules)[Reversed(labels) := Rule(dataOff, inherit)] else old(rules)
    {
      hide Walk, RuleAt, HoldsRules, Missing;
      ghost var path := Reversed(labels);
      var curNode: nat := 0;
      var i := |labels| - 1;
      while i >= 0
        invariant -1 <= i < |labels|
        invariant Valid() && rules == old(rules)
        invariant curNode < |nodes| && paths[curNode] == path[..|labels| - 1 - i]
        invariant assignedIdx + Missing(nodes, curNode, path[|labels| - 1 - i..])
          == old(assignedIdx) + old(Missing(nodes, 0, Reversed(labels)))
      {
        var l := labels[i];
        ghost var d := |labels| - 1 - i;
        ReversedPrefix(labels, d);
        MissingStep(nodes, curNode, path[d..]);
        assert path[d..][0] == l && path[d..][1..] == path[d + 1..];
        if l in nodes[curNode].children {
          curNode := nodes[curNode].children[l];
        } else {
          ghost var ns, parent := nodes, curNode;
          curNode :- NewChild(curNode, l);
          MissingBelowNew(ns, parent, path[d..]);
        }
        i := i - 1;
      }
      assert path[..|labels|] == path && path[|labels|..] == [];
      MissingStep(nodes, curNode, []);
      WithRuleSets(nodes, paths, curNode, Rule(dataOff, inherit));
      nodes := nodes[curNode := Node(true, inherit, dataOff, nodes[curNode].children)];
      rules := rules[path := Rule(dataOff, inherit)];
      return Ok(());
    }
  }
}
