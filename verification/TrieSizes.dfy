/**
 How much of its two sections a compiled tree needs (internal/domain_matcher/compiled_tree.go,
 buildIdx): one index entry for every node but the root, and the bytes of every label, each time
 it occurs.
 */
module TrieSizes {
  import opened Wrappers
  import opened WireBytes
  import opened DomainTrie

  /** Children come after their parents. */
  predicate Downward(ns: seq<Node>) {
    Closed(ns) && forall i | 0 <= i < |ns| :: forall l <- ns[i].children :: i < ns[i].children[l]
  }

  /** What a child takes in the label section, or in the index section. */
  function Cost(l: bytes, index: bool): nat {
    if index then 1 else |l|
  }

  ghost function SumCosts(s: set<bytes>, index: bool): nat {
    if s == {} then 0
    else
      var l :| l in s;
      Cost(l, index) + SumCosts(s - {l}, index)
  }

  lemma {:induction false} SumCostsWithout(s: set<bytes>, index: bool, l: bytes)
    requires l in s
    ensures SumCosts(s, index) == Cost(l, index) + SumCosts(s - {l}, index)
  {
    var first :| first in s && SumCosts(s, index) == Cost(first, index) + SumCosts(s - {first}, index);
    if first != l {
      SumCostsWithout(s - {first}, index, l);
      SumCostsWithout(s - {l}, index, first);
      assert s - {first} - {l} == s - {l} - {first};
    }
  }

  lemma {:induction false} SumOfOnes(s: set<bytes>)
    ensures SumCosts(s, true) == |s|
  {
    if l :| l in s {
      SumCostsWithout(s, true, l);
      SumOfOnes(s - {l});
    }
  }

  /** What node i and everything below it take in one of the two sections. */
  ghost function Size(ns: seq<Node>, i: nat, index: bool): nat
    requires Downward(ns) && i < |ns|
    decreases |ns| - i, |ns[i].children| + 1
  {
    SumCosts(ns[i].children.Keys, index) + SumBelow(ns, i, ns[i].children.Keys, index)
  }

  ghost function SumBelow(ns: seq<Node>, i: nat, s: set<bytes>, index: bool): nat
    requires Downward(ns) && i < |ns| && s <= ns[i].children.Keys
    decreases |ns| - i, |s|
  {
    if s == {} then 0
    else
      var l :| l in s;
      Size(ns, ns[i].children[l], index) + SumBelow(ns, i, s - {l}, index)
  }

  lemma {:induction false} SumBelowWithout(ns: seq<Node>, i: nat, s: set<bytes>, index: bool, l: bytes)
    requires Downward(ns) && i < |ns| && s <= ns[i].children.Keys && l in s
    ensures SumBelow(ns, i, s, index) == Size(ns, ns[i].children[l], index) + SumBelow(ns, i, s - {l}, index)
    decreases |s|
  {
    var first :| first in s &&
      SumBelow(ns, i, s, index) == Size(ns, ns[i].children[first], index) + SumBelow(ns, i, s - {first}, index);
    if first != l {
      SumBelowWithout(ns, i, s - {first}, index, l);
      SumBelowWithout(ns, i, s - {l}, index, first);
      assert s - {first} - {l} == s - {l} - {first};
    }
  }

  // ---------------------------------------------------------------------------------
  // The index section
  // ---------------------------------------------------------------------------------

  /** The nodes below node i whose path goes on with one of these labels. */
  function Via(ns: seq<Node>, paths: seq<seq<bytes>>, i: nat, s: set<bytes>): set<nat>
    requires i < |ns| == |paths|
  {
    set k: nat | k < |ns| && |paths[k]| > |paths[i]| && paths[k][..|paths[i]|] == paths[i] && paths[k][|paths[i]|] in s
  }

  /** A path that goes on with label l leads to the child at l or below it. */
  lemma ViaChild(ns: seq<Node>, paths: seq<seq<bytes>>, i: nat, l: bytes, k: nat)
    requires Shaped(ns, paths) && i < |ns| && l in ns[i].children
    ensures var c := ns[i].children[l];
      k in Via(ns, paths, i, {l}) <==> k == c || k in Via(ns, paths, c, ns[c].children.Keys)
  {
    var c := ns[i].children[l];
    assert paths[c] == paths[i] + [l];
    if k in Via(ns, paths, i, {l}) {
      BeyondChild(ns, paths, c, k);
    }
    if k in Via(ns, paths, c, ns[c].children.Keys) {
      assert paths[k][..|paths[i]|] == paths[c][..|paths[i]|] == paths[i];
      assert paths[k][|paths[i]|] == paths[k][..|paths[c]|][|paths[i]|];
    }
  }

  lemma BeyondChild(ns: seq<Node>, paths: seq<seq<bytes>>, c: nat, k: nat)
    requires Shaped(ns, paths) && c < |ns| && k < |ns| && |paths[k]| >= |paths[c]| && paths[k][..|paths[c]|] == paths[c]
    ensures k == c || k in Via(ns, paths, c, ns[c].children.Keys)
  {
    var tail := paths[k][|paths[c]|..];
    assert paths[k] == paths[c] + tail;
    WalkConcat(ns, 0, paths[c], tail);
    assert Walk(ns, c, tail) == Some(k);
  }

  lemma {:induction false} SizeCounts(ns: seq<Node>, paths: seq<seq<bytes>>, i: nat)
    requires Shaped(ns, paths) && Downward(ns) && i < |ns|
    ensures Size(ns, i, true) == |Via(ns, paths, i, ns[i].children.Keys)|
    decreases |ns| - i, |ns[i].children| + 1
  {
    SumCounts(ns, paths, i, ns[i].children.Keys);
  }

  lemma {:induction false} SumCounts(ns: seq<Node>, paths: seq<seq<bytes>>, i: nat, s: set<bytes>)
    requires Shaped(ns, paths) && Downward(ns) && i < |ns| && s <= ns[i].children.Keys
    ensures SumCosts(s, true) + SumBelow(ns, i, s, true) == |Via(ns, paths, i, s)|
    decreases |ns| - i, |s|
  {
    if l :| l in s {
      var c := ns[i].children[l];
      SumCostsWithout(s, true, l);
      SumBelowWithout(ns, i, s, true, l);
      SumCounts(ns, paths, i, s - {l});
      SizeCounts(ns, paths, c);
      ViaSplits(ns, paths, i, s, l);
    } else {
      assert Via(ns, paths, i, s) == {};
    }
  }

  lemma ViaSplits(ns: seq<Node>, paths: seq<seq<bytes>>, i: nat, s: set<bytes>, l: bytes)
    requires Shaped(ns, paths) && i < |ns| && s <= ns[i].children.Keys && l in s
    ensures var c := ns[i].children[l];
      |Via(ns, paths, i, s)| == |Via(ns, paths, i, s - {l})| + 1 + |Via(ns, paths, c, ns[c].children.Keys)|
  {
    var c := ns[i].children[l];
    var part, rest := Via(ns, paths, c, ns[c].children.Keys), Via(ns, paths, i, s - {l});
    forall k: nat
      ensures k in Via(ns, paths, i, {l}) <==> k == c || k in part
    {
      ViaChild(ns, paths, i, l, k);
    }
    assert Via(ns, paths, i, s) == rest + Via(ns, paths, i, {l});
    assert Via(ns, paths, i, {l}) == {c} + part;
    assert rest !! ({c} + part) && c !in part;
  }

  lemma {:induction false} Few(s: set<nat>, n: nat)
    requires forall k <- s :: k < n
    ensures |s| <= n
  {
    if n > 0 {
      Few(s - {n - 1}, n - 1);
    } else {
      assert s == {};
    }
  }

  /** One entry for every node but the root: the index section of a tree cannot overflow. */
  lemma IndexFits(ns: seq<Node>, paths: seq<seq<bytes>>)
    requires Shaped(ns, paths) && Downward(ns)
    ensures Size(ns, 0, true) <= |ns| - 1
  {
    SizeCounts(ns, paths, 0);
    Few(Via(ns, paths, 0, ns[0].children.Keys) + {0}, |ns|);
  }
}
