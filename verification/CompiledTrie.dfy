/**
 The compiled trie (internal/domain_matcher/compiled_tree.go): flat arrays of nodes, of sorted
 child index segments and of label bytes, searched by binary search.
 */
module CompiledTrie {
  import opened WireBytes
  import opened ByteOrder
  import opened DomainTrie

  /** An address of a run of elements. */
  datatype SegAddr = SegAddr(off: int32, l: int32)

  datatype CompiledNode = CompiledNode(childIdxSeg: SegAddr, dataOff: int64, stat: byte)

  datatype IdxNode = IdxNode(labelSeg: SegAddr, childIdx: int32)

  /** The arrays of a compiled tree. */
  datatype Arrays = Arrays(nodes: seq<CompiledNode>, idxNodes: seq<IdxNode>, labels: bytes)

  const ZERO_NODE := CompiledNode(SegAddr(0, 0), 0, 0)

  /** stat & statHasData */
  predicate HasData(stat: byte) {
    stat % 2 == 1
  }

  /** stat & statInherit */
  predicate Inherits(stat: byte) {
    stat / 2 % 2 == 1
  }

  /** The segment lies within n elements. */
  predicate Within(sa: SegAddr, n: nat) {
    0 <= sa.off && 0 <= sa.l && sa.off + sa.l <= n
  }

  /** seg, where it does not fail. */
  function Seg<T>(s: seq<T>, sa: SegAddr): seq<T>
    requires Within(sa, |s|)
  {
    s[sa.off..sa.off + sa.l]
  }

  function LabelOf(x: IdxNode, labels: bytes): bytes
    requires Within(x.labelSeg, |labels|)
  {
    Seg(labels, x.labelSeg)
  }

  /** The labels of these index nodes are there, and in strictly ascending order. */
  predicate Ascending(xs: seq<IdxNode>, labels: bytes) {
    && (forall x <- xs :: Within(x.labelSeg, |labels|))
    && (forall j, k | 0 <= j < k < |xs| :: Less(LabelOf(xs[j], labels), LabelOf(xs[k], labels)))
  }

  /** Node i can be searched: its segment, its labels and its children are there, and sorted. */
  predicate NodeSafe(a: Arrays, i: nat)
    requires i < |a.nodes|
  {
    && Within(a.nodes[i].childIdxSeg, |a.idxNodes|)
    && var xs := Seg(a.idxNodes, a.nodes[i].childIdxSeg);
    && Ascending(xs, a.labels)
    && forall x <- xs :: 0 <= x.childIdx < |a.nodes|
  }

  predicate Safe(a: Arrays) {
    forall i | 0 <= i < |a.nodes| :: NodeSafe(a, i)
  }

  // ---------------------------------------------------------------------------------
  // The trie that the arrays stand for
  // ---------------------------------------------------------------------------------

  /** Children by label. */
  function ChildMap(xs: seq<IdxNode>, labels: bytes): (m: map<bytes, nat>)
    requires (forall x <- xs :: Within(x.labelSeg, |labels|)) && forall x <- xs :: 0 <= x.childIdx
    ensures forall l <- m :: exists x <- xs :: LabelOf(x, labels) == l && x.childIdx == m[l]
    ensures forall x <- xs :: LabelOf(x, labels) in m
  {
    if xs == [] then map[]
    else ChildMap(xs[1..], labels)[LabelOf(xs[0], labels) := xs[0].childIdx]
  }

  function DecompiledNode(a: Arrays, i: nat): (n: Node)
    requires i < |a.nodes| && NodeSafe(a, i)
    ensures forall l <- n.children :: n.children[l] < |a.nodes|
  {
    var c := a.nodes[i];
    Node(HasData(c.stat), Inherits(c.stat), c.dataOff, ChildMap(Seg(a.idxNodes, c.childIdxSeg), a.labels))
  }

  function Decompiled(a: Arrays): (ns: seq<Node>)
    requires Safe(a)
    ensures |ns| == |a.nodes| && Closed(ns)
  {
    var ns := seq(|a.nodes|, i requires 0 <= i < |a.nodes| => assert NodeSafe(a, i); DecompiledNode(a, i));
    assert forall i | 0 <= i < |ns| :: NodeSafe(a, i) && ns[i] == DecompiledNode(a, i);
    ns
  }

  lemma DecompiledAt(a: Arrays, i: nat)
    requires Safe(a) && i < |a.nodes|
    ensures NodeSafe(a, i) && Decompiled(a)[i] == DecompiledNode(a, i)
  {
    assert NodeSafe(a, i);
  }

  /** With ascending labels, each label leads to its own child. */
  lemma {:induction false} ChildMapAt(xs: seq<IdxNode>, labels: bytes, k: nat)
    requires Ascending(xs, labels) && k < |xs| && forall x <- xs :: 0 <= x.childIdx
    ensures LabelOf(xs[k], labels) in ChildMap(xs, labels)
    ensures ChildMap(xs, labels)[LabelOf(xs[k], labels)] == xs[k].childIdx
  {
    if k > 0 {
      assert Less(LabelOf(xs[0], labels), LabelOf(xs[k], labels));
      ChildMapAt(xs[1..], labels, k - 1);
    }
  }

  // ---------------------------------------------------------------------------------
  // Searching
  // ---------------------------------------------------------------------------------

  /** binarySearchIdx: the index of target among the labels, or -1. */
  method BinarySearchIdx(s: seq<IdxNode>, labels: bytes, target: bytes) returns (r: int)
    requires Ascending(s, labels)
    ensures r == -1 || 0 <= r < |s|
    ensures if r == -1 then forall x <- s :: LabelOf(x, labels) != target else LabelOf(s[r], labels) == target
  {
    var i, j := 0, |s|;
    while i < j
      invariant 0 <= i <= j <= |s|
      invariant forall k | 0 <= k < i :: Less(LabelOf(s[k], labels), target)
      invariant forall k | j <= k < |s| :: !Less(LabelOf(s[k], labels), target)
    {
      var h := (i + j) / 2;
      if Less(Seg(labels, s[h].labelSeg), target) {
        forall k | 0 <= k < h
          ensures Less(LabelOf(s[k], labels), target)
        {
          LessTrans(LabelOf(s[k], labels), LabelOf(s[h], labels), target);
        }
        i := h + 1;
      } else {
        forall k | h < k < |s|
          ensures !Less(LabelOf(s[k], labels), target)
        {
          if Less(LabelOf(s[k], labels), target) {
            LessTrans(LabelOf(s[h], labels), LabelOf(s[k], labels), target);
          }
        }
        j := h;
      }
    }
    if i < |s| && Seg(labels, s[i].labelSeg) == target {
      return i;
    }
    forall k | 0 <= k < |s|
      ensures LabelOf(s[k], labels) != target
    {
      if k > i {
        assert Less(LabelOf(s[i], labels), LabelOf(s[k], labels));
      }
    }
    return -1;
  }

  /** What is left of the match once node cur has been looked at. */
  ghost function Continued(ns: seq<Node>, cur: nat, path: seq<bytes>, i: nat, best: Answer): Answer
    requires Closed(ns) && cur < |ns|
  {
    var n := ns[cur];
    if path == [] then (if n.hasData && !n.inherit then (n.dataOff, i - 1) else best)
    else if path[0] in n.children then MatchFrom(ns, n.children[path[0]], path[1..], i + 1, best)
    else best
  }

  /** The rule of a child on the way, if it is inherited, is the best so far. */
  ghost function Better(n: Node, i: nat, best: Answer): Answer {
    if n.hasData && n.inherit then (n.dataOff, i - 1) else best
  }

  lemma MatchStart(ns: seq<Node>, path: seq<bytes>)
    requires Closed(ns)
    ensures MatchTrie(ns, path) == if ns == [] then NO_MATCH else Continued(ns, 0, path, 0, Better(ns[0], 0, NO_MATCH))
  {
  }

  lemma ContinuedStep(ns: seq<Node>, cur: nat, path: seq<bytes>, i: nat, best: Answer)
    requires Closed(ns) && cur < |ns| && path != []
    ensures Continued(ns, cur, path, i, best) ==
      if path[0] !in ns[cur].children then best
      else
        var c := ns[cur].children[path[0]];
        Continued(ns, c, path[1..], i + 1, Better(ns[c], i + 1, best))
  {
  }

  /** One level down: the search finds the child the trie has for the label, if any. */
  method Step(e: Arrays, cur: nat, target: bytes) returns (child: int)
    requires Safe(e) && cur < |e.nodes|
    ensures var m := Decompiled(e)[cur].children;
      if child < 0 then target !in m else child < |e.nodes| && target in m && m[target] == child
  {
    DecompiledAt(e, cur);
    var idxSeg := Seg(e.idxNodes, e.nodes[cur].childIdxSeg);
    ghost var m := DecompiledNode(e, cur).children;
    var elemIdx := BinarySearchIdx(idxSeg, e.labels, target);
    if elemIdx < 0 {
      return -1;
    }
    ChildMapAt(idxSeg, e.labels, elemIdx);
    return idxSeg[elemIdx].childIdx;
  }

  /** The labels after the first i, from the top-level label down. */
  ghost predicate IsRest(rest: seq<bytes>, labels: seq<bytes>, i: nat) {
    i <= |labels| && rest == Reversed(labels)[i..]
  }

  lemma RestStep(rest: seq<bytes>, labels: seq<bytes>, i: nat)
    requires IsRest(rest, labels, i) && i < |labels|
    ensures rest != [] && rest[0] == labels[|labels| - 1 - i] && IsRest(rest[1..], labels, i + 1)
  {
  }

  lemma RestEnds(rest: seq<bytes>, labels: seq<bytes>)
    ensures rest == Reversed(labels) ==> IsRest(rest, labels, 0)
    ensures IsRest(rest, labels, |labels|) ==> rest == []
  {
  }

  /** What Match remembers of a node at level i: inherited data, or a full match so far. */
  method Take(c: CompiledNode, i: int, dataOff: int64, lvl: int)
    returns (dataOff': int64, lvl': int, fm: bool, fmOff: int64, fmLvl: int)
    ensures (dataOff', lvl') == if HasData(c.stat) && Inherits(c.stat) then (c.dataOff, i) else (dataOff, lvl)
    ensures fm == (HasData(c.stat) && !Inherits(c.stat))
    ensures fm ==> fmOff == c.dataOff && fmLvl == i
  {
    dataOff', lvl' := dataOff, lvl;
    fm, fmOff, fmLvl := false, 0, 0;
    if HasData(c.stat) {
      if Inherits(c.stat) {
        dataOff', lvl' := c.dataOff, i;
      } else {
        fm, fmOff, fmLvl := true, c.dataOff, i;
      }
    }
  }

  /** Match: searching the arrays is matching against the trie they stand for. */
  method Match(e: Arrays, labels: seq<bytes>) returns (dataOff: int64, lvl: int)
    requires Safe(e)
    ensures (dataOff, lvl) == MatchTrie(Decompiled(e), Reversed(labels))
  {
    ghost var ns, rest := Decompiled(e), Reversed(labels);
    ghost var answer := MatchTrie(ns, rest);
    MatchStart(ns, rest);
    RestEnds(rest, labels);
    hide IsRest, Closed, Safe, ChildMap, MatchFrom, MatchTrie, Continued, Decompiled, HasData, Inherits;
    dataOff, lvl := 0, -2;
    if |e.nodes| == 0 {
      return;
    }
    var cur: nat := 0;
    var curNode := e.nodes[0];
    DataOfNode(e, 0);
    var fm, fmOff, fmLvl := false, 0, 0;
    dataOff, lvl, fm, fmOff, fmLvl := Take(curNode, -1, dataOff, lvl);
    var i := 0;
    while i < |labels|
      invariant 0 <= i <= |labels| && cur < |ns| && curNode == e.nodes[cur]
      invariant IsRest(rest, labels, i)
      invariant answer == Continued(ns, cur, rest, i, (dataOff, lvl))
      invariant fm <==> HasData(curNode.stat) && !Inherits(curNode.stat)
      invariant fm ==> fmOff == curNode.dataOff && fmLvl == i - 1
    {
      var target := labels[|labels| - 1 - i];
      RestStep(rest, labels, i);
      ContinuedStep(ns, cur, rest, i, (dataOff, lvl));
      var childIdx := Step(e, cur, target);
      if childIdx < 0 {
        return;
      }
      cur := childIdx;
      curNode := e.nodes[childIdx];
      DataOfNode(e, cur);
      dataOff, lvl, fm, fmOff, fmLvl := Take(curNode, i, dataOff, lvl);
      i := i + 1;
      rest := rest[1..];
    }
    RestEnds(rest, labels);
    ContinuedEnd(ns, cur, i, (dataOff, lvl));
    DataOfNode(e, cur);
    if fm {
      return fmOff, fmLvl;
    }
  }

  lemma DataOfNode(e: Arrays, k: nat)
    requires Safe(e) && k < |e.nodes|
    ensures var n, c := Decompiled(e)[k], e.nodes[k];
      n.hasData == HasData(c.stat) && n.inherit == Inherits(c.stat) && n.dataOff == c.dataOff
  {
    DecompiledAt(e, k);
  }

  lemma ContinuedEnd(ns: seq<Node>, cur: nat, i: nat, best: Answer)
    requires Closed(ns) && cur < |ns|
    ensures Continued(ns, cur, [], i, best) ==
      if ns[cur].hasData && !ns[cur].inherit then (ns[cur].dataOff, i - 1) else best
  {
  }
}
