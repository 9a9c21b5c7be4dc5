/**
 The compiler from the trie to arrays (internal/domain_matcher/compiled_tree.go, Compile,
 compileNodes, buildIdx; append32bs of utils.go). Maps are iterated in any order.
 */
module TrieCompiler {
  import opened Wrappers
  import opened WireBytes
  import opened ByteOrder
  import opened DomainTrie
  import opened CompiledTrie
  import opened TrieSizes

  datatype CompileError = LabelSectionOverflowed | IndexSectionOverflowed

  // ---------------------------------------------------------------------------------
  // Nodes that are done
  // ---------------------------------------------------------------------------------

  /** Everything below node i is in good. */
  ghost predicate AllBelow(ns: seq<Node>, i: nat, good: set<nat>)
    requires Closed(ns) && i < |ns|
  {
    forall p :: Walk(ns, i, p).Some? ==> Walk(ns, i, p).value in good
  }

  lemma BelowFromChildren(ns: seq<Node>, i: nat, good: set<nat>)
    requires Closed(ns) && i < |ns| && i in good
    requires forall l <- ns[i].children :: AllBelow(ns, ns[i].children[l], good)
    ensures AllBelow(ns, i, good)
  {
    forall p | Walk(ns, i, p).Some?
      ensures Walk(ns, i, p).value in good
    {
      if p != [] {
        assert AllBelow(ns, ns[i].children[p[0]], good);
        assert Walk(ns, ns[i].children[p[0]], p[1..]).value in good;
      }
    }
  }

  lemma BelowGrows(ns: seq<Node>, i: nat, good: set<nat>, good': set<nat>)
    requires Closed(ns) && i < |ns| && AllBelow(ns, i, good) && good <= good'
    ensures AllBelow(ns, i, good')
  {
  }

  /** The node's rule has been copied. */
  predicate DataDone(c: CompiledNode, n: Node) {
    HasData(c.stat) == n.hasData && Inherits(c.stat) == n.inherit && c.dataOff == n.dataOff
  }

  ghost function DataGood(nodes: seq<CompiledNode>, ns: seq<Node>): set<nat>
    requires |nodes| == |ns|
  {
    set k | 0 <= k < |ns| && DataDone(nodes[k], ns[k])
  }

  /** The index nodes list exactly these children, by ascending label. */
  ghost predicate Lists(xs: seq<IdxNode>, labels: bytes, children: map<bytes, nat>) {
    && Ascending(xs, labels)
    && (forall x <- xs :: LabelOf(x, labels) in children && x.childIdx == children[LabelOf(x, labels)])
    && (forall l <- children :: exists x <- xs :: LabelOf(x, labels) == l)
  }

  /** The node's children can be found. */
  ghost predicate IdxDone(sa: SegAddr, idxNodes: seq<IdxNode>, labels: bytes, n: Node) {
    Within(sa, |idxNodes|) && Lists(Seg(idxNodes, sa), labels, n.children)
  }

  ghost function IdxGood(a: Arrays, ns: seq<Node>): set<nat>
    requires |a.nodes| == |ns|
  {
    set k | 0 <= k < |ns| && IdxDone(a.nodes[k].childIdxSeg, a.idxNodes, a.labels, ns[k])
  }

  lemma IdxDoneGrows(sa: SegAddr, idxNodes: seq<IdxNode>, labels: bytes, n: Node, idxNodes': seq<IdxNode>, labels': bytes)
    requires IdxDone(sa, idxNodes, labels, n) && idxNodes <= idxNodes' && labels <= labels'
    ensures IdxDone(sa, idxNodes', labels', n)
  {
    var xs := Seg(idxNodes, sa);
    assert Seg(idxNodes', sa) == xs;
    LabelsGrow(xs, labels, labels');
  }

  lemma LabelsGrow(xs: seq<IdxNode>, labels: bytes, labels': bytes)
    requires labels <= labels' && forall x <- xs :: Within(x.labelSeg, |labels|)
    ensures forall x <- xs :: Within(x.labelSeg, |labels'|) && LabelOf(x, labels') == LabelOf(x, labels)
  {
  }

  // ---------------------------------------------------------------------------------
  // Sorting a segment
  // ---------------------------------------------------------------------------------

  /** Labels are pairwise different. */
  predicate Distinct(xs: seq<IdxNode>, labels: bytes) {
    && (forall x <- xs :: Within(x.labelSeg, |labels|))
    && (forall j, k | 0 <= j < k < |xs| :: LabelOf(xs[j], labels) != LabelOf(xs[k], labels))
  }

  /** Where x belongs among sorted index nodes. */
  function Position(x: IdxNode, xs: seq<IdxNode>, labels: bytes): (k: nat)
    requires Ascending(xs, labels) && Within(x.labelSeg, |labels|)
    requires forall y <- xs :: LabelOf(y, labels) != LabelOf(x, labels)
    ensures k <= |xs|
    ensures forall j | 0 <= j < k :: Less(LabelOf(xs[j], labels), LabelOf(x, labels))
    ensures k < |xs| ==> Less(LabelOf(x, labels), LabelOf(xs[k], labels))
  {
    if xs == [] then 0
    else if Less(LabelOf(x, labels), LabelOf(xs[0], labels)) then 0
    else
      CompareSwaps(LabelOf(x, labels), LabelOf(xs[0], labels));
      1 + Position(x, xs[1..], labels)
  }

  lemma InsertAscending(x: IdxNode, xs: seq<IdxNode>, labels: bytes, k: nat)
    requires Ascending(xs, labels) && Within(x.labelSeg, |labels|) && k <= |xs|
    requires forall j | 0 <= j < k :: Less(LabelOf(xs[j], labels), LabelOf(x, labels))
    requires k < |xs| ==> Less(LabelOf(x, labels), LabelOf(xs[k], labels))
    ensures Ascending(xs[..k] + [x] + xs[k..], labels)
  {
    forall j | k < j < |xs|
      ensures Less(LabelOf(x, labels), LabelOf(xs[j], labels))
    {
      LessTrans(LabelOf(x, labels), LabelOf(xs[k], labels), LabelOf(xs[j], labels));
    }
  }

  /** Any sort by label, as slices.SortFunc promises. */
  method SortIdx(s: seq<IdxNode>, labels: bytes) returns (t: seq<IdxNode>)
    requires Distinct(s, labels)
    ensures Ascending(t, labels) && |t| == |s| && forall x :: x in t <==> x in s
  {
    t := [];
    var i := 0;
    while i < |s|
      invariant 0 <= i <= |s| && |t| == i
      invariant Ascending(t, labels)
      invariant forall x :: x in t <==> x in s[..i]
    {
      forall y <- t
        ensures LabelOf(y, labels) != LabelOf(s[i], labels)
      {
        var j :| 0 <= j < i && s[..i][j] == y;
      }
      var k := Position(s[i], t, labels);
      InsertAscending(s[i], t, labels, k);
      assert s[..i + 1] == s[..i] + [s[i]];
      t := t[..k] + [s[i]] + t[k..];
      i := i + 1;
    }
    assert s[..i] == s;
  }

  // ---------------------------------------------------------------------------------
  // Compiling
  // ---------------------------------------------------------------------------------

  /** append32bs */
  function Append32(s: bytes, d: bytes): (r: Option<(SegAddr, bytes)>)
    ensures r.Some? ==> s <= r.value.1 && Within(r.value.0, |r.value.1|) && Seg(r.value.1, r.value.0) == d
    ensures r.Some? ==> |r.value.1| <= MAX_INT32
  {
    if |s| + |d| > MAX_INT32 then None else Some((SegAddr(|s|, |d|), s + d))
  }

  /** stat |= statHasData */
  function WithData(stat: byte): (r: byte)
    ensures HasData(r) && Inherits(r) == Inherits(stat)
    ensures HasData(stat) ==> r == stat
  {
    if HasData(stat) then stat else stat + 1
  }

  /** stat |= statInherit */
  function WithInherit(stat: byte): (r: byte)
    ensures Inherits(r) && HasData(r) == HasData(stat)
    ensures Inherits(stat) ==> r == stat
  {
    if Inherits(stat) then stat else stat + 2
  }

  /** A node that compileNodes has not reached, or has finished. */
  predicate DataStarted(c: CompiledNode, n: Node) {
    (c.stat == 0 && c.dataOff == 0) || DataDone(c, n)
  }

  /** A node without data holds no rule's remains. */
  predicate Tidy(ns: seq<Node>) {
    forall n <- ns :: !n.hasData ==> !n.inherit && n.dataOff == 0
  }

  /** Cached labels are in the pool. */
  predicate CacheOk(labelCache: map<bytes, SegAddr>, labels: bytes) {
    forall l <- labelCache :: Within(labelCache[l], |labels|) && Seg(labels, labelCache[l]) == l
  }

  /** The index nodes written so far for the children in done. */
  ghost predicate Listed(xs: seq<IdxNode>, labels: bytes, children: map<bytes, nat>, done: set<bytes>) {
    && Distinct(xs, labels)
    && (forall x <- xs :: LabelOf(x, labels) in done && LabelOf(x, labels) in children
                          && x.childIdx == children[LabelOf(x, labels)])
    && (forall l <- done :: exists x <- xs :: LabelOf(x, labels) == l)
  }

  lemma ListedStep(xs: seq<IdxNode>, labels: bytes, children: map<bytes, nat>, done: set<bytes>,
                   labels': bytes, x: IdxNode, l: bytes)
    requires Listed(xs, labels, children, done) && labels <= labels' && l in children && l !in done
    requires Within(x.labelSeg, |labels'|) && LabelOf(x, labels') == l && x.childIdx == children[l]
    ensures Listed(xs + [x], labels', children, done + {l})
  {
    LabelsGrow(xs, labels, labels');
    var ys := xs + [x];
    forall l' <- done + {l}
      ensures exists y <- ys :: LabelOf(y, labels') == l'
    {
      if l' == l {
        assert ys[|xs|] == x && x in ys;
      } else {
        var y :| y in xs && LabelOf(y, labels) == l';
        assert y in ys;
      }
    }
    forall j, k | 0 <= j < k < |ys|
      ensures LabelOf(ys[j], labels') != LabelOf(ys[k], labels')
    {
      assert ys[j] in xs;
      if k < |xs| {
        assert ys[k] in xs;
      }
    }
  }

  lemma ListedEnds(xs: seq<IdxNode>, labels: bytes, children: map<bytes, nat>)
    ensures Listed([], labels, children, {})
    ensures Listed(xs, labels, children, children.Keys) ==> Distinct(xs, labels)
  {
  }

  lemma SortedLists(xs: seq<IdxNode>, sorted: seq<IdxNode>, labels: bytes, children: map<bytes, nat>)
    requires Listed(xs, labels, children, children.Keys)
    requires Ascending(sorted, labels) && forall x :: x in sorted <==> x in xs
    ensures Lists(sorted, labels, children)
  {
    forall l <- children
      ensures exists x <- sorted :: LabelOf(x, labels) == l
    {
      var x :| x in xs && LabelOf(x, labels) == l;
    }
  }

  lemma SegOfSuffix<T>(s: seq<T>, t: seq<T>, sa: SegAddr)
    requires sa.off == |s| && sa.l == |t|
    ensures Seg(s + t, sa) == t && (s + t)[..sa.off] == s && s <= s + t
  {
  }

  /** The first loop of buildIdx, with some children still ahead; was are the labels before it. */
  ghost predicate Appending(children: map<bytes, nat>, ahead: set<bytes>, ies: seq<IdxNode>,
                            was: bytes, labels: bytes, labelCache: map<bytes, SegAddr>) {
    && ahead <= children.Keys && |ahead| + |ies| == |children|
    && was <= labels && (|was| <= MAX_INT32 ==> |labels| <= MAX_INT32) && CacheOk(labelCache, labels)
    && Listed(ies, labels, children, children.Keys - ahead)
    && (labelCache == map[] ==> |labels| + SumCosts(ahead, false) == |was| + SumCosts(children.Keys, false))
  }

  lemma AppendingStart(children: map<bytes, nat>, was: bytes, labelCache: map<bytes, SegAddr>)
    requires CacheOk(labelCache, was)
    ensures Appending(children, children.Keys, [], was, was, labelCache)
  {
    ListedEnds([], was, children);
    assert children.Keys - children.Keys == {};
  }

  lemma AppendingStep(children: map<bytes, nat>, ahead: set<bytes>, ies: seq<IdxNode>, was: bytes, labels: bytes,
                      labelCache: map<bytes, SegAddr>, l: bytes, labels': bytes, ie: IdxNode)
    requires Appending(children, ahead, ies, was, labels, labelCache) && l in ahead
    requires labels <= labels' && CacheOk(labelCache, labels') && (|labels| <= MAX_INT32 ==> |labels'| <= MAX_INT32)
    requires l !in labelCache ==> |labels'| == |labels| + |l|
    requires Within(ie.labelSeg, |labels'|) && Seg(labels', ie.labelSeg) == l && ie.childIdx == children[l]
    ensures Appending(children, ahead - {l}, ies + [ie], was, labels', labelCache)
  {
    hide CacheOk, Listed;
    ListedStep(ies, labels, children, children.Keys - ahead, labels', ie, l);
    SumCostsWithout(ahead, false, l);
    assert children.Keys - ahead + {l} == children.Keys - (ahead - {l});
  }

  /** What is known of the labels that are ahead, and when none is. */
  lemma AppendingFacts(children: map<bytes, nat>, ahead: set<bytes>, ies: seq<IdxNode>, was: bytes, labels: bytes,
                       labelCache: map<bytes, SegAddr>)
    requires Appending(children, ahead, ies, was, labels, labelCache)
    ensures CacheOk(labelCache, labels) && was <= labels && (|was| <= MAX_INT32 ==> |labels| <= MAX_INT32)
    ensures ahead <= children.Keys && |ies| <= |children|
    ensures labelCache == map[] ==> forall l <- ahead :: |labels| + |l| <= |was| + SumCosts(children.Keys, false)
    ensures ahead == {} ==> |ies| == |children| && Listed(ies, labels, children, children.Keys)
    ensures ahead == {} && labelCache == map[] ==> |labels| == |was| + SumCosts(children.Keys, false)
  {
    hide CacheOk, Listed;
    forall l | l in ahead
      ensures SumCosts(ahead, false) >= |l|
    {
      SumCostsWithout(ahead, false, l);
    }
    assert children.Keys - {} == children.Keys;
  }

  class CompiledTree {
    var nodes: seq<CompiledNode>
    var idxNodes: seq<IdxNode>
    var labels: bytes

    constructor (n: nat)
      ensures nodes == seq(n, _ => ZERO_NODE) && idxNodes == [] && labels == []
    {
      nodes, idxNodes, labels := seq(n, _ => ZERO_NODE), [], [];
    }

    function Value(): Arrays
      reads this
    {
      Arrays(nodes, idxNodes, labels)
    }

    /** compileNodes: the rules of node i and of everything below it. */
    method CompileNodes(ns: seq<Node>, i: nat)
      requires Downward(ns) && Tidy(ns) && i < |ns| == |nodes|
      requires forall k | 0 <= k < |ns| :: DataStarted(nodes[k], ns[k])
      modifies this`nodes
      decreases |ns| - i
      ensures |nodes| == |ns|
      ensures forall k | 0 <= k < |ns| :: DataStarted(nodes[k], ns[k]) && nodes[k].childIdxSeg == old(nodes)[k].childIdxSeg
      ensures DataGood(old(nodes), ns) <= DataGood(nodes, ns) && AllBelow(ns, i, DataGood(nodes, ns))
    {
      var n := ns[i];
      var cn := nodes[i];
      if n.hasData {
        cn := cn.(stat := WithData(cn.stat), dataOff := n.dataOff);
        if n.inherit {
          cn := cn.(stat := WithInherit(cn.stat));
        }
      }
      assert n in ns;
      nodes := nodes[i := cn];
      var remaining := n.children.Keys;
      while remaining != {}
        invariant remaining <= n.children.Keys && |nodes| == |ns|
        invariant forall k | 0 <= k < |ns| ::
          DataStarted(nodes[k], ns[k]) && nodes[k].childIdxSeg == old(nodes)[k].childIdxSeg
        invariant i in DataGood(nodes, ns) && DataGood(old(nodes), ns) <= DataGood(nodes, ns)
        invariant forall l <- n.children.Keys - remaining :: AllBelow(ns, n.children[l], DataGood(nodes, ns))
        decreases |remaining|
      {
        var l :| l in remaining;
        ghost var good := DataGood(nodes, ns);
        CompileNodes(ns, n.children[l]);
        remaining := remaining - {l};
      }
      BelowFromChildren(ns, i, DataGood(nodes, ns));
    }

    /** The cached or the newly appended address of a label. */
    method PlaceLabel(l: bytes, labelCache: map<bytes, SegAddr>) returns (r: Result<SegAddr, CompileError>)
      requires CacheOk(labelCache, labels)
      modifies this`labels
      ensures old(labels) <= labels && CacheOk(labelCache, labels)
      ensures |old(labels)| <= MAX_INT32 ==> |labels| <= MAX_INT32
      ensures r.Ok? ==> Within(r.value, |labels|) && Seg(labels, r.value) == l
      ensures l !in labelCache ==> (r.Ok? <==> |old(labels)| + |l| <= MAX_INT32)
      ensures l !in labelCache && r.Ok? ==> |labels| == |old(labels)| + |l|
    {
      if l in labelCache {
        return Ok(labelCache[l]);
      }
      var a := Append32(labels, l);
      if a.None? {
        return Err(LabelSectionOverflowed);
      }
      ghost var was := labels;
      labels := a.value.1;
      assert forall k <- labelCache :: Seg(labels, labelCache[k]) == Seg(was, labelCache[k]);
      return Ok(a.value.0);
    }

    /** The first loop of buildIdx: an index node for each child. */
    method AppendChildren(children: map<bytes, nat>, labelCache: map<bytes, SegAddr>)
      returns (r: Result<seq<IdxNode>, CompileError>)
      requires CacheOk(labelCache, labels) && |labels| <= MAX_INT32 && forall l <- children :: children[l] <= MAX_INT32
      modifies this`idxNodes, this`labels
      ensures old(labels) <= labels && old(idxNodes) <= idxNodes && CacheOk(labelCache, labels)
      ensures |labels| <= MAX_INT32
      ensures |idxNodes| <= |old(idxNodes)| + |children|
      ensures r.Ok? ==>
        && idxNodes == old(idxNodes) + r.value && |r.value| == |children|
        && Listed(r.value, labels, children, children.Keys)
      ensures labelCache == map[] ==>
        (r.Ok? <==> |old(labels)| + SumCosts(children.Keys, false) <= MAX_INT32)
      ensures labelCache == map[] && r.Ok? ==> |labels| == |old(labels)| + SumCosts(children.Keys, false)
    {
      hide Appending, Listed, CacheOk;
      ghost var was := labels;
      var remaining := children.Keys;
      var ies: seq<IdxNode> := [];
      AppendingStart(children, labels, labelCache);
      while remaining != {}
        invariant Appending(children, remaining, ies, was, labels, labelCache)
        invariant idxNodes == old(idxNodes) + ies
        decreases |remaining|
      {
        AppendingFacts(children, remaining, ies, was, labels, labelCache);
        var l :| l in remaining;
        ghost var labels0 := labels;
        var labelSeg :- PlaceLabel(l, labelCache);
        var ie := IdxNode(labelSeg, children[l]);
        AppendingStep(children, remaining, ies, was, labels0, labelCache, l, labels, ie);
        ies := ies + [ie];
        idxNodes := idxNodes + [ie];
        remaining := remaining - {l};
      }
      AppendingFacts(children, remaining, ies, was, labels, labelCache);
      return Ok(ies);
    }

    /** The part of buildIdx for one node: its index segment, sorted in place. */
    method BuildSegment(children: map<bytes, nat>, labelCache: map<bytes, SegAddr>) returns (r: Result<SegAddr, CompileError>)
      requires CacheOk(labelCache, labels) && |labels| <= MAX_INT32 && forall l <- children :: children[l] <= MAX_INT32
      modifies this`idxNodes, this`labels
      ensures old(idxNodes) <= idxNodes && old(labels) <= labels && CacheOk(labelCache, labels)
      ensures |labels| <= MAX_INT32
      ensures |old(idxNodes)| <= MAX_INT32 ==> |idxNodes| <= MAX_INT32
      ensures r.Ok? ==>
        && Within(r.value, |idxNodes|) && r.value.off == |old(idxNodes)| && r.value.l == |children|
        && Lists(Seg(idxNodes, r.value), labels, children)
      ensures labelCache == map[] ==>
        (r.Ok? <==> && |old(labels)| + SumCosts(children.Keys, false) <= MAX_INT32
                    && |old(idxNodes)| + SumCosts(children.Keys, true) <= MAX_INT32)
      ensures labelCache == map[] && r.Ok? ==>
        && |labels| == |old(labels)| + SumCosts(children.Keys, false)
        && |idxNodes| == |old(idxNodes)| + SumCosts(children.Keys, true)
    {
      SumOfOnes(children.Keys);
      if |idxNodes| + |children| > MAX_INT32 {
        return Err(IndexSectionOverflowed);
      }
      hide Listed, Lists, CacheOk;
      var sa := SegAddr(|idxNodes|, |children|);
      var ies :- AppendChildren(children, labelCache);
      SortSegment(sa, old(idxNodes), ies, children);
      return Ok(sa);
    }

    /** The sorting of a segment that was just appended, in place. */
    method SortSegment(sa: SegAddr, ghost before: seq<IdxNode>, ghost ies: seq<IdxNode>, ghost children: map<bytes, nat>)
      requires idxNodes == before + ies && sa.off as int == |before| && sa.l as int == |ies| && |idxNodes| <= MAX_INT32
      requires Listed(ies, labels, children, children.Keys)
      modifies this`idxNodes
      ensures |idxNodes| == |before| + |ies| && before <= idxNodes
      ensures Within(sa, |idxNodes|) && Lists(Seg(idxNodes, sa), labels, children)
    {
      hide Listed, Lists, Distinct, Ascending;
      ListedEnds(ies, labels, children);
      SegOfSuffix(before, ies, sa);
      var sorted := SortIdx(Seg(idxNodes, sa), labels);
      SortedLists(ies, sorted, labels, children);
      SegOfSuffix(before, sorted, sa);
      idxNodes := idxNodes[..sa.off] + sorted;
    }

    /** buildIdx: the index segments of node i and of everything below it. */
    method BuildIdx(ns: seq<Node>, i: nat, labelCache: map<bytes, SegAddr>) returns (r: Result<(), CompileError>)
      requires Downward(ns) && i < |ns| == |nodes| && |ns| <= MAX_INT32 && CacheOk(labelCache, labels)
      requires labelCache == map[]
      requires |idxNodes| <= MAX_INT32 && |labels| <= MAX_INT32
      modifies this
      decreases |ns| - i
      ensures |nodes| == |ns| && CacheOk(labelCache, labels)
      ensures |idxNodes| <= MAX_INT32 && |labels| <= MAX_INT32
      ensures forall k | 0 <= k < |ns| :: nodes[k] == old(nodes)[k].(childIdxSeg := nodes[k].childIdxSeg)
      ensures r.Ok? ==> old(IdxGood(Value(), ns)) <= IdxGood(Value(), ns) && AllBelow(ns, i, IdxGood(Value(), ns))
      ensures r.Ok? <==>
        && |old(labels)| + Size(ns, i, false) <= MAX_INT32 && |old(idxNodes)| + Size(ns, i, true) <= MAX_INT32
      ensures r.Ok? ==>
        && |labels| == |old(labels)| + Size(ns, i, false) && |idxNodes| == |old(idxNodes)| + Size(ns, i, true)
    {
      hide CacheOk, IdxDone, Lists, AllBelow;
      ghost var before := Value();
      var n := ns[i];
      var sa :- BuildSegment(n.children, labelCache);
      nodes := nodes[i := nodes[i].(childIdxSeg := sa)];
      ListsIsDone(sa, idxNodes, labels, n);
      GoodAfterSegment(before, Value(), ns, i);
      ghost var good := IdxGood(Value(), ns);
      var remaining := n.children.Keys;
      while remaining != {}
        invariant remaining <= n.children.Keys && |nodes| == |ns| && CacheOk(labelCache, labels)
        invariant |idxNodes| <= MAX_INT32 && |labels| <= MAX_INT32
        invariant forall k | 0 <= k < |ns| :: nodes[k] == old(nodes)[k].(childIdxSeg := nodes[k].childIdxSeg)
        invariant good == IdxGood(Value(), ns) && i in good && IdxGood(before, ns) <= good
        invariant forall l <- n.children.Keys - remaining :: AllBelow(ns, n.children[l], good)
        invariant |labels| + SumBelow(ns, i, remaining, false) == |old(labels)| + Size(ns, i, false)
        invariant |idxNodes| + SumBelow(ns, i, remaining, true) == |old(idxNodes)| + Size(ns, i, true)
        decreases |remaining|
      {
        var l :| l in remaining;
        SumBelowWithout(ns, i, remaining, false, l);
        SumBelowWithout(ns, i, remaining, true, l);
        ghost var was := good;
        var done :- BuildIdx(ns, n.children[l], labelCache);
        good := IdxGood(Value(), ns);
        remaining := remaining - {l};
        forall l' <- n.children.Keys - remaining
          ensures AllBelow(ns, n.children[l'], good)
        {
          if l' != l {
            BelowGrows(ns, n.children[l'], was, good);
          }
        }
      }
      BelowFromChildren(ns, i, good);
      return Ok(());
    }
  }

  lemma ListsIsDone(sa: SegAddr, idxNodes: seq<IdxNode>, labels: bytes, n: Node)
    requires Within(sa, |idxNodes|) && Lists(Seg(idxNodes, sa), labels, n.children)
    ensures IdxDone(sa, idxNodes, labels, n)
  {
  }

  lemma GoodAfterSegment(a: Arrays, a': Arrays, ns: seq<Node>, i: nat)
    requires |a.nodes| == |a'.nodes| == |ns| && i < |ns|
    requires a.idxNodes <= a'.idxNodes && a.labels <= a'.labels
    requires forall k | 0 <= k < |ns| && k != i :: a'.nodes[k] == a.nodes[k]
    requires IdxDone(a'.nodes[i].childIdxSeg, a'.idxNodes, a'.labels, ns[i])
    ensures i in IdxGood(a', ns) && IdxGood(a, ns) <= IdxGood(a', ns)
  {
    forall k <- IdxGood(a, ns)
      ensures k in IdxGood(a', ns)
    {
      if k != i {
        IdxDoneGrows(a.nodes[k].childIdxSeg, a.idxNodes, a.labels, ns[k], a'.idxNodes, a'.labels);
      }
    }
  }

  // ---------------------------------------------------------------------------------
  // The compiled tree
  // ---------------------------------------------------------------------------------

  /** The arrays can be searched, and stand for exactly this trie. */
  ghost predicate CompiledFrom(a: Arrays, ns: seq<Node>) {
    && Safe(a) && Decompiled(a) == ns
    && |a.nodes| <= MAX_INT32 && |a.idxNodes| <= MAX_INT32 && |a.labels| <= MAX_INT32
  }

  lemma ListsGiveChildren(xs: seq<IdxNode>, labels: bytes, children: map<bytes, nat>)
    requires Lists(xs, labels, children)
    ensures ChildMap(xs, labels) == children
  {
    hide ChildMap;
    var m := ChildMap(xs, labels);
    forall l <- children
      ensures l in m && m[l] == children[l]
    {
      var x :| x in xs && LabelOf(x, labels) == l;
      var j :| 0 <= j < |xs| && xs[j] == x;
      ChildMapAt(xs, labels, j);
    }
    assert m.Keys == children.Keys;
  }

  lemma DoneNode(a: Arrays, ns: seq<Node>, k: nat)
    requires |a.nodes| == |ns| && k < |ns| && Closed(ns)
    requires DataDone(a.nodes[k], ns[k]) && IdxDone(a.nodes[k].childIdxSeg, a.idxNodes, a.labels, ns[k])
    ensures NodeSafe(a, k) && DecompiledNode(a, k) == ns[k]
  {
    hide ChildMap;
    ListsGiveChildren(Seg(a.idxNodes, a.nodes[k].childIdxSeg), a.labels, ns[k].children);
  }

  lemma DoneIsCompiled(a: Arrays, ns: seq<Node>)
    requires |a.nodes| == |ns| && Closed(ns)
    requires forall k | 0 <= k < |ns| :: k in DataGood(a.nodes, ns) && k in IdxGood(a, ns)
    ensures Safe(a) && Decompiled(a) == ns
  {
    forall k | 0 <= k < |ns|
      ensures NodeSafe(a, k) && DecompiledNode(a, k) == ns[k]
    {
      assert k in DataGood(a.nodes, ns) && k in IdxGood(a, ns);
      DoneNode(a, ns, k);
    }
    forall k | 0 <= k < |ns|
      ensures Decompiled(a)[k] == ns[k]
    {
      DecompiledAt(a, k);
    }
  }

  /** A node reached on its path is below the root. */
  lemma AllReached(ns: seq<Node>, paths: seq<seq<bytes>>, good: set<nat>, k: nat)
    requires Shaped(ns, paths) && k < |ns| && AllBelow(ns, 0, good)
    ensures k in good
  {
    assert Walk(ns, 0, paths[k]) == Some(k);
  }

  /**
   Compile: it fails exactly when the labels need more than 2^31 - 1 bytes. The cache of labels is
   passed on but never filled, so a label counts every time it occurs in the trie.
   */
  method Compile(t: Tree) returns (r: Result<CompiledTree, CompileError>)
    requires t.Valid()
    ensures Downward(t.nodes) && |t.nodes| > 0
    ensures r.Ok? <==> Size(t.nodes, 0, false) <= MAX_INT32
    ensures r.Ok? ==> fresh(r.value) && CompiledFrom(r.value.Value(), t.nodes)
  {
    var ns := t.nodes;
    var e := new CompiledTree(t.assignedIdx + 1);
    e.CompileNodes(ns, 0);
    ghost var dataGood := DataGood(e.nodes, ns);
    ghost var nodes := e.nodes;
    IndexFits(ns, t.paths);
    var done :- e.BuildIdx(ns, 0, map[]);
    forall k | 0 <= k < |ns|
      ensures k in DataGood(e.nodes, ns) && k in IdxGood(e.Value(), ns)
    {
      AllReached(ns, t.paths, dataGood, k);
      AllReached(ns, t.paths, IdxGood(e.Value(), ns), k);
      assert e.nodes[k] == nodes[k].(childIdxSeg := e.nodes[k].childIdxSeg);
    }
    DoneIsCompiled(e.Value(), ns);
    return Ok(e);
  }

  /**
   Compilation preserves meaning: for every sequence of Add calls and every order in which maps
   are iterated, the compiled tree answers as the rules do.
   */
  lemma CompiledAnswersRules(a: Arrays, ns: seq<Node>, rules: Rules, labels: seq<bytes>)
    requires Closed(ns) && |ns| > 0 && HoldsRules(ns, rules) && CompiledFrom(a, ns)
    ensures MatchTrie(Decompiled(a), Reversed(labels)) == MatchRules(rules, Reversed(labels))
  {
    MatchTrieIsRules(ns, rules, Reversed(labels));
  }

  /** Compiling the rules and matching a name. */
  method CompileAndMatch(t: Tree, labels: seq<bytes>) returns (r: Result<Answer, CompileError>)
    requires t.Valid()
    ensures Downward(t.nodes) && |t.nodes| > 0
    ensures r.Ok? <==> Size(t.nodes, 0, false) <= MAX_INT32
    ensures r.Ok? ==> r.value == MatchRules(t.rules, Reversed(labels))
  {
    var e :- Compile(t);
    CompiledAnswersRules(e.Value(), t.nodes, t.rules, labels);
    var dataOff, lvl := Match(e.Value(), labels);
    return Ok((dataOff, lvl));
  }
}
