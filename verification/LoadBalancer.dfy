/**
 The load balancer's sampler (app/router/upstream_lb.go): the index over the online backends and
 the weighted choice among them.
 */
module LoadBalancer {
  import opened Wrappers

  datatype Backend = Backend(upstream: nat, weight: int)

  /** lbSampler: the backends and the running sums of their weights. */
  datatype Sampler = Sampler(wa: seq<int>, bs: seq<Backend>)

  predicate Weighted(e: seq<Backend>) {
    forall b <- e :: b.weight > 0
  }

  // ---------------------------------------------------------------------------------
  // The index
  // ---------------------------------------------------------------------------------

  /** The backends that are not offline, in order. */
  function Online(e: seq<Backend>, offline: seq<bool>): (r: seq<Backend>)
    requires |e| == |offline|
    ensures forall b <- r :: b in e
  {
    if e == [] then []
    else
      var n := |e| - 1;
      Online(e[..n], offline[..n]) + if offline[n] then [] else [e[n]]
  }

  lemma OnlineNext(e: seq<Backend>, offline: seq<bool>, i: nat)
    requires i < |e| == |offline|
    ensures Online(e[..i + 1], offline[..i + 1]) == Online(e[..i], offline[..i]) + if offline[i] then [] else [e[i]]
  {
    assert e[..i + 1][..i] == e[..i] && offline[..i + 1][..i] == offline[..i];
  }

  lemma {:induction false} OnlineMembers(e: seq<Backend>, offline: seq<bool>, b: Backend)
    requires |e| == |offline|
    ensures b in Online(e, offline) <==> exists i | 0 <= i < |e| :: e[i] == b && !offline[i]
  {
    if e != [] {
      var n := |e| - 1;
      OnlineMembers(e[..n], offline[..n], b);
      assert forall i | 0 <= i < n :: e[..n][i] == e[i] && offline[..n][i] == offline[i];
    }
  }

  function Total(bs: seq<Backend>): int {
    if bs == [] then 0 else Total(bs[..|bs| - 1]) + bs[|bs| - 1].weight
  }

  predicate Indexes(s: Sampler, bs: seq<Backend>) {
    s.bs == bs && |s.wa| == |bs| && forall i | 0 <= i < |bs| :: s.wa[i] == Total(bs[..i + 1])
  }

  lemma IndexGrows(s: Sampler, bs: seq<Backend>, b: Backend)
    requires Indexes(s, bs)
    ensures var ws := Total(bs) + b.weight;
      Total(bs + [b]) == ws && Indexes(Sampler(s.wa + [ws], bs + [b]), bs + [b])
  {
    var bs' := bs + [b];
    assert bs'[..|bs|] == bs && bs'[..|bs'|] == bs';
    forall i | 0 <= i < |bs'|
      ensures (s.wa + [Total(bs')])[i] == Total(bs'[..i + 1])
    {
      if i < |bs| {
        assert bs'[..i + 1] == bs[..i + 1];
      }
    }
  }

  /** buildIdx has looked at the first i backends. */
  ghost predicate Building(e: seq<Backend>, offline: seq<bool>, i: nat, s: Sampler, ws: int) {
    i <= |e| == |offline| && Indexes(s, Online(e[..i], offline[..i])) && ws == Total(s.bs)
  }

  lemma BuildingStart(e: seq<Backend>, offline: seq<bool>)
    requires |e| == |offline|
    ensures Building(e, offline, 0, Sampler([], []), 0)
  {
  }

  lemma BuildingStep(e: seq<Backend>, offline: seq<bool>, i: nat, s: Sampler, ws: int)
    requires Building(e, offline, i, s, ws) && i < |e|
    ensures if offline[i] then Building(e, offline, i + 1, s, ws)
      else Building(e, offline, i + 1, Sampler(s.wa + [ws + e[i].weight], s.bs + [e[i]]), ws + e[i].weight)
  {
    hide Online, Total;
    OnlineNext(e, offline, i);
    if offline[i] {
      assert Online(e[..i], offline[..i]) + [] == Online(e[..i], offline[..i]);
    } else {
      IndexGrows(s, s.bs, e[i]);
    }
  }

  lemma BuildingEnds(e: seq<Backend>, offline: seq<bool>, s: Sampler, ws: int)
    requires Building(e, offline, |e|, s, ws)
    ensures Indexes(s, Online(e, offline))
  {
    assert e[..|e|] == e && offline[..|e|] == offline;
  }

  class Balancer {
    const e: seq<Backend>
    var sampler: Sampler

    constructor (e: seq<Backend>)
      ensures this.e == e && sampler == Sampler([], [])
    {
      this.e := e;
      sampler := Sampler([], []);
    }

    /** buildIdx: offline are the answers of HcOffline, one backend after the other. */
    method BuildIdx(offline: seq<bool>)
      requires |offline| == |e|
      modifies this`sampler
      ensures Indexes(sampler, Online(e, offline))
    {
      hide Building;
      var bs: seq<Backend>, wa: seq<int>, ws := [], [], 0;
      BuildingStart(e, offline);
      for i := 0 to |e|
        invariant Building(e, offline, i, Sampler(wa, bs), ws)
      {
        BuildingStep(e, offline, i, Sampler(wa, bs), ws);
        if offline[i] {
          continue;
        }
        ws := ws + e[i].weight;
        bs := bs + [e[i]];
        wa := wa + [ws];
      }
      BuildingEnds(e, offline, Sampler(wa, bs), ws);
      sampler := Sampler(wa, bs);
    }
  }

  // ---------------------------------------------------------------------------------
  // The choice
  // ---------------------------------------------------------------------------------

  /** Go's remainder takes the sign of its first operand. */
  function Rem(n: int, r: int): int
    requires r > 0
  {
    if n >= 0 then n % r else -(-n % r)
  }

  function Abs(n: int): nat {
    if n < 0 then -n else n
  }

  /** A point of the line on which the backends lie side by side, as long as their weights. */
  function Point(bs: seq<Backend>, n: int): nat
    requires Total(bs) > 0
  {
    Abs(Rem(n, Total(bs)))
  }

  /** Backend i covers the point. */
  predicate Covers(bs: seq<Backend>, i: nat, p: int)
    requires i < |bs|
  {
    Total(bs[..i]) <= p < Total(bs[..i + 1])
  }

  lemma {:induction false} TotalGrows(bs: seq<Backend>, i: nat, j: nat)
    requires Weighted(bs) && i <= j <= |bs|
    ensures Total(bs[..i]) <= Total(bs[..j])
    ensures i < j ==> Total(bs[..i]) < Total(bs[..j])
    decreases j
  {
    if i < j {
      TotalGrows(bs, i, j - 1);
      assert bs[..j][..j - 1] == bs[..j - 1] && bs[j - 1] in bs;
    }
  }

  lemma TotalIsPositive(bs: seq<Backend>)
    requires Weighted(bs) && bs != []
    ensures Total(bs) > 0
  {
    TotalGrows(bs, 0, |bs|);
    assert bs[..0] == [] && bs[..|bs|] == bs;
  }

  lemma PointInRange(bs: seq<Backend>, n: int)
    requires Total(bs) > 0
    ensures Point(bs, n) < Total(bs)
  {
  }

  /** No two backends cover a point. */
  lemma CoversOnce(bs: seq<Backend>, i: nat, j: nat, p: int)
    requires Weighted(bs) && i < |bs| && j < |bs| && Covers(bs, i, p) && Covers(bs, j, p)
    ensures i == j
  {
    if i < j {
      TotalGrows(bs, i + 1, j);
    } else if j < i {
      TotalGrows(bs, j + 1, i);
    }
  }

  /** slices.BinarySearch */
  method BinarySearch(wa: seq<int>, n: int) returns (i: nat, found: bool)
    requires forall j, k | 0 <= j < k < |wa| :: wa[j] < wa[k]
    ensures i <= |wa| && (forall j | 0 <= j < i :: wa[j] < n) && (forall j | i <= j < |wa| :: n <= wa[j])
    ensures found <==> i < |wa| && wa[i] == n
  {
    i := 0;
    var j := |wa|;
    while i < j
      invariant i <= j <= |wa|
      invariant (forall k | 0 <= k < i :: wa[k] < n) && (forall k | j <= k < |wa| :: n <= wa[k])
    {
      var h := (i + j) / 2;
      if wa[h] < n {
        i := h + 1;
      } else {
        j := h;
      }
    }
    found := i < |wa| && wa[i] == n;
  }

  lemma SumsIncrease(s: Sampler, bs: seq<Backend>)
    requires Indexes(s, bs) && Weighted(bs)
    ensures forall j, k | 0 <= j < k < |s.wa| :: s.wa[j] < s.wa[k]
    ensures bs != [] ==> s.wa[|bs| - 1] == Total(bs) > 0
  {
    hide Total, Weighted;
    forall j, k | 0 <= j < k < |s.wa|
      ensures s.wa[j] < s.wa[k]
    {
      TotalGrows(bs, j + 1, k + 1);
    }
    if bs != [] {
      TotalIsPositive(bs);
      assert bs[..|bs|] == bs;
    }
  }

  /** The first running sum above p belongs to the backend that covers p. */
  lemma FirstAboveCovers(s: Sampler, bs: seq<Backend>, i: nat, p: nat)
    requires Indexes(s, bs) && i < |bs| && p < s.wa[i] && (i > 0 ==> s.wa[i - 1] <= p)
    ensures Covers(bs, i, p)
  {
    if i == 0 {
      assert bs[..0] == [];
    }
  }

  /** The backend that simple is to return. */
  ghost predicate Chosen(bs: seq<Backend>, n: int, r: Option<Backend>) {
    if bs == [] then r == None
    else Total(bs) > 0 && exists i: nat | i < |bs| :: Covers(bs, i, Point(bs, n)) && r == Some(bs[i])
  }

  /** simple: for every n, of either sign, the backend that covers the point of n. */
  method Simple(s: Sampler, n: int) returns (r: Option<Backend>)
    requires Indexes(s, s.bs) && Weighted(s.bs)
    ensures Chosen(s.bs, n, r)
  {
    var l := |s.wa|;
    if l == 0 {
      return None;
    }
    hide Total, Rem, Covers;
    SumsIncrease(s, s.bs);
    ghost var point := Point(s.bs, n);
    PointInRange(s.bs, n);
    if l == 1 {
      FirstAboveCovers(s, s.bs, 0, point);
      return Some(s.bs[0]);
    }
    var p := Rem(n, s.wa[l - 1]);
    if p < 0 {
      p := -p;
    }
    var i, ok := BinarySearch(s.wa, p);
    if ok {
      i := i + 1;
    }
    i := if i < l - 1 then i else l - 1;
    FirstAboveCovers(s, s.bs, i, p);
    return Some(s.bs[i]);
  }

  /** fastPath: the only backend, or that there is none. */
  method FastPath(s: Sampler) returns (one: Option<Backend>, zero: bool)
    requires Indexes(s, s.bs) && Weighted(s.bs)
    ensures zero <==> s.bs == []
    ensures one.Some? <==> |s.bs| == 1
    ensures one.Some? ==> forall n :: Chosen(s.bs, n, one)
  {
    if |s.bs| == 0 {
      return None, true;
    }
    if |s.bs| == 1 {
      forall n
        ensures Chosen(s.bs, n, Some(s.bs[0]))
      {
        SumsIncrease(s, s.bs);
        PointInRange(s.bs, n);
        FirstAboveCovers(s, s.bs, 0, Point(s.bs, n));
      }
      return Some(s.bs[0]), false;
    }
    return None, false;
  }

  lemma {:induction false} IntervalSize(s: set<int>, lo: int, hi: int)
    requires lo <= hi && forall n :: n in s <==> lo <= n < hi
    ensures |s| == hi - lo
    decreases hi - lo
  {
    if lo < hi {
      IntervalSize(s - {hi - 1}, lo, hi - 1);
    } else {
      assert forall n :: n !in s;
      assert s == {};
    }
  }

  /** The numbers below the total weight that choose backend i. */
  function Share(bs: seq<Backend>, i: nat): set<int>
    requires i < |bs| && Total(bs) > 0
  {
    set n | 0 <= n < Total(bs) && Covers(bs, i, Point(bs, n))
  }

  /** Of the numbers below the total weight, backend i gets exactly as many as its weight. */
  lemma WeightsAreExact(bs: seq<Backend>, i: nat)
    requires Weighted(bs) && i < |bs|
    ensures Total(bs) > 0 && |Share(bs, i)| == bs[i].weight
  {
    TotalGrows(bs, 0, i);
    TotalGrows(bs, i, i + 1);
    TotalGrows(bs, i + 1, |bs|);
    assert bs[..0] == [] && bs[..|bs|] == bs && bs[..i + 1][..i] == bs[..i];
    forall n
      ensures n in Share(bs, i) <==> Total(bs[..i]) <= n < Total(bs[..i + 1])
    {
      if 0 <= n < Total(bs) {
        SmallPoint(bs, n);
      }
    }
    IntervalSize(Share(bs, i), Total(bs[..i]), Total(bs[..i + 1]));
  }

  lemma SmallPoint(bs: seq<Backend>, n: nat)
    requires n < Total(bs)
    ensures Point(bs, n) == n
  {
  }

  /** A negative number, as a hash may be, goes where its absolute value goes. */
  lemma SignIsIgnored(bs: seq<Backend>, n: int)
    requires Total(bs) > 0
    ensures Point(bs, -n) == Point(bs, n)
  {
  }
}
