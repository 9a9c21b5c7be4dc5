/**
 The index over address ranges (internal/netlist): ranges are sorted by their start, two that
 overlap are an error, and a lookup is one binary search.
 */
module Netlist {
  import opened Wrappers

  const TWO64 := 0x1_0000_0000_0000_0000

  type uint64 = n: int | 0 <= n < TWO64

  datatype Ipv6 = Ipv6(h: uint64, l: uint64)

  /** The address as one number. */
  function Value(ip: Ipv6): nat {
    ip.h * TWO64 + ip.l
  }

  /** cmp orders addresses as numbers. */
  function Cmp(ip: Ipv6, ip2: Ipv6): (r: int)
    ensures r < 0 <==> Value(ip) < Value(ip2)
    ensures r == 0 <==> ip == ip2
    ensures r > 0 <==> Value(ip) > Value(ip2)
  {
    if ip.h < ip2.h then -1
    else if ip.h > ip2.h then 1
    else if ip.l < ip2.l then -1
    else if ip.l > ip2.l then 1
    else 0
  }

  datatype IpRange<V> = IpRange(start: Ipv6, end: Ipv6, v: V)

  predicate Proper<V>(r: IpRange<V>) {
    Value(r.start) <= Value(r.end)
  }

  predicate Contains<V>(r: IpRange<V>, ip: Ipv6) {
    Value(r.start) <= Value(ip) <= Value(r.end)
  }

  /** Two ranges have an address in common. */
  predicate Overlap<V>(a: IpRange<V>, b: IpRange<V>) {
    Value(a.start) <= Value(b.end) && Value(b.start) <= Value(a.end)
  }

  lemma OverlapIsShared<V>(a: IpRange<V>, b: IpRange<V>)
    requires Proper(a) && Proper(b)
    ensures Overlap(a, b) <==> exists ip :: Contains(a, ip) && Contains(b, ip)
  {
    if Overlap(a, b) {
      var ip := if Value(a.start) <= Value(b.start) then b.start else a.start;
      assert Contains(a, ip) && Contains(b, ip);
    }
  }

  predicate Pair<V>(s: seq<IpRange<V>>, i: nat, j: nat) {
    i < j < |s| && Overlap(s[i], s[j])
  }

  /** Some two of the ranges overlap. */
  ghost predicate Clash<V>(s: seq<IpRange<V>>) {
    exists i, j :: Pair(s, i, j)
  }

  /** The same of a multiset of ranges, where their order is gone. */
  ghost predicate ClashIn<V>(m: multiset<IpRange<V>>) {
    exists x, y :: x in m && y in m && Overlap(x, y) && (x == y ==> m[x] >= 2)
  }

  lemma TwoPlaces<V>(s: seq<IpRange<V>>, i: nat, j: nat)
    requires i < j < |s|
    ensures s[i] == s[j] ==> multiset(s)[s[i]] >= 2
  {
    assert s == s[..j] + s[j..];
    assert s[..j][i] in multiset(s[..j]) && s[j..][0] in multiset(s[j..]);
  }

  lemma PlacesOfTwo<V>(s: seq<IpRange<V>>, x: IpRange<V>) returns (i: nat, j: nat)
    requires multiset(s)[x] >= 2
    ensures i < j < |s| && s[i] == s[j] == x
  {
    i :| 0 <= i < |s| && s[i] == x;
    assert s == s[..i] + ([x] + s[i + 1..]);
    if x in s[..i] {
      j := i;
      i :| 0 <= i < j && s[i] == x;
    } else {
      assert x in s[i + 1..];
      j :| i + 1 <= j < |s| && s[j] == x;
    }
  }

  lemma ClashIgnoresOrder<V>(s: seq<IpRange<V>>)
    ensures Clash(s) <==> ClashIn(multiset(s))
  {
    if i: nat, j: nat :| Pair(s, i, j) {
      TwoPlaces(s, i, j);
      assert s[i] in multiset(s) && s[j] in multiset(s);
    }
    if x, y :| x in multiset(s) && y in multiset(s) && Overlap(x, y) && (x == y ==> multiset(s)[x] >= 2) {
      if x == y {
        var i, j := PlacesOfTwo(s, x);
        assert Pair(s, i, j);
      } else {
        var i :| 0 <= i < |s| && s[i] == x;
        var j :| 0 <= j < |s| && s[j] == y;
        assert Pair(s, i, j) || Pair(s, j, i);
      }
    }
  }

  predicate SortedByStart<V>(s: seq<IpRange<V>>) {
    forall i, j | 0 <= i < j < |s| :: Value(s[i].start) <= Value(s[j].start)
  }

  /** Every range ends before the next one starts. */
  predicate Disjoint<V>(s: seq<IpRange<V>>) {
    forall i, j | 0 <= i < j < |s| :: Value(s[i].end) < Value(s[j].start)
  }

  lemma DisjointHasNoClash<V>(s: seq<IpRange<V>>)
    requires Disjoint(s)
    ensures !Clash(s)
  {
  }

  // ---------------------------------------------------------------------------------
  // Building and searching
  // ---------------------------------------------------------------------------------

  lemma InsertKeepsOrder<V>(s: seq<IpRange<V>>, k: nat, r: IpRange<V>)
    requires SortedByStart(s) && k <= |s|
    requires k < |s| ==> Value(r.start) < Value(s[k].start)
    requires k > 0 ==> Value(s[k - 1].start) <= Value(r.start)
    ensures SortedByStart(s[..k] + [r] + s[k..])
  {
    hide Value;
    var s' := s[..k] + [r] + s[k..];
    forall i, j | 0 <= i < j < |s'|
      ensures Value(s'[i].start) <= Value(s'[j].start)
    {
      var i', j' := if i < k then i else i - 1, if j < k then j else j - 1;
      if i != k && j != k {
        assert s'[i] == s[i'] && s'[j] == s[j'];
      } else if i == k {
        assert s'[j] == s[j'] && Value(s[k].start) <= Value(s[j'].start);
      } else {
        assert s'[i] == s[i] && Value(s[i].start) <= Value(s[k - 1].start);
      }
    }
  }

  lemma InsertKeepsAll<V>(s: seq<IpRange<V>>, k: nat, r: IpRange<V>)
    requires k <= |s|
    ensures multiset(s[..k] + [r] + s[k..]) == multiset(s) + multiset{r}
  {
    assert s == s[..k] + s[k..];
  }

  /** sort.Slice, by any method: the result is ordered and holds the same ranges. */
  method SortByStart<V(==)>(rs: seq<IpRange<V>>) returns (s: seq<IpRange<V>>)
    ensures SortedByStart(s) && multiset(s) == multiset(rs)
  {
    hide Value;
    s := [];
    for n := 0 to |rs|
      invariant SortedByStart(s) && multiset(s) == multiset(rs[..n])
    {
      var k := |s|;
      while k > 0 && Cmp(rs[n].start, s[k - 1].start) < 0
        invariant 0 <= k <= |s|
        invariant k < |s| ==> Value(rs[n].start) < Value(s[k].start)
      {
        k := k - 1;
      }
      InsertKeepsOrder(s, k, rs[n]);
      InsertKeepsAll(s, k, rs[n]);
      assert rs[..n + 1] == rs[..n] + [rs[n]];
      s := s[..k] + [rs[n]] + s[k..];
    }
    assert rs[..|rs|] == rs;
  }

  lemma DisjointIsSorted<V>(s: seq<IpRange<V>>)
    requires Disjoint(s) && forall r <- s :: Proper(r)
    ensures SortedByStart(s)
  {
    forall i, j | 0 <= i < j < |s|
      ensures Value(s[i].start) <= Value(s[j].start)
    {
      assert s[i] in s;
    }
  }

  /** Where the search ends: the ranges before i start at ip or earlier, the others later. */
  predicate SplitAt<V>(e: seq<IpRange<V>>, i: nat, ip: Ipv6)
    requires i <= |e|
  {
    && (forall k | 0 <= k < i :: Value(e[k].start) <= Value(ip))
    && (forall k | i <= k < |e| :: Value(ip) < Value(e[k].start))
  }

  /** Only the last range that starts at ip or earlier can contain it. */
  lemma OnlyTheLastBefore<V>(e: seq<IpRange<V>>, i: nat, ip: Ipv6)
    requires Disjoint(e) && i <= |e| && SplitAt(e, i, ip)
    ensures forall k | 0 <= k < |e| :: Contains(e[k], ip) ==> k == i - 1
  {
    hide Value;
    assert forall k | 0 <= k < i - 1 :: Value(e[k].end) < Value(e[i - 1].start);
  }

  class List<V(==)> {
    const e: seq<IpRange<V>>

    ghost predicate Valid() {
      Disjoint(e) && forall r <- e :: Proper(r)
    }

    constructor (e: seq<IpRange<V>>)
      ensures this.e == e
    {
      this.e := e;
    }

    /** sort.Search for the first range that starts after ip. */
    method Search(ip: Ipv6) returns (i: nat)
      requires Valid()
      ensures i <= |e| && SplitAt(e, i, ip)
    {
      DisjointIsSorted(e);
      hide Value, Disjoint, Proper;
      var j := |e|;
      i := 0;
      while i < j
        invariant 0 <= i <= j <= |e|
        invariant forall k | 0 <= k < i :: Value(e[k].start) <= Value(ip)
        invariant forall k | j <= k < |e| :: Value(ip) < Value(e[k].start)
      {
        var h := (i + j) / 2;
        if Cmp(ip, e[h].start) < 0 {
          j := h;
        } else {
          i := h + 1;
        }
      }
    }

    /** Lookup: the value of the only range that contains the address. */
    method Lookup(ip: Ipv6) returns (r: Option<V>)
      requires Valid()
      ensures Found(e, ip, r)
    {
      hide Value, SplitAt, Disjoint;
      var i := Search(ip);
      OnlyTheLastBefore(e, i, ip);
      if i == 0 {
        return None;
      }
      var range := e[i - 1];
      if Cmp(range.start, ip) <= 0 && Cmp(ip, range.end) <= 0 {
        assert Contains(range, ip);
        return Some(range.v);
      }
      return None;
    }
  }

  /** What a scan through all ranges finds. */
  ghost predicate Found<V>(rs: seq<IpRange<V>>, ip: Ipv6, r: Option<V>) {
    match r
    case None => forall x <- rs :: !Contains(x, ip)
    case Some(v) => exists x <- rs :: Contains(x, ip) && x.v == v && forall y <- rs :: Contains(y, ip) ==> y == x
  }

  lemma FoundIgnoresOrder<V>(rs: seq<IpRange<V>>, s: seq<IpRange<V>>, ip: Ipv6, r: Option<V>)
    requires multiset(rs) == multiset(s) && Found(s, ip, r)
    ensures Found(rs, ip, r)
  {
    assert forall x :: x in rs <==> x in multiset(rs);
    assert forall x :: x in s <==> x in multiset(s);
  }

  class ListBuilder<V(==)> {
    var b: seq<IpRange<V>>

    ghost predicate Valid()
      reads this
    {
      forall r <- b :: Proper(r)
    }

    constructor ()
      ensures Valid() && b == []
    {
      b := [];
    }

    /** Add refuses an address that is not valid and a range that ends before it starts. */
    method Add(start: Option<Ipv6>, end: Option<Ipv6>, v: V) returns (ok: bool)
      requires Valid()
      modifies this
      ensures Valid()
      ensures ok <==> start.Some? && end.Some? && Value(start.value) <= Value(end.value)
      ensures b == if ok then old(b) + [IpRange(start.value, end.value, v)] else old(b)
    {
      if start.None? || end.None? {
        return false;
      }
      var r := IpRange(start.value, end.value, v);
      if Cmp(r.start, r.end) > 0 {
        return false;
      }
      b := b + [r];
      return true;
    }

    /** Build fails exactly when two of the added ranges overlap. */
    method Build() returns (l: Option<List<V>>)
      requires Valid()
      modifies this
      ensures multiset(b) == multiset(old(b))
      ensures l.None? <==> Clash(old(b))
      ensures l.Some? ==> fresh(l.value) && l.value.Valid() && l.value.e == b
    {
      hide Value, Clash, ClashIn, Disjoint, SortedByStart;
      ghost var before := b;
      var rs := SortByStart(b);
      b := rs;
      assert forall r <- rs :: r in multiset(before);
      ClashIgnoresOrder(rs);
      ClashIgnoresOrder(before);
      var i := 0;
      while i < |rs| - 1
        invariant 0 <= i && (i < |rs| || i == 0) && b == rs
        invariant forall k | 0 < k <= i :: Value(rs[k - 1].end) < Value(rs[k].start)
      {
        if Cmp(rs[i].end, rs[i + 1].start) >= 0 {
          NeighboursClash(rs, i);
          return None;
        }
        i := i + 1;
      }
      NeighboursApart(rs);
      DisjointHasNoClash(rs);
      var list := new List<V>(rs);
      return Some(list);
    }
  }

  lemma NeighboursClash<V>(s: seq<IpRange<V>>, i: nat)
    requires SortedByStart(s) && (forall r <- s :: Proper(r))
    requires i + 1 < |s| && Value(s[i].end) >= Value(s[i + 1].start)
    ensures Clash(s)
  {
    assert Proper(s[i + 1]) && Pair(s, i, i + 1);
  }

  lemma NeighboursApart<V>(s: seq<IpRange<V>>)
    requires SortedByStart(s)
    requires forall k | 0 < k < |s| :: Value(s[k - 1].end) < Value(s[k].start)
    ensures Disjoint(s)
  {
    forall i, j | 0 <= i < j < |s|
      ensures Value(s[i].end) < Value(s[j].start)
    {
      var k := i + 1;
      assert Value(s[k - 1].end) < Value(s[k].start);
      assert k < j ==> Value(s[k].start) <= Value(s[j].start);
    }
  }
}
