/**
 From CIDR prefixes to address ranges (app/router/ip_set.go), and what an address set built from
 them matches.
 */
module Cidr {
  import opened Wrappers
  import opened WireBytes
  import opened Netlist

  // ---------------------------------------------------------------------------------
  // Binary numbers, most significant bit first
  // ---------------------------------------------------------------------------------

  type Bits = seq<bool>

  function BitValue(b: bool): nat {
    if b then 1 else 0
  }

  function Number(x: Bits): nat {
    if x == [] then 0 else 2 * Number(x[..|x| - 1]) + BitValue(x[|x| - 1])
  }

  function Repeat(b: bool, n: nat): (r: Bits)
    ensures |r| == n
  {
    if n == 0 then [] else Repeat(b, n - 1) + [b]
  }

  lemma {:induction false} NumbersDiffer(x: Bits, y: Bits)
    requires |x| == |y| && Number(x) == Number(y)
    ensures x == y
  {
    if x != [] {
      var n := |x| - 1;
      NumbersDiffer(x[..n], y[..n]);
      assert x == x[..n] + [x[n]] && y == y[..n] + [y[n]];
    }
  }

  /** Of the numbers of a length, those from p000 to p111 are the ones that begin with p. */
  lemma {:induction false} PrefixIsInterval(p: Bits, x: Bits, k: nat)
    requires |x| == |p| + k
    ensures Number(p + Repeat(false, k)) <= Number(x) <= Number(p + Repeat(true, k)) <==> x[..|p|] == p
    decreases k
  {
    if k == 0 {
      assert p + Repeat(false, 0) == p == p + Repeat(true, 0) && x[..|p|] == x;
      if Number(x) == Number(p) {
        NumbersDiffer(x, p);
      }
    } else {
      var n := |x| - 1;
      PrefixIsInterval(p, x[..n], k - 1);
      assert x[..n][..|p|] == x[..|p|];
      assert (p + Repeat(false, k))[..n] == p + Repeat(false, k - 1);
      assert (p + Repeat(true, k))[..n] == p + Repeat(true, k - 1);
    }
  }

  function Pow2(n: nat): (r: nat)
    ensures r > 0
  {
    if n == 0 then 1 else 2 * Pow2(n - 1)
  }

  lemma {:induction false} NumberAppend(x: Bits, y: Bits)
    ensures Number(x + y) == Number(x) * Pow2(|y|) + Number(y)
  {
    if y == [] {
      assert x + y == x;
    } else {
      var n := |y| - 1;
      NumberAppend(x, y[..n]);
      assert (x + y)[..|x| + n] == x + y[..n];
      assert Number(x) * Pow2(|y|) == 2 * (Number(x) * Pow2(n));
    }
  }

  lemma {:induction false} NumberBound(x: Bits)
    ensures Number(x) < Pow2(|x|)
  {
    if x != [] {
      NumberBound(x[..|x| - 1]);
    }
  }

  /** The last n bits of v. */
  function BitsOfNumber(v: nat, n: nat): (r: Bits)
    ensures |r| == n
  {
    if n == 0 then [] else BitsOfNumber(v / 2, n - 1) + [v % 2 == 1]
  }

  lemma {:induction false} NumberOfBits(v: nat, n: nat)
    requires v < Pow2(n)
    ensures Number(BitsOfNumber(v, n)) == v
  {
    if n > 0 {
      NumberOfBits(v / 2, n - 1);
      var r := BitsOfNumber(v / 2, n - 1);
      assert (r + [v % 2 == 1])[..n - 1] == r;
    }
  }

  lemma {:induction false} BitsOfItsNumber(x: Bits)
    ensures BitsOfNumber(Number(x), |x|) == x
  {
    if x != [] {
      var n := |x| - 1;
      BitsOfItsNumber(x[..n]);
      assert x == x[..n] + [x[n]];
    }
  }

  // ---------------------------------------------------------------------------------
  // Bytes
  // ---------------------------------------------------------------------------------

  /** The bits of a string of bytes, in network order. */
  function BitsOf(a: bytes): (r: Bits)
    ensures |r| == 8 * |a|
  {
    if a == [] then [] else BitsOf(a[..|a| - 1]) + BitsOfNumber(a[|a| - 1], 8)
  }

  /** binary.BigEndian */
  function BigEndian(a: bytes): nat {
    if a == [] then 0 else 256 * BigEndian(a[..|a| - 1]) + a[|a| - 1]
  }

  lemma {:induction false} BigEndianIsNumber(a: bytes)
    ensures BigEndian(a) == Number(BitsOf(a)) < Pow2(8 * |a|)
  {
    NumberBound(BitsOf(a));
    if a != [] {
      var n := |a| - 1;
      BigEndianIsNumber(a[..n]);
      NumberAppend(BitsOf(a[..n]), BitsOfNumber(a[n], 8));
      assert Pow2(8) == 256;
      NumberOfBits(a[n], 8);
    }
  }

  /** b | 1 << j */
  function SetBit(b: byte, j: nat): byte
    requires j < 8
  {
    var x := BitsOfNumber(b, 8)[7 - j := true];
    NumberBound(x);
    assert Pow2(8) == 256;
    Number(x)
  }

  lemma SetBitBits(b: byte, j: nat)
    requires j < 8
    ensures BitsOfNumber(SetBit(b, j), 8) == BitsOfNumber(b, 8)[7 - j := true]
  {
    hide BitsOfNumber;
    BitsOfItsNumber(BitsOfNumber(b, 8)[7 - j := true]);
  }

  lemma {:induction false} SetBitOf(a: bytes, k: nat)
    requires k < 8 * |a|
    ensures BitsOf(a[k / 8 := SetBit(a[k / 8], 7 - k % 8)]) == BitsOf(a)[k := true]
  {
    hide SetBit, BitsOfNumber;
    var n := |a| - 1;
    var a' := a[k / 8 := SetBit(a[k / 8], 7 - k % 8)];
    if k / 8 == n {
      assert a'[..n] == a[..n];
      SetBitBits(a[n], 7 - k % 8);
    } else {
      SetBitOf(a[..n], k);
      assert a'[..n] == a[..n][k / 8 := SetBit(a[k / 8], 7 - k % 8)];
    }
  }

  lemma {:induction false} BitsOfAppend(a: bytes, b: bytes)
    ensures BitsOf(a + b) == BitsOf(a) + BitsOf(b)
  {
    if b == [] {
      assert a + b == a;
    } else {
      var n := |b| - 1;
      BitsOfAppend(a, b[..n]);
      assert (a + b)[..|a| + n] == a + b[..n];
    }
  }

  /** The bytes with these bits. */
  function BytesOf(x: Bits): (r: bytes)
    requires |x| % 8 == 0
    ensures |r| == |x| / 8
  {
    if x == [] then []
    else
      var n := |x| - 8;
      NumberBound(x[n..]);
      assert Pow2(8) == 256;
      BytesOf(x[..n]) + [Number(x[n..])]
  }

  lemma {:induction false} BitsOfBytes(x: Bits)
    requires |x| % 8 == 0
    ensures BitsOf(BytesOf(x)) == x
  {
    if x != [] {
      var n := |x| - 8;
      BitsOfBytes(x[..n]);
      BitsOfItsNumber(x[n..]);
      assert BytesOf(x)[..|BytesOf(x)| - 1] == BytesOf(x[..n]);
      assert x == x[..n] + x[n..];
    }
  }

  // ---------------------------------------------------------------------------------
  // Addresses and prefixes
  // ---------------------------------------------------------------------------------

  type Ip4 = a: bytes | |a| == 4 witness [0, 0, 0, 0]
  type Ip16 = a: bytes | |a| == 16 witness [0, 0, 0, 0, 0, 0, 0, 0, 0, 0, 0, 0, 0, 0, 0, 0]

  /** netip.Addr */
  datatype Addr = Invalid | V4(a4: Ip4) | V6(a16: Ip16)

  const MAPPED: bytes := [0, 0, 0, 0, 0, 0, 0, 0, 0, 0, 0xFF, 0xFF]

  /** Addr.As16: an IPv4 address is mapped into IPv6. */
  function As16(x: Addr): Ip16
    requires !x.Invalid?
  {
    if x.V4? then MAPPED + x.a4 else x.a16
  }

  function Unmap(x: Addr): Addr {
    if x.V6? && x.a16[..12] == MAPPED then V4(x.a16[12..]) else x
  }

  function AddrBits(x: Addr): (r: Bits)
    requires !x.Invalid?
    ensures |r| == 128
  {
    BitsOf(As16(x))
  }

  lemma Pow2Of64()
    ensures Pow2(64) == TWO64
  {
    assert Pow2(8) == 0x100;
    assert Pow2(16) == 0x1_0000;
    assert Pow2(24) == 0x100_0000;
    assert Pow2(32) == 0x1_0000_0000;
    assert Pow2(40) == 0x100_0000_0000;
    assert Pow2(48) == 0x1_0000_0000_0000;
    assert Pow2(56) == 0x100_0000_0000_0000;
  }

  function Addr2Ipv6(x: Addr): Ipv6
    requires !x.Invalid?
  {
    var a := As16(x);
    BigEndianIsNumber(a[..8]);
    BigEndianIsNumber(a[8..]);
    Pow2Of64();
    Ipv6(BigEndian(a[..8]), BigEndian(a[8..]))
  }

  lemma ValueIsNumber(x: Addr)
    requires !x.Invalid?
    ensures Value(Addr2Ipv6(x)) == Number(AddrBits(x))
  {
    var a := As16(x);
    BigEndianIsNumber(a[..8]);
    BigEndianIsNumber(a[8..]);
    Pow2Of64();
    BitsOfAppend(a[..8], a[8..]);
    assert a[..8] + a[8..] == a;
    NumberAppend(BitsOf(a[..8]), BitsOf(a[8..]));
  }

  /** netip.Prefix */
  datatype Prefix = Prefix(addr: Addr, bits: nat)

  predicate ValidPrefix(p: Prefix) {
    match p.addr
    case Invalid => false
    case V4(_) => p.bits <= 32
    case V6(_) => p.bits <= 128
  }

  /** How many of the 128 bits of a mapped address the prefix fixes. */
  function Fixed(p: Prefix): (n: nat)
    requires ValidPrefix(p)
    ensures n <= 128
  {
    if p.addr.V4? then 96 + p.bits else p.bits
  }

  /** The address has the prefix. */
  predicate HasPrefix(x: Addr, p: Prefix)
    requires ValidPrefix(p)
  {
    !x.Invalid? && AddrBits(x)[..Fixed(p)] == AddrBits(p.addr)[..Fixed(p)]
  }

  /** Prefix.Masked().Addr(), a function of the standard library: the other bits are zero. */
  function Masked(p: Prefix): Addr
    requires ValidPrefix(p)
  {
    match p.addr
    case V4(a) => V4(BytesOf(BitsOf(a)[..p.bits] + Repeat(false, 32 - p.bits)))
    case V6(a) => V6(BytesOf(BitsOf(a)[..p.bits] + Repeat(false, 128 - p.bits)))
  }

  lemma SplitAppend(u: Bits, v: Bits, k: nat, w: Bits)
    requires k <= |v|
    ensures u + (v[..k] + w) == (u + v)[..|u| + k] + w
  {
  }

  lemma MaskedBits(p: Prefix)
    requires ValidPrefix(p)
    ensures !Masked(p).Invalid?
    ensures AddrBits(Masked(p)) == AddrBits(p.addr)[..Fixed(p)] + Repeat(false, 128 - Fixed(p))
  {
    hide BitsOf, BytesOf, Repeat;
    match p.addr
    case V4(a) =>
      var zeros := Repeat(false, 32 - p.bits);
      BitsOfBytes(BitsOf(a)[..p.bits] + zeros);
      BitsOfAppend(MAPPED, a);
      BitsOfAppend(MAPPED, Masked(p).a4);
      SplitAppend(BitsOf(MAPPED), BitsOf(a), p.bits, zeros);
    case V6(a) =>
      BitsOfBytes(BitsOf(a)[..p.bits] + Repeat(false, 128 - p.bits));
  }

  /** Bits n to n + k of x are set. */
  function Filled(x: Bits, n: nat, k: nat): (r: Bits)
    requires n + k <= |x|
    ensures |r| == |x|
  {
    x[..n] + Repeat(true, k) + x[n + k..]
  }

  lemma FilledGrows(x: Bits, n: nat, k: nat)
    requires n + k < |x|
    ensures Filled(x, n, k)[n + k := true] == Filled(x, n, k + 1)
  {
    assert Repeat(true, k + 1) == Repeat(true, k) + [true];
    assert x[n + k..] == [x[n + k]] + x[n + k + 1..];
  }

  lemma FilledEnds(x: Bits, n: nat)
    requires n <= |x|
    ensures Filled(x, n, 0) == x && Filled(x, n, |x| - n) == x[..n] + Repeat(true, |x| - n)
  {
  }

  /** One turn of the loop of lastIP. */
  lemma SetBitFills(a: bytes, x: Bits, n: nat, k: nat, i: nat, j: nat)
    requires |x| == 8 * |a| && n + k < |x| && BitsOf(a) == Filled(x, n, k)
    requires j < 8 && n + k == 8 * i + 7 - j
    ensures i < |a| && BitsOf(a[i := SetBit(a[i], j)]) == Filled(x, n, k + 1)
  {
    hide BitsOf, SetBit, Filled;
    SetBitOf(a, n + k);
    FilledGrows(x, n, k);
  }

  lemma UnmapMapped(a: Ip16)
    requires a[..12] == MAPPED
    ensures Unmap(V6(a)).V4? && As16(Unmap(V6(a))) == a
  {
  }

  /** The loop of lastIP: from bit number from on, one bit after the other is set in place. */
  method SetOnes(a16: array<byte>, off: nat, from: nat, bits: nat)
    requires a16.Length == 16 && from <= bits && 8 * off + bits == 128
    modifies a16
    ensures BitsOf(a16[..]) == Filled(BitsOf(old(a16[..])), 8 * off + from, bits - from)
    ensures a16[..off] == old(a16[..])[..off]
  {
    hide BitsOf, SetBit, Filled;
    ghost var x, n := BitsOf(a16[..]), 8 * off + from;
    FilledEnds(x, n);
    var b := from;
    while b < bits
      invariant from <= b <= bits
      invariant BitsOf(a16[..]) == Filled(x, n, b - from)
      invariant a16[..off] == old(a16[..])[..off]
    {
      ghost var a := a16[..];
      var byteNum, bitInByte := b / 8, 7 - b % 8;
      SetBitFills(a, x, n, b - from, off + byteNum, bitInByte);
      a16[off + byteNum] := SetBit(a16[off + byteNum], bitInByte);
      assert a16[..] == a[off + byteNum := SetBit(a[off + byteNum], bitInByte)];
      b := b + 1;
    }
  }

  /** The bits of the last address: the prefix, then ones. */
  function LastBits(p: Prefix): Bits
    requires ValidPrefix(p)
  {
    AddrBits(p.addr)[..Fixed(p)] + Repeat(true, 128 - Fixed(p))
  }

  /** lastIP */
  method LastIP(p: Prefix) returns (r: Addr)
    ensures if ValidPrefix(p) then !r.Invalid? && AddrBits(r) == LastBits(p) else r == Invalid
  {
    if !ValidPrefix(p) {
      return Invalid;
    }
    hide BitsOf, Filled, Repeat;
    var from := As16(p.addr);
    FilledEnds(AddrBits(p.addr), Fixed(p));
    var a16 := new byte[16](i requires 0 <= i < 16 => from[i]);
    assert a16[..] == from;
    if p.addr.V4? {
      SetOnes(a16, 12, p.bits, 32);
      UnmapMapped(a16[..]);
      return Unmap(V6(a16[..]));
    }
    SetOnes(a16, 0, p.bits, 128);
    return V6(a16[..]);
  }

  // ---------------------------------------------------------------------------------
  // Address sets
  // ---------------------------------------------------------------------------------

  /** The range of a prefix, from its masked address to its last one, holds who has the prefix. */
  lemma RangeIsPrefix(p: Prefix, last: Addr, x: Addr)
    requires ValidPrefix(p) && !last.Invalid? && AddrBits(last) == LastBits(p) && !x.Invalid?
    ensures !Masked(p).Invalid?
    ensures var r := IpRange(Addr2Ipv6(Masked(p)), Addr2Ipv6(last), ());
      Contains(r, Addr2Ipv6(x)) <==> HasPrefix(x, p)
  {
    hide AddrBits, Addr2Ipv6, Masked, Value, Repeat;
    MaskedBits(p);
    ValueIsNumber(Masked(p));
    ValueIsNumber(last);
    ValueIsNumber(x);
    PrefixIsInterval(AddrBits(p.addr)[..Fixed(p)], AddrBits(x), 128 - Fixed(p));
  }

  /** One range for one prefix. */
  ghost predicate RangeOf(r: IpRange<()>, p: Prefix) {
    && ValidPrefix(p) && Proper(r)
    && (exists x: Addr :: !x.Invalid? && Addr2Ipv6(x) == r.start)
    && forall x: Addr :: !x.Invalid? ==> (Contains(r, Addr2Ipv6(x)) <==> HasPrefix(x, p))
  }

  ghost predicate RangesOf(rs: seq<IpRange<()>>, ps: seq<Prefix>) {
    |rs| == |ps| && forall i | 0 <= i < |ps| :: RangeOf(rs[i], ps[i])
  }

  /** Some address has both prefixes. */
  ghost predicate Meet(p: Prefix, q: Prefix) {
    ValidPrefix(p) && ValidPrefix(q) && exists x :: HasPrefix(x, p) && HasPrefix(x, q)
  }

  lemma OverlapIsMeet(a: IpRange<()>, p: Prefix, b: IpRange<()>, q: Prefix)
    requires RangeOf(a, p) && RangeOf(b, q)
    ensures Overlap(a, b) <==> Meet(p, q)
  {
    hide Value, HasPrefix, Addr2Ipv6;
    if Overlap(a, b) {
      var start := if Value(a.start) <= Value(b.start) then b.start else a.start;
      var x: Addr :| !x.Invalid? && Addr2Ipv6(x) == start;
      assert Contains(a, Addr2Ipv6(x)) && Contains(b, Addr2Ipv6(x));
    }
    if Meet(p, q) {
      var x: Addr :| HasPrefix(x, p) && HasPrefix(x, q);
      PrefixedIsValid(x, p);
      assert Contains(a, Addr2Ipv6(x)) && Contains(b, Addr2Ipv6(x));
    }
  }

  lemma PrefixedIsValid(x: Addr, p: Prefix)
    requires ValidPrefix(p) && HasPrefix(x, p)
    ensures !x.Invalid?
  {
  }

  ghost predicate Meets(ps: seq<Prefix>, i: nat, j: nat) {
    i < j < |ps| && Meet(ps[i], ps[j])
  }

  /** The set of addresses that a list of prefixes stands for. */
  predicate InSet(ps: seq<Prefix>, x: Addr) {
    exists p <- ps :: ValidPrefix(p) && HasPrefix(x, p)
  }

  /** The ranges and the prefixes contain the same addresses. */
  ghost predicate Represents(rs: seq<IpRange<()>>, ps: seq<Prefix>) {
    forall x: Addr :: !x.Invalid? ==> ((exists r <- rs :: Contains(r, Addr2Ipv6(x))) <==> InSet(ps, x))
  }

  lemma RangesRepresent(rs: seq<IpRange<()>>, ps: seq<Prefix>, s: seq<IpRange<()>>)
    requires RangesOf(rs, ps) && multiset(s) == multiset(rs)
    ensures Represents(s, ps)
  {
    hide Contains, HasPrefix, ValidPrefix, Addr2Ipv6, Proper;
    assert forall r :: r in rs <==> r in multiset(rs);
    assert forall r :: r in s <==> r in multiset(s);
    forall x: Addr | !x.Invalid?
      ensures (exists r <- s :: Contains(r, Addr2Ipv6(x))) <==> InSet(ps, x)
    {
      if r :| r in s && Contains(r, Addr2Ipv6(x)) {
        var i :| 0 <= i < |rs| && rs[i] == r;
        assert RangeOf(rs[i], ps[i]) && ps[i] in ps && HasPrefix(x, ps[i]);
      }
      if p :| p in ps && ValidPrefix(p) && HasPrefix(x, p) {
        var i :| 0 <= i < |ps| && ps[i] == p;
        assert RangeOf(rs[i], ps[i]) && rs[i] in rs && Contains(rs[i], Addr2Ipv6(x));
      }
    }
  }

  lemma ClashIsMeeting(rs: seq<IpRange<()>>, ps: seq<Prefix>)
    requires RangesOf(rs, ps)
    ensures Clash(rs) <==> exists i, j :: Meets(ps, i, j)
  {
    hide RangeOf, Overlap, Meet;
    if i: nat, j: nat :| Pair(rs, i, j) {
      OverlapIsMeet(rs[i], ps[i], rs[j], ps[j]);
      assert Meets(ps, i, j);
    }
    if i: nat, j: nat :| Meets(ps, i, j) {
      OverlapIsMeet(rs[i], ps[i], rs[j], ps[j]);
      assert Pair(rs, i, j);
    }
  }

  function ToIpv6(x: Addr): Option<Ipv6> {
    if x.Invalid? then None else Some(Addr2Ipv6(x))
  }

  lemma LastIsNotBefore(p: Prefix, last: Addr)
    requires ValidPrefix(p) && !last.Invalid? && AddrBits(last) == LastBits(p)
    ensures !Masked(p).Invalid? && RangeOf(IpRange(Addr2Ipv6(Masked(p)), Addr2Ipv6(last), ()), p)
  {
    hide Addr2Ipv6, Masked, AddrBits, LastBits;
    var start := Masked(p);
    RangeIsPrefix(p, last, p.addr);
    var r := IpRange(Addr2Ipv6(start), Addr2Ipv6(last), ());
    assert Contains(r, Addr2Ipv6(p.addr));
    forall x: Addr | !x.Invalid?
      ensures Contains(r, Addr2Ipv6(x)) <==> HasPrefix(x, p)
    {
      RangeIsPrefix(p, last, x);
    }
  }

  /**
   parseCIDRFile, from the parsed prefixes on: it fails exactly when two of the prefixes have an
   address in common, and otherwise the list contains the addresses that have one of them.
   */
  method BuildSet(ps: seq<Prefix>) returns (l: Option<List<()>>)
    requires forall p <- ps :: ValidPrefix(p)
    ensures l.None? <==> exists i, j :: Meets(ps, i, j)
    ensures l.Some? ==> l.value.Valid() && Represents(l.value.e, ps)
  {
    hide RangeOf, Clash, Meets, Represents, Masked, Addr2Ipv6, AddrBits, LastBits, ValidPrefix;
    var lb := new ListBuilder<()>();
    for n := 0 to |ps|
      invariant lb.Valid() && fresh(lb) && RangesOf(lb.b, ps[..n])
    {
      var p := ps[n];
      var last := LastIP(p);
      LastIsNotBefore(p, last);
      ProperRange(IpRange(Addr2Ipv6(Masked(p)), Addr2Ipv6(last), ()), p);
      var ok := lb.Add(ToIpv6(Masked(p)), ToIpv6(last), ());
      if !ok {
        return None;
      }
    }
    ghost var rs := lb.b;
    assert ps[..|ps|] == ps;
    ClashIsMeeting(rs, ps);
    l := lb.Build();
    RangesRepresent(rs, ps, lb.b);
  }

  lemma ProperRange(r: IpRange<()>, p: Prefix)
    requires RangeOf(r, p)
    ensures Proper(r)
  {
  }

  /** LookupAddr on one of the files of a set. */
  method MatchAddr(l: List<()>, x: Addr) returns (ok: bool)
    requires l.Valid()
    ensures ok <==> !x.Invalid? && exists r <- l.e :: Contains(r, Addr2Ipv6(x))
  {
    if x.Invalid? {
      return false;
    }
    var r := l.Lookup(Addr2Ipv6(x));
    ok := r.Some?;
  }

  /** A set matches exactly the addresses that have one of its prefixes. */
  method BuildAndMatch(ps: seq<Prefix>, x: Addr) returns (r: Option<bool>)
    requires forall p <- ps :: ValidPrefix(p)
    ensures r.None? <==> exists i, j :: Meets(ps, i, j)
    ensures r.Some? ==> (r.value <==> InSet(ps, x))
  {
    hide Meets;
    var l := BuildSet(ps);
    if l.None? {
      return None;
    }
    var ok := MatchAddr(l.value, x);
    return Some(ok);
  }
}
