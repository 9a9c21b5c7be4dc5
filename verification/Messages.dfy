/**
 Whole messages: what Msg.Pack writes, what Msg.Unpack reads, what MaxPackLen predicts
 (pkg/dnsmsg/msg.go). The methods of module MsgCodec are proved against these functions.
 */
module Messages {
  import opened Wrappers
  import opened WireBytes
  import opened NameWire
  import opened Records

  // ---------------------------------------------------------------------------------
  // Header
  // ---------------------------------------------------------------------------------

  /** OpCode and RCode are 16 bits wide in the source, though the wire has 4 bits for each. */
  datatype Header = Header(
    id: uint16,
    response: bool,
    opCode: bv16,
    authoritative: bool,
    truncated: bool,
    recursionDesired: bool,
    recursionAvailable: bool,
    authenticData: bool,
    checkingDisabled: bool,
    rCode: bv16)

  const BIT_QR: bv16 := 0x8000
  const BIT_AA: bv16 := 0x0400
  const BIT_TC: bv16 := 0x0200
  const BIT_RD: bv16 := 0x0100
  const BIT_RA: bv16 := 0x0080
  const BIT_AD: bv16 := 0x0020
  const BIT_CD: bv16 := 0x0010

  function Flag(on: bool, bit: bv16): bv16 {
    if on then bit else 0
  }

  /** Header.Pack */
  function HeaderBits(h: Header): bv16 {
    Bits(h.opCode, h.rCode, h.recursionAvailable, h.recursionDesired, h.truncated, h.authoritative, h.response,
         h.authenticData, h.checkingDisabled)
  }

  function Bits(opCode: bv16, rCode: bv16, ra: bool, rd: bool, tc: bool, aa: bool, qr: bool, ad: bool, cd: bool): bv16 {
    (opCode << 11) | rCode | Flag(ra, BIT_RA) | Flag(rd, BIT_RD) | Flag(tc, BIT_TC) | Flag(aa, BIT_AA)
    | Flag(qr, BIT_QR) | Flag(ad, BIT_AD) | Flag(cd, BIT_CD)
  }

  /** rawHeader.header */
  function HeaderOf(id: uint16, bits: bv16): Header {
    Header(id,
      bits & BIT_QR != 0,
      (bits >> 11) & 0xF,
      bits & BIT_AA != 0,
      bits & BIT_TC != 0,
      bits & BIT_RD != 0,
      bits & BIT_RA != 0,
      bits & BIT_AD != 0,
      bits & BIT_CD != 0,
      bits & 0xF)
  }

  predicate HeaderFits(h: Header) {
    h.opCode < 16 && h.rCode < 16
  }

  /** A header survives its 16 bits exactly when OpCode and RCode fit their 4. */
  lemma HeaderRoundTrip(h: Header)
    ensures HeaderOf(h.id, HeaderBits(h)) == h <==> HeaderFits(h)
  {
  }

  // ---------------------------------------------------------------------------------
  // Messages
  // ---------------------------------------------------------------------------------

  datatype Message = Message(
    header: Header,
    questions: seq<Question>,
    answers: seq<Resource>,
    authorities: seq<Resource>,
    additionals: seq<Resource>)

  function Qs(qs: seq<Question>): (s: seq<Item>)
    ensures |s| == |qs| && forall k | 0 <= k < |s| :: s[k] == Q(qs[k])
  {
    seq(|qs|, k requires 0 <= k < |qs| => Q(qs[k]))
  }

  function Rs(rs: seq<Resource>): (s: seq<Item>)
    ensures |s| == |rs| && forall k | 0 <= k < |s| :: s[k] == R(rs[k])
  {
    seq(|rs|, k requires 0 <= k < |rs| => R(rs[k]))
  }

  /** The items of a message, in the order they are packed. */
  function Items(m: Message): (s: seq<Item>) {
    Qs(m.questions) + Rs(m.answers) + Rs(m.authorities) + Rs(m.additionals)
  }

  function Forgotten(s: seq<Item>): (t: seq<Item>)
    ensures |t| == |s| && forall k | 0 <= k < |t| :: t[k] == Forget(s[k])
  {
    seq(|s|, k requires 0 <= k < |s| => Forget(s[k]))
  }

  /** The messages agree in everything but the Length of their resource headers. */
  predicate SameMessage(m: Message, m': Message) {
    && m.header == m'.header
    && |m.questions| == |m'.questions|
    && |m.answers| == |m'.answers|
    && |m.authorities| == |m'.authorities|
    && |m.additionals| == |m'.additionals|
    && Forgotten(Items(m)) == Forgotten(Items(m'))
  }

  /** The error Pack reports for a section of more than 65535 entries. */
  function CountError(m: Message): Option<Error> {
    if |m.questions| > MAX_UINT16 then Some(TooManyQuestions)
    else if |m.answers| > MAX_UINT16 then Some(TooManyAnswers)
    else if |m.authorities| > MAX_UINT16 then Some(TooManyAuthorities)
    else if |m.additionals| > MAX_UINT16 then Some(TooManyAdditionals)
    else None
  }

  const HEADER_LEN := 12

  function HeaderBytes(m: Message): (w: bytes)
    requires CountError(m).None?
    ensures |w| == HEADER_LEN
  {
    U16(m.header.id) + HeaderTail(HeaderBits(m.header), |m.questions|, |m.answers|, |m.authorities|, |m.additionals|)
  }

  /** The header after its id. */
  function HeaderTail(bits: bv16, qd: uint16, an: uint16, ns: uint16, ar: uint16): (w: bytes)
    ensures |w| == HEADER_LEN - 2
  {
    U16(bits as int) + U16(qd) + U16(an) + U16(ns) + U16(ar)
  }

  // ---------------------------------------------------------------------------------
  // Packing
  // ---------------------------------------------------------------------------------

  function PutItems(items: seq<Item>, o: OutBuf): (r: Result<OutBuf, Error>)
    ensures r.Ok? ==> o.w <= r.value.w && r.value.targets.Some? == o.targets.Some?
  {
    if items == [] then Ok(o)
    else
      var o1 :- PutItem(items[0], o);
      PutItems(items[1..], o1)
  }

  /** What a limited packing wrote, and of which items. */
  datatype Limited = Limited(out: OutBuf, kept: seq<Item>)

  /**
   Packing under a size limit: an item whose predicted length does not fit is left out. The
   limit counts the prefix bytes in front of the message. No limit if size is not positive.
   */
  function PutLimited(items: seq<Item>, size: int, prefix: nat, o: OutBuf): (r: Result<Limited, Error>)
    ensures r.Ok? ==> o.w <= r.value.out.w && r.value.out.targets.Some? == o.targets.Some?
  {
    if items == [] then Ok(Limited(o, []))
    else
      var l :- if size > 0 then ItemLen(items[0], o.targets) else Ok(0);
      if size > 0 && prefix + |o.w| + l > size then PutLimited(items[1..], size, prefix, o)
      else
        var o1 :- PutItem(items[0], o);
        var rest :- PutLimited(items[1..], size, prefix, o1);
        Ok(Limited(rest.out, [items[0]] + rest.kept))
  }

  /** The last OPT record of a section. */
  function LastOpt(rs: seq<Resource>): (r: Option<Resource>) {
    if rs == [] then None
    else if rs[|rs| - 1].hdr.typ == TYPE_OPT then Some(rs[|rs| - 1])
    else LastOpt(rs[..|rs| - 1])
  }

  function WithoutOpt(rs: seq<Resource>): seq<Resource> {
    if rs == [] then []
    else (if rs[0].hdr.typ == TYPE_OPT then [] else [rs[0]]) + WithoutOpt(rs[1..])
  }

  const MIN_SIZE := 512

  function EffectiveSize(size: int): int {
    if 0 < size < MIN_SIZE then MIN_SIZE else size
  }

  /** The OPT record that a size limit must not drop. */
  function ReservedOpt(m: Message, size: int): Option<Resource> {
    if size > 0 then LastOpt(m.additionals) else None
  }

  /** What is packed under the limit, in order: an OPT record that is reserved comes later. */
  function LimitedItems(m: Message, size: int): seq<Item> {
    Qs(m.questions) + Rs(m.answers) + Rs(m.authorities)
    + Rs(if ReservedOpt(m, size).Some? then WithoutOpt(m.additionals) else m.additionals)
  }

  /** The message as Pack starts it: header bytes, and a map if names are to be compressed. */
  function Start(m: Message, compression: bool): OutBuf
    requires CountError(m).None?
  {
    Out(HeaderBytes(m), if compression && |Items(m)| > 1 then Some(map[]) else None, map[])
  }

  /** Pack, but for the prefix it appends to. */
  function Packed(m: Message, prefix: nat, compression: bool, size: int): (r: Result<Limited, Error>)
  {
    if CountError(m).Some? then Err(CountError(m).value)
    else
      var opt := ReservedOpt(m, size);
      var l :- if opt.Some? then BodyLen(opt.value.body, None) else Ok(0);
      var p :- PutLimited(LimitedItems(m, size), EffectiveSize(size) - l, prefix, Start(m, compression));
      if opt.None? then Ok(p)
      else
        var o :- PutItem(R(opt.value), p.out);
        Ok(Limited(o, p.kept + [R(opt.value)]))
  }

  /** Predicted length of a run of items without compression. */
  function ItemsLen(items: seq<Item>): (r: Result<nat, Error>) {
    if items == [] then Ok(0)
    else
      var l :- ItemLen(items[0], None);
      var rest :- ItemsLen(items[1..]);
      Ok(l + rest)
  }

  /** MaxPackLen */
  function MaxPackLen(m: Message): (r: Result<nat, Error>) {
    var l :- ItemsLen(Items(m));
    Ok(HEADER_LEN + l)
  }

  // ---------------------------------------------------------------------------------
  // Unpacking
  // ---------------------------------------------------------------------------------

  /** Items of the given kinds, one after the other. */
  function ReadItems(kinds: seq<bool>, w: bytes, off: nat): (r: Result<(seq<Item>, nat), Error>)
    requires off <= |w|
    ensures r.Ok? ==> off <= r.value.1 <= |w| && KindsOf(r.value.0) == kinds
  {
    if kinds == [] then Ok(([], off))
    else
      var (i, off1) :- ReadItem(kinds[0], w, off);
      var (rest, end) :- ReadItems(kinds[1..], w, off1);
      Ok(([i] + rest, end))
  }

  function KindsOf(items: seq<Item>): (ks: seq<bool>)
    ensures |ks| == |items| && forall k | 0 <= k < |ks| :: ks[k] == items[k].R?
  {
    seq(|items|, k requires 0 <= k < |items| => items[k].R?)
  }

  /** Questions first, then resources. */
  function Kinds(questions: nat, resources: nat): (ks: seq<bool>) {
    seq(questions, _ => false) + seq(resources, _ => true)
  }

  function AsQuestions(s: seq<Item>): (qs: seq<Question>)
    requires forall i <- s :: i.Q?
    ensures Qs(qs) == s
  {
    var qs := seq(|s|, k requires 0 <= k < |s| => s[k].q);
    assert forall k | 0 <= k < |s| :: s[k] in s && Qs(qs)[k] == s[k];
    qs
  }

  function AsResources(s: seq<Item>): (rs: seq<Resource>)
    requires forall i <- s :: i.R?
    ensures Rs(rs) == s
  {
    var rs := seq(|s|, k requires 0 <= k < |s| => s[k].r);
    assert forall k | 0 <= k < |s| :: s[k] in s && Rs(rs)[k] == s[k];
    rs
  }

  /** A message from its header and the items of its four sections. */
  function Sections(h: Header, items: seq<Item>, qd: nat, an: nat, ns: nat, ar: nat): (m: Message)
    requires KindsOf(items) == Kinds(qd, an + ns + ar)
  {
    KindsSplit(items, qd, an + ns + ar);
    var r := items[qd..];
    Message(h, AsQuestions(items[..qd]), AsResources(r[..an]), AsResources(r[an..an + ns]), AsResources(r[an + ns..]))
  }

  lemma KindsSplit(items: seq<Item>, questions: nat, resources: nat)
    requires KindsOf(items) == Kinds(questions, resources)
    ensures |items| == questions + resources
    ensures forall i <- items[..questions] :: i.Q?
    ensures forall i <- items[questions..] :: i.R?
  {
    assert |items| == |KindsOf(items)|;
    assert forall k | 0 <= k < |items| :: items[k].R? == KindsOf(items)[k];
  }

  lemma SectionsItems(h: Header, items: seq<Item>, qd: nat, an: nat, ns: nat, ar: nat)
    requires KindsOf(items) == Kinds(qd, an + ns + ar)
    ensures var m := Sections(h, items, qd, an, ns, ar);
      && Items(m) == items
      && |m.questions| == qd && |m.answers| == an && |m.authorities| == ns && |m.additionals| == ar
  {
    KindsSplit(items, qd, an + ns + ar);
    var m := Sections(h, items, qd, an, ns, ar);
    Rejoin(items, qd, an, ns);
  }

  lemma Rejoin<T>(s: seq<T>, a: nat, b: nat, c: nat)
    requires a + b + c <= |s|
    ensures s[..a] + s[a..][..b] + s[a..][b..b + c] + s[a..][b + c..] == s
  {
  }

  /** Unpack */
  function Unpacked(w: bytes): (r: Result<Message, Error>)
  {
    if |w| < HEADER_LEN then Err(SmallBuffer)
    else
      var qd: nat, an: nat, ns: nat, ar: nat := AsU16(w[4..6]), AsU16(w[6..8]), AsU16(w[8..10]), AsU16(w[10..12]);
      var (items, _) :- ReadItems(Kinds(qd, an + ns + ar), w, HEADER_LEN);
      Ok(Sections(HeaderOf(AsU16(w[0..2]), AsU16(w[2..4]) as bv16), items, qd, an, ns, ar))
  }
}
