/**
 Questions and resource records, and what packing one appends to a message
 (pkg/dnsmsg/question.go, pkg/dnsmsg/rr.go). A record is packed and unpacked as a list of
 fields, each a name or a run of plain bytes; the methods of module RecordCodec work kind by
 kind as the source does and are proved against these functions.
 */
module Records {
  import opened Wrappers
  import opened WireBytes
  import opened NameWire

  type Addr4 = s: bytes | |s| == 4 witness [0, 0, 0, 0]
  type Addr16 = s: bytes | |s| == 16 witness seq(16, _ => 0)

  datatype Question = Question(name: NameBuf, typ: uint16, cls: uint16)

  datatype ResourceHdr = ResourceHdr(name: NameBuf, typ: uint16, cls: uint16, ttl: uint32, length: uint16)

  /** The record bodies the package knows; every other type is Raw. */
  datatype Body =
    | A(a: Addr4)
    | AAAA(aaaa: Addr16)
    | NAME(nameData: NameBuf)
    | SOA(ns: NameBuf, mbox: NameBuf, serial: uint32, refresh: uint32, retry: uint32, expire: uint32, minTTL: uint32)
    | MX(pref: uint16, mx: NameBuf)
    | SRV(priority: uint16, weight: uint16, port: uint16, target: NameBuf)
    | Raw(data: bytes)

  datatype Resource = Resource(hdr: ResourceHdr, body: Body)

  const TYPE_A := 1
  const TYPE_NS := 2
  const TYPE_CNAME := 5
  const TYPE_SOA := 6
  const TYPE_PTR := 12
  const TYPE_MX := 15
  const TYPE_AAAA := 28
  const TYPE_SRV := 33
  const TYPE_OPT := 41

  const MAX_UINT16 := 65535

  // ---------------------------------------------------------------------------------
  // Fields
  // ---------------------------------------------------------------------------------

  datatype Field = N(name: NameBuf) | B(data: bytes)

  /** What a reader expects of a field: a name, or that many bytes. */
  datatype Shape = AName | Plain(len: nat)

  function ShapeOf(f: Field): Shape {
    if f.N? then AName else Plain(|f.data|)
  }

  function ShapesOf(fs: seq<Field>): (ss: seq<Shape>)
    ensures |ss| == |fs|
  {
    seq(|fs|, i requires 0 <= i < |fs| => ShapeOf(fs[i]))
  }

  function PutField(f: Field, o: OutBuf): (r: Result<OutBuf, Error>)
    ensures r.Ok? ==> o.w <= r.value.w && r.value.targets.Some? == o.targets.Some?
  {
    match f
    case N(name) => PutName(name, o)
    case B(data) => Ok(o.Append(data))
  }

  function PutFields(fs: seq<Field>, o: OutBuf): (r: Result<OutBuf, Error>)
    ensures r.Ok? ==> o.w <= r.value.w && r.value.targets.Some? == o.targets.Some?
  {
    if fs == [] then Ok(o)
    else
      var o1 :- PutField(fs[0], o);
      PutFields(fs[1..], o1)
  }

  /** The length the packLen functions predict: every name with the same map. */
  function FieldsLen(fs: seq<Field>, targets: Option<Targets>): (r: Result<nat, Error>)
  {
    if fs == [] then Ok(0)
    else
      var l :- if fs[0].N? then NameLen(fs[0].name, targets) else Ok(|fs[0].data|);
      var rest :- FieldsLen(fs[1..], targets);
      Ok(l + rest)
  }

  /** The name at off and the offset after it, as unpack returns them. */
  function ReadName(w: bytes, off: nat): (r: Result<(NameBuf, nat), Error>)
    ensures r.Ok? ==> off < r.value.1 <= |w|
  {
    var n :- Expand(w, off, MAX_POINTERS, MAX_UNPACKED_NAME);
    ExpandIsBuf(w, off);
    Ok((n, NameEnd(w, off)))
  }

  lemma ExpandIsBuf(w: bytes, off: nat)
    requires Expand(w, off, MAX_POINTERS, MAX_UNPACKED_NAME).Ok?
    ensures Walkable(Expand(w, off, MAX_POINTERS, MAX_UNPACKED_NAME).value)
    ensures off < NameEnd(w, off) <= |w|
  {
    ExpandIsValid(w, off, MAX_POINTERS, MAX_UNPACKED_NAME);
    ValidIsTerminated(Expand(w, off, MAX_POINTERS, MAX_UNPACKED_NAME).value);
    TerminatedIsWalkable(Expand(w, off, MAX_POINTERS, MAX_UNPACKED_NAME).value);
  }

  function ReadField(s: Shape, w: bytes, off: nat): (r: Result<(Field, nat), Error>)
    requires off <= |w|
    ensures r.Ok? ==> off <= r.value.1 <= |w| && ShapeOf(r.value.0) == s
  {
    match s
    case AName =>
      var (n, end) :- ReadName(w, off);
      Ok((N(n), end))
    case Plain(len) =>
      if off + len > |w| then Err(SmallBuffer) else Ok((B(w[off..off + len]), off + len))
  }

  function ReadFields(ss: seq<Shape>, w: bytes, off: nat): (r: Result<(seq<Field>, nat), Error>)
    requires off <= |w|
    ensures r.Ok? ==> off <= r.value.1 <= |w| && ShapesOf(r.value.0) == ss
  {
    if ss == [] then Ok(([], off))
    else
      var (f, off1) :- ReadField(ss[0], w, off);
      var (fs, end) :- ReadFields(ss[1..], w, off1);
      Ok(([f] + fs, end))
  }

  // ---------------------------------------------------------------------------------
  // Records as fields
  // ---------------------------------------------------------------------------------

  function QuestionFields(q: Question): seq<Field> {
    [N(q.name), B(U16(q.typ) + U16(q.cls))]
  }

  const QUESTION_SHAPES: seq<Shape> := [AName, Plain(4)]

  function QuestionOf(fs: seq<Field>): (q: Question)
    requires ShapesOf(fs) == QUESTION_SHAPES
  {
    assert ShapesOf(fs)[0] == ShapeOf(fs[0]) && ShapesOf(fs)[1] == ShapeOf(fs[1]);
    Question(fs[0].name, AsU16(fs[1].data[..2]), AsU16(fs[1].data[2..]))
  }

  /** A record header carrying the given length; the header's own Length is ignored. */
  function HdrFields(h: ResourceHdr, length: uint16): seq<Field> {
    [N(h.name), B(U16(h.typ) + U16(h.cls) + U32(h.ttl)), B(U16(length))]
  }

  const HDR_SHAPES: seq<Shape> := [AName, Plain(8), Plain(2)]

  function HdrOf(fs: seq<Field>): (h: ResourceHdr)
    requires ShapesOf(fs) == HDR_SHAPES
  {
    assert forall i | 0 <= i < 3 :: ShapesOf(fs)[i] == ShapeOf(fs[i]);
    var d := fs[1].data;
    ResourceHdr(fs[0].name, AsU16(d[..2]), AsU16(d[2..4]), AsU32(d[4..]), AsU16(fs[2].data))
  }

  function BodyFields(b: Body): seq<Field> {
    match b
    case A(a) => [B(a)]
    case AAAA(a) => [B(a)]
    case NAME(n) => [N(n)]
    case SOA(ns, mbox, serial, refresh, retry, expire, minTTL) =>
      [N(ns), N(mbox), B(U32(serial) + U32(refresh) + U32(retry) + U32(expire) + U32(minTTL))]
    case MX(pref, mx) => [B(U16(pref)), N(mx)]
    case SRV(priority, weight, port, target) => [B(U16(priority) + U16(weight) + U16(port)), N(target)]
    case Raw(data) => [B(data)]
  }

  /** The shape unpackResource gives the body of a record of this type and length. */
  function BodyShapes(typ: uint16, length: uint16): seq<Shape> {
    if typ == TYPE_A then [Plain(4)]
    else if typ == TYPE_AAAA then [Plain(16)]
    else if typ == TYPE_MX then [Plain(2), AName]
    else if typ == TYPE_CNAME || typ == TYPE_NS || typ == TYPE_PTR then [AName]
    else if typ == TYPE_SOA then [AName, AName, Plain(20)]
    else if typ == TYPE_SRV then [Plain(6), AName]
    else [Plain(length)]
  }

  /** The kind of body that records of this type carry. */
  predicate BodyMatches(typ: uint16, b: Body) {
    if typ == TYPE_A then b.A?
    else if typ == TYPE_AAAA then b.AAAA?
    else if typ == TYPE_MX then b.MX?
    else if typ == TYPE_CNAME || typ == TYPE_NS || typ == TYPE_PTR then b.NAME?
    else if typ == TYPE_SOA then b.SOA?
    else if typ == TYPE_SRV then b.SRV?
    else b.Raw?
  }

  /** The body that fields of the type's shape stand for. */
  function BodyOf(typ: uint16, length: uint16, fs: seq<Field>): (b: Body)
    requires ShapesOf(fs) == BodyShapes(typ, length)
    ensures BodyMatches(typ, b)
    ensures b.Raw? ==> |b.data| == length
  {
    assert |fs| == |BodyShapes(typ, length)|;
    assert forall i | 0 <= i < |fs| :: ShapesOf(fs)[i] == ShapeOf(fs[i]);
    if typ == TYPE_A then A(fs[0].data)
    else if typ == TYPE_AAAA then AAAA(fs[0].data)
    else if typ == TYPE_MX then MX(AsU16(fs[0].data), fs[1].name)
    else if typ == TYPE_CNAME || typ == TYPE_NS || typ == TYPE_PTR then NAME(fs[0].name)
    else if typ == TYPE_SOA then
      var d := fs[2].data;
      SOA(fs[0].name, fs[1].name, AsU32(d[..4]), AsU32(d[4..8]), AsU32(d[8..12]), AsU32(d[12..16]), AsU32(d[16..20]))
    else if typ == TYPE_SRV then
      var d := fs[0].data;
      SRV(AsU16(d[..2]), AsU16(d[2..4]), AsU16(d[4..6]), fs[1].name)
    else Raw(fs[0].data)
  }

  lemma SoaNumbers(a: uint32, b: uint32, c: uint32, d: uint32, e: uint32)
    ensures var s := U32(a) + U32(b) + U32(c) + U32(d) + U32(e);
      |s| == 20 && AsU32(s[..4]) == a && AsU32(s[4..8]) == b && AsU32(s[8..12]) == c
      && AsU32(s[12..16]) == d && AsU32(s[16..20]) == e
  {
    var s := U32(a) + U32(b) + U32(c) + U32(d) + U32(e);
    assert s[..4] == U32(a) && s[4..8] == U32(b) && s[8..12] == U32(c) && s[12..16] == U32(d) && s[16..20] == U32(e);
    U32RoundTrip(a);
    U32RoundTrip(b);
    U32RoundTrip(c);
    U32RoundTrip(d);
    U32RoundTrip(e);
  }

  lemma SrvNumbers(a: uint16, b: uint16, c: uint16)
    ensures var s := U16(a) + U16(b) + U16(c);
      |s| == 6 && AsU16(s[..2]) == a && AsU16(s[2..4]) == b && AsU16(s[4..6]) == c
  {
    var s := U16(a) + U16(b) + U16(c);
    assert s[..2] == U16(a) && s[2..4] == U16(b) && s[4..6] == U16(c);
  }

  lemma QuestionOfFields(q: Question)
    ensures ShapesOf(QuestionFields(q)) == QUESTION_SHAPES && QuestionOf(QuestionFields(q)) == q
  {
    var d := QuestionFields(q)[1].data;
    assert d[..2] == U16(q.typ) && d[2..] == U16(q.cls);
    assert ShapesOf(QuestionFields(q)) == QUESTION_SHAPES;
  }

  lemma HdrOfFields(h: ResourceHdr, length: uint16)
    ensures ShapesOf(HdrFields(h, length)) == HDR_SHAPES && HdrOf(HdrFields(h, length)) == h.(length := length)
  {
    var d := HdrFields(h, length)[1].data;
    assert d[..2] == U16(h.typ) && d[2..4] == U16(h.cls) && d[4..] == U32(h.ttl);
    U32RoundTrip(h.ttl);
    assert ShapesOf(HdrFields(h, length)) == HDR_SHAPES;
  }

  lemma SoaOfFields(length: uint16, b: Body)
    requires b.SOA?
    ensures ShapesOf(BodyFields(b)) == BodyShapes(TYPE_SOA, length)
    ensures BodyOf(TYPE_SOA, length, BodyFields(b)) == b
  {
    SoaNumbers(b.serial, b.refresh, b.retry, b.expire, b.minTTL);
    assert ShapesOf(BodyFields(b)) == [AName, AName, Plain(20)];
    hide U32, AsU32;
  }

  lemma SrvOfFields(length: uint16, b: Body)
    requires b.SRV?
    ensures ShapesOf(BodyFields(b)) == BodyShapes(TYPE_SRV, length)
    ensures BodyOf(TYPE_SRV, length, BodyFields(b)) == b
  {
    SrvNumbers(b.priority, b.weight, b.port);
    assert ShapesOf(BodyFields(b)) == [Plain(6), AName];
    hide U16, AsU16;
  }

  /** A body survives the trip to fields and back. */
  lemma BodyOfFields(typ: uint16, length: uint16, b: Body)
    requires BodyMatches(typ, b)
    requires b.Raw? ==> |b.data| == length
    ensures ShapesOf(BodyFields(b)) == BodyShapes(typ, length)
    ensures BodyOf(typ, length, BodyFields(b)) == b
  {
    match b {
      case SOA(_, _, _, _, _, _, _) =>
        SoaOfFields(length, b);
      case SRV(_, _, _, _) =>
        SrvOfFields(length, b);
      case MX(pref, _) =>
        U16RoundTrip(pref);
        assert ShapesOf(BodyFields(b)) == [Plain(2), AName];
      case A(_) =>
        assert ShapesOf(BodyFields(b)) == [Plain(4)];
      case AAAA(_) =>
        assert ShapesOf(BodyFields(b)) == [Plain(16)];
      case NAME(_) =>
        assert ShapesOf(BodyFields(b)) == [AName];
      case Raw(_) =>
        assert ShapesOf(BodyFields(b)) == [Plain(length)];
    }
  }

  // ---------------------------------------------------------------------------------
  // Questions and resources
  // ---------------------------------------------------------------------------------

  /** An entry of a message section. */
  datatype Item = Q(q: Question) | R(r: Resource)

  /** Everything but the header field Length, which packing ignores. */
  function Forget(i: Item): Item {
    if i.Q? then i else R(i.r.(hdr := i.r.hdr.(length := 0)))
  }

  /** A resource whose header already carries this length. */
  function PutWithLength(r: Resource, length: uint16, o: OutBuf): (res: Result<OutBuf, Error>)
    ensures res.Ok? ==> o.w <= res.value.w && res.value.targets.Some? == o.targets.Some?
  {
    var h :- PutFields(HdrFields(r.hdr, length), o);
    PutFields(BodyFields(r.body), h)
  }

  /** The length of the body in a resource packed at o. */
  function BodyLength(r: Resource, o: OutBuf): (l: Result<nat, Error>)
  {
    var h :- PutFields(HdrFields(r.hdr, 0), o);
    var b :- PutFields(BodyFields(r.body), h);
    Ok(|b.w| - |h.w|)
  }

  function PutItem(i: Item, o: OutBuf): (res: Result<OutBuf, Error>)
    ensures res.Ok? ==> o.w <= res.value.w && res.value.targets.Some? == o.targets.Some?
  {
    if i.Q? then PutFields(QuestionFields(i.q), o)
    else
      var l :- BodyLength(i.r, o);
      if l > MAX_UINT16 then Err(ResTooLong) else PutWithLength(i.r, l, o)
  }

  /** packLen of a question, packRRLen of a resource: the target of SRV is never compressed there. */
  function BodyLen(b: Body, targets: Option<Targets>): (l: Result<nat, Error>) {
    FieldsLen(BodyFields(b), if b.SRV? then None else targets)
  }

  function ItemLen(i: Item, targets: Option<Targets>): (l: Result<nat, Error>) {
    if i.Q? then FieldsLen(QuestionFields(i.q), targets)
    else
      var h :- FieldsLen(HdrFields(i.r.hdr, 0), targets);
      var b :- BodyLen(i.r.body, targets);
      if b > MAX_UINT16 then Err(ResTooLong) else Ok(h + b)
  }

  function ReadQuestion(w: bytes, off: nat): (r: Result<(Question, nat), Error>)
    requires off <= |w|
    ensures r.Ok? ==> off <= r.value.1 <= |w|
  {
    var (fs, end) :- ReadFields(QUESTION_SHAPES, w, off);
    Ok((QuestionOf(fs), end))
  }

  /** A body of the kind that the type calls for. */
  function ReadBody(typ: uint16, length: uint16, w: bytes, off: nat): (r: Result<(Body, nat), Error>)
    requires off <= |w|
    ensures r.Ok? ==> off <= r.value.1 <= |w|
  {
    var (fs, end) :- ReadFields(BodyShapes(typ, length), w, off);
    Ok((BodyOf(typ, length, fs), end))
  }

  function ReadHdr(w: bytes, off: nat): (r: Result<(ResourceHdr, nat), Error>)
    requires off <= |w|
    ensures r.Ok? ==> off <= r.value.1 <= |w|
  {
    var (fs, end) :- ReadFields(HDR_SHAPES, w, off);
    Ok((HdrOf(fs), end))
  }

  function ReadResource(w: bytes, off: nat): (r: Result<(Resource, nat), Error>)
    requires off <= |w|
    ensures r.Ok? ==> off <= r.value.1 <= |w|
  {
    var (h, off1) :- ReadHdr(w, off);
    var (b, end) :- ReadBody(h.typ, h.length, w, off1);
    if end - off1 != h.length then Err(InvalidBodyLen) else Ok((Resource(h, b), end))
  }

  function ReadItem(resource: bool, w: bytes, off: nat): (r: Result<(Item, nat), Error>)
    requires off <= |w|
    ensures r.Ok? ==> off <= r.value.1 <= |w| && r.value.0.R? == resource
  {
    if resource then
      var (r, end) :- ReadResource(w, off);
      Ok((R(r), end))
    else
      var (q, end) :- ReadQuestion(w, off);
      Ok((Q(q), end))
  }
}
