/**
 Packing and unpacking questions and resource records step by step, each kind of body in its
 own way (pkg/dnsmsg/question.go, pkg/dnsmsg/rr.go).
 */
module RecordCodec {
  import opened Wrappers
  import opened WireBytes
  import opened NameWire
  import opened NameCodec
  import opened Records
  import opened RecordRoundTrip

  // ---------------------------------------------------------------------------------
  // Packing
  // ---------------------------------------------------------------------------------

  /** A message that stands for o from offset off on, with the map of o. */
  ghost predicate Stands(msg: bytes, c: CompressionMap?, off: nat, o: OutBuf)
    reads c
  {
    off <= |msg| && msg[off..] == o.w && Holds(c, o.targets)
  }

  lemma PutOneField(f: Field, o: OutBuf)
    ensures PutFields([f], o) == PutField(f, o)
  {
    assert [f][1..] == [];
  }

  lemma PutTwoFields(f: Field, g: Field, o: OutBuf)
    ensures PutFields([f, g], o) ==
      if PutField(f, o).Ok? then PutField(g, PutField(f, o).value) else PutField(f, o)
  {
    assert [f, g][1..] == [g];
    if PutField(f, o).Ok? {
      PutOneField(g, PutField(f, o).value);
    }
  }

  lemma PutThreeFields(f: Field, g: Field, h: Field, o: OutBuf)
    ensures PutFields([f, g, h], o) ==
      if PutField(f, o).Ok? then PutFields([g, h], PutField(f, o).value) else PutField(f, o)
  {
    assert [f, g, h][1..] == [g, h];
  }

  lemma SplitsAt(front: bytes, w: bytes)
    ensures (front + w)[..|front|] == front && (front + w)[|front|..] == w
  {
  }

  method PackQuestion(q: Question, msg: bytes, compression: CompressionMap?, off: nat, ghost o: OutBuf)
    returns (r: Result<bytes, Error>)
    requires Stands(msg, compression, off, o)
    modifies compression
    ensures Wrote(r, compression, msg[..off], PutItem(Q(q), o))
  {
    ghost var fs := QuestionFields(q);
    PutTwoFields(fs[0], fs[1], o);
    var buf :- PackName(q.name, msg, compression, off, o);
    AppendBehind(msg[..off], PutName(q.name, o).value, fs[1].data);
    assert buf + U16(q.typ) + U16(q.cls) == buf + fs[1].data;
    buf := buf + U16(q.typ) + U16(q.cls);
    return Ok(buf);
  }

  method PackHdr(h: ResourceHdr, msg: bytes, compression: CompressionMap?, off: nat, dataLen: uint16, ghost o: OutBuf)
    returns (r: Result<bytes, Error>)
    requires Stands(msg, compression, off, o)
    modifies compression
    ensures Wrote(r, compression, msg[..off], PutFields(HdrFields(h, dataLen), o))
  {
    ghost var fs := HdrFields(h, dataLen);
    PutThreeFields(fs[0], fs[1], fs[2], o);
    var buf :- PackName(h.name, msg, compression, off, o);
    ghost var o1 := PutName(h.name, o).value;
    PutTwoFields(fs[1], fs[2], o1);
    AppendBehind(msg[..off], o1, fs[1].data);
    AppendBehind(msg[..off], o1.Append(fs[1].data), fs[2].data);
    assert buf + U16(h.typ) + U16(h.cls) + U32(h.ttl) == buf + fs[1].data;
    buf := buf + U16(h.typ) + U16(h.cls) + U32(h.ttl);
    buf := buf + U16(dataLen);
    return Ok(buf);
  }

  /** packBody of each kind of resource. */
  method PackBody(b: Body, msg: bytes, compression: CompressionMap?, off: nat, ghost o: OutBuf)
    returns (r: Result<bytes, Error>)
    requires Stands(msg, compression, off, o)
    modifies compression
    ensures Wrote(r, compression, msg[..off], PutFields(BodyFields(b), o))
  {
    ghost var fs := BodyFields(b);
    assert msg == msg[..off] + o.w;
    match b {
      case A(data) =>
        PutOneField(fs[0], o);
        AppendBehind(msg[..off], o, data);
        return Ok(msg + data);
      case AAAA(data) =>
        PutOneField(fs[0], o);
        AppendBehind(msg[..off], o, data);
        return Ok(msg + data);
      case NAME(n) =>
        PutOneField(fs[0], o);
        r := PackName(n, msg, compression, off, o);
      case SOA(ns, mbox, serial, refresh, retry, expire, minTTL) =>
        r := PackSoa(b, msg, compression, off, o);
      case MX(pref, mx) =>
        PutTwoFields(fs[0], fs[1], o);
        AppendBehind(msg[..off], o, U16(pref));
        var buf := msg + U16(pref);
        SplitsAt(msg[..off], o.Append(U16(pref)).w);
        r := PackName(mx, buf, compression, off, o.Append(U16(pref)));
      case SRV(priority, weight, port, target) =>
        PutTwoFields(fs[0], fs[1], o);
        AppendBehind(msg[..off], o, fs[0].data);
        assert msg + U16(priority) + U16(weight) + U16(port) == msg + fs[0].data;
        var buf := msg + U16(priority) + U16(weight) + U16(port);
        SplitsAt(msg[..off], o.Append(fs[0].data).w);
        r := PackName(target, buf, compression, off, o.Append(fs[0].data));
      case Raw(data) =>
        PutOneField(fs[0], o);
        AppendBehind(msg[..off], o, data);
        return Ok(msg + data);
    }
  }

  method PackSoa(b: Body, msg: bytes, compression: CompressionMap?, off: nat, ghost o: OutBuf)
    returns (r: Result<bytes, Error>)
    requires b.SOA? && Stands(msg, compression, off, o)
    modifies compression
    ensures Wrote(r, compression, msg[..off], PutFields(BodyFields(b), o))
  {
    ghost var fs := BodyFields(b);
    PutThreeFields(fs[0], fs[1], fs[2], o);
    var buf :- PackName(b.ns, msg, compression, off, o);
    ghost var o1 := PutName(b.ns, o).value;
    PutTwoFields(fs[1], fs[2], o1);
    SplitsAt(msg[..off], o1.w);
    buf :- PackName(b.mbox, buf, compression, off, o1);
    ghost var o2 := PutName(b.mbox, o1).value;
    AppendBehind(msg[..off], o2, fs[2].data);
    assert buf + U32(b.serial) + U32(b.refresh) + U32(b.retry) + U32(b.expire) + U32(b.minTTL) == buf + fs[2].data;
    buf := buf + U32(b.serial) + U32(b.refresh) + U32(b.retry) + U32(b.expire) + U32(b.minTTL);
    return Ok(buf);
  }

  /** packRR: the length is patched in after the body is packed. */
  method PackRR(rr: Resource, msg: bytes, compression: CompressionMap?, off: nat, ghost o: OutBuf)
    returns (r: Result<bytes, Error>)
    requires Stands(msg, compression, off, o)
    modifies compression
    ensures Wrote(r, compression, msg[..off], PutItem(R(rr), o))
  {
    var buf :- PackHdr(rr.hdr, msg, compression, off, 0, o);
    ghost var h := PutFields(HdrFields(rr.hdr, 0), o).value;
    SplitsAt(msg[..off], h.w);
    var dataLenOff := |buf| - 2;
    var dataOff := |buf|;
    buf :- PackBody(rr.body, buf, compression, off, h);
    ghost var b := PutFields(BodyFields(rr.body), h).value;
    var dataLen := |buf| - dataOff;
    assert BodyLength(rr, o) == Ok(dataLen);
    if dataLen > MAX_UINT16 {
      return Err(ResTooLong);
    }
    PatchedLength(rr, dataLen, o);
    PatchBehind(msg[..off], b.w, |h.w|, U16(dataLen));
    buf := buf[..dataLenOff] + U16(dataLen) + buf[dataLenOff + 2..];
    return Ok(buf);
  }

  lemma PatchBehind(front: bytes, w: bytes, k: nat, data: bytes)
    requires 2 <= k <= |w|
    ensures var buf := front + w;
      buf[..|front| + k - 2] + data + buf[|front| + k..] == front + (w[..k - 2] + data + w[k..])
  {
  }

  /** Patching the two length bytes gives the resource as if its length had been known before. */
  lemma PatchedLength(rr: Resource, dataLen: uint16, o: OutBuf)
    requires BodyLength(rr, o) == Ok(dataLen as nat)
    ensures var h := PutFields(HdrFields(rr.hdr, 0), o).value;
      var b := PutFields(BodyFields(rr.body), h).value;
      && PutItem(R(rr), o).Ok? && |h.w| >= 2
      && PutItem(R(rr), o).value == b.(w := b.w[..|h.w| - 2] + U16(dataLen) + b.w[|h.w|..])
  {
    var h := PutFields(HdrFields(rr.hdr, 0), o).value;
    var b := PutFields(BodyFields(rr.body), h).value;
    HdrPatch(rr.hdr, dataLen, o);
    var h' := PutFields(HdrFields(rr.hdr, dataLen), o).value;
    PutFieldsAlike(BodyFields(rr.body), h, h');
    var b' := PutFields(BodyFields(rr.body), h').value;
    assert b'.w == h'.w + b'.w[|h'.w|..];
    assert b.w[..|h.w| - 2] == h.w[..|h.w| - 2];
  }

  lemma HdrPatch(hdr: ResourceHdr, dataLen: uint16, o: OutBuf)
    requires PutFields(HdrFields(hdr, 0), o).Ok?
    ensures var h := PutFields(HdrFields(hdr, 0), o).value;
      |h.w| >= 2 && PutFields(HdrFields(hdr, dataLen), o) == Ok(h.(w := h.w[..|h.w| - 2] + U16(dataLen)))
  {
    var fs, fs' := HdrFields(hdr, 0), HdrFields(hdr, dataLen);
    PutThreeFields(fs[0], fs[1], fs[2], o);
    PutThreeFields(fs'[0], fs'[1], fs'[2], o);
    var o1 := PutName(hdr.name, o).value;
    PutTwoFields(fs[1], fs[2], o1);
    PutTwoFields(fs'[1], fs'[2], o1);
  }

  // ---------------------------------------------------------------------------------
  // Predicted lengths
  // ---------------------------------------------------------------------------------

  lemma LenOfFields(f: Field, fs: seq<Field>, targets: Option<Targets>)
    ensures var l := if f.N? then NameLen(f.name, targets) else Ok(|f.data|);
      var rest := FieldsLen(fs, targets);
      FieldsLen([f] + fs, targets) == if l.Err? then Err(l.error) else if rest.Err? then rest else Ok(l.value + rest.value)
  {
    assert ([f] + fs)[1..] == fs;
  }

  lemma LenOfData(data: bytes, targets: Option<Targets>)
    ensures FieldsLen([B(data)], targets) == Ok(|data|)
  {
    LenOfFields(B(data), [], targets);
    assert [B(data)] + [] == [B(data)];
  }

  lemma LenOfName(n: NameBuf, targets: Option<Targets>)
    ensures FieldsLen([N(n)], targets) == NameLen(n, targets)
  {
    LenOfFields(N(n), [], targets);
    assert [N(n)] + [] == [N(n)];
  }

  lemma LenOfLast(f: Field, n: NameBuf, targets: Option<Targets>)
    requires f.B?
    ensures FieldsLen([f, N(n)], targets) ==
      if NameLen(n, targets).Err? then NameLen(n, targets) else Ok(|f.data| + NameLen(n, targets).value)
  {
    LenOfFields(f, [N(n)], targets);
    LenOfName(n, targets);
    assert [f, N(n)] == [f] + [N(n)];
  }

  lemma LenOfSoa(b: Body, targets: Option<Targets>)
    requires b.SOA?
    ensures BodyLen(b, targets) ==
      (var ns :- NameLen(b.ns, targets);
       var mbox :- NameLen(b.mbox, targets);
       Ok(ns + mbox + 20))
  {
    hide FieldsLen, NameLen;
    var fs := BodyFields(b);
    LenOfFields(fs[0], [fs[1], fs[2]], targets);
    LenOfFields(fs[1], [fs[2]], targets);
    LenOfData(fs[2].data, targets);
    assert fs == [fs[0]] + [fs[1], fs[2]] && [fs[1], fs[2]] == [fs[1]] + [fs[2]];
  }

  /** Question.packLen */
  method QuestionPackLen(q: Question, compression: CompressionMap?, ghost targets: Option<Targets>)
    returns (r: Result<nat, Error>)
    requires Holds(compression, targets)
    ensures r == ItemLen(Q(q), targets)
  {
    ghost var fs := QuestionFields(q);
    LenOfFields(fs[0], [fs[1]], targets);
    LenOfData(fs[1].data, targets);
    assert fs == [fs[0]] + [fs[1]];
    var l :- PackNameLen(q.name, compression, targets);
    return Ok(l + 4);
  }

  /** ResourceHdr.packLen */
  method HdrPackLen(h: ResourceHdr, compression: CompressionMap?, ghost targets: Option<Targets>)
    returns (r: Result<nat, Error>)
    requires Holds(compression, targets)
    ensures r == FieldsLen(HdrFields(h, 0), targets)
  {
    ghost var fs := HdrFields(h, 0);
    LenOfFields(fs[0], [fs[1], fs[2]], targets);
    LenOfFields(fs[1], [fs[2]], targets);
    LenOfData(fs[2].data, targets);
    assert fs == [fs[0]] + [fs[1], fs[2]] && [fs[1], fs[2]] == [fs[1]] + [fs[2]];
    var l :- PackNameLen(h.name, compression, targets);
    return Ok(l + 10);
  }

  /** packBodyLen of each kind of resource. */
  method BodyPackLen(b: Body, compression: CompressionMap?, ghost targets: Option<Targets>)
    returns (r: Result<nat, Error>)
    requires Holds(compression, targets)
    ensures r == BodyLen(b, targets)
  {
    hide FieldsLen, NameLen;
    ghost var fs := BodyFields(b);
    match b {
      case A(data) =>
        LenOfData(data, targets);
        return Ok(4);
      case AAAA(data) =>
        LenOfData(data, targets);
        return Ok(16);
      case NAME(n) =>
        LenOfName(n, targets);
        r := PackNameLen(n, compression, targets);
      case SOA(ns, mbox, serial, refresh, retry, expire, minTTL) =>
        LenOfSoa(b, targets);
        var s :- PackNameLen(ns, compression, targets);
        var l :- PackNameLen(mbox, compression, targets);
        return Ok(s + l + 20);
      case MX(pref, mx) =>
        LenOfLast(fs[0], mx, targets);
        var l :- PackNameLen(mx, compression, targets);
        return Ok(2 + l);
      case SRV(priority, weight, port, target) =>
        LenOfLast(fs[0], target, None);
        var l :- PackNameLen(target, null, None);
        return Ok(6 + l);
      case Raw(data) =>
        LenOfData(data, targets);
        return Ok(|data|);
    }
  }

  /** packRRLen */
  method PackRRLen(rr: Resource, compression: CompressionMap?, ghost targets: Option<Targets>)
    returns (r: Result<nat, Error>)
    requires Holds(compression, targets)
    ensures r == ItemLen(R(rr), targets)
  {
    var s :- HdrPackLen(rr.hdr, compression, targets);
    var l :- BodyPackLen(rr.body, compression, targets);
    if l > MAX_UINT16 {
      return Err(ResTooLong);
    }
    return Ok(s + l);
  }

  // ---------------------------------------------------------------------------------
  // Unpacking
  // ---------------------------------------------------------------------------------

  /** unpackUint16Msg */
  function UnpackU16(w: bytes, off: nat): (r: Result<(uint16, nat), Error>)
    requires off <= |w|
    ensures r.Ok? ==> off <= r.value.1 <= |w|
  {
    if |w| - off < 2 then Err(SmallBuffer) else Ok((AsU16(w[off..off + 2]), off + 2))
  }

  /** unpackUint32Msg */
  function UnpackU32(w: bytes, off: nat): (r: Result<(uint32, nat), Error>)
    requires off <= |w|
    ensures r.Ok? ==> off <= r.value.1 <= |w|
  {
    if |w| - off < 4 then Err(SmallBuffer) else Ok((AsU32(w[off..off + 4]), off + 4))
  }

  method UnpackName(w: bytes, off: nat) returns (r: Result<(NameBuf, nat), Error>)
    ensures r == ReadName(w, off)
    ensures r.Ok? ==> off < r.value.1 <= |w|
  {
    var n := new Name();
    var end := n.Unpack(w, off);
    if end.Err? {
      return Err(end.error);
    }
    return Ok((n.b, end.value));
  }

  lemma ReadCons(s: Shape, ss: seq<Shape>, w: bytes, off: nat)
    requires off <= |w|
    ensures var f := ReadField(s, w, off);
      ReadFields([s] + ss, w, off) ==
        if f.Err? then Err(f.error)
        else
          var rest := ReadFields(ss, w, f.value.1);
          if rest.Err? then Err(rest.error) else Ok(([f.value.0] + rest.value.0, rest.value.1))
  {
    assert ([s] + ss)[1..] == ss;
  }

  lemma ReadPlain(len: nat, w: bytes, off: nat)
    requires off <= |w|
    ensures ReadFields([Plain(len)], w, off) ==
      if off + len > |w| then Err(SmallBuffer) else Ok(([B(w[off..off + len])], off + len))
  {
    ReadCons(Plain(len), [], w, off);
    assert [Plain(len)] + [] == [Plain(len)];
    assert off + len <= |w| ==> [B(w[off..off + len])] + [] == [B(w[off..off + len])];
  }

  lemma ReadOneName(w: bytes, off: nat)
    requires off <= |w|
    ensures ReadFields([AName], w, off) ==
      if ReadName(w, off).Err? then Err(ReadName(w, off).error)
      else Ok(([N(ReadName(w, off).value.0)], ReadName(w, off).value.1))
  {
    ReadCons(AName, [], w, off);
    assert [AName] + [] == [AName];
    var r := ReadName(w, off);
    assert r.Ok? ==> [N(r.value.0)] + [] == [N(r.value.0)];
  }

  method UnpackQuestion(w: bytes, off: nat) returns (r: Result<(Question, nat), Error>)
    requires off <= |w|
    ensures r == ReadQuestion(w, off)
  {
    ReadCons(AName, [Plain(4)], w, off);
    assert QUESTION_SHAPES == [AName] + [Plain(4)];
    var name :- UnpackName(w, off);
    ghost var d := name.1;
    ReadPlain(4, w, d);
    var typ :- UnpackU16(w, name.1);
    var cls :- UnpackU16(w, typ.1);
    assert w[d..d + 4][..2] == w[d..d + 2] && w[d..d + 4][2..] == w[d + 2..d + 4];
    return Ok((Question(name.0, typ.0, cls.0), cls.1));
  }

  lemma ReadPlainPair(a: nat, b: nat, w: bytes, off: nat)
    requires off <= |w|
    ensures ReadFields([Plain(a), Plain(b)], w, off) ==
      if off + a + b > |w| then Err(SmallBuffer)
      else Ok(([B(w[off..off + a]), B(w[off + a..off + a + b])], off + a + b))
  {
    ReadCons(Plain(a), [Plain(b)], w, off);
    assert [Plain(a), Plain(b)] == [Plain(a)] + [Plain(b)];
    if off + a <= |w| {
      ReadPlain(b, w, off + a);
      assert off + a + b <= |w| ==>
        [B(w[off..off + a])] + [B(w[off + a..off + a + b])] == [B(w[off..off + a]), B(w[off + a..off + a + b])];
    }
  }

  lemma HdrAsFields(w: bytes, off: nat, n: NameBuf, d: nat)
    requires off <= |w| && ReadName(w, off) == Ok((n, d))
    ensures ReadFields(HDR_SHAPES, w, off) ==
      if d + 10 > |w| then Err(SmallBuffer) else Ok(([N(n), B(w[d..d + 8]), B(w[d + 8..d + 10])], d + 10))
  {
    ReadCons(AName, [Plain(8), Plain(2)], w, off);
    assert HDR_SHAPES == [AName] + [Plain(8), Plain(2)];
    ReadPlainPair(8, 2, w, d);
    assert d + 10 <= |w| ==>
      [N(n)] + [B(w[d..d + 8]), B(w[d + 8..d + 10])] == [N(n), B(w[d..d + 8]), B(w[d + 8..d + 10])];
  }

  lemma SubSlice(w: bytes, d: nat, n: nat, i: nat, j: nat)
    requires i <= j <= n && d + n <= |w|
    ensures w[d..d + n][i..j] == w[d + i..d + j]
    ensures j == n ==> w[d..d + n][i..] == w[d + i..d + j]
    ensures i == 0 ==> w[d..d + n][..j] == w[d..d + j]
  {
    var s, t := w[d..d + n][i..j], w[d + i..d + j];
    assert |s| == |t| && forall k | 0 <= k < |s| :: s[k] == t[k];
  }

  /** A record header, field by field. */
  lemma HdrByFields(w: bytes, off: nat)
    requires off <= |w|
    ensures var n := ReadName(w, off);
      if n.Err? then ReadHdr(w, off) == Err(n.error)
      else
        var d := n.value.1;
        if d + 10 > |w| then ReadHdr(w, off) == Err(SmallBuffer)
        else ReadHdr(w, off) == Ok((ResourceHdr(n.value.0, AsU16(w[d..d + 2]), AsU16(w[d + 2..d + 4]),
                                                AsU32(w[d + 4..d + 8]), AsU16(w[d + 8..d + 10])), d + 10))
  {
    hide ReadFields, ReadName, AsU16, AsU32;
    var n := ReadName(w, off);
    if n.Ok? {
      var d := n.value.1;
      HdrAsFields(w, off, n.value.0, d);
      if d + 10 <= |w| {
        SubSlice(w, d, 8, 0, 2);
        SubSlice(w, d, 8, 2, 4);
        SubSlice(w, d, 8, 4, 8);
      }
    } else {
      ReadCons(AName, [Plain(8), Plain(2)], w, off);
      assert HDR_SHAPES == [AName] + [Plain(8), Plain(2)];
    }
  }

  method UnpackHdr(w: bytes, off: nat) returns (r: Result<(ResourceHdr, nat), Error>)
    requires off <= |w|
    ensures r == ReadHdr(w, off)
  {
    HdrByFields(w, off);
    var name :- UnpackName(w, off);
    var typ :- UnpackU16(w, name.1);
    var cls :- UnpackU16(w, typ.1);
    var ttl :- UnpackU32(w, cls.1);
    var dataLen :- UnpackU16(w, ttl.1);
    return Ok((ResourceHdr(name.0, typ.0, cls.0, ttl.0, dataLen.0), dataLen.1));
  }

  lemma DataBody(typ: uint16, length: uint16, len: nat, w: bytes, off: nat)
    requires off <= |w| && BodyShapes(typ, length) == [Plain(len)]
    ensures var r := ReadBody(typ, length, w, off);
      if off + len > |w| then r == Err(SmallBuffer)
      else r.Ok? && r.value == (BodyOf(typ, length, [B(w[off..off + len])]), off + len)
  {
    ReadPlain(len, w, off);
  }

  lemma NameBody(typ: uint16, length: uint16, w: bytes, off: nat)
    requires off <= |w| && BodyShapes(typ, length) == [AName]
    ensures var n := ReadName(w, off);
      ReadBody(typ, length, w, off) == if n.Err? then Err(n.error) else Ok((NAME(n.value.0), n.value.1))
  {
    ReadOneName(w, off);
  }

  /** A body of len plain bytes and a name: that of MX and SRV. */
  lemma DataNameBody(typ: uint16, length: uint16, len: nat, w: bytes, off: nat)
    requires off <= |w| && BodyShapes(typ, length) == [Plain(len), AName]
    ensures var r := ReadBody(typ, length, w, off);
      if off + len > |w| then r == Err(SmallBuffer)
      else
        var n := ReadName(w, off + len);
        if n.Err? then r == Err(n.error)
        else r.Ok? && r.value == (BodyOf(typ, length, [B(w[off..off + len]), N(n.value.0)]), n.value.1)
  {
    ReadCons(Plain(len), [AName], w, off);
    assert BodyShapes(typ, length) == [Plain(len)] + [AName];
    if off + len <= |w| {
      ReadOneName(w, off + len);
      var n := ReadName(w, off + len);
      assert n.Ok? ==> [B(w[off..off + len])] + [N(n.value.0)] == [B(w[off..off + len]), N(n.value.0)];
    }
  }

  lemma SoaAsFields(w: bytes, off: nat)
    requires off <= |w|
    ensures var r := ReadFields([AName, AName, Plain(20)], w, off);
      var ns := ReadName(w, off);
      if ns.Err? then r == Err(ns.error)
      else
        var mbox := ReadName(w, ns.value.1);
        if mbox.Err? then r == Err(mbox.error)
        else
          var d := mbox.value.1;
          if d + 20 > |w| then r == Err(SmallBuffer)
          else r == Ok(([N(ns.value.0), N(mbox.value.0), B(w[d..d + 20])], d + 20))
  {
    ReadCons(AName, [AName, Plain(20)], w, off);
    assert [AName, AName, Plain(20)] == [AName] + [AName, Plain(20)];
    var ns := ReadName(w, off);
    if ns.Ok? {
      ReadCons(AName, [Plain(20)], w, ns.value.1);
      assert [AName, Plain(20)] == [AName] + [Plain(20)];
      var mbox := ReadName(w, ns.value.1);
      if mbox.Ok? {
        var d := mbox.value.1;
        ReadPlain(20, w, d);
        assert d + 20 <= |w| ==>
          [N(ns.value.0)] + ([N(mbox.value.0)] + [B(w[d..d + 20])]) == [N(ns.value.0), N(mbox.value.0), B(w[d..d + 20])];
      }
    }
  }

  lemma SoaOf(typ: uint16, length: uint16, ns: NameBuf, mbox: NameBuf, d: bytes)
    requires typ == TYPE_SOA && |d| == 20
    ensures ShapesOf([N(ns), N(mbox), B(d)]) == BodyShapes(typ, length)
    ensures BodyOf(typ, length, [N(ns), N(mbox), B(d)]) ==
      SOA(ns, mbox, AsU32(d[..4]), AsU32(d[4..8]), AsU32(d[8..12]), AsU32(d[12..16]), AsU32(d[16..20]))
  {
  }

  lemma SoaBody(typ: uint16, length: uint16, w: bytes, off: nat)
    requires off <= |w| && typ == TYPE_SOA
    ensures var r := ReadBody(typ, length, w, off);
      var ns := ReadName(w, off);
      if ns.Err? then r == Err(ns.error)
      else
        var mbox := ReadName(w, ns.value.1);
        if mbox.Err? then r == Err(mbox.error)
        else
          var d := mbox.value.1;
          if d + 20 > |w| then r == Err(SmallBuffer)
          else r == Ok((SOA(ns.value.0, mbox.value.0, AsU32(w[d..d + 4]), AsU32(w[d + 4..d + 8]),
                            AsU32(w[d + 8..d + 12]), AsU32(w[d + 12..d + 16]), AsU32(w[d + 16..d + 20])), d + 20))
  {
    hide ReadFields, ReadName, BodyOf, AsU32;
    SoaAsFields(w, off);
    var ns := ReadName(w, off);
    if ns.Ok? && ReadName(w, ns.value.1).Ok? {
      var d := ReadName(w, ns.value.1).value.1;
      if d + 20 <= |w| {
        SoaOf(typ, length, ns.value.0, ReadName(w, ns.value.1).value.0, w[d..d + 20]);
        SubSlice(w, d, 20, 0, 4);
        SubSlice(w, d, 20, 4, 8);
        SubSlice(w, d, 20, 8, 12);
        SubSlice(w, d, 20, 12, 16);
        SubSlice(w, d, 20, 16, 20);
      }
    }
  }

  /** The five numbers that end an SOA body. */
  method UnpackSoaNumbers(ns: NameBuf, mbox: NameBuf, w: bytes, d: nat) returns (r: Result<(Body, nat), Error>)
    requires d <= |w|
    ensures r == if d + 20 > |w| then Err(SmallBuffer)
      else Ok((SOA(ns, mbox, AsU32(w[d..d + 4]), AsU32(w[d + 4..d + 8]),
                   AsU32(w[d + 8..d + 12]), AsU32(w[d + 12..d + 16]), AsU32(w[d + 16..d + 20])), d + 20))
  {
    hide AsU32;
    var serial :- UnpackU32(w, d);
    var refresh :- UnpackU32(w, serial.1);
    var retry :- UnpackU32(w, refresh.1);
    var expire :- UnpackU32(w, retry.1);
    var minTTL :- UnpackU32(w, expire.1);
    return Ok((SOA(ns, mbox, serial.0, refresh.0, retry.0, expire.0, minTTL.0), minTTL.1));
  }

  method UnpackSoa(typ: uint16, length: uint16, w: bytes, off: nat) returns (r: Result<(Body, nat), Error>)
    requires off <= |w| && typ == TYPE_SOA
    ensures r == ReadBody(typ, length, w, off)
  {
    hide ReadBody, ReadName, AsU32;
    SoaBody(typ, length, w, off);
    var ns :- UnpackName(w, off);
    var mbox :- UnpackName(w, ns.1);
    r := UnpackSoaNumbers(ns.0, mbox.0, w, mbox.1);
  }

  method UnpackSrv(typ: uint16, length: uint16, w: bytes, off: nat) returns (r: Result<(Body, nat), Error>)
    requires off <= |w| && typ == TYPE_SRV
    ensures r == ReadBody(typ, length, w, off)
  {
    DataNameBody(typ, length, 6, w, off);
    var priority :- UnpackU16(w, off);
    var weight :- UnpackU16(w, priority.1);
    var port :- UnpackU16(w, weight.1);
    var target :- UnpackName(w, port.1);
    ghost var d := w[off..off + 6];
    assert d[..2] == w[off..off + 2] && d[2..4] == w[off + 2..off + 4] && d[4..6] == w[off + 4..off + 6];
    return Ok((SRV(priority.0, weight.0, port.0, target.0), target.1));
  }

  /** unpackBody of the kind of resource that the type calls for. */
  method UnpackBody(typ: uint16, length: uint16, w: bytes, off: nat) returns (r: Result<(Body, nat), Error>)
    requires off <= |w|
    ensures r == ReadBody(typ, length, w, off)
  {
    if typ == TYPE_A {
      DataBody(typ, length, 4, w, off);
      if |w| - off < 4 {
        return Err(SmallBuffer);
      }
      return Ok((A(w[off..off + 4]), off + 4));
    } else if typ == TYPE_AAAA {
      DataBody(typ, length, 16, w, off);
      if |w| - off < 16 {
        return Err(SmallBuffer);
      }
      return Ok((AAAA(w[off..off + 16]), off + 16));
    } else if typ == TYPE_MX {
      DataNameBody(typ, length, 2, w, off);
      var pref :- UnpackU16(w, off);
      var mx :- UnpackName(w, pref.1);
      return Ok((MX(pref.0, mx.0), mx.1));
    } else if typ == TYPE_CNAME || typ == TYPE_NS || typ == TYPE_PTR {
      NameBody(typ, length, w, off);
      var n :- UnpackName(w, off);
      return Ok((NAME(n.0), n.1));
    } else if typ == TYPE_SOA {
      r := UnpackSoa(typ, length, w, off);
    } else if typ == TYPE_SRV {
      r := UnpackSrv(typ, length, w, off);
    } else {
      DataBody(typ, length, length, w, off);
      if |w| - off < length {
        return Err(SmallBuffer);
      }
      return Ok((Raw(w[off..off + length]), off + length));
    }
  }

  /** unpackResource */
  method UnpackResource(w: bytes, off: nat) returns (r: Result<(Resource, nat), Error>)
    requires off <= |w|
    ensures r == ReadResource(w, off)
  {
    var hdr :- UnpackHdr(w, off);
    var dataOff := hdr.1;
    var body :- UnpackBody(hdr.0.typ, hdr.0.length, w, dataOff);
    if body.1 - dataOff != hdr.0.length {
      return Err(InvalidBodyLen);
    }
    return Ok((Resource(hdr.0, body.0), body.1));
  }
}
