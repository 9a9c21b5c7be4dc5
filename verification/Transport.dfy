/**
 The request buffers of the pipelined transport (internal/upstream/transport/utils.go), which
 rely on MaxPackLen being exact: what Pack returns is thrown away, and the buffer is kept.
 */
module Transport {
  import opened Wrappers
  import opened WireBytes
  import opened NameWire
  import opened Records
  import opened RecordRoundTrip
  import opened Messages
  import opened MessageRoundTrip
  import opened MessageLengths
  import opened MsgCodec

  /** The message with another id. */
  function WithId(m: Message, qid: uint16): Message {
    m.(header := m.header.(id := qid))
  }

  /** The bytes of a message packed without compression or limit. */
  function Plain(m: Message): Result<bytes, Error> {
    var p :- Packed(m, 0, false, 0);
    Ok(p.out.w)
  }

  /** Overwriting the first two bytes of a packed message replaces its id. */
  lemma IdPatch(m: Message, qid: uint16, prefix: nat)
    ensures var r, r' := Packed(m, prefix, false, 0), Plain(WithId(m, qid));
      match r
      case Err(e) => r' == Err(e)
      case Ok(p) => |p.out.w| >= HEADER_LEN && r' == Ok(U16(qid) + p.out.w[2..])
  {
    var m' := WithId(m, qid);
    if CountError(m).None? {
      PackedUnlimited(m, prefix, false, 0);
      PackedUnlimited(m', 0, false, 0);
      assert Items(m) == Items(m');
      HeaderPatched(m, qid);
      PutItemsAlike(Items(m), Start(m, false), Start(m', false));
      if PutItems(Items(m), Start(m, false)).Ok? {
        HeadPatch(HeaderBytes(m), PutItems(Items(m), Start(m, false)).value.w,
                  HeaderBytes(m'), PutItems(Items(m), Start(m', false)).value.w);
      }
    }
  }

  lemma BitsIgnoreId(h: Header, qid: uint16)
    ensures HeaderBits(h.(id := qid)) == HeaderBits(h)
  {
    hide Bits;
  }

  lemma HeaderPatched(m: Message, qid: uint16)
    requires CountError(m).None?
    ensures HeaderBytes(WithId(m, qid)) == U16(qid) + HeaderBytes(m)[2..]
  {
    var bits := HeaderBits(m.header);
    BitsIgnoreId(m.header, qid);
    var tail := HeaderTail(bits, |m.questions|, |m.answers|, |m.authorities|, |m.additionals|);
    assert (U16(m.header.id) + tail)[2..] == tail;
  }

  lemma HeadPatch(h: bytes, w: bytes, h': bytes, w': bytes)
    requires h <= w && h' <= w' && |h| == |h'| >= 2 && h'[2..] == h[2..] && w[|h|..] == w'[|h'|..]
    ensures w' == h'[..2] + w[2..]
  {
    assert w == h + w[|h|..] && w' == h' + w'[|h'|..];
    assert h' == h'[..2] + h[2..];
  }

  lemma {:induction false} PutItemsAlike(items: seq<Item>, o: OutBuf, o': OutBuf)
    requires Alike(o, o')
    ensures AlikeResults(o, PutItems(items, o), o', PutItems(items, o'))
  {
    NoLimit(items, 0, 0, o);
    NoLimit(items, 0, 0, o');
    LimitedAlike(items, 0, 0, o, o');
  }

  /** Appending data to the first off bytes of b, in place: b has the room. */
  method AppendInPlace(b: array<byte>, off: nat, data: bytes)
    requires off + |data| <= b.Length
    modifies b
    ensures b[..] == old(b[..])[..off] + data + old(b[..])[off + |data|..]
  {
    forall i | 0 <= i < |data| {
      b[off + i] := data[i];
    }
  }

  method PutUint16(b: array<byte>, at: nat, v: uint16)
    requires at + 2 <= b.Length
    modifies b
    ensures b[..] == old(b[..])[..at] + U16(v) + old(b[..])[at + 2..]
  {
    b[at], b[at + 1] := v / 0x100, v % 0x100;
  }

  /** Why there is no request for a message: its names and records, then the room, then its counts. */
  function RequestError(m: Message, room: Option<nat>): Option<Error> {
    match Messages.MaxPackLen(m)
    case Err(e) => Some(e)
    case Ok(l) => if room.Some? && l > room.value then Some(PayloadOverflow) else CountError(m)
  }

  lemma PlainLength(m: Message, prefix: nat)
    ensures match Packed(m, prefix, false, 0)
      case Ok(p) => Messages.MaxPackLen(m) == Ok(|p.out.w|) && CountError(m).None?
      case Err(e) => RequestError(m, None).Some? && (Messages.MaxPackLen(m).Ok? ==> RequestError(m, None) == Some(e))
  {
    if CountError(m).None? {
      ExactLength(m, prefix);
    }
  }

  lemma FramePatch(prefix: bytes, w: bytes, id: bytes)
    requires |prefix| == |id| == 2 && |w| >= 2
    ensures (prefix + w)[..2] + id + (prefix + w)[4..] == prefix + (id + w[2..])
  {
  }

  lemma FillPatch(b: bytes, w: bytes, id: bytes)
    requires |b| == |w| >= 2 == |id|
    ensures b[..0] + w + b[0 + |w|..] == w
    ensures w[..0] + id + w[0 + 2..] == id + w[2..]
  {
  }

  /** packMsg: the buffer is filled exactly, with the id replaced. */
  method PackMsg(m: Msg, qid: uint16) returns (r: Result<array<byte>, Error>)
    ensures match RequestError(m.Value(), None)
      case Some(e) => r == Err(e)
      case None => r.Ok? && fresh(r.value) && Plain(WithId(m.Value(), qid)) == Ok(r.value[..])
  {
    hide Packed, Messages.MaxPackLen, CountError, WithId, Plain;
    ghost var v := m.Value();
    PlainLength(v, 0);
    IdPatch(v, qid, 0);
    var l :- m.MaxPackLen();
    var b := new byte[l](_ => 0);
    var packed :- m.Pack([], false, 0);
    assert |packed| == l;
    FillPatch(b[..], packed, U16(qid));
    AppendInPlace(b, 0, packed);
    PutUint16(b, 0, qid);
    return Ok(b);
  }

  /** packTcpMsg: two bytes of payload length, then the payload with the id replaced. */
  method PackTcpMsg(m: Msg, qid: uint16) returns (r: Result<array<byte>, Error>)
    ensures match RequestError(m.Value(), Some(MAX_UINT16))
      case Some(e) => r == Err(e)
      case None =>
        && Plain(WithId(m.Value(), qid)).Ok?
        && var w := Plain(WithId(m.Value(), qid)).value;
        && |w| <= MAX_UINT16 && r.Ok? && fresh(r.value) && r.value[..] == U16(|w|) + w
  {
    hide Packed, Messages.MaxPackLen, CountError, WithId, Plain;
    ghost var v := m.Value();
    PlainLength(v, 2);
    IdPatch(v, qid, 2);
    var l :- m.MaxPackLen();
    if l > MAX_UINT16 {
      return Err(PayloadOverflow);
    }
    var b := new byte[l + 2](_ => 0);
    var prefix := b[..2];
    var packed :- m.Pack(prefix, false, 0);
    ghost var w := packed[2..];
    AppendInPlace(b, 2, packed[2..]);
    assert b[..] == prefix + w;
    PutUint16(b, 0, l);
    assert b[..] == U16(l) + w;
    FramePatch(U16(l), w, U16(qid));
    PutUint16(b, 2, qid);
    return Ok(b);
  }

  /**
   The request a server reads: section 4.2.2 of RFC 1035 puts the payload length in front, and
   the payload is the message under its new id.
   */
  lemma RequestReads(m: Message, qid: uint16)
    requires Normal(m) && Plain(WithId(m, qid)).Ok?
    ensures var w := Plain(WithId(m, qid)).value;
      && MaxPackLen(m) == Ok(|w|)
      && Unpacked(w).Ok? && SameMessage(Unpacked(w).value, WithId(m, qid))
  {
    hide HeaderBits, HeaderOf, Unpacked;
    var m' := WithId(m, qid);
    assert Items(m') == Items(m);
    NormalWithId(m, qid);
    NormalRoundTrips(m', 0);
    ExactLength(m', 0);
  }

  lemma NormalWithId(m: Message, qid: uint16)
    requires Normal(m)
    ensures Normal(WithId(m, qid)) && Items(WithId(m, qid)) == Items(m)
  {
  }
}
