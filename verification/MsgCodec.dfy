/**
 Packing and unpacking whole messages step by step (pkg/dnsmsg/msg.go).
 */
module MsgCodec {
  import opened Wrappers
  import opened WireBytes
  import opened NameWire
  import opened NameCodec
  import opened Records
  import opened RecordRoundTrip
  import opened RecordCodec
  import opened Messages
  import opened MessageRoundTrip
  import opened MessageLengths

  // ---------------------------------------------------------------------------------
  // Runs of items under the limit
  // ---------------------------------------------------------------------------------

  function OutOf(r: Result<Limited, Error>): Result<OutBuf, Error> {
    match r
    case Err(e) => Err(e)
    case Ok(p) => Ok(p.out)
  }

  lemma {:induction false} LimitedConcat(a: seq<Item>, b: seq<Item>, size: int, prefix: nat, o: OutBuf)
    ensures var ra := PutLimited(a, size, prefix, o);
      OutOf(PutLimited(a + b, size, prefix, o)) ==
        if ra.Err? then Err(ra.error) else OutOf(PutLimited(b, size, prefix, ra.value.out))
  {
    hide PutItem, ItemLen;
    if a == [] {
      assert a + b == b;
    } else {
      assert (a + b)[0] == a[0] && (a + b)[1..] == a[1..] + b;
      LimitedConcat(a[1..], b, size, prefix, o);
      if PutItem(a[0], o).Ok? {
        LimitedConcat(a[1..], b, size, prefix, PutItem(a[0], o).value);
      }
    }
  }

  lemma {:induction false} LimitedAlike(items: seq<Item>, size: int, prefix: nat, o: OutBuf, o': OutBuf)
    requires Alike(o, o')
    ensures AlikeResults(o, OutOf(PutLimited(items, size, prefix, o)), o', OutOf(PutLimited(items, size, prefix, o')))
  {
    if items != [] {
      hide PutItem, ItemLen;
      LimitedAlike(items[1..], size, prefix, o, o');
      PutItemAlike(items[0], o, o');
      if PutItem(items[0], o).Ok? {
        var o1, o1' := PutItem(items[0], o).value, PutItem(items[0], o').value;
        LimitedAlike(items[1..], size, prefix, o1, o1');
        if PutLimited(items[1..], size, prefix, o1).Ok? {
          TailsJoin(o.w, o1.w, PutLimited(items[1..], size, prefix, o1).value.out.w,
                    o'.w, o1'.w, PutLimited(items[1..], size, prefix, o1').value.out.w);
        }
      }
    }
  }

  /** One turn of a packing loop: the item is left out, packed, or an error. */
  lemma LimitedStep(items: seq<Item>, size: int, prefix: nat, o: OutBuf)
    requires items != []
    ensures var l := if size > 0 then ItemLen(items[0], o.targets) else Ok(0);
      var all := OutOf(PutLimited(items, size, prefix, o));
      if l.Err? then all == Err(l.error)
      else if size > 0 && prefix + |o.w| + l.value > size then all == OutOf(PutLimited(items[1..], size, prefix, o))
      else
        var o1 := PutItem(items[0], o);
        all == if o1.Err? then Err(o1.error) else OutOf(PutLimited(items[1..], size, prefix, o1.value))
  {
  }

  lemma NothingLeft(items: seq<Item>, size: int, prefix: nat, o: OutBuf)
    ensures OutOf(PutLimited(items[|items|..], size, prefix, o)) == Ok(o)
  {
  }

  /** The question loop of Pack. */
  method PackQuestions(qs: seq<Question>, msg: bytes, compression: CompressionMap?, off: nat, size: int, ghost o: OutBuf)
    returns (r: Result<bytes, Error>)
    requires Stands(msg, compression, off, o)
    modifies compression
    ensures Wrote(r, compression, msg[..off], OutOf(PutLimited(Qs(qs), size, off, o)))
  {
    hide PutLimited, PutItem, ItemLen;
    var buf := msg;
    ghost var oi: OutBuf := o;
    ghost var all := OutOf(PutLimited(Qs(qs), size, off, o));
    var i := 0;
    assert Qs(qs)[0..] == Qs(qs);
    while i < |qs|
      invariant 0 <= i <= |qs|
      invariant buf == msg[..off] + oi.w && Holds(compression, oi.targets)
      invariant all == OutOf(PutLimited(Qs(qs)[i..], size, off, oi))
    {
      LimitedStep(Qs(qs)[i..], size, off, oi);
      SplitsAt(msg[..off], oi.w);
      assert Qs(qs)[i..][1..] == Qs(qs)[i + 1..];
      var drop := false;
      if size > 0 {
        var l :- QuestionPackLen(qs[i], compression, oi.targets);
        drop := |buf| + l > size;
      }
      if !drop {
        buf :- PackQuestion(qs[i], buf, compression, off, oi);
        oi := PutItem(Q(qs[i]), oi).value;
      }
      i := i + 1;
    }
    NothingLeft(Qs(qs), size, off, oi);
    return Ok(buf);
  }

  /** What packRRs packs of a section. */
  function Chosen(rrs: seq<Resource>, skipEDNS0: bool): seq<Resource> {
    if skipEDNS0 then WithoutOpt(rrs) else rrs
  }

  lemma ChosenStep(rrs: seq<Resource>, i: nat, skipEDNS0: bool)
    requires i < |rrs|
    ensures var rest := Rs(Chosen(rrs[i + 1..], skipEDNS0));
      Rs(Chosen(rrs[i..], skipEDNS0)) ==
        if skipEDNS0 && rrs[i].hdr.typ == TYPE_OPT then rest else [R(rrs[i])] + rest
  {
    assert rrs[i..][1..] == rrs[i + 1..];
  }

  /** The rest of a section, as packRRs would pack it at o. */
  function RestOf(rrs: seq<Resource>, i: nat, skipEDNS0: bool, size: int, prefix: nat, o: OutBuf): Result<OutBuf, Error>
    requires i <= |rrs|
  {
    OutOf(PutLimited(Rs(Chosen(rrs[i..], skipEDNS0)), size, prefix, o))
  }

  lemma RestStart(rrs: seq<Resource>, skipEDNS0: bool, size: int, prefix: nat, o: OutBuf)
    ensures RestOf(rrs, 0, skipEDNS0, size, prefix, o) == OutOf(PutLimited(Rs(Chosen(rrs, skipEDNS0)), size, prefix, o))
  {
    assert rrs[0..] == rrs;
  }

  lemma RestEnd(rrs: seq<Resource>, skipEDNS0: bool, size: int, prefix: nat, o: OutBuf)
    ensures RestOf(rrs, |rrs|, skipEDNS0, size, prefix, o) == Ok(o)
  {
  }

  /** One turn of the loop in packRRs. */
  lemma RestStep(rrs: seq<Resource>, i: nat, skipEDNS0: bool, size: int, prefix: nat, o: OutBuf)
    requires i < |rrs|
    ensures var l := if size > 0 then ItemLen(R(rrs[i]), o.targets) else Ok(0);
      var all := RestOf(rrs, i, skipEDNS0, size, prefix, o);
      if skipEDNS0 && rrs[i].hdr.typ == TYPE_OPT then all == RestOf(rrs, i + 1, skipEDNS0, size, prefix, o)
      else if l.Err? then all == Err(l.error)
      else if size > 0 && prefix + |o.w| + l.value > size then all == RestOf(rrs, i + 1, skipEDNS0, size, prefix, o)
      else
        var o1 := PutItem(R(rrs[i]), o);
        all == if o1.Err? then Err(o1.error) else RestOf(rrs, i + 1, skipEDNS0, size, prefix, o1.value)
  {
    ChosenStep(rrs, i, skipEDNS0);
    if !(skipEDNS0 && rrs[i].hdr.typ == TYPE_OPT) {
      var rest := Rs(Chosen(rrs[i + 1..], skipEDNS0));
      LimitedStep([R(rrs[i])] + rest, size, prefix, o);
      assert ([R(rrs[i])] + rest)[1..] == rest;
    }
  }

  /** packRRs */
  method PackRRs(rrs: seq<Resource>, skipEDNS0: bool, msg: bytes, compression: CompressionMap?, off: nat, size: int,
                 ghost o: OutBuf)
    returns (r: Result<bytes, Error>)
    requires Stands(msg, compression, off, o)
    modifies compression
    ensures Wrote(r, compression, msg[..off], OutOf(PutLimited(Rs(Chosen(rrs, skipEDNS0)), size, off, o)))
  {
    hide PutLimited, PutItem, RestOf, ItemLen;
    var buf := msg;
    ghost var oi: OutBuf := o;
    ghost var all := RestOf(rrs, 0, skipEDNS0, size, off, o);
    var i := 0;
    RestStart(rrs, skipEDNS0, size, off, o);
    while i < |rrs|
      invariant 0 <= i <= |rrs|
      invariant buf == msg[..off] + oi.w && Holds(compression, oi.targets)
      invariant all == RestOf(rrs, i, skipEDNS0, size, off, oi)
    {
      RestStep(rrs, i, skipEDNS0, size, off, oi);
      SplitsAt(msg[..off], oi.w);
      var drop := skipEDNS0 && rrs[i].hdr.typ == TYPE_OPT;
      if !drop && size > 0 {
        var l :- PackRRLen(rrs[i], compression, oi.targets);
        drop := |buf| + l > size;
      }
      if !drop {
        buf :- PackRR(rrs[i], buf, compression, off, oi);
        oi := PutItem(R(rrs[i]), oi).value;
      }
      i := i + 1;
    }
    RestEnd(rrs, skipEDNS0, size, off, oi);
    return Ok(buf);
  }

  /** The search for the last OPT record. */
  method FindOpt(rrs: seq<Resource>) returns (r: Option<Resource>)
    ensures r == LastOpt(rrs)
  {
    var i := |rrs| - 1;
    assert rrs[..|rrs|] == rrs;
    while i >= 0
      invariant -1 <= i < |rrs|
      invariant LastOpt(rrs) == LastOpt(rrs[..i + 1])
    {
      assert rrs[..i + 1][..i] == rrs[..i];
      if rrs[i].hdr.typ == TYPE_OPT {
        return Some(rrs[i]);
      }
      i := i - 1;
    }
    return None;
  }

  // ---------------------------------------------------------------------------------
  // Whole messages
  // ---------------------------------------------------------------------------------

  /** More items after those already packed. */
  function Then(r: Result<OutBuf, Error>, items: seq<Item>, size: int, prefix: nat): Result<OutBuf, Error> {
    if r.Err? then r else OutOf(PutLimited(items, size, prefix, r.value))
  }

  lemma FourRuns(a: seq<Item>, b: seq<Item>, c: seq<Item>, d: seq<Item>, size: int, prefix: nat, o: OutBuf)
    ensures OutOf(PutLimited(a + b + c + d, size, prefix, o)) ==
      Then(Then(Then(OutOf(PutLimited(a, size, prefix, o)), b, size, prefix), c, size, prefix), d, size, prefix)
  {
    LimitedConcat(a + b + c, d, size, prefix, o);
    LimitedConcat(a + b, c, size, prefix, o);
    LimitedConcat(a, b, size, prefix, o);
  }

  /** The spec's packing under the limit, on top of a given start. */
  function PackedOn(m: Message, prefix: nat, size: int, reserved: nat, o: OutBuf): (r: Result<OutBuf, Error>)
  {
    var opt := ReservedOpt(m, size);
    var p :- OutOf(PutLimited(LimitedItems(m, size), EffectiveSize(size) - reserved, prefix, o));
    if opt.None? then Ok(p) else PutItem(R(opt.value), p)
  }

  lemma PackedOnSteps(m: Message, prefix: nat, size: int, reserved: nat, o: OutBuf)
    ensures var p := OutOf(PutLimited(LimitedItems(m, size), EffectiveSize(size) - reserved, prefix, o));
      PackedOn(m, prefix, size, reserved, o) ==
        if p.Err? || ReservedOpt(m, size).None? then p else PutItem(R(ReservedOpt(m, size).value), p.value)
  {
  }

  lemma PackedIsPackedOn(m: Message, prefix: nat, compression: bool, size: int)
    requires CountError(m).None? && ReservedLen(m, size).Ok?
    ensures OutOf(Packed(m, prefix, compression, size))
         == PackedOn(m, prefix, size, ReservedLen(m, size).value, Start(m, compression))
  {
    hide PutLimited, PutItem, BodyLen, LastOpt, LimitedItems, Start;
  }

  lemma PackedOnAlike(m: Message, prefix: nat, size: int, reserved: nat, o: OutBuf, o': OutBuf)
    requires Alike(o, o')
    ensures var r, r' := PackedOn(m, prefix, size, reserved, o), PackedOn(m, prefix, size, reserved, o');
      && (r.Ok? ==> o.w <= r.value.w) && (r'.Ok? ==> o'.w <= r'.value.w)
      && AlikeResults(o, r, o', r')
  {
    var items, limit := LimitedItems(m, size), EffectiveSize(size) - reserved;
    LimitedAlike(items, limit, prefix, o, o');
    var p, p' := OutOf(PutLimited(items, limit, prefix, o)), OutOf(PutLimited(items, limit, prefix, o'));
    var opt := ReservedOpt(m, size);
    if p.Ok? && opt.Some? {
      PutItemAlike(R(opt.value), p.value, p'.value);
      if PutItem(R(opt.value), p.value).Ok? {
        TailsJoin(o.w, p.value.w, PutItem(R(opt.value), p.value).value.w,
                  o'.w, p'.value.w, PutItem(R(opt.value), p'.value).value.w);
      }
    }
  }

  /** The four section loops of Pack. */
  method PackSections(m: Message, skipEDNS0: bool, msg: bytes, compression: CompressionMap?, off: nat, size: int,
                      ghost o: OutBuf)
    returns (r: Result<bytes, Error>)
    requires Stands(msg, compression, off, o)
    modifies compression
    ensures var items := Qs(m.questions) + Rs(m.answers) + Rs(m.authorities) + Rs(Chosen(m.additionals, skipEDNS0));
      Wrote(r, compression, msg[..off], OutOf(PutLimited(items, size, off, o)))
  {
    var opts := Chosen(m.additionals, skipEDNS0);
    FourRuns(Qs(m.questions), Rs(m.answers), Rs(m.authorities), Rs(opts), size, off, o);
    var buf :- PackQuestions(m.questions, msg, compression, off, size, o);
    ghost var o1 := OutOf(PutLimited(Qs(m.questions), size, off, o)).value;
    SplitsAt(msg[..off], o1.w);
    buf :- PackRRs(m.answers, false, buf, compression, off, size, o1);
    ghost var o2 := OutOf(PutLimited(Rs(m.answers), size, off, o1)).value;
    SplitsAt(msg[..off], o2.w);
    buf :- PackRRs(m.authorities, false, buf, compression, off, size, o2);
    ghost var o3 := OutOf(PutLimited(Rs(m.authorities), size, off, o2)).value;
    SplitsAt(msg[..off], o3.w);
    r := PackRRs(m.additionals, skipEDNS0, buf, compression, off, size, o3);
  }

  /** A predicted length in two parts. */
  predicate Adds(whole: Result<nat, Error>, s: nat, rest: Result<nat, Error>) {
    match rest
    case Err(e) => whole == Err(e)
    case Ok(l) => whole == Ok(s + l)
  }

  lemma AddsStep(whole: Result<nat, Error>, s: nat, items: seq<Item>, i: nat)
    requires i < |items| && Adds(whole, s, ItemsLen(items[i..]))
    ensures match ItemLen(items[i], None)
      case Err(e) => whole == Err(e)
      case Ok(l) => Adds(whole, s + l, ItemsLen(items[i + 1..]))
  {
    hide ItemLen;
    assert items[i..][1..] == items[i + 1..];
  }

  lemma NoItems(items: seq<Item>)
    ensures ItemsLen(items[|items|..]) == Ok(0)
  {
  }

  method QuestionsLen(qs: seq<Question>) returns (r: Result<nat, Error>)
    ensures r == ItemsLen(Qs(qs))
  {
    hide ItemLen, ItemsLen;
    var s := 0;
    var i := 0;
    assert Qs(qs)[0..] == Qs(qs);
    while i < |qs|
      invariant 0 <= i <= |qs|
      invariant Adds(ItemsLen(Qs(qs)), s, ItemsLen(Qs(qs)[i..]))
    {
      AddsStep(ItemsLen(Qs(qs)), s, Qs(qs), i);
      var l :- QuestionPackLen(qs[i], null, None);
      s := s + l;
      i := i + 1;
    }
    NoItems(Qs(qs));
    return Ok(s);
  }

  method SectionLen(rrs: seq<Resource>) returns (r: Result<nat, Error>)
    ensures r == ItemsLen(Rs(rrs))
  {
    hide ItemLen, ItemsLen;
    var s := 0;
    var i := 0;
    assert Rs(rrs)[0..] == Rs(rrs);
    while i < |rrs|
      invariant 0 <= i <= |rrs|
      invariant Adds(ItemsLen(Rs(rrs)), s, ItemsLen(Rs(rrs)[i..]))
    {
      AddsStep(ItemsLen(Rs(rrs)), s, Rs(rrs), i);
      var l :- PackRRLen(rrs[i], null, None);
      s := s + l;
      i := i + 1;
    }
    NoItems(Rs(rrs));
    return Ok(s);
  }

  /** What a run of items gives: those before the first that cannot be read, and its error or their end. */
  type Some = (seq<Item>, Result<nat, Error>)

  function ReadSome(kinds: seq<bool>, w: bytes, off: nat): (r: Some)
    requires off <= |w|
    ensures r.1.Ok? ==> off <= r.1.value <= |w|
  {
    if kinds == [] then ([], Ok(off))
    else
      var i := ReadItem(kinds[0], w, off);
      if i.Err? then ([], Err(i.error))
      else
        var rest := ReadSome(kinds[1..], w, i.value.1);
        ([i.value.0] + rest.0, rest.1)
  }

  lemma {:induction false} AllOrError(kinds: seq<bool>, w: bytes, off: nat)
    requires off <= |w|
    ensures var r := ReadSome(kinds, w, off);
      ReadItems(kinds, w, off) == if r.1.Err? then Err(r.1.error) else Ok((r.0, r.1.value))
  {
    hide ReadItem, KindsOf;
    if kinds != [] && ReadItem(kinds[0], w, off).Ok? {
      AllOrError(kinds[1..], w, ReadItem(kinds[0], w, off).value.1);
    }
  }

  /** Items read so far, then what is read after them. */
  predicate Reads(whole: Some, done: seq<Item>, rest: Some) {
    whole == (done + rest.0, rest.1)
  }

  lemma ReadsStart(whole: Some)
    ensures Reads(whole, [], whole)
  {
    assert [] + whole.0 == whole.0;
  }

  lemma Regrouped(done: seq<Item>, i: Item, rest: seq<Item>)
    ensures done + ([i] + rest) == done + [i] + rest
  {
  }

  /** One more item. */
  lemma ReadsStep(whole: Some, done: seq<Item>, kinds: seq<bool>, w: bytes, off: nat)
    requires kinds != [] && off <= |w| && Reads(whole, done, ReadSome(kinds, w, off))
    ensures var i := ReadItem(kinds[0], w, off);
      if i.Err? then whole == (done, Err(i.error))
      else Reads(whole, done + [i.value.0], ReadSome(kinds[1..], w, i.value.1))
  {
    hide ReadItem;
    var i := ReadItem(kinds[0], w, off);
    assert done + [] == done;
    if i.Ok? {
      Regrouped(done, i.value.0, ReadSome(kinds[1..], w, i.value.1).0);
    }
  }

  lemma KindsTail(n: nat, others: nat)
    ensures n > 0 ==> Kinds(n, others)[0] == false && Kinds(n, others)[1..] == Kinds(n - 1, others)
    ensures n == 0 && others > 0 ==> Kinds(0, others)[0] == true && Kinds(0, others)[1..] == Kinds(0, others - 1)
  {
  }

  /** One more question. */
  lemma QuestionStep(whole: Some, qs: seq<Question>, n: nat, others: nat, w: bytes, at: nat)
    requires n > 0 && at <= |w| && Reads(whole, Qs(qs), ReadSome(Kinds(n, others), w, at))
    ensures match ReadQuestion(w, at)
      case Err(e) => whole == (Qs(qs), Err(e))
      case Ok((q, end)) => Reads(whole, Qs(qs + [q]), ReadSome(Kinds(n - 1, others), w, end))
  {
    KindsTail(n, others);
    ReadsStep(whole, Qs(qs), Kinds(n, others), w, at);
    var q := ReadQuestion(w, at);
    hide ReadQuestion, ReadSome, Reads, Kinds;
    assert q.Ok? ==> Qs(qs + [q.value.0]) == Qs(qs) + [Q(q.value.0)];
  }

  /** One more resource. */
  lemma ResourceStep(whole: Some, done: seq<Item>, rs: seq<Resource>, n: nat, w: bytes, at: nat)
    requires n > 0 && at <= |w| && Reads(whole, done + Rs(rs), ReadSome(Kinds(0, n), w, at))
    ensures match ReadResource(w, at)
      case Err(e) => whole == (done + Rs(rs), Err(e))
      case Ok((r, end)) => Reads(whole, done + Rs(rs + [r]), ReadSome(Kinds(0, n - 1), w, end))
  {
    KindsTail(0, n);
    ReadsStep(whole, done + Rs(rs), Kinds(0, n), w, at);
    var r := ReadResource(w, at);
    hide ReadResource, ReadSome, Reads, Kinds;
    assert r.Ok? ==> done + Rs(rs + [r.value.0]) == done + Rs(rs) + [R(r.value.0)];
  }

  /** The question loop of Unpack: n questions at off, and others after them. */
  method UnpackQuestions(n: nat, others: nat, w: bytes, off: nat, ghost whole: Some)
    returns (qs: seq<Question>, end: Result<nat, Error>)
    requires off <= |w| && whole == ReadSome(Kinds(n, others), w, off)
    ensures match end
      case Err(e) => |qs| < n && whole == (Qs(qs), Err(e))
      case Ok(at) => |qs| == n && at <= |w| && Reads(whole, Qs(qs), ReadSome(Kinds(0, others), w, at))
  {
    hide Reads, ReadSome, ReadQuestion, Kinds;
    qs := [];
    var at: nat := off;
    ReadsStart(whole);
    assert Qs([]) == [];
    var i := 0;
    while i < n
      invariant 0 <= i <= n && |qs| == i && at <= |w|
      invariant Reads(whole, Qs(qs), ReadSome(Kinds(n - i, others), w, at))
    {
      QuestionStep(whole, qs, n - i, others, w, at);
      var q := UnpackQuestion(w, at);
      if q.Err? {
        return qs, Err(q.error);
      }
      qs := qs + [q.value.0];
      at := q.value.1;
      i := i + 1;
    }
    return qs, Ok(at);
  }

  /** A resource loop of Unpack: n resources at off, and others after them. */
  method UnpackResources(n: nat, others: nat, w: bytes, off: nat, ghost done: seq<Item>, ghost whole: Some)
    returns (rs: seq<Resource>, end: Result<nat, Error>)
    requires off <= |w| && Reads(whole, done, ReadSome(Kinds(0, n + others), w, off))
    ensures match end
      case Err(e) => |rs| < n && whole == (done + Rs(rs), Err(e))
      case Ok(at) => |rs| == n && at <= |w| && Reads(whole, done + Rs(rs), ReadSome(Kinds(0, others), w, at))
  {
    hide Reads, ReadSome, ReadResource, Kinds;
    rs := [];
    var at: nat := off;
    assert done + Rs([]) == done;
    var i := 0;
    while i < n
      invariant 0 <= i <= n && |rs| == i && at <= |w|
      invariant Reads(whole, done + Rs(rs), ReadSome(Kinds(0, n - i + others), w, at))
    {
      ResourceStep(whole, done, rs, n - i + others, w, at);
      var r := UnpackResource(w, at);
      if r.Err? {
        return rs, Err(r.error);
      }
      rs := rs + [r.value.0];
      at := r.value.1;
      i := i + 1;
    }
    return rs, Ok(at);
  }

  /** The items that fall into a section: n of them from the at-th on, or as many as there are. */
  function Cut(items: seq<Item>, at: nat, n: nat): seq<Item> {
    if |items| <= at then [] else if |items| <= at + n then items[at..] else items[at..at + n]
  }

  /** The sections of a message after those of another, cut from items. */
  predicate Grew(m: Message, m': Message, items: seq<Item>, qd: nat, an: nat, ns: nat, ar: nat) {
    && Qs(m'.questions) == Qs(m.questions) + Cut(items, 0, qd)
    && Rs(m'.answers) == Rs(m.answers) + Cut(items, qd, an)
    && Rs(m'.authorities) == Rs(m.authorities) + Cut(items, qd + an, ns)
    && Rs(m'.additionals) == Rs(m.additionals) + Cut(items, qd + an + ns, ar)
  }

  function Appended(m: Message, qs: seq<Question>, a: seq<Resource>, n: seq<Resource>, x: seq<Resource>): Message {
    Message(m.header, m.questions + qs, m.answers + a, m.authorities + n, m.additionals + x)
  }

  /** The sections before the one where reading stopped are complete, those after it empty. */
  predicate StoppedAt(q: nat, a: nat, n: nat, x: nat, qd: nat, an: nat, ns: nat, ar: nat) {
    && q <= qd && a <= an && n <= ns && x <= ar
    && (q < qd ==> a == 0) && (a < an ==> n == 0) && (n < ns ==> x == 0)
    && (a > 0 ==> q == qd) && (n > 0 ==> q == qd && a == an) && (x > 0 ==> q == qd && a == an && n == ns)
  }

  lemma CutFour(q: seq<Item>, a: seq<Item>, n: seq<Item>, x: seq<Item>, qd: nat, an: nat, ns: nat, ar: nat)
    requires StoppedAt(|q|, |a|, |n|, |x|, qd, an, ns, ar)
    ensures var s := q + a + n + x;
      Cut(s, 0, qd) == q && Cut(s, qd, an) == a && Cut(s, qd + an, ns) == n && Cut(s, qd + an + ns, ar) == x
  {
  }

  lemma Stopped(m: Message, qs: seq<Question>, a: seq<Resource>, n: seq<Resource>, x: seq<Resource>,
                qd: nat, an: nat, ns: nat, ar: nat)
    requires StoppedAt(|qs|, |a|, |n|, |x|, qd, an, ns, ar)
    ensures Grew(m, Appended(m, qs, a, n, x), Qs(qs) + Rs(a) + Rs(n) + Rs(x), qd, an, ns, ar)
  {
    CutFour(Qs(qs), Rs(a), Rs(n), Rs(x), qd, an, ns, ar);
    assert Qs(m.questions + qs) == Qs(m.questions) + Qs(qs);
    RsOfBoth(m.answers, a);
    RsOfBoth(m.authorities, n);
    RsOfBoth(m.additionals, x);
  }

  lemma RsOfBoth(a: seq<Resource>, b: seq<Resource>)
    ensures Rs(a + b) == Rs(a) + Rs(b)
  {
  }

  /** The four loops of Unpack, and what they leave behind. */
  method UnpackSections(ghost m: Message, w: bytes, qd: nat, an: nat, ns: nat, ar: nat)
    returns (q: seq<Question>, a: seq<Resource>, n: seq<Resource>, x: seq<Resource>, err: Option<Error>)
    requires |w| >= HEADER_LEN
    ensures var (items, end) := ReadSome(Kinds(qd, an + ns + ar), w, HEADER_LEN);
      && Grew(m, Appended(m, q, a, n, x), items, qd, an, ns, ar)
      && match end
         case Err(e) => err == Some(e)
         case Ok(_) => err == None && items == Qs(q) + Rs(a) + Rs(n) + Rs(x)
                       && |q| == qd && |a| == an && |n| == ns && |x| == ar
  {
    hide Grew, Appended, Reads, ReadSome, Kinds;
    ghost var whole := ReadSome(Kinds(qd, an + ns + ar), w, HEADER_LEN);
    a, n, x := [], [], [];
    var at;
    q, at := UnpackQuestions(qd, an + ns + ar, w, 12, whole);
    if at.Ok? {
      a, at := UnpackResources(an, ns + ar, w, at.value, Qs(q), whole);
    }
    if at.Ok? {
      n, at := UnpackResources(ns, ar, w, at.value, Qs(q) + Rs(a), whole);
    }
    if at.Ok? {
      x, at := UnpackResources(ar, 0, w, at.value, Qs(q) + Rs(a) + Rs(n), whole);
    }
    Stopped(m, q, a, n, x, qd, an, ns, ar);
    if at.Ok? {
      AllRead(whole, Qs(q) + Rs(a) + Rs(n) + Rs(x), w, at.value);
      return q, a, n, x, None;
    }
    NoMore(Qs(q), Rs(a), Rs(n), Rs(x));
    return q, a, n, x, Some(at.error);
  }

  lemma AllRead(whole: Some, done: seq<Item>, w: bytes, at: nat)
    requires at <= |w| && Reads(whole, done, ReadSome(Kinds(0, 0), w, at))
    ensures whole == (done, Ok(at))
  {
    assert done + [] == done;
  }

  lemma NoMore(q: seq<Item>, a: seq<Item>, n: seq<Item>, x: seq<Item>)
    ensures a == [] && n == [] && x == [] ==> q == q + a + n + x
    ensures n == [] && x == [] ==> q + a == q + a + n + x
    ensures x == [] ==> q + a + n == q + a + n + x
  {
  }

  lemma AsSections(qs: seq<Question>, rs: seq<Resource>)
    ensures (forall i <- Qs(qs) :: i.Q?) && AsQuestions(Qs(qs)) == qs
    ensures (forall i <- Rs(rs) :: i.R?) && AsResources(Rs(rs)) == rs
  {
    assert Qs(AsQuestions(Qs(qs))) == Qs(qs);
    assert forall k | 0 <= k < |qs| :: Qs(AsQuestions(Qs(qs)))[k] == Qs(qs)[k];
    assert forall k | 0 <= k < |rs| :: Rs(AsResources(Rs(rs)))[k] == Rs(rs)[k];
  }

  lemma SectionsOf(m: Message, items: seq<Item>)
    requires items == Items(m)
    ensures var qd, an, ns, ar := |m.questions|, |m.answers|, |m.authorities|, |m.additionals|;
      KindsOf(items) == Kinds(qd, an + ns + ar) && Sections(m.header, items, qd, an, ns, ar) == m
  {
    KindsOfItems(m);
    var qd, an, ns := |m.questions|, |m.answers|, |m.authorities|;
    AsSections(m.questions, m.answers);
    AsSections([], m.authorities);
    AsSections([], m.additionals);
    CutRuns(Qs(m.questions), Rs(m.answers), Rs(m.authorities), Rs(m.additionals));
  }

  lemma CutRuns<T>(a: seq<T>, b: seq<T>, c: seq<T>, d: seq<T>)
    ensures var s := a + b + c + d;
      var r := s[|a|..];
      s[..|a|] == a && r[..|b|] == b && r[|b|..|b| + |c|] == c && r[|b| + |c|..] == d
  {
    assert (a + b + c + d)[|a|..] == b + c + d;
  }

  lemma FourLengths(m: Message)
    ensures Messages.MaxPackLen(m) ==
      (var qd :- ItemsLen(Qs(m.questions));
       var an :- ItemsLen(Rs(m.answers));
       var ns :- ItemsLen(Rs(m.authorities));
       var ar :- ItemsLen(Rs(m.additionals));
       Ok(HEADER_LEN + qd + an + ns + ar))
  {
    hide ItemsLen;
    ItemsLenConcat(Qs(m.questions) + Rs(m.answers) + Rs(m.authorities), Rs(m.additionals));
    ItemsLenConcat(Qs(m.questions) + Rs(m.answers), Rs(m.authorities));
    ItemsLenConcat(Qs(m.questions), Rs(m.answers));
  }

  class Msg {
    var header: Header
    var questions: seq<Question>
    var answers: seq<Resource>
    var authorities: seq<Resource>
    var additionals: seq<Resource>

    function Value(): Message
      reads this
    {
      Message(header, questions, answers, authorities, additionals)
    }

    /** Appends the packed message to b. */
    method Pack(b: bytes, compression: bool, limit: int) returns (r: Result<bytes, Error>)
      ensures match Packed(Value(), |b|, compression, limit)
        case Err(e) => r == Err(e)
        case Ok(p) => r == Ok(b + p.out.w)
    {
      var m := Value();
      if |questions| > MAX_UINT16 {
        return Err(TooManyQuestions);
      }
      if |answers| > MAX_UINT16 {
        return Err(TooManyAnswers);
      }
      if |authorities| > MAX_UINT16 {
        return Err(TooManyAuthorities);
      }
      if |additionals| > MAX_UINT16 {
        return Err(TooManyAdditionals);
      }
      var size := limit;
      if size > 0 && size < 512 {
        size := 512;
      }
      var opt: Option<Resource> := None;
      if size > 0 {
        opt := FindOpt(additionals);
        if opt.Some? {
          var l :- BodyPackLen(opt.value.body, null, None);
          size := size - l;
        }
      }
      var compressionMap: CompressionMap? := null;
      if compression && |questions| + |answers| + |authorities| + |additionals| > 1 {
        compressionMap := new CompressionMap();
      }
      r := PackInto(m, b, limit, size, opt, compressionMap, compression);
    }

    /** MaxPackLen */
    method MaxPackLen() returns (r: Result<nat, Error>)
      ensures r == Messages.MaxPackLen(Value())
    {
      hide ItemsLen, Messages.MaxPackLen;
      FourLengths(Value());
      var s := 12;
      var qd :- QuestionsLen(questions);
      s := s + qd;
      var an :- SectionLen(answers);
      var ns :- SectionLen(authorities);
      var ar :- SectionLen(additionals);
      return Ok(s + an + ns + ar);
    }

    /** Unpack: what msg holds is added to the sections. */
    method Unpack(msg: bytes) returns (r: Result<(), Error>)
      modifies this
      ensures match Unpacked(msg)
        case Err(e) => r == Err(e)
        case Ok(m) =>
          && r == Ok(()) && header == m.header
          && questions == old(questions) + m.questions && answers == old(answers) + m.answers
          && authorities == old(authorities) + m.authorities && additionals == old(additionals) + m.additionals
      ensures if |msg| < HEADER_LEN then Value() == old(Value())
        else
          && header == HeaderOf(AsU16(msg[0..2]), AsU16(msg[2..4]) as bv16)
          && var qd: nat, an: nat, ns: nat, ar: nat :=
               AsU16(msg[4..6]), AsU16(msg[6..8]), AsU16(msg[8..10]), AsU16(msg[10..12]);
          Grew(old(Value()), Value(), ReadSome(Kinds(qd, an + ns + ar), msg, HEADER_LEN).0, qd, an, ns, ar)
    {
      if |msg| < 12 {
        return Err(SmallBuffer);
      }
      hide ReadSome, ReadItems, Kinds, Sections, HeaderOf, AsU16;
      ghost var before := Value();
      header := HeaderOf(AsU16(msg[0..2]), AsU16(msg[2..4]) as bv16);
      var qd: nat, an: nat, ns: nat, ar: nat :=
        AsU16(msg[4..6]), AsU16(msg[6..8]), AsU16(msg[8..10]), AsU16(msg[10..12]);
      UnpackedWith(msg, qd, an, ns, ar);
      AllOrError(Kinds(qd, an + ns + ar), msg, HEADER_LEN);
      var q, a, n, x, err := UnpackSections(before, msg, qd, an, ns, ar);
      questions := questions + q;
      answers := answers + a;
      authorities := authorities + n;
      additionals := additionals + x;
      if err.Some? {
        return Err(err.value);
      }
      SectionsOf(Message(header, q, a, n, x), Qs(q) + Rs(a) + Rs(n) + Rs(x));
      return Ok(());
    }
  }

  /** Pack once the size and the map are settled: placeholder, sections, OPT record, header. */
  method PackInto(m: Message, b: bytes, ghost limit: int, size: int, opt: Option<Resource>, compression: CompressionMap?,
                  ghost compressed: bool)
    returns (r: Result<bytes, Error>)
    requires CountError(m).None? && ReservedLen(m, limit).Ok? && opt == ReservedOpt(m, limit)
    requires size == EffectiveSize(limit) - ReservedLen(m, limit).value
    requires Holds(compression, Start(m, compressed).targets)
    modifies compression
    ensures match Packed(m, |b|, compressed, limit)
      case Err(e) => r == Err(e)
      case Ok(p) => r == Ok(b + p.out.w)
  {
    hide Packed, PackedOn, HeaderBytes, PutItem, PutLimited, BodyLen, LastOpt;
    var msgOff := |b|;
    var zeros: bytes := seq(12, _ => 0);
    ghost var start := Start(m, compressed);
    ghost var o: OutBuf := start.(w := zeros);
    ghost var reserved := ReservedLen(m, limit).value;
    ghost var spec := PackedOn(m, msgOff, limit, reserved, start);
    PackedIsPackedOn(m, msgOff, compressed, limit);
    PackedOnAlike(m, msgOff, limit, reserved, start, o);
    PackedOnSteps(m, msgOff, limit, reserved, o);
    SplitsAt(b, zeros);
    var buf :- PackSections(m, opt.Some?, b + zeros, compression, msgOff, size, o);
    ghost var o1 := OutOf(PutLimited(LimitedItems(m, limit), size, msgOff, o)).value;
    SplitsAt(b, o1.w);
    if opt.Some? {
      buf :- PackRR(opt.value, buf, compression, msgOff, o1);
      o1 := PutItem(R(opt.value), o1).value;
    }
    assert PackedOn(m, msgOff, limit, reserved, o) == Ok(o1);
    var hdr := HeaderBytes(m);
    HeaderPatch(b, zeros, o1.w, hdr, spec.value.w);
    buf := buf[..msgOff] + hdr + buf[msgOff + 12..];
    return Ok(buf);
  }

  lemma HeaderPatch(b: bytes, zeros: bytes, w: bytes, hdr: bytes, w': bytes)
    requires |hdr| == |zeros| && zeros <= w && hdr <= w' && w[|zeros|..] == w'[|hdr|..]
    ensures (b + w)[..|b|] + hdr + (b + w)[|b| + |hdr|..] == b + w'
  {
    assert w' == hdr + w'[|hdr|..];
  }
}
