/**
 How long packed messages are: the length MaxPackLen predicts, and the size limit.
 */
module MessageLengths {
  import opened Wrappers
  import opened WireBytes
  import opened NameWire
  import opened NameCompression
  import opened Records
  import opened RecordRoundTrip
  import opened Messages
  import opened MessageRoundTrip

  // ---------------------------------------------------------------------------------
  // Without compression the prediction is exact
  // ---------------------------------------------------------------------------------

  /** Prediction l of a packing from o to r: the exact length, or the same error. */
  predicate Predicts(l: Result<nat, Error>, o: Out, r: Result<Out, Error>) {
    match r
    case Ok(o') => l.Ok? && |o'.w| == |o.w| + l.value
    case Err(e) => l == Err(e)
  }

  lemma {:induction false} FieldsLenExact(fs: seq<Field>, o: OutBuf)
    requires o.targets.None?
    ensures Predicts(FieldsLen(fs, None), o, PutFields(fs, o))
  {
    if fs != [] {
      if fs[0].N? {
        NameLenIsExact(fs[0].name, o);
      }
      if PutField(fs[0], o).Ok? {
        FieldsLenExact(fs[1..], PutField(fs[0], o).value);
      }
    }
  }

  lemma {:induction false} ItemLenExact(i: Item, o: OutBuf)
    requires o.targets.None?
    ensures Predicts(ItemLen(i, None), o, PutItem(i, o))
  {
    if i.Q? {
      FieldsLenExact(QuestionFields(i.q), o);
    } else {
      var h := PutFields(HdrFields(i.r.hdr, 0), o);
      FieldsLenExact(HdrFields(i.r.hdr, 0), o);
      if h.Ok? {
        FieldsLenExact(BodyFields(i.r.body), h.value);
        var l := BodyLength(i.r, o);
        if l.Ok? && l.value <= MAX_UINT16 {
          PutWithLengthAlike(i.r, l.value, o);
        }
      }
    }
  }

  lemma {:induction false} PutWithLengthAlike(r: Resource, length: uint16, o: OutBuf)
    requires BodyLength(r, o) == Ok(length as nat)
    ensures PutItem(R(r), o).Ok?
    ensures |PutItem(R(r), o).value.w| == |PutFields(HdrFields(r.hdr, 0), o).value.w| + length
  {
    HdrLengthIrrelevant(r.hdr, length, o);
    var h0, h := PutFields(HdrFields(r.hdr, 0), o).value, PutFields(HdrFields(r.hdr, length), o).value;
    PutFieldsAlike(BodyFields(r.body), h0, h);
  }

  lemma {:induction false} ItemsLenExact(items: seq<Item>, o: OutBuf)
    requires o.targets.None?
    ensures Predicts(ItemsLen(items), o, PutItems(items, o))
  {
    if items != [] {
      ItemLenExact(items[0], o);
      if PutItem(items[0], o).Ok? {
        ItemsLenExact(items[1..], PutItem(items[0], o).value);
      }
    }
  }

  /**
   An uncompressed, unlimited message is exactly as long as MaxPackLen says; and Pack fails
   just when MaxPackLen does, with the same error.
   */
  lemma ExactLength(m: Message, prefix: nat)
    requires CountError(m).None?
    ensures match Packed(m, prefix, false, 0)
      case Ok(p) => MaxPackLen(m) == Ok(|p.out.w|)
      case Err(e) => MaxPackLen(m) == Err(e)
  {
    PackedUnlimited(m, prefix, false, 0);
    ItemsLenExact(Items(m), Start(m, false));
  }

  // ---------------------------------------------------------------------------------
  // With compression it is an upper bound
  // ---------------------------------------------------------------------------------

  /** Every suffix in the map is a finished name. */
  ghost predicate FinishedKeys(t: Option<Targets>) {
    forall s | Known(s, t) :: Terminated(s)
  }

  lemma {:induction false} PutNameFinished(n: NameBuf, o: OutBuf)
    requires FinishedKeys(o.targets) && PutName(n, o).Ok?
    ensures Terminated(n) && FinishedKeys(PutName(n, o).value.targets)
  {
    if n[0] != 0 && !Known(n, o.targets) {
      PutNameFinished(n[1 + n[0]..], o.Append(n[..1 + n[0]]));
    }
  }

  /** The prediction l, if there is one, covers the packing from o to o', which only adds to the map. */
  ghost predicate Covers(l: Result<nat, Error>, o: Out, o': Out) {
    && (l.Ok? ==> |o'.w| <= |o.w| + l.value)
    && KnowsLess(o.targets, o'.targets) && FinishedKeys(o'.targets)
  }

  lemma {:induction false} FieldsLenCovers(fs: seq<Field>, t: Option<Targets>, o: OutBuf)
    requires KnowsLess(t, o.targets) && FinishedKeys(o.targets) && PutFields(fs, o).Ok?
    ensures FieldsLen(fs, t).Ok? && Covers(FieldsLen(fs, t), o, PutFields(fs, o).value)
  {
    if fs != [] {
      if fs[0].N? {
        var n := fs[0].name;
        PutNameFinished(n, o);
        PutNameGrowsMap(n, o);
        NameLenIsExact(n, o);
        NameLenShrinks(n, t, o.targets);
      }
      FieldsLenCovers(fs[1..], t, PutField(fs[0], o).value);
    }
  }

  /** A record is never longer than packRRLen predicts, even with a map that has grown since. */
  lemma {:induction false} ItemLenCovers(i: Item, t: Option<Targets>, o: OutBuf)
    requires KnowsLess(t, o.targets) && FinishedKeys(o.targets) && PutItem(i, o).Ok?
    ensures Covers(ItemLen(i, t), o, PutItem(i, o).value)
  {
    if i.Q? {
      FieldsLenCovers(QuestionFields(i.q), t, o);
    } else {
      var l: uint16 := BodyLength(i.r, o).value;
      PutWithLengthIsExact(i.r, l, o);
      var h0, h := PutFields(HdrFields(i.r.hdr, 0), o).value, PutFields(HdrFields(i.r.hdr, l), o).value;
      HdrLengthIrrelevant(i.r.hdr, l, o);
      FieldsLenCovers(HdrFields(i.r.hdr, 0), t, o);
      FieldsLenCovers(BodyFields(i.r.body), if i.r.body.SRV? then None else t, h);
    }
  }

  /** A larger map never predicts a longer record, and no map predicts the uncompressed length. */
  lemma {:induction false} FieldsLenShrinks(fs: seq<Field>, t: Option<Targets>, t': Option<Targets>)
    requires KnowsLess(t, t') && forall f <- fs | f.N? :: Terminated(f.name)
    ensures FieldsLen(fs, t).Ok? && FieldsLen(fs, t').Ok? && FieldsLen(fs, t').value <= FieldsLen(fs, t).value
  {
    if fs != [] {
      if fs[0].N? {
        NameLenShrinks(fs[0].name, t, t');
      }
      FieldsLenShrinks(fs[1..], t, t');
    }
  }

  lemma {:induction false} ItemsLenCovers(items: seq<Item>, o: OutBuf)
    requires FinishedKeys(o.targets) && PutItems(items, o).Ok?
    ensures Covers(ItemsLen(items), o, PutItems(items, o).value)
  {
    if items != [] {
      ItemLenCovers(items[0], None, o);
      ItemsLenCovers(items[1..], PutItem(items[0], o).value);
    }
  }

  /** Compression never makes a message longer than MaxPackLen. */
  lemma CompressedLength(m: Message, prefix: nat, compression: bool)
    requires Packed(m, prefix, compression, 0).Ok? && MaxPackLen(m).Ok?
    ensures |Packed(m, prefix, compression, 0).value.out.w| <= MaxPackLen(m).value
  {
    PackedUnlimited(m, prefix, compression, 0);
    ItemsLenCovers(Items(m), Start(m, compression));
  }

  // ---------------------------------------------------------------------------------
  // The size limit
  // ---------------------------------------------------------------------------------

  function Max(a: int, b: int): int {
    if a < b then b else a
  }

  lemma {:induction false} LimitHolds(items: seq<Item>, size: int, prefix: nat, o: OutBuf)
    requires size > 0 && FinishedKeys(o.targets) && PutLimited(items, size, prefix, o).Ok?
    ensures var p := PutLimited(items, size, prefix, o).value;
      && prefix + |p.out.w| <= Max(size, prefix + |o.w|)
      && FinishedKeys(p.out.targets)
  {
    if items != [] {
      if prefix + |o.w| + ItemLen(items[0], o.targets).value > size {
        LimitHolds(items[1..], size, prefix, o);
      } else {
        ItemLenCovers(items[0], o.targets, o);
        LimitHolds(items[1..], size, prefix, PutItem(items[0], o).value);
      }
    }
  }

  /** What an OPT record adds at the end: a header that the limit does not reserve, and its body. */
  lemma OptAdds(r: Resource, o: OutBuf)
    requires FinishedKeys(o.targets) && PutItem(R(r), o).Ok? && BodyLen(r.body, None).Ok?
    ensures |PutItem(R(r), o).value.w| <= |o.w| + |r.hdr.name| + 10 + BodyLen(r.body, None).value
  {
    var l: uint16 := BodyLength(r, o).value;
    PutWithLengthIsExact(r, l, o);
    var fs := HdrFields(r.hdr, l);
    FieldsLenCovers(fs, None, o);
    PutNameFinished(r.hdr.name, o);
    NameLenShrinks(r.hdr.name, None, None);
    assert fs[1..] == [fs[1], fs[2]] && fs[1..][1..] == [fs[2]] && fs[1..][1..][1..] == [];
    assert FieldsLen([fs[2]], None) == Ok(2);
    FieldsLenCovers(BodyFields(r.body), None, PutFields(fs, o).value);
  }

  /** The body length that Pack takes off the limit for the OPT record it reserves. */
  function ReservedLen(m: Message, size: int): Result<nat, Error> {
    var opt := ReservedOpt(m, size);
    if opt.Some? then BodyLen(opt.value.body, None) else Ok(0)
  }

  /** Pack in two steps: the limited items, then the OPT record. */
  lemma PackedSteps(m: Message, prefix: nat, compression: bool, size: int)
    requires Packed(m, prefix, compression, size).Ok?
    ensures CountError(m).None? && ReservedLen(m, size).Ok?
    ensures var p := Packed(m, prefix, compression, size).value;
      var limit := EffectiveSize(size) - ReservedLen(m, size).value;
      var q := PutLimited(LimitedItems(m, size), limit, prefix, Start(m, compression));
      && q.Ok?
      && match ReservedOpt(m, size)
         case None => p == q.value
         case Some(opt) => PutItem(R(opt), q.value.out) == Ok(p.out) && p.kept == q.value.kept + [R(opt)]
  {
    hide PutLimited, PutItem, BodyLen, LastOpt, LimitedItems, Start;
  }

  /** What a reserved OPT record, with a body of at most l bytes, may add at the end. */
  function OptBound(opt: Option<Resource>, l: nat): nat {
    if opt.None? then 0 else |opt.value.hdr.name| + 10 + l
  }

  lemma LimitThenOpt(items: seq<Item>, opt: Option<Resource>, l: nat, size: int, prefix: nat, o: OutBuf, o': OutBuf)
    requires l < size && FinishedKeys(o.targets) && PutLimited(items, size - l, prefix, o).Ok?
    requires var q := PutLimited(items, size - l, prefix, o).value.out;
      if opt.None? then o' == q else PutItem(R(opt.value), q) == Ok(o') && BodyLen(opt.value.body, None) == Ok(l)
    ensures prefix + |o'.w| <= Max(size - l, prefix + |o.w|) + OptBound(opt, l)
  {
    LimitHolds(items, size - l, prefix, o);
    if opt.Some? {
      OptAdds(opt.value, PutLimited(items, size - l, prefix, o).value.out);
    }
  }

  /** The limit holds if the OPT record's body alone does not take it all. */
  lemma SizeLimit(m: Message, prefix: nat, compression: bool, size: int)
    requires size > 0 && Packed(m, prefix, compression, size).Ok?
    ensures ReservedLen(m, size).Ok?
    ensures var l := ReservedLen(m, size).value;
      l < EffectiveSize(size) ==>
        prefix + |Packed(m, prefix, compression, size).value.out.w|
          <= Max(EffectiveSize(size) - l, prefix + HEADER_LEN) + OptBound(ReservedOpt(m, size), l)
  {
    hide Packed, PutLimited, PutItem, LimitedItems, LastOpt, BodyLen;
    PackedSteps(m, prefix, compression, size);
    var l := ReservedLen(m, size).value;
    if l < EffectiveSize(size) {
      var p := Packed(m, prefix, compression, size).value;
      LimitThenOpt(LimitedItems(m, size), ReservedOpt(m, size), l, EffectiveSize(size), prefix, Start(m, compression), p.out);
    }
  }

  lemma RootHdrPacks(h: ResourceHdr, length: uint16, o: OutBuf)
    requires h.name == [0]
    ensures var r := PutFields(HdrFields(h, length), o);
      r.Ok? && |r.value.w| == |o.w| + 11 && r.value.targets == o.targets
    ensures FieldsLen(HdrFields(h, length), o.targets) == Ok(11)
  {
    var fs := HdrFields(h, length);
    var o1 := PutField(fs[0], o).value;
    var o2 := PutField(fs[1], o1).value;
    assert fs[1..] == [fs[1], fs[2]] && [fs[1], fs[2]][1..] == [fs[2]] && [fs[2]][1..] == [];
    assert PutFields([fs[2]], o2) == PutField(fs[2], o2);
    assert FieldsLen([fs[2]], o.targets) == Ok(2);
    assert FieldsLen([fs[1], fs[2]], o.targets) == Ok(10);
  }

  lemma RawBodyPacks(b: Body, o: OutBuf)
    requires b.Raw?
    ensures PutFields(BodyFields(b), o) == Ok(o.Append(b.data))
    ensures BodyLen(b, o.targets) == Ok(|b.data|) && BodyLen(b, None) == Ok(|b.data|)
  {
    var fs := BodyFields(b);
    assert fs[1..] == [];
    assert FieldsLen(fs[1..], o.targets) == Ok(0) == FieldsLen(fs[1..], None);
  }

  lemma RootRecordPacks(r: Resource, o: OutBuf)
    requires r.hdr.name == [0] && r.body.Raw?
    ensures var l := |r.body.data|;
      && (PutItem(R(r), o).Ok? <==> l <= MAX_UINT16)
      && (l <= MAX_UINT16 ==>
          && ItemLen(R(r), o.targets) == Ok(11 + l)
          && |PutItem(R(r), o).value.w| == |o.w| + 11 + l && PutItem(R(r), o).value.targets == o.targets)
  {
    var l := |r.body.data|;
    RootHdrPacks(r.hdr, 0, o);
    RawBodyPacks(r.body, PutFields(HdrFields(r.hdr, 0), o).value);
    if l <= MAX_UINT16 {
      RootHdrPacks(r.hdr, l, o);
      RawBodyPacks(r.body, PutFields(HdrFields(r.hdr, l), o).value);
    }
  }

  /** A record with a raw body is at least as long as that. */
  lemma RawRecordIsLong(r: Resource, o: OutBuf)
    requires r.body.Raw? && PutItem(R(r), o).Ok?
    ensures |PutItem(R(r), o).value.w| >= |o.w| + |r.body.data|
  {
    var l: uint16 := BodyLength(r, o).value;
    RawBodyPacks(r.body, PutFields(HdrFields(r.hdr, l), o).value);
  }

  /** What was packed before the OPT record. */
  function BeforeOpt(m: Message, prefix: nat, compression: bool, size: int): (r: Result<OutBuf, Error>)
    requires Packed(m, prefix, compression, size).Ok?
  {
    var kept := Packed(m, prefix, compression, size).value.kept;
    PutItems(if ReservedOpt(m, size).Some? then kept[..|kept| - 1] else kept, Start(m, compression))
  }

  lemma BeforeOptIsLimited(m: Message, prefix: nat, compression: bool, size: int)
    requires Packed(m, prefix, compression, size).Ok? && ReservedOpt(m, size).Some?
    ensures var p := Packed(m, prefix, compression, size).value;
      var o := BeforeOpt(m, prefix, compression, size);
      o.Ok? && PutItem(R(ReservedOpt(m, size).value), o.value) == Ok(p.out)
  {
    hide Packed, PutLimited, PutItems, PutItem, LimitedItems, Start, LastOpt, BodyLen;
    PackedSteps(m, prefix, compression, size);
    var o, items := Start(m, compression), LimitedItems(m, size);
    var limit := EffectiveSize(size) - ReservedLen(m, size).value;
    KeptIsPacked(items, limit, prefix, o);
    var q, p := PutLimited(items, limit, prefix, o).value, Packed(m, prefix, compression, size).value;
    assert p.kept[..|p.kept| - 1] == q.kept;
  }

  /** With a raw body of l bytes, the only one an OPT record is read with, the output is longer than l. */
  lemma RawOptIsLong(m: Message, prefix: nat, compression: bool, size: int)
    requires Packed(m, prefix, compression, size).Ok?
    ensures match ReservedOpt(m, size)
      case None => true
      case Some(r) => r.body.Raw? ==>
        && ReservedLen(m, size) == Ok(|r.body.data|)
        && |Packed(m, prefix, compression, size).value.out.w| > |r.body.data|
  {
    var opt := ReservedOpt(m, size);
    if opt.Some? && opt.value.body.Raw? {
      BeforeOptIsLimited(m, prefix, compression, size);
      hide Packed, PutItem, PutLimited, LastOpt;
      var o := BeforeOpt(m, prefix, compression, size).value;
      RawBodyPacks(opt.value.body, o);
      RawRecordIsLong(opt.value, o);
    }
  }

  /**
   An OPT record whose body takes the whole limit switches it off: everything is packed, and
   with a raw body the limit never holds.
   */
  lemma SizeLimitVoid(m: Message, prefix: nat, compression: bool, size: int)
    requires size > 0 && Packed(m, prefix, compression, size).Ok?
    ensures ReservedLen(m, size).Ok?
    ensures ReservedLen(m, size).value >= EffectiveSize(size) ==>
      && ReservedOpt(m, size).Some?
      && Packed(m, prefix, compression, size).value.kept
           == LimitedItems(m, size) + [R(ReservedOpt(m, size).value)]
      && (ReservedOpt(m, size).value.body.Raw? ==>
          |Packed(m, prefix, compression, size).value.out.w| > EffectiveSize(size))
  {
    hide Packed, PutLimited, PutItems, PutItem, LimitedItems, Items, BodyLen, LastOpt, Start;
    PackedSteps(m, prefix, compression, size);
    RawOptIsLong(m, prefix, compression, size);
    var l := ReservedLen(m, size).value;
    if l >= EffectiveSize(size) {
      NoLimit(LimitedItems(m, size), EffectiveSize(size) - l, prefix, Start(m, compression));
    }
  }

  /**
   Without OPT the limit holds exactly when prefix and header fit it. With a root-named OPT record
   of l raw bytes it holds exactly when what comes before ends l + 11 bytes earlier; as only l
   bytes are reserved, it may be exceeded by eleven.
   */
  lemma SizeLimitPlain(m: Message, prefix: nat, compression: bool, size: int)
    requires size > 0 && Packed(m, prefix, compression, size).Ok?
    ensures ReservedLen(m, size).Ok?
    ensures var n := prefix + |Packed(m, prefix, compression, size).value.out.w|;
      var opt := ReservedOpt(m, size);
      && (opt.None? ==> (n <= EffectiveSize(size) <==> prefix + HEADER_LEN <= EffectiveSize(size)))
      && (opt.Some? && opt.value.hdr.name == [0]
          && prefix + HEADER_LEN + ReservedLen(m, size).value <= EffectiveSize(size)
          ==> n <= EffectiveSize(size) + 11)
    ensures var n := prefix + |Packed(m, prefix, compression, size).value.out.w|;
      var opt, before := ReservedOpt(m, size), BeforeOpt(m, prefix, compression, size);
      opt.Some? && opt.value.hdr.name == [0] && opt.value.body.Raw? ==>
        before.Ok? && (n <= EffectiveSize(size) <==> prefix + |before.value.w| <= EffectiveSize(size) - |opt.value.body.data| - 11)
  {
    SizeLimit(m, prefix, compression, size);
    var opt := ReservedOpt(m, size);
    if opt.Some? && opt.value.hdr.name == [0] && opt.value.body.Raw? {
      BeforeOptIsLimited(m, prefix, compression, size);
      RootRecordPacks(opt.value, BeforeOpt(m, prefix, compression, size).value);
    }
  }

  // ---------------------------------------------------------------------------------
  // What a limited message holds
  // ---------------------------------------------------------------------------------

  /** a is b with some elements left out. */
  predicate Subsequence<T(==)>(a: seq<T>, b: seq<T>) {
    a == [] || (b != [] && ((a[0] == b[0] && Subsequence(a[1..], b[1..])) || Subsequence(a, b[1..])))
  }

  lemma {:induction false} SubsequenceOfTail<T>(a: seq<T>, x: T, b: seq<T>)
    requires Subsequence(a, b)
    ensures Subsequence(a, [x] + b)
  {
    assert ([x] + b)[1..] == b;
  }

  lemma {:induction false} SubsequenceCons<T>(x: T, a: seq<T>, b: seq<T>)
    requires Subsequence(a, b)
    ensures Subsequence([x] + a, [x] + b)
  {
    assert ([x] + a)[1..] == a && ([x] + b)[1..] == b;
  }

  lemma {:induction false} SubsequenceTrans<T>(a: seq<T>, b: seq<T>, c: seq<T>)
    requires Subsequence(a, b) && Subsequence(b, c)
    ensures Subsequence(a, c)
    decreases |b| + |c|
  {
    if a != [] {
      if b[0] == c[0] && Subsequence(b[1..], c[1..]) {
        if a[0] == b[0] && Subsequence(a[1..], b[1..]) {
          SubsequenceTrans(a[1..], b[1..], c[1..]);
        } else {
          SubsequenceTrans(a, b[1..], c[1..]);
        }
      } else {
        SubsequenceTrans(a, b, c[1..]);
      }
    }
  }

  lemma {:induction false} SubsequenceConcat<T>(p: seq<T>, a: seq<T>, b: seq<T>)
    requires Subsequence(a, b)
    ensures Subsequence(p + a, p + b)
  {
    if p == [] {
      assert p + a == a && p + b == b;
    } else {
      SubsequenceConcat(p[1..], a, b);
      SubsequenceCons(p[0], p[1..] + a, p[1..] + b);
      assert p + a == [p[0]] + (p[1..] + a) && p + b == [p[0]] + (p[1..] + b);
    }
  }

  /** The limited message is a plain packing of the items kept, which keep their order. */
  lemma {:induction false} KeptIsPacked(items: seq<Item>, size: int, prefix: nat, o: OutBuf)
    requires PutLimited(items, size, prefix, o).Ok?
    ensures var p := PutLimited(items, size, prefix, o).value;
      Subsequence(p.kept, items) && PutItems(p.kept, o) == Ok(p.out)
  {
    if items != [] {
      var rest := items[1..];
      assert items == [items[0]] + rest;
      if size > 0 && prefix + |o.w| + ItemLen(items[0], o.targets).value > size {
        KeptIsPacked(rest, size, prefix, o);
        SubsequenceOfTail(PutLimited(items, size, prefix, o).value.kept, items[0], rest);
      } else {
        var o1 := PutItem(items[0], o).value;
        KeptIsPacked(rest, size, prefix, o1);
        var kept := PutLimited(rest, size, prefix, o1).value.kept;
        SubsequenceCons(items[0], kept, rest);
        assert ([items[0]] + kept)[1..] == kept;
      }
    }
  }

  lemma {:induction false} PutItemsConcat(a: seq<Item>, b: seq<Item>, o: OutBuf)
    ensures PutItems(a + b, o) == if PutItems(a, o).Ok? then PutItems(b, PutItems(a, o).value) else PutItems(a, o)
  {
    if a == [] {
      assert a + b == b;
    } else {
      assert (a + b)[0] == a[0] && (a + b)[1..] == a[1..] + b;
      if PutItem(a[0], o).Ok? {
        PutItemsConcat(a[1..], b, PutItem(a[0], o).value);
      }
    }
  }

  lemma {:induction false} WithoutOptIsSubsequence(rs: seq<Resource>)
    ensures Subsequence(Rs(WithoutOpt(rs)), Rs(rs))
    ensures forall r <- WithoutOpt(rs) :: r in rs && r.hdr.typ != TYPE_OPT
  {
    if rs != [] {
      var rest := rs[1..];
      WithoutOptIsSubsequence(rest);
      assert Rs(rs) == [R(rs[0])] + Rs(rest);
      if rs[0].hdr.typ == TYPE_OPT {
        SubsequenceOfTail(Rs(WithoutOpt(rest)), R(rs[0]), Rs(rest));
        assert WithoutOpt(rs) == WithoutOpt(rest);
      } else {
        SubsequenceCons(R(rs[0]), Rs(WithoutOpt(rest)), Rs(rest));
        assert Rs(WithoutOpt(rs)) == [R(rs[0])] + Rs(WithoutOpt(rest));
      }
    }
  }

  /** LastOpt is an OPT record of the section, and none comes after it. */
  lemma {:induction false} LastOptIsLast(rs: seq<Resource>)
    ensures match LastOpt(rs)
      case Some(r) => exists k :: IsLastOpt(rs, k) && rs[k] == r
      case None => forall r <- rs :: r.hdr.typ != TYPE_OPT
  {
    if rs != [] {
      var init := rs[..|rs| - 1];
      LastOptIsLast(init);
      if rs[|rs| - 1].hdr.typ == TYPE_OPT {
        assert IsLastOpt(rs, |rs| - 1);
      } else if LastOpt(init).Some? {
        var k :| IsLastOpt(init, k) && init[k] == LastOpt(init).value;
        assert IsLastOpt(rs, k);
      }
    }
  }

  predicate IsLastOpt(rs: seq<Resource>, k: int) {
    0 <= k < |rs| && rs[k].hdr.typ == TYPE_OPT && forall j | k < j < |rs| :: rs[j].hdr.typ != TYPE_OPT
  }

  /**
   Whatever the limit, the message holds the original header and, in order, items of the
   original; the last OPT record, if the limit reserves one, is kept and comes last.
   */
  lemma LimitedIsSubsequence(m: Message, prefix: nat, compression: bool, size: int)
    requires Packed(m, prefix, compression, size).Ok?
    ensures var p := Packed(m, prefix, compression, size).value;
      && PutItems(p.kept, Start(m, compression)) == Ok(p.out)
      && match ReservedOpt(m, size)
         case None => Subsequence(p.kept, Items(m))
         case Some(opt) => p.kept != [] && p.kept[|p.kept| - 1] == R(opt) && Subsequence(p.kept[..|p.kept| - 1], Items(m))
  {
    PackedSteps(m, prefix, compression, size);
    var o, items := Start(m, compression), LimitedItems(m, size);
    var limit := EffectiveSize(size) - ReservedLen(m, size).value;
    KeptIsPacked(items, limit, prefix, o);
    var opt := ReservedOpt(m, size);
    if opt.Some? {
      var q, p := PutLimited(items, limit, prefix, o).value, Packed(m, prefix, compression, size).value;
      LimitedItemsAreItems(m, size);
      SubsequenceTrans(q.kept, items, Items(m));
      PutItemsConcat(q.kept, [R(opt.value)], o);
      assert [R(opt.value)][1..] == [];
      assert p.kept[..|p.kept| - 1] == q.kept;
    }
  }

  lemma LimitedItemsAreItems(m: Message, size: int)
    ensures Subsequence(LimitedItems(m, size), Items(m))
  {
    var front := Qs(m.questions) + Rs(m.answers) + Rs(m.authorities);
    WithoutOptIsSubsequence(m.additionals);
    SubsequenceConcat(front, Rs(WithoutOpt(m.additionals)), Rs(m.additionals));
    SubsequenceReflexive(Items(m));
  }

  lemma {:induction false} SubsequenceReflexive<T>(a: seq<T>)
    ensures Subsequence(a, a)
  {
    if a != [] {
      SubsequenceReflexive(a[1..]);
    }
  }

  // ---------------------------------------------------------------------------------
  // A limit with room for everything
  // ---------------------------------------------------------------------------------

  lemma {:induction false} FieldsTerminated(fs: seq<Field>)
    requires FieldsLen(fs, None).Ok?
    ensures forall f <- fs | f.N? :: Terminated(f.name)
  {
    if fs != [] {
      if fs[0].N? {
        var o := Out([], None, map[]);
        NameLenIsExact(fs[0].name, o);
        PutNameFinished(fs[0].name, o);
      }
      FieldsTerminated(fs[1..]);
    }
  }

  /** A map never makes the prediction longer. */
  lemma ItemLenBelow(i: Item, t: Option<Targets>)
    requires ItemLen(i, None).Ok?
    ensures ItemLen(i, t).Ok? && ItemLen(i, t).value <= ItemLen(i, None).value
  {
    if i.Q? {
      FieldsTerminated(QuestionFields(i.q));
      FieldsLenShrinks(QuestionFields(i.q), None, t);
    } else {
      FieldsTerminated(HdrFields(i.r.hdr, 0));
      FieldsTerminated(BodyFields(i.r.body));
      FieldsLenShrinks(HdrFields(i.r.hdr, 0), None, t);
      FieldsLenShrinks(BodyFields(i.r.body), None, t);
    }
  }

  /** What has a predicted length can be packed. */
  lemma {:induction false} FieldsPack(fs: seq<Field>, o: OutBuf)
    requires FinishedKeys(o.targets) && FieldsLen(fs, None).Ok?
    ensures PutFields(fs, o).Ok?
  {
    if fs != [] {
      if fs[0].N? {
        FieldsTerminated(fs);
        NameLenIsExact(fs[0].name, o);
        NameLenShrinks(fs[0].name, None, o.targets);
        PutNameFinished(fs[0].name, o);
      }
      FieldsPack(fs[1..], PutField(fs[0], o).value);
    }
  }

  lemma ItemPacks(i: Item, o: OutBuf)
    requires FinishedKeys(o.targets) && ItemLen(i, None).Ok?
    ensures PutItem(i, o).Ok?
  {
    if i.Q? {
      FieldsPack(QuestionFields(i.q), o);
    } else {
      FieldsPack(HdrFields(i.r.hdr, 0), o);
      FieldsLenCovers(HdrFields(i.r.hdr, 0), None, o);
      var h := PutFields(HdrFields(i.r.hdr, 0), o).value;
      FieldsPack(BodyFields(i.r.body), h);
      FieldsLenCovers(BodyFields(i.r.body), None, h);
      PutWithLengthAlike(i.r, BodyLength(i.r, o).value, o);
    }
  }

  /** A limit that the uncompressed items respect drops none of them. */
  lemma {:induction false} NothingDropped(items: seq<Item>, size: int, prefix: nat, o: OutBuf)
    requires size > 0 && FinishedKeys(o.targets) && ItemsLen(items).Ok?
    requires prefix + |o.w| + ItemsLen(items).value <= size
    ensures PutItems(items, o).Ok? && |PutItems(items, o).value.w| <= |o.w| + ItemsLen(items).value
    ensures FinishedKeys(PutItems(items, o).value.targets)
    ensures PutLimited(items, size, prefix, o) == Ok(Limited(PutItems(items, o).value, items))
  {
    if items != [] {
      var i := items[0];
      assert items == [i] + items[1..];
      ItemLenBelow(i, o.targets);
      ItemPacks(i, o);
      ItemLenCovers(i, None, o);
      NothingDropped(items[1..], size, prefix, PutItem(i, o).value);
    }
  }

  lemma {:induction false} ItemsLenConcat(a: seq<Item>, b: seq<Item>)
    ensures ItemsLen(a + b) ==
      if ItemsLen(a).Err? then ItemsLen(a)
      else if ItemsLen(b).Err? then ItemsLen(b)
      else Ok(ItemsLen(a).value + ItemsLen(b).value)
  {
    if a == [] {
      assert a + b == b;
    } else {
      assert (a + b)[0] == a[0] && (a + b)[1..] == a[1..] + b;
      ItemsLenConcat(a[1..], b);
    }
  }

  lemma ItemsLenOne(i: Item)
    ensures ItemsLen([i]) == ItemLen(i, None)
  {
    assert [i][1..] == [];
  }

  lemma {:induction false} WithoutOptSnoc(rs: seq<Resource>, r: Resource)
    ensures WithoutOpt(rs + [r]) == if r.hdr.typ == TYPE_OPT then WithoutOpt(rs) else WithoutOpt(rs) + [r]
  {
    if rs == [] {
      assert rs + [r] == [r] && [r][1..] == [];
    } else {
      assert (rs + [r])[0] == rs[0] && (rs + [r])[1..] == rs[1..] + [r];
      WithoutOptSnoc(rs[1..], r);
    }
  }

  lemma RsLenSnoc(rs: seq<Resource>, r: Resource)
    ensures ItemsLen(Rs(rs + [r])).Ok? <==> ItemsLen(Rs(rs)).Ok? && ItemLen(R(r), None).Ok?
    ensures ItemsLen(Rs(rs + [r])).Ok? ==>
      ItemsLen(Rs(rs + [r])).value == ItemsLen(Rs(rs)).value + ItemLen(R(r), None).value
  {
    assert Rs(rs + [r]) == Rs(rs) + [R(r)];
    ItemsLenConcat(Rs(rs), [R(r)]);
    ItemsLenOne(R(r));
  }

  /** The predicted length of a section covers its other records and its last OPT record. */
  lemma {:induction false} OptIsCounted(rs: seq<Resource>)
    requires ItemsLen(Rs(rs)).Ok?
    ensures var l := ItemsLen(Rs(WithoutOpt(rs)));
      l.Ok? && match LastOpt(rs)
               case None => l.value == ItemsLen(Rs(rs)).value
               case Some(r) => ItemLen(R(r), None).Ok? && l.value + ItemLen(R(r), None).value <= ItemsLen(Rs(rs)).value
  {
    if rs != [] {
      var init, r := rs[..|rs| - 1], rs[|rs| - 1];
      assert rs == init + [r];
      RsLenSnoc(init, r);
      OptIsCounted(init);
      WithoutOptSnoc(init, r);
      RsLenSnoc(WithoutOpt(init), r);
      hide ItemsLen, ItemLen, WithoutOpt;
    }
  }

  lemma LimitedItemsLen(m: Message, size: int)
    requires MaxPackLen(m).Ok?
    ensures var l := ItemsLen(LimitedItems(m, size));
      l.Ok? && match ReservedOpt(m, size)
               case None => LimitedItems(m, size) == Items(m)
               case Some(r) =>
                 && ItemLen(R(r), None).Ok?
                 && HEADER_LEN + l.value + ItemLen(R(r), None).value <= MaxPackLen(m).value
  {
    var front := Qs(m.questions) + Rs(m.answers) + Rs(m.authorities);
    ItemsLenConcat(front, Rs(m.additionals));
    ItemsLenConcat(front, Rs(WithoutOpt(m.additionals)));
    OptIsCounted(m.additionals);
  }

  /** The OPT record fits behind items that leave room for all of it. */
  lemma OptFits(r: Resource, o: OutBuf)
    requires FinishedKeys(o.targets) && ItemLen(R(r), None).Ok?
    ensures PutItem(R(r), o).Ok? && |PutItem(R(r), o).value.w| <= |o.w| + ItemLen(R(r), None).value
    ensures BodyLen(r.body, None).Ok? && BodyLen(r.body, None).value <= ItemLen(R(r), None).value
    ensures ItemLen(R(r), None).value > BodyLen(r.body, None).value
  {
    ItemPacks(R(r), o);
    ItemLenCovers(R(r), None, o);
    assert HdrFields(r.hdr, 0)[1..][0].B?;
  }

  /**
   A limit with room for MaxPackLen holds, and nothing is dropped: but for the OPT record, which
   moves to the end, and any before it, the message is packed as without a limit.
   */
  lemma RoomyLimit(m: Message, prefix: nat, compression: bool, size: int)
    requires size > 0 && CountError(m).None?
    requires MaxPackLen(m).Ok? && prefix + MaxPackLen(m).value <= EffectiveSize(size)
    ensures var opt, items := ReservedOpt(m, size), LimitedItems(m, size);
      && Packed(m, prefix, compression, size).Ok?
      && Packed(m, prefix, compression, size).value.kept == (if opt.Some? then items + [R(opt.value)] else items)
      && prefix + |Packed(m, prefix, compression, size).value.out.w| <= EffectiveSize(size)
      && (opt.None? ==> Packed(m, prefix, compression, size) == Packed(m, prefix, compression, 0))
  {
    hide PutLimited, PutItem, ItemLen, BodyLen, LastOpt, Items, LimitedItems;
    var opt, items, o := ReservedOpt(m, size), LimitedItems(m, size), Start(m, compression);
    LimitedItemsLen(m, size);
    if opt.Some? {
      OptFits(opt.value, o);
      NothingDropped(items, EffectiveSize(size) - BodyLen(opt.value.body, None).value, prefix, o);
      OptFits(opt.value, PutItems(items, o).value);
    } else {
      PackedUnlimited(m, prefix, compression, 0);
      NothingDropped(items, EffectiveSize(size), prefix, o);
    }
  }
}
