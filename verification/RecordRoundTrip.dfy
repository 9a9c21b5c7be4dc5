/**
 Whatever is packed for a question or a resource is read back from the finished message,
 exactly when its names fit what unpack accepts.
 */
module RecordRoundTrip {
  import opened Wrappers
  import opened WireBytes
  import opened NameWire
  import opened NameCompression
  import opened Records

  // ---------------------------------------------------------------------------------
  // Packing looks at the message's length and map only
  // ---------------------------------------------------------------------------------

  /** Same length, same map: the bytes before may differ. */
  ghost predicate Alike(o: Out, o': Out) {
    |o.w| == |o'.w| && o.targets == o'.targets && o.hops == o'.hops
  }

  /** Two packings that append the same bytes, or fail alike. */
  ghost predicate AlikeResults(o: Out, r: Result<Out, Error>, o': Out, r': Result<Out, Error>)
    requires |o.w| == |o'.w|
    requires r.Ok? ==> o.w <= r.value.w
    requires r'.Ok? ==> o'.w <= r'.value.w
  {
    if r.Err? then r' == r
    else r'.Ok? && Alike(r.value, r'.value) && r.value.w[|o.w|..] == r'.value.w[|o.w|..]
  }

  lemma {:induction false} PutNameAlike(n: NameBuf, o: OutBuf, o': OutBuf)
    requires Alike(o, o')
    ensures AlikeResults(o, PutName(n, o), o', PutName(n, o'))
    ensures NameHops(n, o) == NameHops(n, o')
  {
    if n != [] && n[0] != 0 && !Known(n, o.targets) {
      var l := 1 + n[0] as int;
      var o1, o1' := o.Append(n[..l]), o'.Append(n[..l]);
      PutNameAlike(n[l..], o1, o1');
      HopsAppend(n[l..], o, n[..l]);
      HopsAppend(n[l..], o', n[..l]);
      if PutName(n[l..], o1).Ok? {
        TailSplit(o.w, n[..l], PutName(n[l..], o1).value.w);
        TailSplit(o'.w, n[..l], PutName(n[l..], o1').value.w);
      }
    }
  }

  lemma TailSplit(a: bytes, b: bytes, w: bytes)
    requires a + b <= w
    ensures a <= w && w[|a|..] == b + w[|a + b|..]
  {
    assert w[|a|..][..|b|] == (a + b)[|a|..];
  }

  lemma {:induction false} PutFieldAlike(f: Field, o: OutBuf, o': OutBuf)
    requires Alike(o, o')
    ensures AlikeResults(o, PutField(f, o), o', PutField(f, o'))
    ensures f.N? ==> NameHops(f.name, o) == NameHops(f.name, o')
  {
    if f.N? {
      PutNameAlike(f.name, o, o');
    }
  }

  lemma {:induction false} PutFieldsAlike(fs: seq<Field>, o: OutBuf, o': OutBuf)
    requires Alike(o, o')
    ensures AlikeResults(o, PutFields(fs, o), o', PutFields(fs, o'))
    ensures FieldsFit(fs, o) == FieldsFit(fs, o')
  {
    if fs != [] {
      PutFieldAlike(fs[0], o, o');
      if PutField(fs[0], o).Ok? {
        var o1, o1' := PutField(fs[0], o).value, PutField(fs[0], o').value;
        PutFieldsAlike(fs[1..], o1, o1');
        if PutFields(fs[1..], o1).Ok? {
          TailsJoin(o.w, o1.w, PutFields(fs[1..], o1).value.w, o'.w, o1'.w, PutFields(fs[1..], o1').value.w);
        }
      }
    }
  }

  lemma TailsJoin(a: bytes, b: bytes, c: bytes, a': bytes, b': bytes, c': bytes)
    requires a <= b <= c && a' <= b' <= c' && |a| == |a'| && |b| == |b'|
    requires b[|a|..] == b'[|a|..] && c[|b|..] == c'[|b|..]
    ensures c[|a|..] == c'[|a|..]
  {
    assert c[|a|..] == b[|a|..] + c[|b|..];
    assert c'[|a|..] == b'[|a|..] + c'[|b|..];
  }

  lemma {:induction false} PutFieldsConcat(a: seq<Field>, b: seq<Field>, o: OutBuf)
    ensures PutFields(a + b, o) == if PutFields(a, o).Ok? then PutFields(b, PutFields(a, o).value) else PutFields(a, o)
  {
    if a == [] {
      assert a + b == b;
    } else {
      assert (a + b)[0] == a[0] && (a + b)[1..] == a[1..] + b;
      if PutField(a[0], o).Ok? {
        PutFieldsConcat(a[1..], b, PutField(a[0], o).value);
      }
    }
  }

  // ---------------------------------------------------------------------------------
  // What unpack can read back
  // ---------------------------------------------------------------------------------

  /** unpack accepts the name n as PutName writes it at o. */
  predicate NameFits(n: NameBuf, o: Out) {
    ValidName(n) && |n| <= MAX_UNPACKED_NAME && NameHops(n, o) <= MAX_POINTERS
  }

  predicate FieldsFit(fs: seq<Field>, o: OutBuf) {
    fs != [] ==>
    && (fs[0].N? ==> NameFits(fs[0].name, o))
    && PutField(fs[0], o).Ok?
    && FieldsFit(fs[1..], PutField(fs[0], o).value)
  }

  predicate ItemFits(i: Item, o: OutBuf) {
    if i.Q? then FieldsFit(QuestionFields(i.q), o)
    else
      var h := PutFields(HdrFields(i.r.hdr, 0), o);
      FieldsFit(HdrFields(i.r.hdr, 0), o) && h.Ok? && FieldsFit(BodyFields(i.r.body), h.value)
  }

  predicate FieldsValid(fs: seq<Field>) {
    forall f <- fs | f.N? :: ValidName(f.name)
  }

  lemma {:induction false} FitConcat(a: seq<Field>, b: seq<Field>, o: OutBuf)
    requires PutFields(a, o).Ok?
    ensures FieldsFit(a + b, o) == (FieldsFit(a, o) && FieldsFit(b, PutFields(a, o).value))
  {
    if a == [] {
      assert a + b == b;
    } else {
      assert (a + b)[0] == a[0] && (a + b)[1..] == a[1..] + b;
      FitConcat(a[1..], b, PutField(a[0], o).value);
    }
  }

  lemma {:induction false} FitImpliesPut(fs: seq<Field>, o: OutBuf)
    requires FieldsFit(fs, o)
    ensures PutFields(fs, o).Ok?
  {
    if fs != [] {
      FitImpliesPut(fs[1..], PutField(fs[0], o).value);
    }
  }

  /** Every name has labels of 1 to 63 bytes and the body is of its type's kind. */
  predicate ItemValid(i: Item) {
    if i.Q? then ValidName(i.q.name)
    else ValidName(i.r.hdr.name) && BodyMatches(i.r.hdr.typ, i.r.body) && FieldsValid(BodyFields(i.r.body))
  }

  /** Packing a field keeps the compression invariant, and reading it back gives it again. */
  lemma {:induction false} FieldRoundTrip(f: Field, o: OutBuf, w: bytes)
    requires Inv(o) && (f.N? ==> ValidName(f.name))
    requires PutField(f, o).Ok? && PutField(f, o).value.w <= w
    ensures var o' := PutField(f, o).value;
      && Inv(o')
      && if f.N? && !NameFits(f.name, o) then ReadField(ShapeOf(f), w, |o.w|).Err?
         else ReadField(ShapeOf(f), w, |o.w|) == Ok((f, |o'.w|))
  {
    var o' := PutField(f, o).value;
    match f
    case N(n) =>
      PutNameKeepsInv(n, o);
      SpellsGrow(o'.w, w, |o.w|, n, NameHops(n, o));
      assert SpellsWithin(w, |o.w|, n, NameHops(n, o), MAX_POINTERS, MAX_UNPACKED_NAME);
      PutNameEnd(n, o, w);
    case B(data) =>
      AppendKeepsInv(o, data);
      assert w[|o.w|..|o.w| + |data|] == o'.w[|o.w|..] == data;
  }

  /** Reading n fields at off gives fs and ends at end, or fails, as told. */
  predicate ReadsAs(fs: seq<Field>, w: bytes, off: nat, end: nat, fits: bool)
    requires off <= |w|
  {
    var r := ReadFields(ShapesOf(fs), w, off);
    if fits then r == Ok((fs, end)) else r.Err?
  }

  lemma {:induction false} FieldsRoundTrip(fs: seq<Field>, o: OutBuf, w: bytes)
    requires Inv(o) && FieldsValid(fs)
    requires PutFields(fs, o).Ok? && PutFields(fs, o).value.w <= w
    ensures var o' := PutFields(fs, o).value;
      Inv(o') && ReadsAs(fs, w, |o.w|, |o'.w|, FieldsFit(fs, o))
  {
    if fs != [] {
      var o1 := PutField(fs[0], o).value;
      FieldRoundTrip(fs[0], o, w);
      FieldsRoundTrip(fs[1..], o1, w);
      assert ShapesOf(fs)[0] == ShapeOf(fs[0]) && ShapesOf(fs)[1..] == ShapesOf(fs[1..]);
      assert fs == [fs[0]] + fs[1..];
    }
  }

  /** A finished item is read back as it was, but for Length, exactly when it fits. */
  ghost predicate ItemReads(i: Item, w: bytes, off: nat, end: nat, fits: bool)
    requires off <= |w|
  {
    var r := ReadItem(i.R?, w, off);
    if fits then r.Ok? && Forget(r.value.0) == Forget(i) && r.value.1 == end else r.Err?
  }

  lemma {:induction false} QuestionRoundTrip(q: Question, o: OutBuf, w: bytes)
    requires Inv(o) && ItemValid(Q(q))
    requires PutItem(Q(q), o).Ok? && PutItem(Q(q), o).value.w <= w
    ensures var o' := PutItem(Q(q), o).value;
      Inv(o') && ItemReads(Q(q), w, |o.w|, |o'.w|, ItemFits(Q(q), o))
  {
    QuestionOfFields(q);
    FieldsRoundTrip(QuestionFields(q), o, w);
  }

  lemma {:induction false} HdrLengthIrrelevant(h: ResourceHdr, length: uint16, o: OutBuf)
    ensures var r, r' := PutFields(HdrFields(h, 0), o), PutFields(HdrFields(h, length), o);
      && r.Ok? == r'.Ok? && (r.Ok? ==> Alike(r.value, r'.value)) && (r.Err? ==> r == r')
    ensures FieldsFit(HdrFields(h, 0), o) == FieldsFit(HdrFields(h, length), o)
  {
    var fs, fs' := HdrFields(h, 0), HdrFields(h, length);
    var front := fs[..2];
    assert fs == front + fs[2..] && fs' == front + fs'[2..];
    PutFieldsConcat(front, fs[2..], o);
    PutFieldsConcat(front, fs'[2..], o);
    if PutFields(front, o).Ok? {
      FitConcat(front, fs[2..], o);
      FitConcat(front, fs'[2..], o);
    } else if FieldsFit(fs, o) {
      FitImpliesPut(fs, o);
    } else if FieldsFit(fs', o) {
      FitImpliesPut(fs', o);
    }
    assert fs[2..][1..] == [] && fs'[2..][1..] == [];
  }

  /** An item is packed alike whatever the bytes before it. */
  lemma PutItemAlike(i: Item, o: OutBuf, o': OutBuf)
    requires Alike(o, o')
    ensures AlikeResults(o, PutItem(i, o), o', PutItem(i, o'))
  {
    if i.Q? {
      PutFieldsAlike(QuestionFields(i.q), o, o');
    } else {
      PutWithAlike(i.r, 0, o, o');
      var l := BodyLength(i.r, o);
      if l.Ok? && l.value <= MAX_UINT16 {
        PutWithAlike(i.r, l.value, o, o');
      }
    }
  }

  lemma PutWithAlike(r: Resource, length: uint16, o: OutBuf, o': OutBuf)
    requires Alike(o, o')
    ensures AlikeResults(o, PutWithLength(r, length, o), o', PutWithLength(r, length, o'))
    ensures length == 0 ==> BodyLength(r, o) == BodyLength(r, o')
  {
    PutFieldsAlike(HdrFields(r.hdr, length), o, o');
    if PutFields(HdrFields(r.hdr, length), o).Ok? {
      var h, h' := PutFields(HdrFields(r.hdr, length), o).value, PutFields(HdrFields(r.hdr, length), o').value;
      PutFieldsAlike(BodyFields(r.body), h, h');
      if PutFields(BodyFields(r.body), h).Ok? {
        TailsJoin(o.w, h.w, PutFields(BodyFields(r.body), h).value.w, o'.w, h'.w, PutFields(BodyFields(r.body), h').value.w);
      }
    }
  }

  /** The length packed for a resource is that of the body packed after it. */
  lemma {:induction false} PutWithLengthIsExact(r: Resource, length: uint16, o: OutBuf)
    requires PutItem(R(r), o).Ok? && BodyLength(r, o) == Ok(length as nat)
    ensures var h := PutFields(HdrFields(r.hdr, length), o);
      && h.Ok? && PutFields(BodyFields(r.body), h.value).Ok?
      && PutItem(R(r), o) == PutFields(BodyFields(r.body), h.value)
      && |PutItem(R(r), o).value.w| == |h.value.w| + length
      && ItemFits(R(r), o) ==
           (FieldsFit(HdrFields(r.hdr, length), o) && FieldsFit(BodyFields(r.body), h.value))
  {
    HdrLengthIrrelevant(r.hdr, length, o);
    var h0, h := PutFields(HdrFields(r.hdr, 0), o).value, PutFields(HdrFields(r.hdr, length), o).value;
    PutFieldsAlike(BodyFields(r.body), h0, h);
  }

  lemma {:induction false} ResourceRoundTrip(r: Resource, o: OutBuf, w: bytes)
    requires Inv(o) && ItemValid(R(r))
    requires PutItem(R(r), o).Ok? && PutItem(R(r), o).value.w <= w
    ensures var o' := PutItem(R(r), o).value;
      Inv(o') && ItemReads(R(r), w, |o.w|, |o'.w|, ItemFits(R(r), o))
  {
    var length: uint16 := BodyLength(r, o).value;
    var o' := PutItem(R(r), o).value;
    PutWithLengthIsExact(r, length, o);
    var h := PutFields(HdrFields(r.hdr, length), o).value;
    assert h.w <= w;
    HdrOfFields(r.hdr, length);
    FieldsRoundTrip(HdrFields(r.hdr, length), o, w);
    FieldsRoundTrip(BodyFields(r.body), h, w);
    RawLength(r, h);
    BodyOfFields(r.hdr.typ, length, r.body);
  }

  lemma RawLength(r: Resource, h: OutBuf)
    requires PutFields(BodyFields(r.body), h).Ok?
    ensures r.body.Raw? ==> |PutFields(BodyFields(r.body), h).value.w| == |h.w| + |r.body.data|
  {
    if r.body.Raw? {
      assert BodyFields(r.body)[1..] == [];
    }
  }

  /** Packing an item keeps the compression invariant, and the item reads back. */
  lemma ItemRoundTrip(i: Item, o: OutBuf, w: bytes)
    requires Inv(o) && ItemValid(i)
    requires PutItem(i, o).Ok? && PutItem(i, o).value.w <= w
    ensures var o' := PutItem(i, o).value;
      Inv(o') && ItemReads(i, w, |o.w|, |o'.w|, ItemFits(i, o))
  {
    if i.Q? {
      QuestionRoundTrip(i.q, o, w);
    } else {
      ResourceRoundTrip(i.r, o, w);
    }
  }
}
