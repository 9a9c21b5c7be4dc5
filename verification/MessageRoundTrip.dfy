/**
 Packing a whole message and unpacking it again.
 */
module MessageRoundTrip {
  import opened Wrappers
  import opened WireBytes
  import opened NameWire
  import opened NameCompression
  import opened Records
  import opened RecordRoundTrip
  import opened Messages

  // ---------------------------------------------------------------------------------
  // Runs of items
  // ---------------------------------------------------------------------------------

  predicate ItemsFit(items: seq<Item>, o: OutBuf) {
    items != [] ==>
      && ItemFits(items[0], o)
      && PutItem(items[0], o).Ok?
      && ItemsFit(items[1..], PutItem(items[0], o).value)
  }

  predicate ItemsValid(items: seq<Item>) {
    forall i <- items :: ItemValid(i)
  }

  /** The items are read back, but for Length, exactly when they fit. */
  ghost predicate ItemsRead(items: seq<Item>, w: bytes, off: nat, end: nat, fits: bool)
    requires off <= |w|
  {
    var r := ReadItems(KindsOf(items), w, off);
    if fits then r.Ok? && Forgotten(r.value.0) == Forgotten(items) && r.value.1 == end else r.Err?
  }

  /** The compression invariant holds after every item, and every item reads back. */
  lemma {:induction false} ItemsRoundTrip(items: seq<Item>, o: OutBuf, w: bytes)
    requires Inv(o) && ItemsValid(items)
    requires PutItems(items, o).Ok? && PutItems(items, o).value.w <= w
    ensures var o' := PutItems(items, o).value;
      Inv(o') && ItemsRead(items, w, |o.w|, |o'.w|, ItemsFit(items, o))
  {
    if items != [] {
      var o1 := PutItem(items[0], o).value;
      ItemRoundTrip(items[0], o, w);
      ItemsRoundTrip(items[1..], o1, w);
      ItemsReadCons(items, w, |o.w|, |o1.w|, |PutItems(items, o).value.w|, ItemFits(items[0], o), ItemsFit(items[1..], o1));
    }
  }

  lemma ItemsReadCons(items: seq<Item>, w: bytes, off: nat, mid: nat, end: nat, first: bool, others: bool)
    requires items != [] && off <= mid <= |w|
    requires ItemReads(items[0], w, off, mid, first) && ItemsRead(items[1..], w, mid, end, others)
    ensures ItemsRead(items, w, off, end, first && others)
  {
    assert KindsOf(items)[1..] == KindsOf(items[1..]);
    assert Forgotten(items) == [Forget(items[0])] + Forgotten(items[1..]);
    if first && others {
      var (i, _) := ReadItem(items[0].R?, w, off).value;
      var (rest, _) := ReadItems(KindsOf(items[1..]), w, mid).value;
      assert Forgotten([i] + rest) == [Forget(i)] + Forgotten(rest);
    }
  }

  // ---------------------------------------------------------------------------------
  // What unpacking yields
  // ---------------------------------------------------------------------------------

  predicate NameNormal(n: bytes) {
    ValidName(n) && |n| <= MAX_UNPACKED_NAME
  }

  /** What every field, item and message that was unpacked satisfies. */
  predicate FieldsNormal(fs: seq<Field>) {
    forall f <- fs | f.N? :: NameNormal(f.name)
  }

  predicate ItemNormal(i: Item) {
    if i.Q? then NameNormal(i.q.name)
    else
      && NameNormal(i.r.hdr.name)
      && BodyMatches(i.r.hdr.typ, i.r.body)
      && FieldsNormal(BodyFields(i.r.body))
      && (i.r.body.Raw? ==> |i.r.body.data| <= MAX_UINT16)
  }

  predicate ItemsNormal(items: seq<Item>) {
    forall i <- items :: ItemNormal(i)
  }

  predicate Normal(m: Message) {
    CountError(m).None? && HeaderFits(m.header) && ItemsNormal(Items(m))
  }

  lemma {:induction false} ReadFieldsNormal(ss: seq<Shape>, w: bytes, off: nat)
    requires off <= |w| && ReadFields(ss, w, off).Ok?
    ensures FieldsNormal(ReadFields(ss, w, off).value.0)
  {
    if ss != [] {
      var (f, off1) := ReadField(ss[0], w, off).value;
      if f.N? {
        ExpandIsValid(w, off, MAX_POINTERS, MAX_UNPACKED_NAME);
      }
      ReadFieldsNormal(ss[1..], w, off1);
    }
  }

  lemma BodyOfNormal(typ: uint16, length: uint16, fs: seq<Field>)
    requires ShapesOf(fs) == BodyShapes(typ, length) && FieldsNormal(fs)
    ensures FieldsNormal(BodyFields(BodyOf(typ, length, fs)))
  {
    assert |fs| == |BodyShapes(typ, length)|;
    assert forall i | 0 <= i < |fs| :: ShapesOf(fs)[i] == ShapeOf(fs[i]) && fs[i] in fs;
  }

  lemma {:induction false} ReadItemNormal(resource: bool, w: bytes, off: nat)
    requires off <= |w| && ReadItem(resource, w, off).Ok?
    ensures ItemNormal(ReadItem(resource, w, off).value.0)
  {
    if resource {
      ReadFieldsNormal(HDR_SHAPES, w, off);
      var (hs, off1) := ReadFields(HDR_SHAPES, w, off).value;
      var h := HdrOf(hs);
      assert ShapesOf(hs)[0] == ShapeOf(hs[0]) && hs[0] in hs;
      ReadFieldsNormal(BodyShapes(h.typ, h.length), w, off1);
      var (bs, end) := ReadFields(BodyShapes(h.typ, h.length), w, off1).value;
      BodyOfNormal(h.typ, h.length, bs);
    } else {
      ReadFieldsNormal(QUESTION_SHAPES, w, off);
      var (fs, end) := ReadFields(QUESTION_SHAPES, w, off).value;
      assert ShapesOf(fs)[0] == ShapeOf(fs[0]) && fs[0] in fs;
    }
  }

  lemma {:induction false} ReadItemsNormal(kinds: seq<bool>, w: bytes, off: nat)
    requires off <= |w| && ReadItems(kinds, w, off).Ok?
    ensures ItemsNormal(ReadItems(kinds, w, off).value.0)
  {
    if kinds != [] {
      ReadItemNormal(kinds[0], w, off);
      ReadItemsNormal(kinds[1..], w, ReadItem(kinds[0], w, off).value.1);
    }
  }

  lemma UnpackedWith(w: bytes, qd: nat, an: nat, ns: nat, ar: nat)
    requires |w| >= HEADER_LEN
    requires AsU16(w[4..6]) == qd && AsU16(w[6..8]) == an && AsU16(w[8..10]) == ns && AsU16(w[10..12]) == ar
    ensures var r := ReadItems(Kinds(qd, an + ns + ar), w, HEADER_LEN);
      Unpacked(w) ==
        if r.Err? then Err(r.error)
        else Ok(Sections(HeaderOf(AsU16(w[0..2]), AsU16(w[2..4]) as bv16), r.value.0, qd, an, ns, ar))
  {
  }

  /** Whatever bytes come in, a message that Unpack accepts is normal. */
  lemma UnpackedIsNormal(w: bytes)
    requires Unpacked(w).Ok?
    ensures Normal(Unpacked(w).value)
  {
    var id, bits := AsU16(w[0..2]), AsU16(w[2..4]) as bv16;
    var qd: nat, an: nat, ns: nat, ar: nat := AsU16(w[4..6]), AsU16(w[6..8]), AsU16(w[8..10]), AsU16(w[10..12]);
    UnpackedWith(w, qd, an, ns, ar);
    hide Unpacked, ReadItems, Normal, ItemsNormal, HeaderOf, AsU16, Sections, Kinds;
    var kinds := Kinds(qd, an + ns + ar);
    ReadItemsNormal(kinds, w, HEADER_LEN);
    SectionsAreNormal(id, bits, ReadItems(kinds, w, HEADER_LEN).value.0, qd, an, ns, ar);
  }

  lemma SectionsAreNormal(id: uint16, bits: bv16, items: seq<Item>, qd: uint16, an: uint16, ns: uint16, ar: uint16)
    requires KindsOf(items) == Kinds(qd, (an + ns + ar) as int) && ItemsNormal(items)
    ensures Normal(Sections(HeaderOf(id, bits), items, qd, an, ns, ar))
  {
    HeaderOfFits(id, bits);
    SectionsItems(HeaderOf(id, bits), items, qd, an, ns, ar);
  }

  lemma HeaderOfFits(id: uint16, bits: bv16)
    ensures HeaderFits(HeaderOf(id, bits))
  {
  }

  // ---------------------------------------------------------------------------------
  // The header of a packed message
  // ---------------------------------------------------------------------------------

  lemma HeaderBytesRead(m: Message, w: bytes)
    requires CountError(m).None? && HeaderBytes(m) <= w
    ensures AsU16(w[0..2]) == m.header.id && AsU16(w[2..4]) == HeaderBits(m.header) as int
    ensures AsU16(w[4..6]) == |m.questions| && AsU16(w[6..8]) == |m.answers|
    ensures AsU16(w[8..10]) == |m.authorities| && AsU16(w[10..12]) == |m.additionals|
  {
    var h := HeaderBytes(m);
    assert w[0..2] == h[0..2] == U16(m.header.id);
    assert w[2..4] == h[2..4] == U16(HeaderBits(m.header) as int);
    assert w[4..6] == h[4..6] == U16(|m.questions|);
    assert w[6..8] == h[6..8] == U16(|m.answers|);
    assert w[8..10] == h[8..10] == U16(|m.authorities|);
    assert w[10..12] == h[10..12] == U16(|m.additionals|);
  }

  // ---------------------------------------------------------------------------------
  // Round trip
  // ---------------------------------------------------------------------------------

  /** A message that Unpack reads back after Pack wrote it without a size limit. */
  predicate Fits(m: Message, compression: bool)
    requires CountError(m).None?
  {
    && HeaderFits(m.header)
    && ItemsValid(Items(m))
    && ItemsFit(Items(m), Start(m, compression))
  }

  lemma KindsOfItems(m: Message)
    ensures KindsOf(Items(m)) == Kinds(|m.questions|, |m.answers| + |m.authorities| + |m.additionals|)
  {
  }

  lemma {:induction false} NoLimit(items: seq<Item>, size: int, prefix: nat, o: OutBuf)
    requires size <= 0
    ensures PutLimited(items, size, prefix, o) ==
      if PutItems(items, o).Ok? then Ok(Limited(PutItems(items, o).value, items)) else Err(PutItems(items, o).error)
  {
    if items != [] && PutItem(items[0], o).Ok? {
      assert items == [items[0]] + items[1..];
      NoLimit(items[1..], size, prefix, PutItem(items[0], o).value);
    }
  }

  /** Without a limit everything is packed. */
  lemma PackedUnlimited(m: Message, prefix: nat, compression: bool, size: int)
    requires size <= 0 && CountError(m).None?
    ensures var r, u := Packed(m, prefix, compression, size), PutItems(Items(m), Start(m, compression));
      if u.Ok? then r == Ok(Limited(u.value, Items(m))) else r == Err(u.error)
  {
    NoLimit(Items(m), size, prefix, Start(m, compression));
  }

  lemma SameItemsValid(items: seq<Item>, items': seq<Item>)
    requires Forgotten(items) == Forgotten(items') && ItemsNormal(items')
    ensures ItemsValid(items)
  {
    forall k | 0 <= k < |items|
      ensures ItemValid(items[k])
    {
      assert Forget(items[k]) == Forgotten(items)[k] == Forgotten(items')[k] == Forget(items'[k]);
      assert items'[k] in items';
    }
  }

  /**
   Unpack gives a packed message back, up to Length, exactly when it fits. The offset of the
   message in the buffer plays no part: pointers are relative to the message.
   */
  lemma RoundTrip(m: Message, prefix: nat, compression: bool)
    requires Packed(m, prefix, compression, 0).Ok?
    ensures var u := Unpacked(Packed(m, prefix, compression, 0).value.out.w);
      u.Ok? && SameMessage(u.value, m) <==> Fits(m, compression)
  {
    PackedUnlimited(m, prefix, compression, 0);
    var o := Start(m, compression);
    var w := PutItems(Items(m), o).value.w;
    var qd, an, ns, ar := |m.questions|, |m.answers|, |m.authorities|, |m.additionals|;
    HeaderBytesRead(m, w);
    KindsOfItems(m);
    UnpackedWith(w, qd, an, ns, ar);
    var r := ReadItems(Kinds(qd, an + ns + ar), w, HEADER_LEN);
    if r.Ok? {
      SectionsItems(HeaderOf(m.header.id, HeaderBits(m.header)), r.value.0, qd, an, ns, ar);
    }
    HeaderRoundTrip(m.header);
    hide HeaderOf, HeaderBits, Unpacked, Kinds, Sections;
    if Unpacked(w).Ok? && SameMessage(Unpacked(w).value, m) {
      UnpackedIsNormal(w);
      SameItemsValid(Items(m), Items(Unpacked(w).value));
    }
    if ItemsValid(Items(m)) {
      ItemsRoundTrip(Items(m), o, w);
    }
  }

  // ---------------------------------------------------------------------------------
  // Which messages fit
  // ---------------------------------------------------------------------------------

  /** A decoder never follows more pointers than the name has labels. */
  lemma FewLabelsFit(n: NameBuf, o: OutBuf)
    requires Inv(o) && NameNormal(n) && |ValidLabels(n)| <= MAX_POINTERS
    ensures NameFits(n, o)
  {
    PutNameKeepsInv(n, o);
  }

  /** Names of at most 254 bytes and 10 labels. */
  predicate FieldsShort(fs: seq<Field>) {
    forall f <- fs | f.N? :: NameNormal(f.name) && |ValidLabels(f.name)| <= MAX_POINTERS
  }

  predicate ItemShort(i: Item) {
    if i.Q? then FieldsShort(QuestionFields(i.q))
    else FieldsShort(HdrFields(i.r.hdr, 0)) && FieldsShort(BodyFields(i.r.body)) && BodyMatches(i.r.hdr.typ, i.r.body)
  }

  lemma {:induction false} ShortFieldsFit(fs: seq<Field>, o: OutBuf)
    requires Inv(o) && FieldsShort(fs)
    ensures FieldsFit(fs, o) && PutFields(fs, o).Ok? && Inv(PutFields(fs, o).value)
  {
    if fs != [] {
      if fs[0].N? {
        FewLabelsFit(fs[0].name, o);
        PutNameKeepsInv(fs[0].name, o);
      } else {
        AppendKeepsInv(o, fs[0].data);
      }
      ShortFieldsFit(fs[1..], PutField(fs[0], o).value);
    }
  }

  lemma {:induction false} ShortItemsFit(items: seq<Item>, o: OutBuf)
    requires Inv(o) && PutItems(items, o).Ok?
    requires forall i <- items :: ItemShort(i)
    ensures ItemsFit(items, o) && ItemsValid(items)
  {
    if items != [] {
      var i := items[0];
      assert ItemShort(i);
      if i.Q? {
        assert QuestionFields(i.q)[0] == N(i.q.name);
        ShortFieldsFit(QuestionFields(i.q), o);
      } else {
        assert HdrFields(i.r.hdr, 0)[0] == N(i.r.hdr.name);
        ShortFieldsFit(HdrFields(i.r.hdr, 0), o);
        ShortFieldsFit(BodyFields(i.r.body), PutFields(HdrFields(i.r.hdr, 0), o).value);
      }
      assert ItemValid(i);
      ItemRoundTrip(i, o, PutItem(i, o).value.w);
      ShortItemsFit(items[1..], PutItem(i, o).value);
    }
  }

  /** With or without compression, a message whose names have at most 10 labels fits, and so comes back. */
  lemma ShortNamesFit(m: Message, prefix: nat, compression: bool)
    requires Packed(m, prefix, compression, 0).Ok?
    requires HeaderFits(m.header) && forall i <- Items(m) :: ItemShort(i)
    ensures Fits(m, compression)
  {
    PackedUnlimited(m, prefix, compression, 0);
    ShortItemsFit(Items(m), Start(m, compression));
  }

  // ---------------------------------------------------------------------------------
  // Normalisation
  // ---------------------------------------------------------------------------------

  lemma {:induction false} NormalFieldsFit(fs: seq<Field>, o: OutBuf)
    requires o.targets.None? && FieldsNormal(fs)
    ensures FieldsFit(fs, o) && PutFields(fs, o).Ok?
    ensures |PutFields(fs, o).value.w| <= |o.w| + FieldsBound(fs)
  {
    if fs != [] {
      if fs[0].N? {
        PutPlainName(fs[0].name, o);
      }
      NormalFieldsFit(fs[1..], PutField(fs[0], o).value);
    }
  }

  function FieldsBound(fs: seq<Field>): nat {
    if fs == [] then 0
    else (if fs[0].N? then MAX_UNPACKED_NAME else |fs[0].data|) + FieldsBound(fs[1..])
  }

  /** Without a map a name is packed as it is. */
  lemma {:induction false} PutPlainName(n: NameBuf, o: OutBuf)
    requires o.targets.None? && ValidName(n)
    ensures PutName(n, o) == Ok(o.Append(n)) && NameHops(n, o) == 0
  {
    if n[0] == 0 {
      assert n == [0];
    } else {
      var l := 1 + n[0] as int;
      PutPlainName(n[l..], o.Append(n[..l]));
      HopsAppend(n[l..], o, n[..l]);
      assert o.w + n[..l] + n[l..] == o.w + n;
    }
  }

  lemma {:induction false} NormalItemsFit(items: seq<Item>, o: OutBuf)
    requires o.targets.None? && ItemsNormal(items)
    ensures ItemsFit(items, o) && PutItems(items, o).Ok? && ItemsValid(items)
  {
    if items != [] {
      NormalItemFits(items[0], o);
      NormalItemsFit(items[1..], PutItem(items[0], o).value);
    }
  }

  lemma {:induction false} NormalItemFits(i: Item, o: OutBuf)
    requires o.targets.None? && ItemNormal(i)
    ensures ItemFits(i, o) && PutItem(i, o).Ok? && ItemValid(i)
  {
    if i.Q? {
      NormalFieldsFit(QuestionFields(i.q), o);
    } else {
      var b := BodyFields(i.r.body);
      NormalFieldsFit(HdrFields(i.r.hdr, 0), o);
      NormalFieldsFit(b, PutFields(HdrFields(i.r.hdr, 0), o).value);
      assert FieldsBound(b) <= MAX_UINT16 by {
        BodyBound(i.r.body);
      }
      HdrLengthIrrelevant(i.r.hdr, BodyLength(i.r, o).value, o);
      NormalFieldsFit(b, PutFields(HdrFields(i.r.hdr, BodyLength(i.r, o).value), o).value);
    }
  }

  lemma BoundCons(f: Field, fs: seq<Field>)
    ensures FieldsBound([f] + fs) == FieldsBound([f]) + FieldsBound(fs)
  {
    assert ([f] + fs)[1..] == fs && [f][1..] == [];
  }

  lemma BodyBound(b: Body)
    requires b.Raw? ==> |b.data| <= MAX_UINT16
    ensures FieldsBound(BodyFields(b)) <= MAX_UINT16
  {
    var fs := BodyFields(b);
    forall f: Field
      ensures FieldsBound([f]) == if f.N? then MAX_UNPACKED_NAME else |f.data|
    {
      assert [f][1..] == [];
    }
    hide FieldsBound;
    if |fs| == 2 {
      BoundCons(fs[0], [fs[1]]);
      assert fs == [fs[0]] + [fs[1]];
    } else if |fs| == 3 {
      BoundCons(fs[1], [fs[2]]);
      BoundCons(fs[0], [fs[1]] + [fs[2]]);
      assert fs == [fs[0]] + ([fs[1]] + [fs[2]]);
    } else {
      assert fs == [fs[0]];
    }
  }

  /**
   Normalisation: any bytes that Unpack accepts give a message that packs again without
   compression or limit, and unpacks to the same message, up to Length.
   */
  lemma Normalisation(w: bytes, prefix: nat)
    requires Unpacked(w).Ok?
    ensures var m := Unpacked(w).value;
      && Packed(m, prefix, false, 0).Ok?
      && var u := Unpacked(Packed(m, prefix, false, 0).value.out.w);
      && u.Ok? && SameMessage(u.value, m)
  {
    UnpackedIsNormal(w);
    NormalRoundTrips(Unpacked(w).value, prefix);
  }

  /** Without compression exactly the normal messages come back. */
  lemma NormalRoundTrips(m: Message, prefix: nat)
    requires CountError(m).None?
    ensures Normal(m) <==>
      && Packed(m, prefix, false, 0).Ok?
      && var u := Unpacked(Packed(m, prefix, false, 0).value.out.w);
      && u.Ok? && SameMessage(u.value, m)
  {
    PackedUnlimited(m, prefix, false, 0);
    if Normal(m) {
      NormalItemsFit(Items(m), Start(m, false));
      RoundTrip(m, prefix, false);
    } else if Packed(m, prefix, false, 0).Ok? {
      var u := Unpacked(Packed(m, prefix, false, 0).value.out.w);
      if u.Ok? && SameMessage(u.value, m) {
        UnpackedIsNormal(Packed(m, prefix, false, 0).value.out.w);
        SameItemsNormal(Items(m), Items(u.value));
      }
    }
  }

  lemma SameItemsNormal(items: seq<Item>, items': seq<Item>)
    requires Forgotten(items) == Forgotten(items') && ItemsNormal(items')
    ensures ItemsNormal(items)
  {
    forall k | 0 <= k < |items|
      ensures ItemNormal(items[k])
    {
      assert Forget(items[k]) == Forgotten(items)[k] == Forgotten(items')[k] == Forget(items'[k]);
      assert items'[k] in items';
    }
  }
}
