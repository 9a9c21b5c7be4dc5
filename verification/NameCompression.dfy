/**
 The compression invariant: while a message is packed, every suffix in the compression map
 names an earlier offset at which the decoder of section 4.1.4 of RFC 1035 finds exactly that
 suffix, and packing a name keeps it so.
 */
module NameCompression {
  import opened Wrappers
  import opened WireBytes
  import opened NameWire

  /**
   Offset p of w stands for the name n, and a decoder follows exactly hops pointers to read it:
   it succeeds just when it may follow that many and has room for the name.
   */
  ghost predicate Spells(w: bytes, p: nat, n: bytes, hops: nat) {
    forall ptrs: nat, room: nat | room >= 1 :: SpellsWithin(w, p, n, hops, ptrs, room)
  }

  predicate SpellsWithin(w: bytes, p: nat, n: bytes, hops: nat, ptrs: nat, room: nat)
    requires room >= 1
  {
    var r := Expand(w, p, ptrs, room);
    if ptrs >= hops && |n| <= room then r == Ok(n)
    else r.Err? && r.error in {TooManyPtr, NameTooLong}
  }

  /** What the map promises about one suffix s recorded at offset p. */
  ghost predicate TargetOk(o: OutBuf, s: bytes) {
    && Known(s, o.targets) && s in o.hops
    && ValidName(s) && |s| > 1
    && o.targets.value[s] < |o.w|
    && o.hops[s] < |ValidLabels(s)|
    && Spells(o.w, o.targets.value[s], s, o.hops[s])
  }

  function ValidLabels(s: bytes): seq<bytes>
    requires ValidName(s)
  {
    ValidIsTerminated(s);
    Labels(s)
  }

  /** The compression invariant. */
  ghost predicate Inv(o: OutBuf) {
    forall s | Known(s, o.targets) :: TargetOk(o, s)
  }

  // ---------------------------------------------------------------------------------

  /** What a decoder has read it reads again after the message has grown. */
  lemma {:induction false} ExpandGrow(w: bytes, w': bytes, off: nat, ptrs: nat, room: nat)
    requires w <= w'
    requires var r := Expand(w, off, ptrs, room); r.Ok? || r.error in {TooManyPtr, NameTooLong}
    ensures Expand(w', off, ptrs, room) == Expand(w, off, ptrs, room)
    decreases ptrs, |w| - off
  {
    if w[off] == 0 {
    } else if w[off] < 0x40 {
      var l := 1 + w[off] as int;
      if l + 1 <= room {
        ExpandGrow(w, w', off + l, ptrs, room - l);
        assert w'[off..off + l] == w[off..off + l];
      }
    } else if ptrs > 0 {
      ExpandGrow(w, w', PointerTarget(w, off), ptrs - 1, room);
    }
  }

  lemma {:induction false} SpellsGrow(w: bytes, w': bytes, p: nat, n: bytes, hops: nat)
    requires w <= w' && Spells(w, p, n, hops)
    ensures Spells(w', p, n, hops)
  {
    forall ptrs: nat, room: nat | room >= 1
      ensures SpellsWithin(w', p, n, hops, ptrs, room)
    {
      assert SpellsWithin(w, p, n, hops, ptrs, room);
      ExpandGrow(w, w', p, ptrs, room);
    }
  }

  /** Appending bytes of any value keeps the invariant. */
  lemma {:induction false} AppendKeepsInv(o: OutBuf, data: bytes)
    requires Inv(o)
    ensures Inv(o.Append(data))
  {
    var o' := o.Append(data);
    forall s | Known(s, o'.targets)
      ensures TargetOk(o', s)
    {
      assert TargetOk(o, s);
      SpellsGrow(o.w, o'.w, o.targets.value[s], s, o.hops[s]);
    }
  }

  /** A label in front of a spelled name. */
  lemma {:induction false} LabelSpells(w: bytes, p: nat, n: bytes, hops: nat)
    requires ValidName(n) && |n| > 1 && n[0] != 0
    requires p + 1 + n[0] <= |w| && w[p..p + 1 + n[0]] == n[..1 + n[0]]
    requires Spells(w, p + 1 + n[0], n[1 + n[0]..], hops)
    ensures Spells(w, p, n, hops)
  {
    var l := 1 + n[0] as int;
    assert w[p] == w[p..p + l][0] == n[0];
    assert n == n[..l] + n[l..];
    assert |n[l..]| >= 1;
    forall ptrs: nat, room: nat | room >= 1
      ensures SpellsWithin(w, p, n, hops, ptrs, room)
    {
      if l + 1 <= room {
        assert SpellsWithin(w, p + l, n[l..], hops, ptrs, room - l);
      }
    }
  }

  /** A pointer to a spelled name. */
  lemma {:induction false} PointerSpells(w: bytes, p: nat, target: nat, n: bytes, hops: nat)
    requires target < POINTER_LIMIT
    requires p + 2 <= |w| && w[p..p + 2] == PointerBytes(target)
    requires Spells(w, target, n, hops)
    ensures Spells(w, p, n, hops + 1)
  {
    var more := hops + 1;
    assert w[p] == w[p..p + 2][0] && w[p + 1] == w[p..p + 2][1];
    assert PointerTarget(w, p) == target;
    forall ptrs: nat, room: nat | room >= 1
      ensures SpellsWithin(w, p, n, more, ptrs, room)
    {
      if ptrs > 0 {
        assert SpellsWithin(w, target, n, hops, ptrs - 1, room);
      }
    }
  }

  lemma {:induction false} RootSpells(w: bytes, p: nat, n: bytes, hops: nat)
    requires p < |w| && w[p] == 0 && n == [0] && hops == 0
    ensures Spells(w, p, n, hops)
  {
    assert forall ptrs: nat, room: nat | room >= 1 :: Expand(w, p, ptrs, room) == Ok([0]);
  }

  /**
   Packing a name keeps the compression invariant, and the name it wrote decodes to itself,
   following no more pointers than the name has labels.
   */
  lemma {:induction false} PutNameKeepsInv(n: NameBuf, o: OutBuf)
    requires Inv(o) && ValidName(n)
    ensures PutName(n, o).Ok?
    ensures var o' := PutName(n, o).value;
      && Inv(o')
      && Spells(o'.w, |o.w|, n, NameHops(n, o))
      && NameHops(n, o) <= |ValidLabels(n)|
      && (forall s | Known(s, o'.targets) && !Known(s, o.targets) :: |s| <= |n|)
      && (forall s | Known(s, o.targets) :: Known(s, o'.targets) && o'.targets.value[s] == o.targets.value[s])
    decreases |n|, 1
  {
    if n[0] == 0 {
      var o' := PutName(n, o).value;
      AppendKeepsInv(o, [0]);
      RootSpells(o'.w, |o.w|, n, 0);
    } else if Known(n, o.targets) {
      var o' := PutName(n, o).value;
      var target := o.targets.value[n];
      assert TargetOk(o, n);
      AppendKeepsInv(o, PointerBytes(target));
      SpellsGrow(o.w, o'.w, target, n, o.hops[n]);
      assert o'.w[|o.w|..|o.w| + 2] == PointerBytes(target);
      PointerSpells(o'.w, |o.w|, target, n, o.hops[n]);
    } else {
      PutLiteralKeepsInv(n, o);
    }
  }

  lemma {:induction false} PutLiteralKeepsInv(n: NameBuf, o: OutBuf)
    requires Inv(o) && ValidName(n) && n[0] != 0 && !Known(n, o.targets)
    ensures PutName(n, o).Ok?
    ensures var o' := PutName(n, o).value;
      && Inv(o')
      && Spells(o'.w, |o.w|, n, NameHops(n, o))
      && NameHops(n, o) < |ValidLabels(n)|
      && (forall s | Known(s, o'.targets) && !Known(s, o.targets) :: |s| <= |n|)
      && (forall s | Known(s, o.targets) :: Known(s, o'.targets) && o'.targets.value[s] == o.targets.value[s])
    decreases |n|, 0
  {
    hide Spells, TargetOk;
    var l := 1 + n[0] as int;
    var o1 := o.Append(n[..l]);
    AppendKeepsInv(o, n[..l]);
    PutNameKeepsInv(n[l..], o1);
    HopsAppend(n[l..], o, n[..l]);
    var rest := PutName(n[l..], o1).value;
    ValidIsTerminated(n);
    assert rest.w[|o.w|..|o.w| + l] == n[..l] by {
      assert o1.w <= rest.w;
      assert o1.w[|o.w|..] == n[..l];
    }
    LabelSpells(rest.w, |o.w|, n, NameHops(n, o));
    if o.targets.Some? && |o.w| < POINTER_LIMIT {
      RecordKeepsInv(rest, n, |o.w|, NameHops(n, o));
    }
  }

  /** Recording a suffix at an offset that spells it. */
  lemma {:induction false} RecordKeepsInv(o: OutBuf, n: bytes, p: nat, hops: nat)
    requires Inv(o) && o.targets.Some? && p < |o.w| && p < POINTER_LIMIT
    requires ValidName(n) && |n| > 1 && hops < |ValidLabels(n)| && Spells(o.w, p, n, hops)
    ensures Inv(Out(o.w, Some(o.targets.value[n := p]), o.hops[n := hops]))
  {
    var o': OutBuf := Out(o.w, Some(o.targets.value[n := p]), o.hops[n := hops]);
    forall s | Known(s, o'.targets)
      ensures TargetOk(o', s)
    {
      if s != n {
        assert TargetOk(o, s);
      }
    }
  }

  lemma {:induction false} HopsAppend(n: NameBuf, o: Out, data: bytes)
    ensures NameHops(n, o.Append(data)) == NameHops(n, o)
  {
    if |n| > 1 && n[0] != 0 && !Known(n, o.targets) {
      HopsAppend(n[1 + n[0]..], o, data);
    }
  }

  /** What a name begins with on the wire: the root, a pointer or its first label. */
  lemma PutNameHead(n: NameBuf, o: OutBuf)
    requires ValidName(n) && PutName(n, o).Ok?
    ensures var w := PutName(n, o).value.w;
      && |w| > |o.w|
      && (n[0] == 0 ==> w == o.w + [0])
      && (n[0] != 0 && Known(n, o.targets) ==> |w| == |o.w| + 2 && w[|o.w|] >= 0xC0)
      && (n[0] != 0 && !Known(n, o.targets) ==>
            var l := 1 + n[0] as int;
            && PutName(n[l..], o.Append(n[..l])).Ok? && PutName(n[l..], o.Append(n[..l])).value.w == w
            && o.w + n[..l] <= w && w[|o.w|] == n[0])
  {
    if n[0] != 0 && !Known(n, o.targets) {
      var l := 1 + n[0] as int;
      var o1 := o.Append(n[..l]);
      var w := PutName(n[l..], o1).value.w;
      assert o1.w <= w;
      assert w[|o.w|] == o1.w[|o.w|];
    }
  }

  /** The bytes of the name just written end where the message ended. */
  lemma {:induction false} PutNameEnd(n: NameBuf, o: OutBuf, w': bytes)
    requires ValidName(n) && PutName(n, o).Ok? && PutName(n, o).value.w <= w'
    ensures NameEnd(w', |o.w|) == |PutName(n, o).value.w|
  {
    hide PutName, Known;
    PutNameHead(n, o);
    assert w'[|o.w|] == PutName(n, o).value.w[|o.w|];
    if n[0] != 0 && !Known(n, o.targets) {
      var l := 1 + n[0] as int;
      PutNameEnd(n[l..], o.Append(n[..l]), w');
    }
  }

  // ---------------------------------------------------------------------------------
  // Predicted lengths
  // ---------------------------------------------------------------------------------

  /** packLen predicts exactly what pack appends, and both fail alike. */
  lemma {:induction false} NameLenIsExact(n: NameBuf, o: OutBuf)
    ensures match PutName(n, o)
      case Ok(o') => NameLen(n, o.targets) == Ok(|o'.w| - |o.w|)
      case Err(e) => NameLen(n, o.targets) == Err(e)
  {
    if n != [] && n[0] != 0 && !Known(n, o.targets) {
      var l := 1 + n[0] as int;
      NameLenIsExact(n[l..], o.Append(n[..l]));
    }
  }

  /** Of two maps, the first knows no suffix that the second does not. */
  ghost predicate KnowsLess(t: Option<Targets>, t': Option<Targets>) {
    forall s | Known(s, t) :: Known(s, t')
  }

  /** A map that has grown never predicts a longer name. */
  lemma {:induction false} NameLenShrinks(n: NameBuf, t: Option<Targets>, t': Option<Targets>)
    requires KnowsLess(t, t') && Terminated(n)
    ensures NameLen(n, t).Ok? && NameLen(n, t').Ok?
    ensures NameLen(n, t').value <= NameLen(n, t).value <= |n|
    ensures |n| > 1 ==> NameLen(n, t).value >= 2
    ensures t.None? ==> NameLen(n, t).value == |n|
  {
    if n[0] != 0 {
      NameLenShrinks(n[1 + n[0]..], t, t');
    }
  }

  /** Packing a name only adds to the map. */
  lemma {:induction false} PutNameGrowsMap(n: NameBuf, o: OutBuf)
    requires PutName(n, o).Ok?
    ensures KnowsLess(o.targets, PutName(n, o).value.targets)
  {
    if n != [] && n[0] != 0 && !Known(n, o.targets) {
      PutNameGrowsMap(n[1 + n[0]..], o.Append(n[..1 + n[0]]));
    }
  }
}
