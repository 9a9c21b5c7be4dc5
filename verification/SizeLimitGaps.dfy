/**
 Where the size limit of Pack does not hold: the header of a reserved OPT record is not
 reserved, and an OPT body as large as the limit switches the limit off.
 */
module SizeLimitGaps {
  import opened Wrappers
  import opened WireBytes
  import opened NameWire
  import opened Records
  import opened Messages
  import opened MessageRoundTrip
  import opened MessageLengths

  const TYPE_TXT := 16

  /** A root-named record of len data bytes. */
  function RawRecord(typ: uint16, len: nat): Resource {
    Resource(ResourceHdr([0], typ, 1, 0, 0), Raw(seq(len, _ => 0)))
  }

  /** TXT records of n bytes in all. */
  function Filling(n: nat): seq<Resource>
    requires n >= 11
  {
    if n <= 11 + MAX_UINT16 then [RawRecord(TYPE_TXT, n - 11)]
    else [RawRecord(TYPE_TXT, MAX_UINT16 - 11)] + Filling(n - MAX_UINT16)
  }

  /** What surely fits the 65535 answers that a message can have. */
  const MAX_FILLING: nat := (MAX_UINT16 - 1) * MAX_UINT16

  lemma {:induction false} FillingIsShort(n: nat)
    requires 11 <= n <= MAX_FILLING
    ensures |Filling(n)| <= 1 + n / MAX_UINT16 <= MAX_UINT16
  {
    if n > 11 + MAX_UINT16 {
      FillingIsShort(n - MAX_UINT16);
    }
  }

  lemma {:induction false} FillingPacks(n: nat, o: OutBuf)
    requires n >= 11
    ensures var r := PutItems(Rs(Filling(n)), o);
      r.Ok? && |r.value.w| == |o.w| + n && r.value.targets == o.targets
    ensures ItemsLen(Rs(Filling(n))) == Ok(n)
  {
    hide PutItem, ItemLen;
    var i := Rs(Filling(n))[0];
    RootRecordPacks(i.r, o);
    RootRecordPacks(i.r, Out([], None, map[]));
    if n <= 11 + MAX_UINT16 {
      assert Rs(Filling(n))[1..] == [];
    } else {
      FillingPacks(n - MAX_UINT16, PutItem(i, o).value);
      assert Rs(Filling(n))[1..] == Rs(Filling(n - MAX_UINT16));
    }
  }

  /** Answers of n bytes in all, and an OPT record. */
  function Filled(n: nat, opt: nat): Message
    requires n >= 11
  {
    Message(Header(0, true, 0, false, false, false, false, false, false, 0),
            [], Filling(n), [], [RawRecord(TYPE_OPT, opt)])
  }

  lemma FilledItems(n: nat, opt: nat, size: int)
    requires 11 <= n <= MAX_FILLING && size > 0
    ensures var m := Filled(n, opt);
      && CountError(m).None?
      && ReservedOpt(m, size) == Some(RawRecord(TYPE_OPT, opt)) && ReservedLen(m, size) == Ok(opt)
      && LimitedItems(m, size) == Rs(Filling(n))
  {
    FillingIsShort(n);
    var m := Filled(n, opt);
    RawBodyPacks(m.additionals[0].body, Out([], None, map[]));
    assert m.additionals[1..] == [] && WithoutOpt(m.additionals) == [];
  }

  lemma FilledPacked(n: nat, opt: nat, prefix: nat, size: int, compression: bool)
    requires 11 <= n <= MAX_FILLING && opt <= MAX_UINT16 && size > 0
    requires EffectiveSize(size) <= opt || prefix + HEADER_LEN + n + opt <= EffectiveSize(size)
    ensures var r := Packed(Filled(n, opt), prefix, compression, size);
      r.Ok? && |r.value.out.w| == HEADER_LEN + n + 11 + opt
  {
    hide PutItem, ItemLen, Filling, Rs, LastOpt, LimitedItems, BodyLen;
    FilledItems(n, opt, size);
    var o := Start(Filled(n, opt), compression);
    FillingPacks(n, o);
    RootRecordPacks(RawRecord(TYPE_OPT, opt), PutItems(Rs(Filling(n)), o).value);
    if EffectiveSize(size) <= opt {
      NoLimit(Rs(Filling(n)), EffectiveSize(size) - opt, prefix, o);
    } else {
      NothingDropped(Rs(Filling(n)), EffectiveSize(size) - opt, prefix, o);
    }
  }

  /** Whatever the limit, a message can exceed it by the eleven bytes of the OPT record's header. */
  lemma HeaderNotReserved(opt: nat, prefix: nat, size: int, compression: bool)
    requires size > 0 && opt <= MAX_UINT16
    requires 11 <= EffectiveSize(size) - prefix - HEADER_LEN - opt <= MAX_FILLING
    ensures var r := Packed(Filled(EffectiveSize(size) - prefix - HEADER_LEN - opt, opt), prefix, compression, size);
      r.Ok? && prefix + |r.value.out.w| == EffectiveSize(size) + 11
  {
    hide Packed, Filled, EffectiveSize;
    FilledPacked(EffectiveSize(size) - prefix - HEADER_LEN - opt, opt, prefix, size, compression);
  }

  /** With an OPT body as large as the limit, answers of any length come through. */
  lemma LimitSwitchedOff(n: nat, opt: nat, prefix: nat, size: int, compression: bool)
    requires 11 <= n <= MAX_FILLING && size > 0 && EffectiveSize(size) <= opt <= MAX_UINT16
    ensures var r := Packed(Filled(n, opt), prefix, compression, size);
      r.Ok? && |r.value.out.w| == n + opt + 23
  {
    hide Packed, Filled, EffectiveSize;
    FilledPacked(n, opt, prefix, size, compression);
  }
}
