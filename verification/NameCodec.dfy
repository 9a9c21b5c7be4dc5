/**
 Packing and unpacking names step by step (pkg/dnsmsg/name.go).
 */
module NameCodec {
  import opened Wrappers
  import opened WireBytes
  import opened NameWire
  import opened NameText
  import opened Records

  /** The map that Pack hands down and every name packed adds to. */
  class CompressionMap {
    var m: Targets

    constructor ()
      ensures m == map[]
    {
      m := map[];
    }
  }

  /** The source's nil or non-nil map stands for these targets. */
  ghost predicate Holds(c: CompressionMap?, targets: Option<Targets>)
    reads c
  {
    if c == null then targets.None? else targets == Some(c.m)
  }

  /** A pack method's answer is the spec's, appended to front; the map has grown with it. */
  ghost predicate Wrote(r: Result<bytes, Error>, c: CompressionMap?, front: bytes, spec: Result<Out, Error>)
    reads c
  {
    match spec
    case Err(e) => r == Err(e)
    case Ok(o) => r == Ok(front + o.w) && Holds(c, o.targets)
  }

  /** o with more suffixes recorded. */
  ghost function Recorded(o: Out, more: Targets, hops: map<bytes, nat>): Out {
    if o.targets.None? then o else Out(o.w, Some(o.targets.value + more), o.hops + hops)
  }

  /** The spec's answer for the whole name, given its answer for the rest of it. */
  ghost predicate Continues(whole: Result<Out, Error>, rest: Result<Out, Error>, more: Targets, hops: map<bytes, nat>) {
    match rest
    case Err(e) => whole == Err(e)
    case Ok(o) => whole == Ok(Recorded(o, more, hops))
  }

  lemma UpdateThenMerge<K, V>(a: map<K, V>, b: map<K, V>, k: K, v: V)
    requires k !in b
    ensures a[k := v] + b == a + b[k := v]
  {
  }

  lemma ContinuesStart(r: Result<Out, Error>)
    ensures Continues(r, r, map[], map[])
  {
    if r.Ok? && r.value.targets.Some? {
      assert r.value.targets.value + map[] == r.value.targets.value && r.value.hops + map[] == r.value.hops;
    }
  }

  /**
   Packing under way: rest is still to be packed after oi, and more and hops were recorded on
   the way; whole is what PutName says of the whole name.
   */
  ghost predicate Packing(whole: Result<Out, Error>, rest: NameBuf, oi: OutBuf, more: Targets, hops: map<bytes, nat>) {
    && Continues(whole, PutName(rest, oi), more, hops)
    && hops.Keys == more.Keys
    && forall s <- more :: |s| > |rest|
  }

  lemma PackingStart(n: NameBuf, o: OutBuf)
    ensures Packing(PutName(n, o), n, o, map[], map[])
  {
    hide PutName;
    ContinuesStart(PutName(n, o));
  }

  lemma MergeThenUpdate<K, V>(a: map<K, V>, b: map<K, V>, k: K, v: V)
    ensures (a + b)[k := v] == a + b[k := v]
  {
  }

  lemma RecordedLater(o: Out, more: Targets, hops: map<bytes, nat>, n: bytes, at: nat, h: nat)
    requires o.targets.Some? && n !in more && n !in hops
    ensures Recorded(Out(o.w, Some(o.targets.value[n := at]), o.hops[n := h]), more, hops)
         == Recorded(o, more[n := at], hops[n := h])
  {
    UpdateThenMerge(o.targets.value, more, n, at);
    UpdateThenMerge(o.hops, hops, n, h);
  }

  lemma PutNameLabel(n: NameBuf, o: OutBuf)
    requires n != [] && n[0] != 0 && !Known(n, o.targets)
    ensures var l := 1 + n[0] as int;
      match PutName(n[l..], o.Append(n[..l]))
      case Err(e) => PutName(n, o) == Err(e)
      case Ok(r) =>
        && r.targets.Some? == o.targets.Some?
        && PutName(n, o) == Ok(if o.targets.Some? && |o.w| < POINTER_LIMIT
                               then Out(r.w, Some(r.targets.value[n := |o.w|]), r.hops[n := NameHops(n, o)])
                               else r)
  {
  }

  lemma KeysStayLonger(more: Targets, hops: map<bytes, nat>, rest: NameBuf, l: nat, at: nat, h: nat)
    requires hops.Keys == more.Keys && (forall s <- more :: |s| > |rest|) && 0 < l <= |rest|
    ensures rest !in more && rest !in hops && forall s <- more :: |s| > |rest[l..]|
    ensures hops[rest := h].Keys == more[rest := at].Keys && forall s <- more[rest := at] :: |s| > |rest[l..]|
  {
  }

  lemma PackingStep(whole: Result<Out, Error>, rest: NameBuf, oi: OutBuf, more: Targets, hops: map<bytes, nat>)
    requires Packing(whole, rest, oi, more, hops)
    requires rest != [] && rest[0] != 0 && !Known(rest, oi.targets)
    ensures var l := 1 + rest[0] as int;
      if oi.targets.Some? && |oi.w| < POINTER_LIMIT
      then Packing(whole, rest[l..], oi.Append(rest[..l]), more[rest := |oi.w|], hops[rest := NameHops(rest, oi)])
      else Packing(whole, rest[l..], oi.Append(rest[..l]), more, hops)
  {
    hide PutName, Recorded, NameHops;
    var l := 1 + rest[0] as int;
    var r := PutName(rest[l..], oi.Append(rest[..l]));
    PutNameLabel(rest, oi);
    KeysStayLonger(more, hops, rest, l, |oi.w|, NameHops(rest, oi));
    if r.Ok? && oi.targets.Some? && |oi.w| < POINTER_LIMIT {
      RecordedLater(r.value, more, hops, rest, |oi.w|, NameHops(rest, oi));
    }
  }

  lemma AppendBehind(front: bytes, o: Out, data: bytes)
    ensures front + o.w + data == front + o.Append(data).w
  {
  }

  lemma FirstLabel(n: NameBuf, i: nat)
    requires i < |n| && Walkable(n[i..])
    ensures var l := n[i] as int;
      && n[i..][0] == n[i]
      && (l > 0 ==> i + 1 + l <= |n| && n[i..][..1 + l] == n[i..i + 1 + l] && n[i..][1 + l..] == n[i + 1 + l..])
  {
  }

  lemma PackingStops(whole: Result<Out, Error>, rest: NameBuf, oi: OutBuf, more: Targets, hops: map<bytes, nat>)
    requires Packing(whole, rest, oi, more, hops)
    ensures rest !in more
    ensures rest == [] ==> whole == Err(NameBufTooShort)
    ensures rest != [] && rest[0] == 0 ==>
      whole == if |rest| == 1 then Ok(Recorded(oi.Append([0]), more, hops)) else Err(NameBufTooLong)
    ensures rest != [] && rest[0] != 0 && Known(rest, oi.targets) ==>
      whole == Ok(Recorded(oi.Append(PointerBytes(oi.targets.value[rest])), more, hops))
  {
  }

  /** Name.pack: o stands for the message so far, which starts at off of msg. */
  method PackName(n: NameBuf, msg: bytes, compression: CompressionMap?, off: nat, ghost o: OutBuf)
    returns (r: Result<bytes, Error>)
    requires off <= |msg| && msg[off..] == o.w && Holds(compression, o.targets)
    modifies compression
    ensures Wrote(r, compression, msg[..off], PutName(n, o))
  {
    hide PutName, NameHops, Packing;
    var buf := msg;
    var i := 0;
    ghost var whole := PutName(n, o);
    ghost var rest: NameBuf, oi: OutBuf := n, o;
    ghost var more: Targets, hops: map<bytes, nat> := map[], map[];
    PackingStart(n, o);
    while i < |n|
      invariant 0 <= i <= |n| && rest == n[i..]
      invariant Packing(whole, rest, oi, more, hops)
      invariant buf == msg[..off] + oi.w && oi.targets == o.targets
      invariant if compression == null then o.targets.None? else o.targets.Some? && compression.m == o.targets.value + more
      decreases |rest|
    {
      var l: nat := n[i] as int;
      PackingStops(whole, rest, oi, more, hops);
      FirstLabel(n, i);
      if l == 0 {
        if i != |n| - 1 {
          return Err(NameBufTooLong);
        }
        AppendBehind(msg[..off], oi, [0]);
        return Ok(buf + [0]);
      }
      if compression != null {
        if n[i..] in compression.m {
          assert Known(rest, oi.targets);
          var ptr := PointerBytes(compression.m[n[i..]]);
          AppendBehind(msg[..off], oi, ptr);
          return Ok(buf + ptr);
        }
        var newPtr := |buf| - off;
        if newPtr <= POINTER_LIMIT - 1 {
          compression.m := compression.m[n[i..] := newPtr];
        }
      }
      PackingStep(whole, rest, oi, more, hops);
      if o.targets.Some? && |oi.w| < POINTER_LIMIT {
        MergeThenUpdate(o.targets.value, more, rest, |oi.w|);
        more, hops := more[rest := |oi.w|], hops[rest := NameHops(rest, oi)];
      }
      AppendBehind(msg[..off], oi, rest[..1 + l]);
      oi := oi.Append(rest[..1 + l]);
      buf := buf + n[i..i + 1 + l];
      i := i + 1 + l;
      rest := rest[1 + l..];
    }
    PackingStops(whole, rest, oi, more, hops);
    return Err(NameBufTooShort);
  }

  /** The length of a suffix decides the length of the name. */
  ghost predicate Measuring(n: NameBuf, rest: NameBuf, i: nat, targets: Option<Targets>) {
    match NameLen(rest, targets)
    case Err(e) => NameLen(n, targets) == Err(e)
    case Ok(l) => NameLen(n, targets) == Ok(i + l)
  }

  lemma MeasuringStart(n: NameBuf, targets: Option<Targets>)
    ensures Measuring(n, n, 0, targets)
  {
  }

  lemma MeasuringStep(n: NameBuf, rest: NameBuf, i: nat, targets: Option<Targets>)
    requires Measuring(n, rest, i, targets)
    ensures rest == [] ==> NameLen(n, targets) == Err(NameBufTooShort)
    ensures rest != [] && rest[0] == 0 ==> NameLen(n, targets) == if |rest| == 1 then Ok(i + 1) else Err(NameBufTooLong)
    ensures rest != [] && rest[0] != 0 && Known(rest, targets) ==> NameLen(n, targets) == Ok(i + 2)
    ensures rest != [] && rest[0] != 0 && !Known(rest, targets) ==>
      1 + rest[0] <= |rest| && Measuring(n, rest[1 + rest[0]..], i + 1 + rest[0], targets)
  {
  }

  /** Name.packLen */
  method PackNameLen(n: NameBuf, compression: CompressionMap?, ghost targets: Option<Targets>) returns (r: Result<nat, Error>)
    requires Holds(compression, targets)
    ensures r == NameLen(n, targets)
  {
    hide NameLen, Measuring;
    var i := 0;
    ghost var rest: NameBuf := n;
    MeasuringStart(n, targets);
    while i < |n|
      invariant 0 <= i <= |n| && rest == n[i..] && Measuring(n, rest, i, targets)
      decreases |n| - i
    {
      var l: nat := n[i] as int;
      MeasuringStep(n, rest, i, targets);
      FirstLabel(n, i);
      if l == 0 {
        if i != |n| - 1 {
          return Err(NameBufTooLong);
        }
        return Ok(i + 1);
      }
      if compression != null {
        if n[i..] in compression.m {
          return Ok(i + 2);
        }
      }
      i := i + 1 + l;
      rest := rest[1 + l..];
    }
    MeasuringStep(n, rest, i, targets);
    return Err(NameBufTooShort);
  }

  /** parseLabels under way: s holds the labels before rest. */
  ghost predicate ParsingLabels(b: NameBuf, rest: NameBuf, s0: seq<bytes>, s: seq<bytes>) {
    && (Terminated(b) <==> Terminated(rest))
    && (Terminated(rest) ==> s0 + Labels(b) == s + Labels(rest))
    && (NameLen(rest, None).Err? ==> NameLen(b, None) == NameLen(rest, None))
  }

  lemma ParsingStart(b: NameBuf, s: seq<bytes>)
    ensures ParsingLabels(b, b, s, s)
  {
  }

  lemma ParsingStep(b: NameBuf, rest: NameBuf, s0: seq<bytes>, s: seq<bytes>)
    requires ParsingLabels(b, rest, s0, s) && rest != [] && rest[0] != 0
    ensures var l := rest[0] as int;
      1 + l <= |rest| && ParsingLabels(b, rest[1 + l..], s0, s + [rest[1..1 + l]])
  {
  }

  lemma ParsingStops(b: NameBuf, rest: NameBuf, s0: seq<bytes>, s: seq<bytes>)
    requires ParsingLabels(b, rest, s0, s)
    ensures rest == [] ==> !Terminated(b) && NameLen(b, None) == Err(NameBufTooShort)
    ensures |rest| > 1 && rest[0] == 0 ==> !Terminated(b) && NameLen(b, None) == Err(NameBufTooLong)
    ensures rest == [0] ==> Terminated(b) && s == s0 + Labels(b)
  {
  }

  /** How decoding goes on at an offset. */
  lemma ExpandAt(w: bytes, off: nat, ptrs: nat, room: nat)
    ensures off >= |w| ==> Expand(w, off, ptrs, room) == Err(BaseLen)
    ensures off < |w| && w[off] == 0 ==> Expand(w, off, ptrs, room) == Ok([0]) && NameEnd(w, off) == off + 1
    ensures off < |w| && 0 < w[off] < 0x40 ==>
      var l := 1 + w[off] as int;
      && NameEnd(w, off) == NameEnd(w, off + l)
      && (off + l > |w| ==> Expand(w, off, ptrs, room) == Err(CalcLen))
      && (off + l <= |w| && l + 1 > room ==> Expand(w, off, ptrs, room) == Err(NameTooLong))
    ensures off < |w| && 0x40 <= w[off] < 0xC0 ==> Expand(w, off, ptrs, room) == Err(Reserved)
    ensures off < |w| && w[off] >= 0xC0 && off + 1 >= |w| ==> Expand(w, off, ptrs, room) == Err(InvalidPtr)
    ensures off + 1 < |w| && w[off] >= 0xC0 ==>
      && NameEnd(w, off) == off + 2
      && Expand(w, off, ptrs, room) ==
           if ptrs == 0 then Err(TooManyPtr) else Expand(w, PointerTarget(w, off), ptrs - 1, room)
  {
  }

  lemma SlicesFrom(text: bytes, at: nat)
    requires at < |text|
    ensures text[at..][0] == text[at] && text[at..][1..] == text[at + 1..]
    ensures at + 1 < |text| ==> text[at..][1] == text[at + 1] && text[at..][2..] == text[at + 2..]
    ensures at + 4 <= |text| ==> text[at..][1..4] == text[at + 1..at + 4] && text[at..][4..] == text[at + 4..]
  {
  }

  /** What is parsed from the byte at an index on. */
  lemma ParseFromIndex(text: bytes, at: nat, cur: bytes, b: bytes)
    requires at <= |text|
    ensures var r := ParseFrom(text[at..], at, cur, b);
      if at == |text| then
        r == if cur == [] then Ok(b + [0]) else if PutLabel(b, cur).Err? then PutLabel(b, cur) else Ok(PutLabel(b, cur).value + [0])
      else if text[at] == BACKSLASH then
        if at + 1 < |text| && (text[at + 1] == DOT || text[at + 1] == BACKSLASH)
        then r == PutChar(text[at + 1], text[at + 2..], at + 2, cur, b)
        else if |text| < at + 4 then r == Err(InvalidChar(at))
        else match ParseDDD(text[at + 1..at + 4])
          case None => r == Err(InvalidChar(at + 3))
          case Some(c) => r == PutChar(c, text[at + 4..], at + 4, cur, b)
      else if text[at] == DOT then
        r == if PutLabel(b, cur).Err? then PutLabel(b, cur) else ParseFrom(text[at + 1..], at + 1, [], PutLabel(b, cur).value)
      else r == PutChar(text[at], text[at + 1..], at + 1, cur, b)
  {
    hide ParseDDD, PutChar, PutLabel;
    if at < |text| {
      SlicesFrom(text, at);
    } else {
      assert text[at..] == [];
    }
  }

  /** A name under construction: raw data and labels. */
  class Name {
    var b: bytes
    var s: seq<bytes>

    constructor ()
      ensures b == [] && s == []
    {
      b, s := [], [];
    }

    predicate Dirty()
      reads this
    {
      |b| > 0 || |s| > 0
    }

    /** Name.parseLabels */
    method ParseLabels() returns (r: Result<(), Error>)
      requires Walkable(b)
      modifies this`s
      ensures r.Ok? <==> Terminated(b)
      ensures r.Ok? ==> s == old(s) + Labels(b)
      ensures r.Err? ==> NameLen(b, None) == Err(r.error)
    {
      hide Labels, NameLen, Terminated, ParsingLabels;
      var i := 0;
      ghost var rest: NameBuf := b;
      ParsingStart(b, s);
      while i < |b|
        invariant 0 <= i <= |b| && rest == b[i..]
        invariant ParsingLabels(b, rest, old(s), s)
        decreases |b| - i
      {
        var l := b[i] as int;
        ParsingStops(b, rest, old(s), s);
        FirstLabel(b, i);
        if l == 0 {
          if i != |b| - 1 {
            return Err(NameBufTooLong);
          }
          assert rest == [0];
          return Ok(());
        }
        ParsingStep(b, rest, old(s), s);
        s := s + [b[i + 1..i + 1 + l]];
        assert rest[1..1 + l] == b[i + 1..i + 1 + l];
        i := i + 1 + l;
        rest := rest[1 + l..];
      }
      ParsingStops(b, rest, old(s), s);
      return Err(NameBufTooShort);
    }

    /** The loop of Name.unpack. */
    method Decode(msg: bytes, off: nat) returns (r: Result<nat, Error>)
      requires b == []
      modifies this`b
      ensures match Expand(msg, off, MAX_POINTERS, MAX_UNPACKED_NAME)
        case Err(e) => r == Err(e)
        case Ok(n) => r == Ok(NameEnd(msg, off)) && b == n
    {
      hide Expand, NameEnd;
      var currOff: nat, newOff: nat := off, off;
      var ptr := 0;
      ghost var goal := Expand(msg, off, MAX_POINTERS, MAX_UNPACKED_NAME);
      assert goal.Ok? ==> [] + goal.value == goal.value;
      while true
        invariant 0 <= ptr <= MAX_POINTERS
        invariant |b| < MAX_UNPACKED_NAME
        invariant Unfinished(goal, b, Expand(msg, currOff, MAX_POINTERS - ptr, MAX_UNPACKED_NAME - |b|))
        invariant NameEnd(msg, off) == if ptr == 0 then NameEnd(msg, currOff) else newOff
        decreases MAX_POINTERS - ptr, |msg| - currOff
      {
        ExpandAt(msg, currOff, MAX_POINTERS - ptr, MAX_UNPACKED_NAME - |b|);
        if currOff >= |msg| {
          return Err(BaseLen);
        }
        var c := msg[currOff] as int;
        var at := currOff;
        currOff := currOff + 1;
        if c < 0x40 {
          b := b + [msg[at]];
          if c == 0 {
            break;
          }
          var endOff := currOff + c;
          if endOff > |msg| {
            return Err(CalcLen);
          }
          if |b| + 1 + c + 1 > 255 {
            return Err(NameTooLong);
          }
          assert b + msg[currOff..endOff] == b[..|b| - 1] + msg[at..endOff];
          UnfinishedLabel(goal, b[..|b| - 1], msg, at, MAX_POINTERS - ptr, MAX_UNPACKED_NAME - (|b| - 1));
          b := b + msg[currOff..endOff];
          currOff := endOff;
        } else if c >= 0xC0 {
          if currOff >= |msg| {
            return Err(InvalidPtr);
          }
          var c1 := msg[currOff] as int;
          currOff := currOff + 1;
          if ptr == 0 {
            newOff := currOff;
          }
          ptr := ptr + 1;
          if ptr > 10 {
            return Err(TooManyPtr);
          }
          currOff := (c - 0xC0) * 0x100 + c1;
        } else {
          return Err(Reserved);
        }
      }
      if ptr == 0 {
        newOff := currOff;
      }
      return Ok(newOff);
    }

    /** Name.unpack: the name at off of msg, and the offset after it. */
    method Unpack(msg: bytes, off: nat) returns (r: Result<nat, Error>)
      modifies this
      ensures old(Dirty()) ==> r == Err(DirtyName) && b == old(b) && s == old(s)
      ensures !old(Dirty()) ==>
        match ReadName(msg, off)
        case Err(e) => r == Err(e)
        case Ok((n, end)) => r == Ok(end) && b == n && Terminated(n) && s == Labels(n)
    {
      if |b| > 0 || |s| > 0 {
        return Err(DirtyName);
      }
      hide Labels, NameLen, Walkable, Terminated, ValidName, Expand, NameEnd;
      var end :- Decode(msg, off);
      ExpandIsValid(msg, off, MAX_POINTERS, MAX_UNPACKED_NAME);
      ValidIsTerminated(b);
      TerminatedIsWalkable(b);
      var labelled := ParseLabels();
      return Ok(end);
    }

    /** appendLabelTo */
    method AppendLabel(l: bytes) returns (r: Result<(), Error>)
      modifies this`b
      ensures match PutLabel(old(b), l)
        case Err(e) => r == Err(e) && b == old(b)
        case Ok(b') => r.Ok? && b == b'
    {
      if |l| == 0 {
        return Err(ZeroSegLen);
      }
      if |l| > 63 {
        return Err(SegTooLong);
      }
      var labelEnd := |b| + 1 + |l|;
      if labelEnd >= 255 {
        return Err(NameTooLong);
      }
      b := b + [|l|];
      b := b + l;
      return Ok(());
    }

    /** ParseName: an empty name becomes the one that text stands for. */
    method Parse(text: bytes) returns (r: Result<(), Error>)
      modifies this
      ensures old(Dirty()) ==> r == Err(DirtyName) && b == old(b) && s == old(s)
      ensures !old(Dirty()) ==>
        match Parsed(text)
        case Err(e) => r == Err(e)
        case Ok(n) => r == Ok(()) && b == n && Terminated(n) && s == Labels(n)
    {
      if |b| > 0 || |s| > 0 {
        return Err(DirtyName);
      }
      if |text| == 0 || (|text| == 1 && text[0] == DOT) {
        b := b + [0];
        return Ok(());
      }
      hide ParseFrom, ParseDDD, PutLabel, Labels, Readable, ValidName, Terminated;
      var buf := new byte[63](_ => 0);
      var p := 0;
      var i := 0;
      ghost var goal, cur := Parsed(text), [];
      assert text[0..] == text && buf[..0] == [];
      while i < |text|
        invariant 0 <= i <= |text| && 0 <= p <= 63
        invariant s == []
        invariant buf[..p] == cur && goal == ParseFrom(text[i..], i, cur, b)
        decreases |text| - i
      {
        var at := i;
        ParseFromIndex(text, at, cur, b);
        var c: byte, ok := 0, false;
        if text[i] == BACKSLASH {
          var n := i + 1;
          if n < |text| {
            var nextChar := text[n];
            if nextChar == DOT || nextChar == BACKSLASH {
              i := i + 1;
              c, ok := nextChar, true;
            } else if n + 3 <= |text| {
              i := i + 3;
              var d := DecodeDDD(text[n..n + 3]);
              if d.Some? {
                c, ok := d.value, true;
              }
            }
          }
        } else if text[i] == DOT {
          var done :- AppendLabel(buf[..p]);
          p, cur := 0, [];
          i := i + 1;
          continue;
        } else {
          c, ok := text[i], true;
        }
        if !ok {
          return Err(InvalidChar(i));
        }
        assert goal == PutChar(c, text[i + 1..], i + 1, cur, b);
        if p >= 63 {
          return Err(SegTooLong);
        }
        buf[p] := c;
        p := p + 1;
        cur := cur + [c];
        i := i + 1;
      }
      ParseFromIndex(text, i, cur, b);
      if p > 0 {
        var done :- AppendLabel(buf[..p]);
      }
      b := b + [0];
      ParsedReadsBack(text);
      TerminatedIsWalkable(b);
      var labelled := ParseLabels();
      return Ok(());
    }

    /** AppendReadableTo */
    method AppendReadableTo(dst: bytes) returns (r: bytes)
      ensures r == AppendReadable(dst, s)
    {
      hide Tail, Joined, EscapedLabel;
      r := dst;
      var i := 0;
      TailIsJoined(s, 0);
      TailEnds(s);
      assert s[0..] == s;
      while i < |s|
        invariant 0 <= i <= |s|
        invariant dst + Joined(s) == r + Tail(s, i)
      {
        ghost var start := r;
        if i > 0 {
          r := r + [DOT];
        }
        r := AppendEscapedLabel(r, s[i]);
        TailSplits(s, i, start, r);
        i := i + 1;
      }
      if |r| == 0 {
        r := r + [DOT];
      }
    }
  }

  /** What is still to be written of a readable name: label i, with a dot before it, and on. */
  ghost function Tail(ls: seq<bytes>, i: nat): bytes
    requires i <= |ls|
    decreases |ls| - i
  {
    if i == |ls| then [] else (if i > 0 then [DOT] else []) + EscapedLabel(ls[i]) + Tail(ls, i + 1)
  }

  lemma TailEnds(ls: seq<bytes>)
    ensures Tail(ls, |ls|) == []
  {
  }

  lemma {:induction false} TailIsJoined(ls: seq<bytes>, i: nat)
    requires i <= |ls|
    ensures Tail(ls, i) == (if 0 < i < |ls| then [DOT] else []) + Joined(ls[i..])
    decreases |ls| - i
  {
    if i < |ls| {
      TailIsJoined(ls, i + 1);
      assert ls[i..][1..] == ls[i + 1..];
    }
  }

  lemma TailSplits(ls: seq<bytes>, i: nat, start: bytes, r: bytes)
    requires i < |ls| && r == (if i > 0 then start + [DOT] else start) + EscapedLabel(ls[i])
    ensures start + Tail(ls, i) == r + Tail(ls, i + 1)
  {
    hide EscapedLabel, Joined;
  }

  /** parseDDD, digit by digit. */
  method DecodeDDD(b: bytes) returns (r: Option<byte>)
    requires |b| == 3
    ensures r == ParseDDD(b)
  {
    var s := 0;
    var i := 0;
    while i < |b|
      invariant 0 <= i <= 3
      invariant forall k | 0 <= k < i :: ZERO <= b[k] <= ZERO + 9
      invariant s == (if i > 0 then (b[0] - ZERO) as int else 0) * (if i == 3 then 100 else if i == 2 then 10 else 1)
        + (if i > 1 then (b[1] - ZERO) as int else 0) * (if i == 3 then 10 else 1)
        + (if i > 2 then (b[2] - ZERO) as int else 0)
    {
      var c := b[i];
      if c < 48 || c > 57 {
        return None;
      }
      s := s * 10 + (c as int - 48);
      i := i + 1;
    }
    if s > 255 {
      return None;
    }
    var v: byte := s;
    return Some(v);
  }

  /** appendEscapedLabel */
  method AppendEscapedLabel(dst: bytes, l: bytes) returns (r: bytes)
    ensures r == dst + EscapedLabel(l)
  {
    r := dst;
    var i := 0;
    assert l[0..] == l;
    while i < |l|
      invariant 0 <= i <= |l|
      invariant dst + EscapedLabel(l) == r + EscapedLabel(l[i..])
    {
      var c := l[i];
      assert l[i..][0] == c && l[i..][1..] == l[i + 1..];
      ghost var start := r;
      if Printable(c) {
        r := r + [c];
      } else if c == DOT {
        r := r + [BACKSLASH, DOT];
      } else if c == BACKSLASH {
        r := r + [BACKSLASH, BACKSLASH];
      } else {
        r := r + [BACKSLASH];
        if c < 10 {
          r := r + [ZERO, ZERO];
        } else if c < 100 {
          r := r + [ZERO];
        }
        r := r + Decimal(c);
        PaddedDigits(c, start);
      }
      EscapeSplits(l[i..], start, r);
      i := i + 1;
    }
  }

  lemma EscapeSplits(l: bytes, start: bytes, r: bytes)
    requires l != [] && r == start + EscapedByte(l[0])
    ensures start + EscapedLabel(l) == r + EscapedLabel(l[1..])
  {
  }

  lemma PaddedDigits(c: byte, start: bytes)
    requires !Printable(c) && c != DOT && c != BACKSLASH
    ensures c < 10 ==> start + [BACKSLASH] + [ZERO, ZERO] + Decimal(c) == start + EscapedByte(c)
    ensures 10 <= c < 100 ==> start + [BACKSLASH] + [ZERO] + Decimal(c) == start + EscapedByte(c)
    ensures c >= 100 ==> start + [BACKSLASH] + Decimal(c) == start + EscapedByte(c)
  {
    assert c < 10 ==> [ZERO, ZERO] + Decimal(c) == Digits(c);
    assert 10 <= c < 100 ==> [ZERO] + Decimal(c) == Digits(c);
  }

  /** strconv.AppendUint in base ten, for one byte. */
  function Decimal(b: byte): bytes {
    if b < 10 then [ZERO + b] else if b < 100 then [ZERO + b / 10, ZERO + b % 10] else Digits(b)
  }

  lemma UnfinishedLabel(whole: Result<bytes, Error>, done: bytes, w: bytes, at: nat, ptrs: nat, room: nat)
    requires at < |w| && 0 < w[at] < 0x40 && at + 1 + w[at] <= |w| && 2 + w[at] <= room
    requires Unfinished(whole, done, Expand(w, at, ptrs, room))
    ensures var l := 1 + w[at] as int;
      Unfinished(whole, done + w[at..at + l], Expand(w, at + l, ptrs, room - l))
  {
    var l := 1 + w[at] as int;
    var rest := Expand(w, at + l, ptrs, room - l);
    if rest.Ok? {
      assert done + (w[at..at + l] + rest.value) == done + w[at..at + l] + rest.value;
    }
  }

  /** The decoder's answer for the whole name: the bytes so far, then its answer for the rest. */
  predicate Unfinished(whole: Result<bytes, Error>, done: bytes, rest: Result<bytes, Error>) {
    match rest
    case Err(e) => whole == Err(e)
    case Ok(n) => whole == Ok(done + n)
  }
}
