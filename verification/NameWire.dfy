/**
 Domain names on the wire: what a name buffer is, what section 4.1.4 of RFC 1035 says a
 (possibly compressed) name in a message stands for, and what packing a name appends.
 The methods of module NameCodec are proved against these functions.
 */
module NameWire {
  import opened Wrappers
  import opened WireBytes

  /** The errors of package dnsmsg that this model reaches. */
  datatype Error =
    | NameBufTooShort
    | NameBufTooLong
    | DirtyName
    | BaseLen
    | CalcLen
    | Reserved
    | TooManyPtr
    | InvalidPtr
    | NameTooLong
    | SegTooLong
    | ZeroSegLen
    | InvalidChar(at: nat)
    | SmallBuffer
    | ResTooLong
    | InvalidBodyLen
    | TooManyQuestions
    | TooManyAnswers
    | TooManyAuthorities
    | TooManyAdditionals
    | PayloadOverflow

  // ---------------------------------------------------------------------------------
  // Name buffers
  // ---------------------------------------------------------------------------------

  /** Walking the labels of b never leaves b. Every buffer the package builds is one. */
  predicate Walkable(b: bytes) {
    |b| > 0 && b[0] != 0 ==> 1 + b[0] <= |b| && Walkable(b[1 + b[0]..])
  }

  /** The raw data of a Name: empty and unfinished names included. */
  type NameBuf = b: bytes | Walkable(b)

  /** A finished name: labels, then one zero byte. */
  predicate Terminated(b: bytes) {
    |b| > 0 &&
    if b[0] == 0 then |b| == 1 else 1 + b[0] <= |b| && Terminated(b[1 + b[0]..])
  }

  /** A name section 3.1 of RFC 1035 allows, but for the limit on its total length. */
  predicate ValidName(b: bytes) {
    |b| > 0 &&
    if b[0] == 0 then |b| == 1 else b[0] <= 63 && 1 + b[0] <= |b| && ValidName(b[1 + b[0]..])
  }

  /** The longest name unpack accepts, final zero included. */
  const MAX_UNPACKED_NAME := 254

  /** The most pointers unpack follows. */
  const MAX_POINTERS := 10

  /** The labels parseLabels finds. */
  function Labels(b: bytes): (ls: seq<bytes>)
    requires Terminated(b)
  {
    if b[0] == 0 then [] else [b[1..1 + b[0]]] + Labels(b[1 + b[0]..])
  }

  /** The wire form of a list of labels. */
  function FromLabels(ls: seq<bytes>): (b: bytes)
    requires forall l <- ls :: 1 <= |l| <= 255
  {
    if ls == [] then [0] else [|ls[0]|] + ls[0] + FromLabels(ls[1..])
  }

  lemma {:induction false} ValidIsTerminated(b: bytes)
    requires ValidName(b)
    ensures Terminated(b)
  {
    if b[0] != 0 {
      ValidIsTerminated(b[1 + b[0]..]);
    }
  }

  lemma {:induction false} TerminatedIsWalkable(b: bytes)
    requires Terminated(b)
    ensures Walkable(b)
  {
    if b[0] != 0 {
      TerminatedIsWalkable(b[1 + b[0]..]);
    }
  }

  lemma {:induction false} LabelSizes(b: bytes)
    requires Terminated(b)
    ensures forall l <- Labels(b) :: 1 <= |l| <= 255
  {
    if b[0] != 0 {
      LabelSizes(b[1 + b[0]..]);
    }
  }

  /** The labels give the wire form back. */
  lemma {:induction false} LabelsRoundTrip(b: bytes)
    requires Terminated(b)
    ensures forall l <- Labels(b) :: 1 <= |l| <= 255
    ensures FromLabels(Labels(b)) == b
  {
    LabelSizes(b);
    if b[0] != 0 {
      var first, rest := b[1..1 + b[0]], b[1 + b[0]..];
      LabelsRoundTrip(rest);
      assert Labels(b) == [first] + Labels(rest);
      assert b == [b[0]] + first + rest;
    }
  }

  /** A finished name is valid exactly when no label is longer than 63 bytes. */
  lemma {:induction false} ValidIffShortLabels(b: bytes)
    requires Terminated(b)
    ensures ValidName(b) <==> forall l <- Labels(b) :: |l| <= 63
  {
    if b[0] != 0 {
      var rest := b[1 + b[0]..];
      ValidIffShortLabels(rest);
      assert Labels(b) == [b[1..1 + b[0]]] + Labels(rest);
      assert Labels(b)[0] == b[1..1 + b[0]];
      assert forall l <- Labels(rest) :: l in Labels(b);
    }
  }

  lemma {:induction false} FromLabelsRoundTrip(ls: seq<bytes>)
    requires forall l <- ls :: 1 <= |l| <= 255
    ensures Terminated(FromLabels(ls)) && Labels(FromLabels(ls)) == ls
  {
    if ls != [] {
      var b := FromLabels(ls);
      FromLabelsRoundTrip(ls[1..]);
      assert b[0] == |ls[0]| && b[1..1 + b[0]] == ls[0] && b[1 + b[0]..] == FromLabels(ls[1..]);
    }
  }

  // ---------------------------------------------------------------------------------
  // The decoder of section 4.1.4 of RFC 1035
  // ---------------------------------------------------------------------------------

  /**
   The uncompressed form of the name that starts at offset off of message w, following at
   most ptrs pointers and producing at most room bytes.
   */
  function Expand(w: bytes, off: nat, ptrs: nat, room: nat): (r: Result<bytes, Error>)
    decreases ptrs, |w| - off
  {
    if off >= |w| then Err(BaseLen)
    else if w[off] == 0 then Ok([0])
    else if w[off] < 0x40 then
      var l := 1 + w[off];
      if off + l > |w| then Err(CalcLen)
      else if l + 1 > room then Err(NameTooLong)
      else
        var rest :- Expand(w, off + l, ptrs, room - l);
        Ok(w[off..off + l] + rest)
    else if w[off] < 0xC0 then Err(Reserved)
    else if off + 1 >= |w| then Err(InvalidPtr)
    else if ptrs == 0 then Err(TooManyPtr)
    else Expand(w, PointerTarget(w, off), ptrs - 1, room)
  }

  /** The 14-bit offset of the two pointer bytes at off. */
  function PointerTarget(w: bytes, off: nat): (p: nat)
    requires off + 1 < |w| && w[off] >= 0xC0
  {
    (w[off] as int - 0xC0) * 0x100 + w[off + 1]
  }

  /** Where the name at off ends in w itself: after its zero byte or its first pointer. */
  function NameEnd(w: bytes, off: nat): (end: nat)
    decreases |w| - off
  {
    if off >= |w| then off
    else if w[off] == 0 then off + 1
    else if w[off] < 0x40 then NameEnd(w, off + 1 + w[off])
    else if w[off] < 0xC0 then off
    else off + 2
  }

  lemma {:induction false} ExpandIsValid(w: bytes, off: nat, ptrs: nat, room: nat)
    requires Expand(w, off, ptrs, room).Ok?
    requires room >= 1
    ensures var n := Expand(w, off, ptrs, room).value; ValidName(n) && |n| <= room
    ensures off < NameEnd(w, off) <= |w|
    decreases ptrs, |w| - off
  {
    if w[off] == 0 {
    } else if w[off] < 0x40 {
      var l := 1 + w[off];
      ExpandIsValid(w, off + l, ptrs, room - l);
      var rest := Expand(w, off + l, ptrs, room - l).value;
      assert (w[off..off + l] + rest)[l..] == rest;
    } else {
      ExpandIsValid(w, PointerTarget(w, off), ptrs - 1, room);
    }
  }

  // ---------------------------------------------------------------------------------
  // Packing
  // ---------------------------------------------------------------------------------

  /** Suffix of a name, in wire form, to the offset where it was written. */
  type Targets = map<bytes, nat>

  /**
   A message under construction: its bytes so far, and the compression map when there is one.
   The component hops is not in the source. It records, for each suffix in the map, how many
   pointers a decoder follows from the suffix's offset; nothing is packed because of it.
   */
  datatype Out = Out(w: bytes, targets: Option<Targets>, hops: map<bytes, nat>) {

    function Append(data: bytes): (o: Out)
      ensures o.w == w + data && o.targets == targets && o.hops == hops
    {
      this.(w := w + data)
    }
  }

  /** The suffix is in the compression map. */
  predicate Known(s: bytes, targets: Option<Targets>) {
    targets.Some? && s in targets.value
  }

  /** Offsets that fit a pointer. */
  const POINTER_LIMIT := 0x4000

  /** The two bytes of a pointer: byte(ptr>>8|0xC0), byte(ptr). */
  function PointerBytes(ptr: nat): bytes
    requires ptr < POINTER_LIMIT
  {
    [0xC0 + ptr / 0x100, ptr % 0x100]
  }

  /** Every offset in the map fits a pointer. */
  predicate PointersFit(targets: Option<Targets>) {
    targets.Some? ==> forall s <- targets.value :: targets.value[s] < POINTER_LIMIT
  }

  /** A message under construction whose pointers can be written. */
  type OutBuf = o: Out | PointersFit(o.targets) witness Out([], None, map[])

  /**
   Appending the name n. A suffix that the map holds becomes a pointer; otherwise its first
   label is written, the rest follows, and the suffix is recorded at its own offset.
   */
  function PutName(n: NameBuf, o: OutBuf): (r: Result<OutBuf, Error>)
    ensures r.Ok? ==> o.w <= r.value.w && r.value.targets.Some? == o.targets.Some?
  {
    if n == [] then Err(NameBufTooShort)
    else if n[0] == 0 then
      if |n| == 1 then Ok(o.Append([0])) else Err(NameBufTooLong)
    else if Known(n, o.targets) then Ok(o.Append(PointerBytes(o.targets.value[n])))
    else
      var l := 1 + n[0] as int;
      var rest :- PutName(n[l..], o.Append(n[..l]));
      Ok(if o.targets.Some? && |o.w| < POINTER_LIMIT
         then Out(rest.w, Some(rest.targets.value[n := |o.w|]), rest.hops[n := NameHops(n, o)])
         else rest)
  }

  /** How many pointers a decoder follows when it reads n as PutName writes it. */
  function NameHops(n: NameBuf, o: Out): (h: nat)
  {
    if |n| <= 1 || n[0] == 0 then 0
    else if Known(n, o.targets) then (if n in o.hops then 1 + o.hops[n] else 1)
    else NameHops(n[1 + n[0]..], o)
  }

  /** The length packLen predicts. */
  function NameLen(n: NameBuf, targets: Option<Targets>): (r: Result<nat, Error>)
  {
    if n == [] then Err(NameBufTooShort)
    else if n[0] == 0 then (if |n| == 1 then Ok(1) else Err(NameBufTooLong))
    else if Known(n, targets) then Ok(2)
    else
      var rest :- NameLen(n[1 + n[0]..], targets);
      Ok(1 + n[0] as nat + rest)
  }
}
