/**
 The readable form of a name and its parser, with the escapes of section 5.1 of RFC 1035
 (pkg/dnsmsg/name.go, pkg/dnsmsg/utils.go).
 */
module NameText {
  import opened Wrappers
  import opened WireBytes
  import opened NameWire

  const DOT: byte := 46
  const BACKSLASH: byte := 92
  const ZERO: byte := 48

  /** The longest name Parse builds, final zero included. */
  const MAX_NAME := 255
  const MAX_LABEL := 63

  /** isPrintableLabelChar */
  predicate Printable(b: byte) {
    97 <= b <= 122 || 65 <= b <= 90 || 48 <= b <= 57 || b == 45
  }

  // ---------------------------------------------------------------------------------
  // Writing
  // ---------------------------------------------------------------------------------

  /** Three decimal digits. */
  function Digits(b: byte): bytes {
    [ZERO + b / 100, ZERO + b / 10 % 10, ZERO + b % 10]
  }

  function EscapedByte(b: byte): (s: bytes)
    ensures s != [] && s[0] != DOT
  {
    if Printable(b) then [b]
    else if b == DOT || b == BACKSLASH then [BACKSLASH, b]
    else [BACKSLASH] + Digits(b)
  }

  function EscapedLabel(l: bytes): (s: bytes)
    ensures l != [] ==> s != [] && s[0] != DOT
  {
    if l == [] then [] else EscapedByte(l[0]) + EscapedLabel(l[1..])
  }

  /** Labels with dots between them. */
  function Joined(ls: seq<bytes>): bytes {
    if ls == [] then []
    else if |ls| == 1 then EscapedLabel(ls[0])
    else EscapedLabel(ls[0]) + [DOT] + Joined(ls[1..])
  }

  /** AppendReadableTo: the root is a dot only where nothing stands before it. */
  function AppendReadable(dst: bytes, ls: seq<bytes>): bytes {
    if dst + Joined(ls) == [] then [DOT] else dst + Joined(ls)
  }

  function Readable(n: bytes): bytes
    requires Terminated(n)
  {
    AppendReadable([], Labels(n))
  }

  // ---------------------------------------------------------------------------------
  // Parsing
  // ---------------------------------------------------------------------------------

  /** parseDDD */
  function ParseDDD(s: bytes): (r: Option<byte>)
    requires |s| == 3
  {
    if ZERO <= s[0] <= ZERO + 9 && ZERO <= s[1] <= ZERO + 9 && ZERO <= s[2] <= ZERO + 9 then
      var v := (s[0] - ZERO) as int * 100 + (s[1] - ZERO) as int * 10 + (s[2] - ZERO) as int;
      if v > 255 then None
      else
        var c: byte := v;
        Some(c)
    else None
  }

  /** appendLabelTo */
  function PutLabel(b: bytes, l: bytes): (r: Result<bytes, Error>)
  {
    if |l| == 0 then Err(ZeroSegLen)
    else if |l| > MAX_LABEL then Err(SegTooLong)
    else if |b| + 1 + |l| >= MAX_NAME then Err(NameTooLong)
    else Ok(b + [|l|] + l)
  }

  /** One more character for the label being read. */
  function PutChar(c: byte, rest: bytes, at: nat, cur: bytes, b: bytes): (r: Result<bytes, Error>)
    decreases |rest|, 2
  {
    if |cur| >= MAX_LABEL then Err(SegTooLong) else ParseFrom(rest, at, cur + [c], b)
  }

  /**
   Parsing the rest s of a readable name, whose first byte is at offset at of the whole; cur
   is the label being read and b the wire form of the labels before it.
   */
  function ParseFrom(s: bytes, at: nat, cur: bytes, b: bytes): (r: Result<bytes, Error>)
    decreases |s|, 1
  {
    if s == [] then
      var done :- if cur == [] then Ok(b) else PutLabel(b, cur);
      Ok(done + [0])
    else if s[0] == BACKSLASH then
      if |s| > 1 && (s[1] == DOT || s[1] == BACKSLASH) then PutChar(s[1], s[2..], at + 2, cur, b)
      else if |s| < 4 then Err(InvalidChar(at))
      else if ParseDDD(s[1..4]).None? then Err(InvalidChar(at + 3))
      else PutChar(ParseDDD(s[1..4]).value, s[4..], at + 4, cur, b)
    else if s[0] == DOT then
      var b' :- PutLabel(b, cur);
      ParseFrom(s[1..], at + 1, [], b')
    else PutChar(s[0], s[1..], at + 1, cur, b)
  }

  function Parsed(s: bytes): (r: Result<bytes, Error>) {
    if s == [] || s == [DOT] then Ok([0]) else ParseFrom(s, 0, [], [])
  }

  // ---------------------------------------------------------------------------------
  // Round trips
  // ---------------------------------------------------------------------------------

  lemma DigitsParse(c: byte)
    ensures ParseDDD(Digits(c)) == Some(c) && Digits(c)[0] != DOT && Digits(c)[0] != BACKSLASH
  {
  }

  lemma EscapedByteParses(c: byte, rest: bytes, at: nat, cur: bytes, b: bytes)
    requires |cur| < MAX_LABEL
    ensures ParseFrom(EscapedByte(c) + rest, at, cur, b) == ParseFrom(rest, at + |EscapedByte(c)|, cur + [c], b)
  {
    var s := EscapedByte(c) + rest;
    assert s[|EscapedByte(c)|..] == rest;
    if !Printable(c) && c != DOT && c != BACKSLASH {
      DigitsParse(c);
      assert s[1..4] == Digits(c) && s[1] == Digits(c)[0];
    }
    hide ParseDDD, Digits;
  }

  lemma LabelSplits(e: bytes, more: bytes, rest: bytes, cur: bytes, l: bytes)
    requires l != []
    ensures e + (more + rest) == e + more + rest && cur + [l[0]] + l[1..] == cur + l
  {
  }

  lemma {:induction false} EscapedLabelParses(l: bytes, rest: bytes, at: nat, cur: bytes, b: bytes)
    requires |cur| + |l| <= MAX_LABEL
    ensures ParseFrom(EscapedLabel(l) + rest, at, cur, b)
         == ParseFrom(rest, at + |EscapedLabel(l)|, cur + l, b)
  {
    if l == [] {
      assert EscapedLabel(l) + rest == rest && cur + l == cur;
    } else {
      var e, more := EscapedByte(l[0]), EscapedLabel(l[1..]);
      assert EscapedLabel(l) == e + more;
      hide ParseFrom, EscapedByte, EscapedLabel;
      LabelSplits(e, more, rest, cur, l);
      EscapedByteParses(l[0], more + rest, at, cur, b);
      EscapedLabelParses(l[1..], rest, at + |e|, cur + [l[0]], b);
    }
  }

  lemma JoinedCons(ls: seq<bytes>)
    requires ls != []
    ensures |ls| == 1 ==> Joined(ls) == EscapedLabel(ls[0]) + []
    ensures |ls| > 1 ==> Joined(ls) == EscapedLabel(ls[0]) + ([DOT] + Joined(ls[1..])) && ([DOT] + Joined(ls[1..]))[1..] == Joined(ls[1..])
  {
    if |ls| == 1 {
      Around(EscapedLabel(ls[0]), 0, []);
    } else {
      Around(EscapedLabel(ls[0]), DOT, Joined(ls[1..]));
    }
    hide EscapedLabel, Joined;
  }

  lemma Around(s: bytes, c: byte, t: bytes)
    ensures s + [c] + t == s + ([c] + t) && ([c] + t)[1..] == t && s + [] == s
  {
  }

  lemma {:induction false} JoinedParses(ls: seq<bytes>, at: nat, b: bytes)
    requires ls != [] && forall l <- ls :: 1 <= |l| <= MAX_LABEL
    requires |b| + |FromLabels(ls)| <= MAX_NAME
    ensures ParseFrom(Joined(ls), at, [], b) == Ok(b + FromLabels(ls))
  {
    hide EscapedLabel, ParseFrom, Joined;
    JoinedCons(ls);
    var l, more := ls[0], ls[1..];
    var b' := b + [|l|] + l;
    FromLabelsSize(more);
    if more == [] {
      LabelParses(l, [], at, b);
      Regroup(b, [|l|], l, [0]);
    } else {
      LabelParses(l, [DOT] + Joined(more), at, b);
      JoinedParses(more, at + |EscapedLabel(l)| + 1, b');
      Regroup(b, [|l|], l, FromLabels(more));
    }
  }

  lemma Regroup(a: bytes, b: bytes, c: bytes, d: bytes)
    ensures a + (b + c + d) == a + b + c + d
  {
  }

  /** A whole label and what follows it: the end, or a dot. */
  lemma LabelParses(l: bytes, rest: bytes, at: nat, b: bytes)
    requires 1 <= |l| <= MAX_LABEL && |b| + 1 + |l| < MAX_NAME
    requires rest == [] || rest[0] == DOT
    ensures ParseFrom(EscapedLabel(l) + rest, at, [], b) ==
      if rest == [] then Ok(b + [|l|] + l + [0])
      else ParseFrom(rest[1..], at + |EscapedLabel(l)| + 1, [], b + [|l|] + l)
  {
    EscapedLabelParses(l, rest, at, [], b);
    assert [] + l == l;
  }

  lemma {:induction false} FromLabelsSize(ls: seq<bytes>)
    requires forall l <- ls :: 1 <= |l| <= 255
    ensures |FromLabels(ls)| >= 1 && (ls != [] ==> |FromLabels(ls)| >= 3)
  {
    if ls != [] {
      FromLabelsSize(ls[1..]);
    }
  }

  /** Every valid name of up to 255 bytes, whatever bytes its labels hold, is read back. */
  lemma ReadableParses(n: bytes)
    requires ValidName(n) && |n| <= MAX_NAME
    ensures Terminated(n) && Parsed(Readable(n)) == Ok(n)
  {
    ValidIsTerminated(n);
    LabelsRoundTrip(n);
    ValidIffShortLabels(n);
    var ls := Labels(n);
    if n[0] == 0 {
      assert Readable(n) == [DOT] && n == [0];
    } else {
      assert ls[0] in ls;
      assert Joined(ls)[0] != DOT;
      assert Readable(n) == Joined(ls);
      JoinedParses(ls, 0, []);
      assert [] + FromLabels(ls) == n;
    }
  }

  lemma AppendTail(b: bytes, x: bytes, y: bytes, k: nat)
    requires k <= |b|
    ensures (b + x + y + [0])[k..] == b[k..] + x + y + [0]
    ensures (b + [0])[k..] == b[k..] + [0]
  {
  }

  lemma {:induction false} AppendLabelValid(b: bytes, l: bytes)
    requires ValidName(b + [0]) && 1 <= |l| <= MAX_LABEL
    ensures ValidName(b + [|l|] + l + [0])
  {
    if b == [] {
      var n := b + [|l|] + l + [0];
      assert n[0] == |l| && n[1 + |l|..] == [0];
    } else {
      assert (b + [0])[0] == b[0];
      var k := 1 + b[0] as int;
      AppendTail(b, [|l|], l, k);
      AppendLabelValid(b[k..], l);
    }
  }

  lemma {:induction false} ParseFromValid(s: bytes, at: nat, cur: bytes, b: bytes)
    requires ParseFrom(s, at, cur, b).Ok?
    requires ValidName(b + [0]) && |b| < MAX_NAME && |cur| <= MAX_LABEL
    ensures var n := ParseFrom(s, at, cur, b).value; ValidName(n) && |n| <= MAX_NAME
    decreases |s|
  {
    if s == [] {
      if cur != [] {
        AppendLabelValid(b, cur);
      }
    } else if s[0] == BACKSLASH {
      if |s| > 1 && (s[1] == DOT || s[1] == BACKSLASH) {
        ParseFromValid(s[2..], at + 2, cur + [s[1]], b);
      } else {
        ParseFromValid(s[4..], at + 4, cur + [ParseDDD(s[1..4]).value], b);
      }
    } else if s[0] == DOT {
      AppendLabelValid(b, cur);
      ParseFromValid(s[1..], at + 1, [], PutLabel(b, cur).value);
    } else {
      ParseFromValid(s[1..], at + 1, cur + [s[0]], b);
    }
  }

  /** Whatever text Parse accepts gives a valid name, which its readable form gives again. */
  lemma ParsedReadsBack(s: bytes)
    requires Parsed(s).Ok?
    ensures var n := Parsed(s).value;
      ValidName(n) && |n| <= MAX_NAME && Terminated(n) && Parsed(Readable(n)) == Ok(n)
  {
    if s != [] && s != [DOT] {
      assert [] + [0] == [0];
      ParseFromValid(s, 0, [], []);
    }
    ReadableParses(Parsed(s).value);
  }
}
