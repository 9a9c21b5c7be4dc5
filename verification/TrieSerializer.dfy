/**
 Writing a matcher to bytes and reading it back (internal/domain_matcher/serialize.go,
 validSegAddr of utils.go). The compression around the body is not part of this model.
 */
module TrieSerializer {
  import opened Wrappers
  import opened WireBytes
  import opened ByteOrder
  import opened DomainTrie
  import opened CompiledTrie
  import opened TrieCompiler

  /** A compiled tree and the texts of the regular expressions beside it. */
  datatype Matcher = Matcher(ct: Arrays, re: seq<bytes>)

  /** LabelsMissing: the validation slices a label out of bytes that were announced but not there. */
  datatype SerialError =
    | UInt31Overflowed
    | UInt16Overflowed
    | UnexpectedEOF
    | InvalidPointer
    | InvalidRegexp
    | LabelsMissing

  // ---------------------------------------------------------------------------------
  // Fixed-width numbers
  // ---------------------------------------------------------------------------------

  const TWO32 := 0x1_0000_0000
  const TWO64 := 0x1_0000_0000_0000_0000

  /** uint32(v) in big-endian bytes. */
  function Put32(v: int32): (s: bytes)
    ensures |s| == 4
  {
    U32(if v < 0 then v + TWO32 else v)
  }

  /** int32 of four big-endian bytes. */
  function Get32(s: bytes): int32
    requires |s| == 4
  {
    var u := AsU32(s);
    if u > MAX_INT32 then u - TWO32 else u
  }

  /** uint64(v) in big-endian bytes. */
  function Put64(v: int64): (s: bytes)
    ensures |s| == 8
  {
    var u := if v < 0 then v + TWO64 else v;
    U32(u / TWO32) + U32(u % TWO32)
  }

  /** int64 of eight big-endian bytes. */
  function Get64(s: bytes): int64
    requires |s| == 8
  {
    var u := AsU32(s[..4]) as int * TWO32 + AsU32(s[4..]) as int;
    if u >= TWO64 / 2 then u - TWO64 else u
  }

  lemma Numbers32(v: int32)
    ensures Get32(Put32(v)) == v
  {
    U32RoundTrip(if v < 0 then v + TWO32 else v);
  }

  /** Negative data survives the unsigned encoding. */
  lemma Numbers64(v: int64)
    ensures Get64(Put64(v)) == v
  {
    var u := if v < 0 then v + TWO64 else v;
    U32RoundTrip(u / TWO32);
    U32RoundTrip(u % TWO32);
    assert Put64(v)[..4] == U32(u / TWO32) && Put64(v)[4..] == U32(u % TWO32);
  }

  lemma Bytes32(s: bytes)
    requires |s| == 4
    ensures Put32(Get32(s)) == s
  {
    U32Injective(s);
  }

  lemma Bytes64(s: bytes)
    requires |s| == 8
    ensures Put64(Get64(s)) == s
  {
    U32Injective(s[..4]);
    U32Injective(s[4..]);
    assert s == s[..4] + s[4..];
  }

  // ---------------------------------------------------------------------------------
  // Segment validation
  // ---------------------------------------------------------------------------------

  /** int32 addition wraps around. */
  function Add32(a: int32, b: int32): int32 {
    if a + b > MAX_INT32 then a + b - TWO32 else if a + b < -MAX_INT32 - 1 then a + b + TWO32 else a + b
  }

  /** validSegAddr */
  predicate ValidSegAddr(sa: SegAddr, targetLen: int32) {
    var end := Add32(sa.off, sa.l);
    !(sa.off < 0 || sa.off > targetLen || sa.l < 0 || end < 0 || end > targetLen)
  }

  /** Despite the wrap-around, exactly the segments inside the target pass. */
  lemma ValidSegAddrIsWithin(sa: SegAddr, targetLen: int32)
    requires targetLen >= 0
    ensures ValidSegAddr(sa, targetLen) <==> Within(sa, targetLen)
  {
  }

  // ---------------------------------------------------------------------------------
  // The format
  // ---------------------------------------------------------------------------------

  function PutNode(n: CompiledNode): (s: bytes)
    ensures |s| == 17
  {
    Put32(n.childIdxSeg.off) + Put32(n.childIdxSeg.l) + Put64(n.dataOff) + [n.stat]
  }

  function GetNode(s: bytes): CompiledNode
    requires |s| == 17
  {
    CompiledNode(SegAddr(Get32(s[0..4]), Get32(s[4..8])), Get64(s[8..16]), s[16])
  }

  function PutIdx(x: IdxNode): (s: bytes)
    ensures |s| == 12
  {
    Put32(x.labelSeg.off) + Put32(x.labelSeg.l) + Put32(x.childIdx)
  }

  function GetIdx(s: bytes): IdxNode
    requires |s| == 12
  {
    IdxNode(SegAddr(Get32(s[0..4]), Get32(s[4..8])), Get32(s[8..12]))
  }

  lemma NodeRoundTrip(n: CompiledNode)
    ensures GetNode(PutNode(n)) == n
  {
    var s := PutNode(n);
    assert s[0..4] == Put32(n.childIdxSeg.off) && s[4..8] == Put32(n.childIdxSeg.l);
    assert s[8..16] == Put64(n.dataOff) && s[16] == n.stat;
    Numbers32(n.childIdxSeg.off);
    Numbers32(n.childIdxSeg.l);
    Numbers64(n.dataOff);
  }

  lemma NodeBytes(s: bytes)
    requires |s| == 17
    ensures PutNode(GetNode(s)) == s
  {
    Bytes32(s[0..4]);
    Bytes32(s[4..8]);
    Bytes64(s[8..16]);
    assert s == s[0..4] + s[4..8] + s[8..16] + [s[16]];
  }

  lemma IdxRoundTrip(x: IdxNode)
    ensures GetIdx(PutIdx(x)) == x
  {
    var s := PutIdx(x);
    assert s[0..4] == Put32(x.labelSeg.off) && s[4..8] == Put32(x.labelSeg.l) && s[8..12] == Put32(x.childIdx);
    Numbers32(x.labelSeg.off);
    Numbers32(x.labelSeg.l);
    Numbers32(x.childIdx);
  }

  lemma IdxBytes(s: bytes)
    requires |s| == 12
    ensures PutIdx(GetIdx(s)) == s
  {
    Bytes32(s[0..4]);
    Bytes32(s[4..8]);
    Bytes32(s[8..12]);
    assert s == s[0..4] + s[4..8] + s[8..12];
  }

  function PutNodes(ns: seq<CompiledNode>): bytes {
    if ns == [] then [] else PutNode(ns[0]) + PutNodes(ns[1..])
  }

  function PutIdxs(xs: seq<IdxNode>): bytes {
    if xs == [] then [] else PutIdx(xs[0]) + PutIdxs(xs[1..])
  }

  function PutRegexps(re: seq<bytes>): (r: Result<bytes, SerialError>) {
    if re == [] then Ok([])
    else if |re[0]| >= 0x1_0000 then Err(UInt16Overflowed)
    else
      var rest :- PutRegexps(re[1..]);
      Ok(U16(|re[0]|) + re[0] + rest)
  }

  /** writeUint31 */
  function Put31(n: nat): (r: Result<bytes, SerialError>)
    ensures r.Ok? ==> |r.value| == 4
  {
    if n > MAX_INT32 then Err(UInt31Overflowed) else Ok(Put32(n))
  }

  /** The file of a matcher that announces n bytes of labels. */
  function File(m: Matcher, n: nat): (r: Result<bytes, SerialError>) {
    var a :- Put31(|m.ct.nodes|);
    var b :- Put31(|m.ct.idxNodes|);
    var c :- Put31(n);
    var d :- Put31(|m.re|);
    var re :- PutRegexps(m.re);
    Ok(a + b + c + d + PutNodes(m.ct.nodes) + PutIdxs(m.ct.idxNodes) + m.ct.labels + re)
  }

  /** serializeBody */
  function Serialized(m: Matcher): (r: Result<bytes, SerialError>) {
    File(m, |m.ct.labels|)
  }

  /** What is read, and what is left of the stream. */
  type Read<T> = Result<(T, bytes), SerialError>

  /** io.ReadFull */
  function TakeBytes(s: bytes, n: nat): (r: Read<bytes>)
    ensures r.Ok? ==> |r.value.0| == n && s == r.value.0 + r.value.1
    ensures r.Ok? <==> n <= |s|
  {
    if |s| < n then Err(UnexpectedEOF) else Ok((s[..n], s[n..]))
  }

  /** io.ReadAll of an io.LimitReader: the end of the input is no error. */
  function TakeUpTo(s: bytes, n: nat): (r: (bytes, bytes))
    ensures s == r.0 + r.1 && |r.0| <= n && (|r.0| < n ==> r.1 == [])
  {
    if |s| < n then (s, []) else (s[..n], s[n..])
  }

  /** readUint31 */
  function Get31(s: bytes): (r: Read<nat>)
    ensures r.Ok? ==> r.value.0 <= MAX_INT32
  {
    var (b, rest) :- TakeBytes(s, 4);
    if Get32(b) < 0 then Err(UInt31Overflowed) else Ok((Get32(b), rest))
  }

  function GetNodes(s: bytes, n: nat): (r: Read<seq<CompiledNode>>)
    ensures r.Ok? ==> |r.value.0| == n
  {
    if n == 0 then Ok(([], s))
    else
      var (b, s1) :- TakeBytes(s, 17);
      var (ns, rest) :- GetNodes(s1, n - 1);
      Ok(([GetNode(b)] + ns, rest))
  }

  function GetIdxs(s: bytes, n: nat): (r: Read<seq<IdxNode>>)
    ensures r.Ok? ==> |r.value.0| == n
  {
    if n == 0 then Ok(([], s))
    else
      var (b, s1) :- TakeBytes(s, 12);
      var (xs, rest) :- GetIdxs(s1, n - 1);
      Ok(([GetIdx(b)] + xs, rest))
  }

  /** readRegexp: compiles stands for regexp.Compile. */
  function GetRegexp(s: bytes, compiles: bytes -> bool): (r: Read<bytes>) {
    var (b, s1) :- TakeBytes(s, 2);
    var (expr, rest) :- TakeBytes(s1, AsU16(b));
    if compiles(expr) then Ok((expr, rest)) else Err(InvalidRegexp)
  }

  function GetRegexps(s: bytes, n: nat, compiles: bytes -> bool): (r: Read<seq<bytes>>)
    ensures r.Ok? ==> |r.value.0| == n
  {
    if n == 0 then Ok(([], s))
    else
      var (expr, s1) :- GetRegexp(s, compiles);
      var (re, rest) :- GetRegexps(s1, n - 1, compiles);
      Ok(([expr] + re, rest))
  }

  // Pointer validation: n bytes of labels were announced, and perhaps not all of them were there.

  datatype Verdict = Valid | Invalid | Missing

  function CheckEntry(a: Arrays, n: nat, xs: seq<IdxNode>, j: nat): Verdict
    requires j < |xs|
  {
    if !(0 <= xs[j].childIdx < |a.nodes|) || !Within(xs[j].labelSeg, n) then Invalid
    else if j == 0 then Valid
    else if !Within(xs[j - 1].labelSeg, |a.labels|) || !Within(xs[j].labelSeg, |a.labels|) then Missing
    else if Less(LabelOf(xs[j - 1], a.labels), LabelOf(xs[j], a.labels)) then Valid else Invalid
  }

  /** The first objection decides. */
  function CheckEntries(a: Arrays, n: nat, xs: seq<IdxNode>, j: nat): Verdict
    requires j <= |xs|
    decreases |xs| - j
  {
    if j == |xs| then Valid
    else if CheckEntry(a, n, xs, j) != Valid then CheckEntry(a, n, xs, j)
    else CheckEntries(a, n, xs, j + 1)
  }

  function CheckNode(a: Arrays, n: nat, i: nat): Verdict
    requires i < |a.nodes|
  {
    if !Within(a.nodes[i].childIdxSeg, |a.idxNodes|) then Invalid
    else CheckEntries(a, n, Seg(a.idxNodes, a.nodes[i].childIdxSeg), 0)
  }

  function CheckNodes(a: Arrays, n: nat, i: nat): Verdict
    requires i <= |a.nodes|
    decreases |a.nodes| - i
  {
    if i == |a.nodes| then Valid
    else if CheckNode(a, n, i) != Valid then CheckNode(a, n, i)
    else CheckNodes(a, n, i + 1)
  }

  /** deserializeBody */
  function Deserialized(s: bytes, compiles: bytes -> bool): (r: Result<Matcher, SerialError>) {
    var (nodeLength, s1) :- Get31(s);
    var (idxLength, s2) :- Get31(s1);
    var (labelLength, s3) :- Get31(s2);
    var (regexpLength, s4) :- Get31(s3);
    var (nodes, s5) :- GetNodes(s4, nodeLength);
    var (idxNodes, s6) :- GetIdxs(s5, idxLength);
    var (labels, s7) := TakeUpTo(s6, labelLength);
    var a := Arrays(nodes, idxNodes, labels);
    match CheckNodes(a, labelLength, 0)
    case Invalid => Err(InvalidPointer)
    case Missing => Err(LabelsMissing)
    case Valid =>
      var (re, _) :- GetRegexps(s7, regexpLength, compiles);
      Ok(Matcher(a, re))
  }

  // ---------------------------------------------------------------------------------
  // What the validation decides
  // ---------------------------------------------------------------------------------

  /** Adjacent labels in ascending order are all in ascending order. */
  lemma {:induction false} AdjacentAscending(xs: seq<IdxNode>, labels: bytes, j: nat, k: nat)
    requires forall x <- xs :: Within(x.labelSeg, |labels|)
    requires forall i | 0 < i < |xs| :: Less(LabelOf(xs[i - 1], labels), LabelOf(xs[i], labels))
    requires j < k < |xs|
    ensures Less(LabelOf(xs[j], labels), LabelOf(xs[k], labels))
    decreases k
  {
    if j + 1 < k {
      AdjacentAscending(xs, labels, j, k - 1);
      LessTrans(LabelOf(xs[j], labels), LabelOf(xs[k - 1], labels), LabelOf(xs[k], labels));
    }
  }

  predicate EntriesSafe(a: Arrays, xs: seq<IdxNode>) {
    Ascending(xs, a.labels) && forall x <- xs :: 0 <= x.childIdx < |a.nodes|
  }

  /** The labels of these entries were all read. */
  predicate EntriesRead(a: Arrays, xs: seq<IdxNode>) {
    forall x <- xs :: Within(x.labelSeg, |a.labels|)
  }

  lemma EntryIsThere(a: Arrays, xs: seq<IdxNode>, j: nat)
    requires j < |xs| && (j > 0 ==> CheckEntry(a, |a.labels|, xs, j - 1) == Valid)
    ensures CheckEntry(a, |a.labels|, xs, j) != Missing
  {
  }

  lemma {:induction false} EntriesDecided(a: Arrays, n: nat, xs: seq<IdxNode>, j: nat)
    requires |a.labels| <= n && j <= |xs|
    ensures CheckEntries(a, n, xs, j) == Valid <==> forall k | j <= k < |xs| :: CheckEntry(a, n, xs, k) == Valid
    ensures |a.labels| == n && (forall k | 0 <= k < j :: CheckEntry(a, n, xs, k) == Valid) ==>
      CheckEntries(a, n, xs, j) != Missing
    decreases |xs| - j
  {
    if j < |xs| {
      if |a.labels| == n && (j > 0 ==> CheckEntry(a, n, xs, j - 1) == Valid) {
        EntryIsThere(a, xs, j);
      }
      hide CheckEntry;
      EntriesDecided(a, n, xs, j + 1);
    }
  }

  lemma ValidEntriesAreSafe(a: Arrays, n: nat, xs: seq<IdxNode>)
    requires |a.labels| <= n && EntriesRead(a, xs) && forall k | 0 <= k < |xs| :: CheckEntry(a, n, xs, k) == Valid
    ensures EntriesSafe(a, xs)
  {
    forall i | 0 < i < |xs|
      ensures Less(LabelOf(xs[i - 1], a.labels), LabelOf(xs[i], a.labels))
    {
      assert xs[i - 1] in xs && xs[i] in xs && CheckEntry(a, n, xs, i) == Valid;
    }
    forall j, k | 0 <= j < k < |xs|
      ensures Less(LabelOf(xs[j], a.labels), LabelOf(xs[k], a.labels))
    {
      AdjacentAscending(xs, a.labels, j, k);
    }
    forall x | x in xs
      ensures 0 <= x.childIdx < |a.nodes|
    {
      var k :| 0 <= k < |xs| && xs[k] == x;
      assert CheckEntry(a, n, xs, k) == Valid;
    }
  }

  lemma SafeEntriesAreValid(a: Arrays, n: nat, xs: seq<IdxNode>, k: nat)
    requires |a.labels| <= n && EntriesSafe(a, xs) && k < |xs|
    ensures CheckEntry(a, n, xs, k) == Valid
  {
    assert xs[k] in xs && (k > 0 ==> xs[k - 1] in xs);
  }

  lemma ValidEntriesAreRead(a: Arrays, xs: seq<IdxNode>)
    requires forall k | 0 <= k < |xs| :: CheckEntry(a, |a.labels|, xs, k) == Valid
    ensures EntriesRead(a, xs)
  {
    forall x | x in xs
      ensures Within(x.labelSeg, |a.labels|)
    {
      var k :| 0 <= k < |xs| && xs[k] == x;
      assert CheckEntry(a, |a.labels|, xs, k) == Valid;
    }
  }

  predicate NodeRead(a: Arrays, i: nat)
    requires i < |a.nodes|
  {
    Within(a.nodes[i].childIdxSeg, |a.idxNodes|) ==> EntriesRead(a, Seg(a.idxNodes, a.nodes[i].childIdxSeg))
  }

  /** No label of any node is missing. */
  predicate LabelsRead(a: Arrays) {
    forall i | 0 <= i < |a.nodes| :: NodeRead(a, i)
  }

  /** A node that passes can be searched exactly when its labels were read; if all were, no other passes. */
  lemma NodeDecided(a: Arrays, n: nat, i: nat)
    requires |a.labels| <= n && i < |a.nodes|
    ensures NodeSafe(a, i) <==> CheckNode(a, n, i) == Valid && NodeRead(a, i)
    ensures |a.labels| == n ==> CheckNode(a, n, i) == if NodeSafe(a, i) then Valid else Invalid
  {
    if Within(a.nodes[i].childIdxSeg, |a.idxNodes|) {
      var xs := Seg(a.idxNodes, a.nodes[i].childIdxSeg);
      EntriesDecided(a, n, xs, 0);
      assert NodeSafe(a, i) <==> EntriesSafe(a, xs);
      if EntriesSafe(a, xs) {
        forall k | 0 <= k < |xs|
          ensures CheckEntry(a, n, xs, k) == Valid
        {
          SafeEntriesAreValid(a, n, xs, k);
        }
      } else if CheckEntries(a, n, xs, 0) == Valid {
        if EntriesRead(a, xs) {
          ValidEntriesAreSafe(a, n, xs);
        } else if |a.labels| == n {
          ValidEntriesAreRead(a, xs);
        }
      }
    }
  }

  lemma {:induction false} NodesDecided(a: Arrays, n: nat, i: nat)
    requires |a.labels| <= n && i <= |a.nodes|
    ensures (forall k | i <= k < |a.nodes| :: NodeSafe(a, k)) <==>
      CheckNodes(a, n, i) == Valid && forall k | i <= k < |a.nodes| :: NodeRead(a, k)
    ensures |a.labels| == n ==>
      CheckNodes(a, n, i) == if forall k | i <= k < |a.nodes| :: NodeSafe(a, k) then Valid else Invalid
    decreases |a.nodes| - i
  {
    if i < |a.nodes| {
      NodeDecided(a, n, i);
      hide CheckNode, NodeSafe, NodeRead;
      NodesDecided(a, n, i + 1);
    }
  }

  /**
   An index that passes is safe to search exactly when no label of it is missing. When all that
   was announced is there, exactly the safe ones pass.
   */
  lemma ValidationDecides(a: Arrays, n: nat)
    requires |a.labels| <= n
    ensures Safe(a) <==> CheckNodes(a, n, 0) == Valid && LabelsRead(a)
    ensures |a.labels| == n ==> CheckNodes(a, n, 0) == if Safe(a) then Valid else Invalid
  {
    NodesDecided(a, n, 0);
  }

  // ---------------------------------------------------------------------------------
  // Round trip
  // ---------------------------------------------------------------------------------

  lemma TakeFront(a: bytes, rest: bytes)
    ensures TakeBytes(a + rest, |a|) == Ok((a, rest))
  {
  }

  lemma {:induction false} NodesRoundTrip(ns: seq<CompiledNode>, rest: bytes)
    ensures GetNodes(PutNodes(ns) + rest, |ns|) == Ok((ns, rest))
  {
    hide PutNode, GetNode;
    if ns == [] {
      assert PutNodes(ns) + rest == rest;
    } else {
      var tail := PutNodes(ns[1..]) + rest;
      assert PutNodes(ns) + rest == PutNode(ns[0]) + tail;
      TakeFront(PutNode(ns[0]), tail);
      NodeRoundTrip(ns[0]);
      NodesRoundTrip(ns[1..], rest);
      assert ns == [ns[0]] + ns[1..];
    }
  }

  lemma {:induction false} IdxsRoundTrip(xs: seq<IdxNode>, rest: bytes)
    ensures GetIdxs(PutIdxs(xs) + rest, |xs|) == Ok((xs, rest))
  {
    if xs == [] {
      assert PutIdxs(xs) + rest == rest;
    } else {
      var tail := PutIdxs(xs[1..]) + rest;
      assert PutIdxs(xs) + rest == PutIdx(xs[0]) + tail;
      TakeFront(PutIdx(xs[0]), tail);
      IdxRoundTrip(xs[0]);
      IdxsRoundTrip(xs[1..], rest);
      assert xs == [xs[0]] + xs[1..];
    }
  }

  lemma RegexpRoundTrip(e: bytes, rest: bytes, compiles: bytes -> bool)
    requires |e| < 0x1_0000 && compiles(e)
    ensures GetRegexp(U16(|e|) + e + rest, compiles) == Ok((e, rest))
  {
    assert U16(|e|) + e + rest == U16(|e|) + (e + rest);
    TakeFront(U16(|e|), e + rest);
    TakeFront(e, rest);
    U16RoundTrip(|e|);
  }

  lemma {:induction false} RegexpsRoundTrip(re: seq<bytes>, compiles: bytes -> bool)
    requires PutRegexps(re).Ok? && forall e <- re :: compiles(e)
    ensures GetRegexps(PutRegexps(re).value, |re|, compiles) == Ok((re, []))
  {
    hide GetRegexp;
    if re != [] {
      assert re[0] in re && forall x <- re[1..] :: x in re;
      RegexpRoundTrip(re[0], PutRegexps(re[1..]).value, compiles);
      RegexpsRoundTrip(re[1..], compiles);
      assert re == [re[0]] + re[1..];
    }
  }

  lemma LengthRoundTrip(n: nat, rest: bytes)
    requires Put31(n).Ok?
    ensures Get31(Put31(n).value + rest) == Ok((n, rest))
  {
    TakeFront(Put31(n).value, rest);
    Numbers32(n);
  }

  lemma TakeUpToFront(a: bytes, rest: bytes, n: nat)
    requires |a| == n || (|a| < n && rest == [])
    ensures TakeUpTo(a + rest, n) == (a, rest)
  {
    assert rest == [] ==> a + rest == a;
  }

  /** What is read from the file of a matcher, though it may end before the labels do. */
  lemma FileRoundTrip(m: Matcher, n: nat, compiles: bytes -> bool)
    requires File(m, n).Ok? && forall e <- m.re :: compiles(e)
    requires |m.ct.labels| == n || (|m.ct.labels| < n && m.re == [])
    ensures Deserialized(File(m, n).value, compiles) ==
      match CheckNodes(m.ct, n, 0)
      case Valid => Ok(m)
      case Invalid => Err(InvalidPointer)
      case Missing => Err(LabelsMissing)
  {
    assert m.re == [] ==> PutRegexps(m.re) == Ok([]);
    hide Put31, PutNodes, PutIdxs, PutRegexps, Get31, GetNodes, GetIdxs, GetRegexps, TakeUpTo, CheckNodes;
    var a, b, c, d := Put31(|m.ct.nodes|).value, Put31(|m.ct.idxNodes|).value, Put31(n).value, Put31(|m.re|).value;
    var re := PutRegexps(m.re).value;
    var s7 := re;
    var s6 := m.ct.labels + s7;
    var s5 := PutIdxs(m.ct.idxNodes) + s6;
    var s4 := PutNodes(m.ct.nodes) + s5;
    var s := File(m, n).value;
    assert s == a + (b + (c + (d + s4)));
    LengthRoundTrip(|m.ct.nodes|, b + (c + (d + s4)));
    LengthRoundTrip(|m.ct.idxNodes|, c + (d + s4));
    LengthRoundTrip(n, d + s4);
    LengthRoundTrip(|m.re|, s4);
    NodesRoundTrip(m.ct.nodes, s5);
    IdxsRoundTrip(m.ct.idxNodes, s6);
    TakeUpToFront(m.ct.labels, s7, n);
    RegexpsRoundTrip(m.re, compiles);
  }

  /**
   A matcher that was written is read back equal, exactly when its tree can be searched safely.
   */
  lemma SerializationRoundTrip(m: Matcher, compiles: bytes -> bool)
    requires Serialized(m).Ok? && forall e <- m.re :: compiles(e)
    ensures Deserialized(Serialized(m).value, compiles) == if Safe(m.ct) then Ok(m) else Err(InvalidPointer)
  {
    FileRoundTrip(m, |m.ct.labels|, compiles);
    ValidationDecides(m.ct, |m.ct.labels|);
  }

  /** A compiled set of rules still answers as the rules do after a trip through the file. */
  lemma CompiledSurvives(a: Arrays, ns: seq<Node>, rules: Rules, re: seq<bytes>, compiles: bytes -> bool, labels: seq<bytes>)
    requires Closed(ns) && |ns| > 0 && HoldsRules(ns, rules) && CompiledFrom(a, ns)
    requires |re| <= MAX_INT32 && forall e <- re :: |e| <= 0xFFFF && compiles(e)
    ensures Serialized(Matcher(a, re)).Ok?
    ensures Deserialized(Serialized(Matcher(a, re)).value, compiles) == Ok(Matcher(a, re))
    ensures MatchTrie(Decompiled(a), Reversed(labels)) == MatchRules(rules, Reversed(labels))
  {
    ShortRegexpsPut(re);
    SerializationRoundTrip(Matcher(a, re), compiles);
    CompiledAnswersRules(a, ns, rules, labels);
  }

  lemma {:induction false} ShortRegexpsPut(re: seq<bytes>)
    requires forall e <- re :: |e| <= 0xFFFF
    ensures PutRegexps(re).Ok?
  {
    if re != [] {
      assert re[0] in re && forall x <- re[1..] :: x in re;
      ShortRegexpsPut(re[1..]);
    }
  }

  lemma {:induction false} NodesBytes(s: bytes, n: nat)
    requires GetNodes(s, n).Ok?
    ensures var (ns, rest) := GetNodes(s, n).value; s == PutNodes(ns) + rest
  {
    hide PutNode, GetNode;
    if n > 0 {
      var (b, s1) := TakeBytes(s, 17).value;
      NodeBytes(b);
      NodesBytes(s1, n - 1);
    }
  }

  lemma {:induction false} IdxsBytes(s: bytes, n: nat)
    requires GetIdxs(s, n).Ok?
    ensures var (xs, rest) := GetIdxs(s, n).value; s == PutIdxs(xs) + rest
  {
    hide PutIdx, GetIdx;
    if n > 0 {
      var (b, s1) := TakeBytes(s, 12).value;
      IdxBytes(b);
      IdxsBytes(s1, n - 1);
    }
  }

  lemma RegexpBytes(s: bytes, compiles: bytes -> bool)
    requires GetRegexp(s, compiles).Ok?
    ensures var (e, rest) := GetRegexp(s, compiles).value; |e| <= 0xFFFF && s == U16(|e|) + e + rest
  {
    U16Injective(TakeBytes(s, 2).value.0);
  }

  lemma Joined3(a: bytes, b: bytes, c: bytes)
    ensures a + (b + c) == a + b + c
  {
  }

  lemma {:induction false} RegexpsBytes(s: bytes, n: nat, compiles: bytes -> bool)
    requires GetRegexps(s, n, compiles).Ok?
    ensures var (re, rest) := GetRegexps(s, n, compiles).value;
      PutRegexps(re).Ok? && s == PutRegexps(re).value + rest
    decreases n
  {
    hide GetRegexp, U16;
    if n > 0 {
      var (expr, s1) := GetRegexp(s, compiles).value;
      RegexpBytes(s, compiles);
      RegexpsBytes(s1, n - 1, compiles);
      var (re, rest) := GetRegexps(s1, n - 1, compiles).value;
      assert ([expr] + re)[1..] == re;
      assert PutRegexps([expr] + re).value == U16(|expr|) + expr + PutRegexps(re).value;
      Joined3(U16(|expr|) + expr, PutRegexps(re).value, rest);
    }
  }

  lemma LengthBytes(s: bytes)
    requires Get31(s).Ok?
    ensures var (n, rest) := Get31(s).value; Put31(n).Ok? && s == Put31(n).value + rest
  {
    Bytes32(TakeBytes(s, 4).value.0);
  }

  /** The number of label bytes that a file announces. */
  function Announced(s: bytes): int32
    requires |s| >= 12
  {
    Get32(s[8..12])
  }

  lemma AnnouncedIsRead(s: bytes)
    requires Get31(s).Ok? && Get31(Get31(s).value.1).Ok? && Get31(Get31(Get31(s).value.1).value.1).Ok?
    ensures |s| >= 12 && Announced(s) == Get31(Get31(Get31(s).value.1).value.1).value.0
  {
    assert s[4..][4..] == s[8..] && s[8..][..4] == s[8..12];
  }

  lemma Assembled(a: bytes, b: bytes, c: bytes, d: bytes, nodes: bytes, idxs: bytes, labels: bytes, re: bytes, rest: bytes)
    ensures a + (b + (c + (d + (nodes + (idxs + (labels + (re + rest))))))) == a + b + c + d + nodes + idxs + labels + re + rest
  {
  }

  /**
   An accepted file is the one that would be written for its matcher, up to trailing bytes; or it
   ends within its labels, and there are no regular expressions.
   */
  lemma AcceptedIsCanonical(s: bytes, compiles: bytes -> bool)
    ensures match Deserialized(s, compiles)
      case Err(_) => true
      case Ok(m) =>
        && |s| >= 12 && |m.ct.labels| <= Announced(s)
        && File(m, Announced(s)).Ok? && File(m, Announced(s)).value <= s
        && (|m.ct.labels| < Announced(s) ==> m.re == [] && s == File(m, Announced(s)).value)
  {
    if Deserialized(s, compiles).Ok? {
      AcceptedBytes(s, compiles);
    }
  }

  lemma AcceptedBytes(s: bytes, compiles: bytes -> bool)
    requires Deserialized(s, compiles).Ok?
    ensures var m := Deserialized(s, compiles).value;
      && |s| >= 12 && |m.ct.labels| <= Announced(s)
      && File(m, Announced(s)).Ok? && File(m, Announced(s)).value <= s
      && (|m.ct.labels| < Announced(s) ==> m.re == [] && s == File(m, Announced(s)).value)
  {
    hide Put31, PutNodes, PutIdxs, PutRegexps, Get31, GetNodes, GetIdxs, GetRegexps, CheckNodes, Announced, TakeUpTo;
    AnnouncedIsRead(s);
    var (nodeLength, s1) := Get31(s).value;
    var (idxLength, s2) := Get31(s1).value;
    var (labelLength, s3) := Get31(s2).value;
    var (regexpLength, s4) := Get31(s3).value;
    var (nodes, s5) := GetNodes(s4, nodeLength).value;
    var (idxNodes, s6) := GetIdxs(s5, idxLength).value;
    var (labels, s7) := TakeUpTo(s6, labelLength);
    var (re, rest) := GetRegexps(s7, regexpLength, compiles).value;
    LengthBytes(s);
    LengthBytes(s1);
    LengthBytes(s2);
    LengthBytes(s3);
    NodesBytes(s4, nodeLength);
    IdxsBytes(s5, idxLength);
    RegexpsBytes(s7, regexpLength, compiles);
    if s7 == [] {
      NoRegexps(s7, regexpLength, compiles);
    }
    Assembled(Put31(nodeLength).value, Put31(idxLength).value, Put31(labelLength).value, Put31(regexpLength).value,
              PutNodes(nodes), PutIdxs(idxNodes), labels, PutRegexps(re).value, rest);
    assert s == File(Deserialized(s, compiles).value, labelLength).value + rest;
  }

  lemma NoRegexps(s: bytes, n: nat, compiles: bytes -> bool)
    requires s == [] && GetRegexps(s, n, compiles).Ok?
    ensures GetRegexps(s, n, compiles) == Ok(([], []))
  {
  }

  /**
   Whether what was read can be searched safely: always when the file holds all the labels it
   announces, and otherwise exactly when no label of a node is missing.
   */
  lemma AcceptedIsSafe(s: bytes, compiles: bytes -> bool)
    ensures match Deserialized(s, compiles)
      case Err(_) => true
      case Ok(m) =>
        && (Safe(m.ct) <==> LabelsRead(m.ct))
        && (|s| >= 12 && |m.ct.labels| == Announced(s) ==> Safe(m.ct))
  {
    hide Get31, GetNodes, GetIdxs, GetRegexps, CheckNodes, Safe, LabelsRead, Announced;
    if Deserialized(s, compiles).Ok? {
      AnnouncedIsRead(s);
      ValidationDecides(Deserialized(s, compiles).value.ct, Announced(s));
    }
  }

  /** A file whose only label is announced but not there passes, and cannot be searched. */
  lemma MissingLabelPasses(compiles: bytes -> bool)
    ensures var m := Matcher(Arrays([CompiledNode(SegAddr(0, 1), 0, 0)], [IdxNode(SegAddr(0, 1), 0)], []), []);
      File(m, 1).Ok? && Deserialized(File(m, 1).value, compiles) == Ok(m) && !Safe(m.ct)
  {
    var m := Matcher(Arrays([CompiledNode(SegAddr(0, 1), 0, 0)], [IdxNode(SegAddr(0, 1), 0)], []), []);
    var xs := Seg(m.ct.idxNodes, m.ct.nodes[0].childIdxSeg);
    assert xs == m.ct.idxNodes;
    assert CheckEntries(m.ct, 1, xs, 1) == Valid;
    assert CheckNodes(m.ct, 1, 1) == Valid && CheckNodes(m.ct, 1, 0) == Valid;
    FileRoundTrip(m, 1, compiles);
    assert xs[0] in xs && !NodeSafe(m.ct, 0);
  }

  // ---------------------------------------------------------------------------------
  // Streams
  // ---------------------------------------------------------------------------------

  class Writer {
    var out: bytes

    constructor ()
      ensures out == []
    {
      out := [];
    }

    method Write(b: bytes)
      modifies this
      ensures out == old(out) + b
    {
      out := out + b;
    }
  }

  class Reader {
    var rest: bytes

    constructor (s: bytes)
      ensures rest == s
    {
      rest := s;
    }

    /** io.ReadFull */
    method ReadFull(n: nat) returns (r: Result<bytes, SerialError>)
      modifies this
      ensures match TakeBytes(old(rest), n)
        case Err(e) => r == Err(e)
        case Ok((b, rest')) => r == Ok(b) && rest == rest'
    {
      if |rest| < n {
        return Err(UnexpectedEOF);
      }
      var b := rest[..n];
      rest := rest[n..];
      return Ok(b);
    }

    /** io.ReadAll of an io.LimitReader */
    method ReadUpTo(n: nat) returns (b: bytes)
      modifies this
      ensures (b, rest) == TakeUpTo(old(rest), n)
    {
      var l := if |rest| < n then |rest| else n;
      b := rest[..l];
      rest := rest[l..];
    }

    method ReadUint31() returns (r: Result<nat, SerialError>)
      modifies this
      ensures match Get31(old(rest))
        case Err(e) => r == Err(e)
        case Ok((n, rest')) => r == Ok(n) && rest == rest'
    {
      var b :- ReadFull(4);
      var i := Get32(b);
      if i < 0 {
        return Err(UInt31Overflowed);
      }
      return Ok(i);
    }
  }

  // ---------------------------------------------------------------------------------
  // Writing
  // ---------------------------------------------------------------------------------

  method WriteUint31(w: Writer, n: nat) returns (r: Result<(), SerialError>)
    modifies w
    ensures match Put31(n)
      case Err(e) => r == Err(e)
      case Ok(b) => r == Ok(()) && w.out == old(w.out) + b
  {
    if n > MAX_INT32 {
      return Err(UInt31Overflowed);
    }
    w.Write(Put32(n));
    return Ok(());
  }

  method WriteNodes(w: Writer, ns: seq<CompiledNode>)
    modifies w
    ensures w.out == old(w.out) + PutNodes(ns)
  {
    hide PutNode;
    var i := 0;
    ghost var rest := ns;
    while i < |ns|
      invariant 0 <= i <= |ns| && rest == ns[i..]
      invariant old(w.out) + PutNodes(ns) == w.out + PutNodes(rest)
    {
      assert w.out + (PutNode(ns[i]) + PutNodes(rest[1..])) == w.out + PutNode(ns[i]) + PutNodes(rest[1..]);
      w.Write(PutNode(ns[i]));
      rest := rest[1..];
      i := i + 1;
    }
  }

  method WriteIdxs(w: Writer, xs: seq<IdxNode>)
    modifies w
    ensures w.out == old(w.out) + PutIdxs(xs)
  {
    hide PutIdx;
    var i := 0;
    ghost var rest := xs;
    while i < |xs|
      invariant 0 <= i <= |xs| && rest == xs[i..]
      invariant old(w.out) + PutIdxs(xs) == w.out + PutIdxs(rest)
    {
      assert w.out + (PutIdx(xs[i]) + PutIdxs(rest[1..])) == w.out + PutIdx(xs[i]) + PutIdxs(rest[1..]);
      w.Write(PutIdx(xs[i]));
      rest := rest[1..];
      i := i + 1;
    }
  }

  method WriteRegexps(w: Writer, re: seq<bytes>) returns (r: Result<(), SerialError>)
    modifies w
    ensures match PutRegexps(re)
      case Err(e) => r == Err(e)
      case Ok(b) => r == Ok(()) && w.out == old(w.out) + b
  {
    var i := 0;
    ghost var rest := re;
    while i < |re|
      invariant 0 <= i <= |re| && rest == re[i..]
      invariant match PutRegexps(rest)
        case Err(e) => PutRegexps(re) == Err(e)
        case Ok(b) => PutRegexps(re).Ok? && old(w.out) + PutRegexps(re).value == w.out + b
    {
      if |re[i]| > 65535 {
        return Err(UInt16Overflowed);
      }
      ghost var was := w.out;
      w.Write(U16(|re[i]|));
      w.Write(re[i]);
      assert w.out == was + (U16(|re[i]|) + re[i]);
      rest := rest[1..];
      i := i + 1;
    }
    return Ok(());
  }

  method SerializeBody(m: Matcher, w: Writer) returns (r: Result<(), SerialError>)
    modifies w
    ensures match Serialized(m)
      case Err(e) => r == Err(e)
      case Ok(b) => r == Ok(()) && w.out == old(w.out) + b
  {
    hide Put31, PutNodes, PutIdxs, PutRegexps;
    var a :- WriteUint31(w, |m.ct.nodes|);
    var b :- WriteUint31(w, |m.ct.idxNodes|);
    var c :- WriteUint31(w, |m.ct.labels|);
    var d :- WriteUint31(w, |m.re|);
    WriteNodes(w, m.ct.nodes);
    WriteIdxs(w, m.ct.idxNodes);
    w.Write(m.ct.labels);
    var e :- WriteRegexps(w, m.re);
    assert w.out == old(w.out) + Serialized(m).value;
    return Ok(());
  }

  // ---------------------------------------------------------------------------------
  // Reading
  // ---------------------------------------------------------------------------------

  method ReadNodes(rd: Reader, n: nat) returns (r: Result<seq<CompiledNode>, SerialError>)
    modifies rd
    ensures match GetNodes(old(rd.rest), n)
      case Err(e) => r == Err(e)
      case Ok((ns, rest)) => r == Ok(ns) && rd.rest == rest
  {
    var ns: seq<CompiledNode> := [];
    var i := 0;
    ghost var whole := GetNodes(rd.rest, n);
    assert whole.Ok? ==> [] + whole.value.0 == whole.value.0;
    while i < n
      invariant 0 <= i <= n
      invariant match GetNodes(rd.rest, n - i)
        case Err(e) => whole == Err(e)
        case Ok((more, rest)) => whole == Ok((ns + more, rest))
    {
      ghost var more := GetNodes(rd.rest, n - i);
      var b :- rd.ReadFull(17);
      assert more.Ok? ==> ns + more.value.0 == ns + [GetNode(b)] + more.value.0[1..];
      ns := ns + [GetNode(b)];
      i := i + 1;
    }
    assert ns + [] == ns;
    return Ok(ns);
  }

  method ReadIdxs(rd: Reader, n: nat) returns (r: Result<seq<IdxNode>, SerialError>)
    modifies rd
    ensures match GetIdxs(old(rd.rest), n)
      case Err(e) => r == Err(e)
      case Ok((xs, rest)) => r == Ok(xs) && rd.rest == rest
  {
    var xs: seq<IdxNode> := [];
    var i := 0;
    ghost var whole := GetIdxs(rd.rest, n);
    assert whole.Ok? ==> [] + whole.value.0 == whole.value.0;
    while i < n
      invariant 0 <= i <= n
      invariant match GetIdxs(rd.rest, n - i)
        case Err(e) => whole == Err(e)
        case Ok((more, rest)) => whole == Ok((xs + more, rest))
    {
      ghost var more := GetIdxs(rd.rest, n - i);
      var b :- rd.ReadFull(12);
      assert more.Ok? ==> xs + more.value.0 == xs + [GetIdx(b)] + more.value.0[1..];
      xs := xs + [GetIdx(b)];
      i := i + 1;
    }
    assert xs + [] == xs;
    return Ok(xs);
  }

  method ReadRegexp(rd: Reader, compiles: bytes -> bool) returns (r: Result<bytes, SerialError>)
    modifies rd
    ensures match GetRegexp(old(rd.rest), compiles)
      case Err(e) => r == Err(e)
      case Ok((expr, rest)) => r == Ok(expr) && rd.rest == rest
  {
    var b :- rd.ReadFull(2);
    var expr :- rd.ReadFull(AsU16(b));
    if !compiles(expr) {
      return Err(InvalidRegexp);
    }
    return Ok(expr);
  }

  method ReadRegexps(rd: Reader, n: nat, compiles: bytes -> bool) returns (r: Result<seq<bytes>, SerialError>)
    modifies rd
    ensures match GetRegexps(old(rd.rest), n, compiles)
      case Err(e) => r == Err(e)
      case Ok((re, rest)) => r == Ok(re) && rd.rest == rest
  {
    hide GetRegexp;
    var re: seq<bytes> := [];
    var i := 0;
    ghost var whole := GetRegexps(rd.rest, n, compiles);
    assert whole.Ok? ==> [] + whole.value.0 == whole.value.0;
    while i < n
      invariant 0 <= i <= n
      invariant match GetRegexps(rd.rest, n - i, compiles)
        case Err(e) => whole == Err(e)
        case Ok((more, rest)) => whole == Ok((re + more, rest))
    {
      ghost var more := GetRegexps(rd.rest, n - i, compiles);
      var expr :- ReadRegexp(rd, compiles);
      assert more.Ok? ==> re + more.value.0 == re + [expr] + more.value.0[1..];
      re := re + [expr];
      i := i + 1;
    }
    assert re + [] == re;
    return Ok(re);
  }

  /** The inner loop of the pointer validation: one node's segment, n bytes of labels announced. */
  method ValidateNode(a: Arrays, n: nat, i: nat) returns (v: Verdict)
    requires i < |a.nodes| <= MAX_INT32 && |a.idxNodes| <= MAX_INT32 && |a.labels| <= n <= MAX_INT32
    ensures v == CheckNode(a, n, i)
    ensures NodeSafe(a, i) <==> v == Valid && NodeRead(a, i)
  {
    NodeDecided(a, n, i);
    hide NodeSafe, NodeRead;
    var idxSa := a.nodes[i].childIdxSeg;
    ValidSegAddrIsWithin(idxSa, |a.idxNodes|);
    if !ValidSegAddr(idxSa, |a.idxNodes|) {
      return Invalid;
    }
    var xs := Seg(a.idxNodes, idxSa);
    var j := 0;
    while j < |xs|
      invariant 0 <= j <= |xs|
      invariant CheckNode(a, n, i) == CheckEntries(a, n, xs, j)
    {
      var e := xs[j];
      if e.childIdx < 0 || e.childIdx >= |a.nodes| {
        return Invalid;
      }
      ValidSegAddrIsWithin(e.labelSeg, n);
      if !ValidSegAddr(e.labelSeg, n) {
        return Invalid;
      }
      if j > 0 {
        if !Within(xs[j - 1].labelSeg, |a.labels|) || !Within(e.labelSeg, |a.labels|) {
          return Missing;
        }
        if Compare(Seg(a.labels, xs[j - 1].labelSeg), Seg(a.labels, e.labelSeg)) != -1 {
          return Invalid;
        }
      }
      j := j + 1;
    }
    return Valid;
  }

  /** The pointer validation: an index that passes can be searched exactly when no label is missing. */
  method Validate(a: Arrays, n: nat) returns (v: Verdict)
    requires |a.nodes| <= MAX_INT32 && |a.idxNodes| <= MAX_INT32 && |a.labels| <= n <= MAX_INT32
    ensures v == CheckNodes(a, n, 0)
    ensures Safe(a) <==> v == Valid && LabelsRead(a)
    ensures |a.labels| == n ==> v == if Safe(a) then Valid else Invalid
  {
    ValidationDecides(a, n);
    hide CheckNode, Safe, LabelsRead;
    var i := 0;
    while i < |a.nodes|
      invariant 0 <= i <= |a.nodes|
      invariant CheckNodes(a, n, 0) == CheckNodes(a, n, i)
    {
      v := ValidateNode(a, n, i);
      if v != Valid {
        return v;
      }
      i := i + 1;
    }
    return Valid;
  }

  method DeserializeBody(rd: Reader, compiles: bytes -> bool) returns (r: Result<Matcher, SerialError>)
    modifies rd
    ensures r == Deserialized(old(rd.rest), compiles)
  {
    hide Get31, GetNodes, GetIdxs, GetRegexps, CheckNodes, Safe, LabelsRead;
    var nodeLength :- rd.ReadUint31();
    var idxLength :- rd.ReadUint31();
    var labelLength :- rd.ReadUint31();
    var regexpLength :- rd.ReadUint31();
    var nodes :- ReadNodes(rd, nodeLength);
    var idxNodes :- ReadIdxs(rd, idxLength);
    var labels: bytes := [];
    if labelLength > 0 {
      labels := rd.ReadUpTo(labelLength);
    }
    var a := Arrays(nodes, idxNodes, labels);
    var v := Validate(a, labelLength);
    if v == Invalid {
      return Err(InvalidPointer);
    }
    if v == Missing {
      return Err(LabelsMissing);
    }
    var re :- ReadRegexps(rd, regexpLength, compiles);
    return Ok(Matcher(a, re));
  }

  /** Searching whatever was read, if no label of it is missing: every access is in range, and the search is exact. */
  method ReadAndMatch(rd: Reader, compiles: bytes -> bool, labels: seq<bytes>) returns (r: Result<Answer, SerialError>)
    modifies rd
    ensures match Deserialized(old(rd.rest), compiles)
      case Err(e) => r == Err(e)
      case Ok(m) => r == if Safe(m.ct) then Ok(MatchTrie(Decompiled(m.ct), Reversed(labels))) else Err(LabelsMissing)
  {
    ghost var s := rd.rest;
    var m :- DeserializeBody(rd, compiles);
    AcceptedIsSafe(s, compiles);
    if !LabelsRead(m.ct) {
      return Err(LabelsMissing);
    }
    var dataOff, lvl := Match(m.ct, labels);
    return Ok((dataOff, lvl));
  }
}
