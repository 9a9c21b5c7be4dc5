/**
 Where the compressed round trip fails: Pack chains pointers without a limit, and Unpack gives
 up after ten.
 */
module PointerChains {
  import opened Wrappers
  import opened WireBytes
  import opened NameWire
  import opened Records
  import opened RecordRoundTrip
  import opened Messages
  import opened MessageRoundTrip

  /** The name a.a...a with k labels. */
  function Nested(k: nat): (n: bytes)
    ensures |n| == 2 * k + 1 && ValidName(n) && Walkable(n)
  {
    if k == 0 then [0]
    else
      var n := [1, 97] + Nested(k - 1);
      assert n[2..] == Nested(k - 1);
      n
  }

  /** Questions for the names of 1 to k labels, each one label longer than the last. */
  function NestedQuestions(k: nat): (qs: seq<Question>)
    ensures |qs| == k && forall j | 0 <= j < k :: qs[j] == Question(Nested(j + 1), 1, 1)
  {
    seq(k, j requires 0 <= j < k => Question(Nested(j + 1), 1, 1))
  }

  function NestedMessage(k: nat): Message {
    Message(Header(0, false, 0, false, false, false, false, false, false, 0), NestedQuestions(k), [], [], [])
  }

  /** After the names of 1 to k labels: the j-th is known and j - 1 pointers away from its end. */
  ghost predicate Chained(o: OutBuf, k: nat) {
    && o.targets.Some?
    && HEADER_LEN <= |o.w| <= HEADER_LEN + 8 * k
    && (forall s | Known(s, o.targets) :: 1 < |s| <= 2 * k + 1)
    && (forall j | 1 <= j <= k :: Known(Nested(j), o.targets) && Nested(j) in o.hops && o.hops[Nested(j)] == j - 1)
  }

  lemma PutQuestion(q: Question, o: OutBuf)
    requires PutName(q.name, o).Ok?
    ensures PutItem(Q(q), o) == Ok(PutName(q.name, o).value.Append(U16(q.typ) + U16(q.cls)))
    ensures ItemFits(Q(q), o) <==> NameFits(q.name, o)
  {
    var fs := QuestionFields(q);
    var o1 := PutName(q.name, o).value;
    assert fs[1..] == [fs[1]];
    assert PutFields([fs[1]], o1) == Ok(o1.Append(fs[1].data)) && FieldsFit([fs[1]], o1);
  }

  lemma ChainGrows(o: OutBuf, k: nat)
    requires Chained(o, k) && k < 1000
    ensures NameHops(Nested(k + 1), o) == k
    ensures PutName(Nested(k + 1), o).Ok?
    ensures Chained(PutName(Nested(k + 1), o).value.Append([0, 1, 0, 1]), k + 1)
  {
    var n := Nested(k + 1);
    assert n[2..] == Nested(k);
    assert k > 0 ==> Known(Nested(k), o.targets);
    assert NameHops(n, o) == k;
    var rest := PutName(Nested(k), o.Append(n[..2])).value;
    var o2 := PutName(n, o).value;
    assert |o2.w| <= |o.w| + 4;
    forall j | 1 <= j <= k + 1
      ensures Known(Nested(j), o2.targets) && Nested(j) in o2.hops && o2.hops[Nested(j)] == j - 1
    {
      if j <= k {
        assert |Nested(j)| < |n|;
      }
    }
  }

  function NestedItem(k: nat): Item {
    Q(Question(Nested(k), 1, 1))
  }

  lemma ChainStep(o: OutBuf, k: nat)
    requires Chained(o, k) && k < 126
    ensures PutItem(NestedItem(k + 1), o).Ok? && Chained(PutItem(NestedItem(k + 1), o).value, k + 1)
    ensures ItemFits(NestedItem(k + 1), o) <==> k <= MAX_POINTERS
  {
    ChainGrows(o, k);
    PutQuestion(Question(Nested(k + 1), 1, 1), o);
    assert U16(1) + U16(1) == [0, 1, 0, 1];
  }

  /** The questions for the names of k + 1 to last labels. */
  function NestedItems(k: nat, last: nat): (items: seq<Item>)
    requires k <= last
    decreases last - k
  {
    if k == last then [] else [NestedItem(k + 1)] + NestedItems(k + 1, last)
  }

  lemma {:induction false} NestedItemsAreQuestions(k: nat, last: nat)
    requires k <= last
    ensures NestedItems(k, last) == Qs(NestedQuestions(last))[k..]
    decreases last - k
  {
    if k < last {
      NestedItemsAreQuestions(k + 1, last);
    }
  }

  lemma ItemsCons(i: Item, items: seq<Item>, o: OutBuf, o1: OutBuf)
    requires PutItem(i, o) == Ok(o1)
    ensures PutItems([i] + items, o) == PutItems(items, o1)
    ensures ItemsFit([i] + items, o) <==> ItemFits(i, o) && ItemsFit(items, o1)
  {
    assert ([i] + items)[1..] == items;
  }

  /** The names from k + 1 labels on fit as long as none needs more than ten pointers. */
  lemma {:induction false} ChainFits(k: nat, last: nat, o: OutBuf)
    requires k <= last <= 126 && Chained(o, k)
    ensures var items := NestedItems(k, last);
      PutItems(items, o).Ok? && (ItemsFit(items, o) <==> k == last || last <= MAX_POINTERS + 1)
    decreases last - k
  {
    if k < last {
      ChainStep(o, k);
      var o1 := PutItem(NestedItem(k + 1), o).value;
      ChainFits(k + 1, last, o1);
      ItemsCons(NestedItem(k + 1), NestedItems(k + 1, last), o, o1);
    }
  }

  /**
   A message of k nested names survives a compressed round trip exactly up to k = 11, though
   every name is short and the packing always succeeds. So Unpack(Pack(m)) = m does not hold of
   every message whose names Unpack could accept.
   */
  lemma NestedRoundTrip(k: nat)
    requires k <= 126
    ensures var m := NestedMessage(k);
      && Normal(m) && Packed(m, 0, true, 0).Ok?
      && (k <= 11 <==>
            var u := Unpacked(Packed(m, 0, true, 0).value.out.w);
            u.Ok? && SameMessage(u.value, m))
  {
    var m := NestedMessage(k);
    var items := NestedItems(0, k);
    NestedItemsAreQuestions(0, k);
    assert Items(m) == items;
    assert ItemsNormal(items) && ItemsValid(items);
    if k < 2 {
      hide Packed, Unpacked, SameMessage;
      NormalRoundTrips(m, 0);
      assert Packed(m, 0, true, 0) == Packed(m, 0, false, 0) by {
        PackedUnlimited(m, 0, true, 0);
        PackedUnlimited(m, 0, false, 0);
      }
    } else {
      ChainFits(0, k, Start(m, true));
      PackedUnlimited(m, 0, true, 0);
      RoundTrip(m, 0, true);
    }
  }
}
