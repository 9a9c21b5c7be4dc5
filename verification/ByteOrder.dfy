/** The lexicographic order of byte strings (bytes.Compare). */
module ByteOrder {
  import opened WireBytes

  function Compare(a: bytes, b: bytes): (c: int)
    ensures c == 0 <==> a == b
    ensures c == -1 || c == 0 || c == 1
  {
    if a == [] || b == [] then (if a != [] then 1 else if b != [] then -1 else 0)
    else if a[0] < b[0] then -1
    else if a[0] > b[0] then 1
    else
      assert a == [a[0]] + a[1..] && b == [b[0]] + b[1..];
      Compare(a[1..], b[1..])
  }

  predicate Less(a: bytes, b: bytes) {
    Compare(a, b) < 0
  }

  lemma {:induction false} CompareSwaps(a: bytes, b: bytes)
    ensures Compare(a, b) == -Compare(b, a)
  {
    if a != [] && b != [] && a[0] == b[0] {
      CompareSwaps(a[1..], b[1..]);
    }
  }

  lemma {:induction false} LessTrans(a: bytes, b: bytes, c: bytes)
    requires Less(a, b) && Less(b, c)
    ensures Less(a, c)
  {
    if a != [] && b != [] && c != [] && a[0] == b[0] == c[0] {
      LessTrans(a[1..], b[1..], c[1..]);
    }
  }
}
