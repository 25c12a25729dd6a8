/** The start codes 00 00 01 and 00 00 00 01 that separate NAL units in a byte stream. */
module StartCodes {
  import opened Bytes

  predicate CodeAt(b: bytes, i: nat) {
    i + 3 <= |b| && b[i] == 0 && b[i + 1] == 0 && b[i + 2] == 1
  }

  ghost predicate CodeFree(b: bytes) {
    forall i: nat :: !CodeAt(b, i)
  }

  // The first start code, or the length when there is none.
  function FindCode(b: bytes): (i: nat)
    ensures i <= |b|
    ensures i < |b| ==> CodeAt(b, i)
    ensures forall k: nat :: k < i ==> !CodeAt(b, k)
  {
    if b == [] then 0
    else if CodeAt(b, 0) then 0
    else
      var i := FindCode(b[1..]);
      assert forall k: nat :: 0 < k ==> (CodeAt(b, k) <==> CodeAt(b[1..], k - 1));
      i + 1
  }

  lemma PrefixCodeFree(b: bytes, n: nat)
    requires n <= FindCode(b)
    ensures CodeFree(b[..n])
  {
    forall k: nat
      ensures !CodeAt(b[..n], k)
    {
      assert CodeAt(b[..n], k) ==> CodeAt(b, k);
    }
  }

  const CODE4: bytes := [0, 0, 0, 1]

  // The length of the start code at i, 0 when there is none.
  function CodeLen(b: bytes, i: nat): (n: nat)
    ensures n > 0 ==> i + n <= |b|
  {
    if i + 4 <= |b| && b[i] == 0 && CodeAt(b, i + 1) then 4
    else if CodeAt(b, i) then 3
    else 0
  }
}
