/** Bytes and the fixed-width big-endian integers that every box, prefix and header is made of. */
module Bytes {

  type byte = x: int | 0 <= x < 256
  type bytes = seq<byte>

  const TWO31 := 0x8000_0000
  const TWO32 := 0x1_0000_0000
  const TWO63 := 0x8000_0000_0000_0000
  const TWO64 := 0x1_0000_0000_0000_0000

  type int64 = v: int | -TWO63 <= v < TWO63

  /** The signed reading of a 32-bit word: Go's `int32(v)` for any integer v. */
  function Int32(v: int): (r: int)
    ensures -TWO31 <= r < TWO31
    ensures -TWO31 <= v < TWO31 ==> r == v
  {
    var u := v % TWO32;
    if u < TWO31 then u else u - TWO32
  }

  /** The signed reading of a 64-bit word: Go's `int64(v)` for any integer v. */
  function Int64(v: int): (r: int)
    ensures -TWO63 <= r < TWO63
    ensures -TWO63 <= v < TWO63 ==> r == v
  {
    var u := v % TWO64;
    if u < TWO63 then u else u - TWO64
  }

  /** Go's integer division, which truncates towards zero. */
  function QuoTrunc(a: int, b: int): int
    requires b > 0
  {
    if a >= 0 then a / b else -((-a) / b)
  }

  /** Base-256 digit k of v, counted from the least significant one. */
  function Digit(v: int, k: nat): byte
    decreases k
  {
    if k == 0 then v % 256 else Digit(v / 256, k - 1)
  }

  /** The n low-order bytes of v, most significant first; negative values keep their two's complement. */
  function Put(v: int, n: nat): (b: bytes)
    ensures |b| == n
  {
    seq(n, i requires 0 <= i < n => Digit(v, n - 1 - i))
  }

  /** The number a big-endian byte string denotes. */
  function Value(b: bytes): nat {
    if b == [] then 0 else 256 * Value(b[..|b| - 1]) + b[|b| - 1]
  }

  function Power256(k: nat): (p: nat)
    ensures p > 0
  {
    if k == 0 then 1 else 256 * Power256(k - 1)
  }

  lemma MulAtLeast(d: int, k: int)
    requires d > 0 && k >= 1
    ensures d * k >= d
  {
  }

  lemma RemainderUnique(v: int, d: int, q: int, r: int)
    requires d > 0 && v == d * q + r && 0 <= r < d
    ensures v % d == r && v / d == q
  {
    var q1, r1 := v / d, v % d;
    assert d * (q - q1) == r1 - r && d * (q1 - q) == r - r1;
    if q > q1 {
      MulAtLeast(d, q - q1);
    } else if q < q1 {
      MulAtLeast(d, q1 - q);
    }
  }

  lemma PositiveFactor(d: int, k: int)
    requires d > 0 && d * k > 0
    ensures k > 0
  {
  }

  /** Quotients follow their dividends, strictly so once these are a divisor apart. */
  lemma DivMonotone(x: int, y: int, d: int)
    requires d > 0 && x <= y
    ensures x / d <= y / d
    ensures x + d <= y ==> x / d < y / d
  {
    var p, q := x / d, y / d;
    assert x == d * p + x % d && y == d * q + y % d;
    assert d * (q - p + 1) == y - y % d - x + x % d + d;
    PositiveFactor(d, q - p + 1);
    if x + d <= y {
      assert d * (q - p) == y - y % d - x + x % d;
      PositiveFactor(d, q - p);
    }
  }

  lemma QuotientNonNegative(a: nat, d: int)
    requires d > 0
    ensures a / d >= 0
  {
    DivMonotone(0, a, d);
  }

  /** Wrap-around addition: reducing early makes no difference. */
  lemma WrapAdd(a: int, x: int, m: int)
    requires m > 0
    ensures (a % m + x) % m == (a + x) % m
  {
    var q, r := a / m, a % m;
    var q1, r1 := (r + x) / m, (r + x) % m;
    assert a + x == m * (q + q1) + r1;
    RemainderUnique(a + x, m, q + q1, r1);
  }

  lemma ShiftDigit(v: int, p: int)
    requires p > 0
    ensures v % (256 * p) == 256 * (v / 256 % p) + v % 256
  {
    var q := v / 256;
    assert v == 256 * q + v % 256;
    assert q == p * (q / p) + q % p;
    assert 256 * q == (256 * p) * (q / p) + 256 * (q % p);
    RemainderUnique(v, 256 * p, q / p, 256 * (q % p) + v % 256);
  }

  /** Reading back what was written gives the value modulo the field's width. */
  lemma {:induction false} ValueOfPut(v: int, n: nat)
    ensures Value(Put(v, n)) == v % Power256(n)
    decreases n
  {
    if n > 0 {
      ValueOfPut(v / 256, n - 1);
      forall i | 0 <= i < n - 1
        ensures Put(v, n)[i] == Put(v / 256, n - 1)[i]
      {
        assert Digit(v, n - 1 - i) == Digit(v / 256, n - 2 - i);
      }
      assert Put(v, n)[..n - 1] == Put(v / 256, n - 1);
      assert Put(v, n)[n - 1] == Digit(v, 0) == v % 256;
      ShiftDigit(v, Power256(n - 1));
    }
  }

  lemma {:induction false} ValueBound(b: bytes)
    ensures Value(b) < Power256(|b|)
  {
    if b != [] {
      ValueBound(b[..|b| - 1]);
    }
  }

  /** A byte string is determined by its length and its value. */
  lemma {:induction false} ValueInjective(a: bytes, b: bytes)
    requires |a| == |b| && Value(a) == Value(b)
    ensures a == b
  {
    if a != [] {
      var n := |a| - 1;
      assert a == a[..n] + [a[n]] && b == b[..n] + [b[n]];
      assert a[n] == b[n] && Value(a[..n]) == Value(b[..n]);
      ValueInjective(a[..n], b[..n]);
    }
  }

  /** Truncating to the field's width before writing changes nothing. */
  lemma PutWraps(v: int, n: nat)
    ensures Put(v % Power256(n), n) == Put(v, n)
  {
    hide Put, Value, Power256;
    var p := Power256(n);
    RemainderUnique(v % p, p, 0, v % p);
    ValueOfPut(v, n);
    ValueOfPut(v % Power256(n), n);
    ValueInjective(Put(v % Power256(n), n), Put(v, n));
  }

  function PutU16(v: int): (b: bytes)
    ensures |b| == 2
  {
    Put(v, 2)
  }

  function PutU32(v: int): (b: bytes)
    ensures |b| == 4
  {
    Put(v, 4)
  }

  function PutU64(v: int): (b: bytes)
    ensures |b| == 8
  {
    Put(v, 8)
  }

  function U16(b: bytes, off: nat): (v: nat)
    requires off + 2 <= |b|
    ensures v < 0x1_0000
  {
    ValueBound(b[off..off + 2]);
    assert Power256(2) == 0x1_0000;
    Value(b[off..off + 2])
  }

  function U32(b: bytes, off: nat): (v: nat)
    requires off + 4 <= |b|
    ensures v < TWO32
  {
    ValueBound(b[off..off + 4]);
    assert Power256(4) == TWO32;
    Value(b[off..off + 4])
  }

  function U64(b: bytes, off: nat): (v: nat)
    requires off + 8 <= |b|
    ensures v < TWO64
  {
    ValueBound(b[off..off + 8]);
    assert Power256(8) == TWO64;
    Value(b[off..off + 8])
  }

  /** Reading a word back from anywhere in a byte string it was written into. */
  lemma U16OfPut(b: bytes, off: nat, v: int)
    requires off + 2 <= |b|
    requires b[off..off + 2] == PutU16(v)
    ensures U16(b, off) == v % 0x1_0000
  {
    ValueOfPut(v, 2);
  }

  lemma U32OfPut(b: bytes, off: nat, v: int)
    requires off + 4 <= |b|
    requires b[off..off + 4] == PutU32(v)
    ensures U32(b, off) == v % TWO32
  {
    ValueOfPut(v, 4);
  }

  lemma U64OfPut(b: bytes, off: nat, v: int)
    requires off + 8 <= |b|
    requires b[off..off + 8] == PutU64(v)
    ensures U64(b, off) == v % TWO64
  {
    ValueOfPut(v, 8);
  }

  lemma SubWindow(b: bytes, off: nat, w: bytes, i: nat, n: nat)
    requires off + |w| <= |b| && b[off..off + |w|] == w
    requires i + n <= |w|
    ensures b[off + i..off + i + n] == w[i..i + n]
  {
    var s := b[off + i..off + i + n];
    forall j | 0 <= j < |s|
      ensures s[j] == w[i + j]
    {
      assert b[off..off + |w|][i + j] == b[off + i + j];
    }
  }

  /** The same for a word inside a window that is known as a whole. */
  lemma U32InWindow(b: bytes, off: nat, w: bytes, i: nat, v: int)
    requires off + |w| <= |b| && b[off..off + |w|] == w
    requires i + 4 <= |w| && w[i..i + 4] == PutU32(v)
    ensures U32(b, off + i) == v % TWO32
  {
    hide PutU32, U32;
    SubWindow(b, off, w, i, 4);
    U32OfPut(b, off + i, v);
  }

  /** A word is determined by its bytes, so distinct 32-bit values have distinct encodings. */
  lemma PutU32Injective(v: int, w: int)
    requires PutU32(v) == PutU32(w)
    ensures v % TWO32 == w % TWO32
  {
    ValueOfPut(v, 4);
    ValueOfPut(w, 4);
  }

  /** Concatenation of a list of byte strings, in order. */
  function Concat(parts: seq<bytes>): bytes {
    if parts == [] then [] else parts[0] + Concat(parts[1..])
  }

  lemma {:induction false} ConcatAppend(a: seq<bytes>, b: seq<bytes>)
    ensures Concat(a + b) == Concat(a) + Concat(b)
  {
    if a == [] {
      assert a + b == b;
    } else {
      assert (a + b)[1..] == a[1..] + b;
      ConcatAppend(a[1..], b);
    }
  }

  lemma ConcatSnoc(a: seq<bytes>, x: bytes)
    ensures Concat(a + [x]) == Concat(a) + x
  {
    ConcatAppend(a, [x]);
    assert [x][1..] == [];
  }
}
