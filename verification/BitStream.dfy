/** The bit reader and writer: 64-bit staging words in front of a byte stream. */
module BitStream {
  import opened Bytes
  import opened Wrappers

  // ---- powers of two ----

  function Pow2(n: nat): (p: nat)
    ensures p > 0
  {
    if n == 0 then 1 else 2 * Pow2(n - 1)
  }

  lemma {:induction false} Pow2Add(a: nat, b: nat)
    ensures Pow2(a + b) == Pow2(a) * Pow2(b)
  {
    if a > 0 {
      Pow2Add(a - 1, b);
    }
  }

  lemma Pow2Eight()
    ensures Pow2(8) == 256
  {
    assert Pow2(4) == 16;
  }

  lemma {:induction false} PowerIsPow2(k: nat)
    ensures Power256(k) == Pow2(8 * k)
  {
    if k > 0 {
      PowerIsPow2(k - 1);
      Pow2Add(8, 8 * (k - 1));
      Pow2Eight();
    }
  }

  lemma Word()
    ensures Pow2(64) == TWO64
  {
    hide Pow2;
    Pow2Eight();
    Pow2Add(8, 8);
    Pow2Add(16, 16);
    Pow2Add(32, 32);
  }

  lemma {:induction false} Pow2Grows(a: nat, b: nat)
    requires a <= b
    ensures Pow2(a) <= Pow2(b)
  {
    if a < b {
      Pow2Grows(a, b - 1);
    }
  }

  // A number put above k fresh low bits keeps its own low bits above them.
  lemma JoinMod(y: nat, n: nat, v: nat, k: nat)
    requires v < Pow2(k)
    ensures (y * Pow2(k) + v) % Pow2(n + k) == y % Pow2(n) * Pow2(k) + v
    ensures y % Pow2(n) * Pow2(k) + v < Pow2(n + k)
  {
    hide Pow2;
    Pow2Add(n, k);
    var p, q := Pow2(n), Pow2(k);
    var a, r := y / p, y % p;
    assert y == p * a + r;
    Split(p, a, r, q, v);
    assert (p - 1) * q == p * q - q;
    MulMonotone(r, p - 1, q);
    RemainderUnique(y * q + v, p * q, a, r * q + v);
  }

  lemma Split(p: nat, a: nat, r: nat, q: nat, v: nat)
    ensures (p * a + r) * q + v == p * q * a + (r * q + v)
  {
  }

  lemma MulMonotone(x: nat, y: int, q: nat)
    requires x <= y
    ensures x * q <= y * q
  {
  }

  lemma ModMod(x: nat, a: nat, b: nat)
    requires a <= b
    ensures x % Pow2(b) % Pow2(a) == x % Pow2(a)
  {
    hide Pow2;
    Pow2Add(b - a, a);
    ModProduct(x, Pow2(a), Pow2(b - a));
  }

  lemma ModProduct(x: nat, p: nat, q: nat)
    requires p > 0 && q > 0 && q * p > 0
    ensures x % (q * p) % p == x % p
  {
    var m := q * p;
    var y, r := x / m, x % m;
    var s, t := r / p, r % p;
    Regroup(q, p, y, s, t);
    RemainderUnique(x, p, q * y + s, t);
  }

  lemma Regroup(q: nat, p: nat, y: nat, s: nat, t: nat)
    ensures q * p * y + (p * s + t) == p * (q * y + s) + t
  {
  }

  // A word cut above its low bits.
  function High(word: nat, low: nat): nat {
    QuotientNonNegative(word, Pow2(low));
    word / Pow2(low)
  }

  function Low(word: nat, low: nat): nat {
    word % Pow2(low)
  }

  lemma HighLow(word: nat, low: nat)
    ensures High(word, low) * Pow2(low) + Low(word, low) == word && Low(word, low) < Pow2(low)
  {
  }

  lemma HighBound(word: nat, top: nat, low: nat)
    requires word < Pow2(top + low)
    ensures High(word, low) < Pow2(top)
  {
    hide Pow2;
    Pow2Add(top, low);
    CutProduct(word, Pow2(top), Pow2(low));
  }

  lemma CutProduct(v: nat, p: nat, q: nat)
    requires q > 0 && v < p * q
    ensures v / q < p
  {
    var h := v / q;
    assert q * (p - h) == p * q - v + v % q;
    PositiveFactor(q, p - h);
  }

  // ---- bitwise or ----

  function Or(a: nat, b: nat): nat
    decreases a + b
  {
    if a == 0 && b == 0 then 0 else 2 * Or(a / 2, b / 2) + (if a % 2 == 1 || b % 2 == 1 then 1 else 0)
  }

  lemma {:induction false} OrZero(a: nat)
    ensures Or(a, 0) == a && Or(0, a) == a
    decreases a
  {
    if a > 0 {
      OrZero(a / 2);
    }
  }

  // High parts and low parts are combined on their own.
  lemma {:induction false} OrJoin(x: nat, y: nat, z: nat, v: nat, k: nat)
    requires y < Pow2(k) && v < Pow2(k)
    ensures Or(x * Pow2(k) + y, z * Pow2(k) + v) == Or(x, z) * Pow2(k) + Or(y, v) && Or(y, v) < Pow2(k)
  {
    if k == 0 {
      assert Pow2(0) == 1;
      OrZero(0);
    } else {
      OrJoin(x, y / 2, z, v / 2, k - 1);
      OrJoinStep(x, y, z, v, Pow2(k - 1));
    }
  }

  lemma OrJoinStep(x: nat, y: nat, z: nat, v: nat, p: nat)
    requires Or(x * p + y / 2, z * p + v / 2) == Or(x, z) * p + Or(y / 2, v / 2) && Or(y / 2, v / 2) < p
    ensures Or(x * (2 * p) + y, z * (2 * p) + v) == Or(x, z) * (2 * p) + Or(y, v) && Or(y, v) < 2 * p
  {
    hide Or;
    var a, b := x * (2 * p) + y, z * (2 * p) + v;
    Halve(x, p, y);
    Halve(z, p, v);
    OrStep(a, b);
    OrStep(y, v);
    Shift2(Or(x, z), p, Or(y / 2, v / 2));
  }

  lemma OrStep(a: nat, b: nat)
    ensures Or(a, b) == 2 * Or(a / 2, b / 2) + if a % 2 == 1 || b % 2 == 1 then 1 else 0
  {
  }

  lemma Halve(x: nat, p: nat, y: nat)
    ensures (x * (2 * p) + y) / 2 == x * p + y / 2 && (x * (2 * p) + y) % 2 == y % 2
  {
    assert x * (2 * p) == 2 * (x * p);
  }

  lemma Shift2(x: nat, p: nat, y: nat)
    ensures 2 * (x * p + y) == x * (2 * p) + 2 * y
  {
  }

  // The low bits of an or come from the low bits.
  lemma OrLow(a: nat, b: nat, n: nat)
    ensures Or(a, b) % Pow2(n) == Or(Low(a, n), Low(b, n))
  {
    hide Pow2, High, Low, Or;
    HighLow(a, n);
    HighLow(b, n);
    OrJoin(High(a, n), Low(a, n), High(b, n), Low(b, n), n);
    CutUnique(Or(a, b), n, Or(High(a, n), High(b, n)), Or(Low(a, n), Low(b, n)));
    LowIs(Or(a, b), n);
  }

  lemma OrBound(a: nat, b: nat, n: nat)
    requires a < Pow2(n) && b < Pow2(n)
    ensures Or(a, b) < Pow2(n)
  {
    OrJoin(0, a, 0, b, n);
  }

  // ---- bit strings ----

  // The n-bit string that spells v.
  datatype Bits = Bits(v: nat, n: nat) {
    predicate Valid() {
      v < Pow2(n)
    }
  }

  function Join(a: Bits, b: Bits): Bits {
    Bits(a.v * Pow2(b.n) + b.v, a.n + b.n)
  }

  lemma JoinAssoc(a: Bits, b: Bits, c: Bits)
    ensures Join(Join(a, b), c) == Join(a, Join(b, c))
  {
    Pow2Add(b.n, c.n);
    Distribute(a.v, Pow2(b.n), b.v, Pow2(c.n), c.v);
  }

  lemma Distribute(a: nat, p: nat, b: nat, q: nat, c: nat)
    ensures (a * p + b) * q + c == a * (p * q) + (b * q + c)
  {
  }

  lemma JoinValid(a: Bits, b: Bits)
    requires a.Valid() && b.Valid()
    ensures Join(a, b).Valid()
  {
    JoinMod(a.v, a.n, b.v, b.n);
    RemainderUnique(a.v, Pow2(a.n), 0, a.v);
  }

  // The leading bits of a joined string, and what is left.
  lemma TakeJoined(a: Bits, b: Bits)
    requires b.Valid()
    ensures Join(a, b).v / Pow2(b.n) == a.v && Join(a, b).v % Pow2(b.n) == b.v
  {
    RemainderUnique(Join(a, b).v, Pow2(b.n), a.v, b.v);
  }

  lemma JoinEmpty(a: Bits)
    ensures Join(a, Bits(0, 0)) == a && Join(Bits(0, 0), a) == a
  {
  }

  // Two ways to cut the same string at the same place.
  lemma JoinInjective(a: Bits, b: Bits, c: Bits, d: Bits)
    requires Join(a, b) == Join(c, d) && b.n == d.n && b.Valid() && d.Valid()
    ensures a == c && b == d
  {
    TakeJoined(a, b);
    TakeJoined(c, d);
  }

  function OfBytes(b: bytes): Bits {
    Bits(Value(b), 8 * |b|)
  }

  lemma OfBytesValid(b: bytes)
    ensures OfBytes(b).Valid()
  {
    ValueBound(b);
    PowerIsPow2(|b|);
  }

  lemma {:induction false} OfBytesAppend(a: bytes, b: bytes)
    ensures OfBytes(a + b) == Join(OfBytes(a), OfBytes(b))
  {
    PowerIsPow2(|b|);
    if b == [] {
      assert a + b == a;
    } else {
      var n := |b| - 1;
      assert (a + b)[..|a + b| - 1] == a + b[..n];
      OfBytesAppend(a, b[..n]);
      PowerIsPow2(n);
      Shift256(Value(a), Power256(n), Value(b[..n]), b[n]);
    }
  }

  lemma Shift256(x: nat, p: nat, y: nat, d: nat)
    ensures 256 * (x * p + y) + d == x * (256 * p) + (256 * y + d)
  {
  }

  // ---- the writer ----

  datatype WriterState = WriterState(out: bytes, n: nat, bits: nat) {
    predicate Valid() {
      n <= 64 && bits < TWO64
    }
  }

  // Only the low n bits of the staging word count; older ones may still be above them.
  function Written(w: WriterState): Bits {
    Join(OfBytes(w.out), Bits(w.bits % Pow2(w.n), w.n))
  }

  // Shift left by k and or v into the word.
  function StageSpec(w: WriterState, v: nat, k: nat): WriterState {
    WriterState(w.out, w.n + k, Or(w.bits * Pow2(k) % TWO64, v))
  }

  function Padding(n: nat): nat {
    if n % 8 == 0 then 0 else 8 - n % 8
  }

  function FlushSpec(w: WriterState): WriterState {
    if w.n == 0 then w
    else w.(out := w.out + Put(w.bits * Pow2(Padding(w.n)) % TWO64, (w.n + 7) / 8), n := 0)
  }

  // The value may be wider than k bits: what is above them is or-ed into the bits staged before.
  function WriteSpec(w: WriterState, v: nat, k: nat): WriterState
    requires w.Valid() && v < TWO64 && k <= 64
  {
    if w.n + k > 64 then
      var move := 64 - w.n;
      var rest := k - move;
      var w1 := if move > 0 then StageSpec(w, High(v, rest), move) else w;
      StageSpec(FlushSpec(w1), if rest < 64 then Low(v, rest) else v, rest)
    else StageSpec(w, v, k)
  }

  class Writer {
    var out: bytes
    var n: nat
    var bits: nat

    function View(): WriterState
      reads this
    {
      WriterState(out, n, bits)
    }

    constructor ()
      ensures View() == WriterState([], 0, 0)
    {
      out := [];
      n := 0;
      bits := 0;
    }

    method WriteBits64(value: nat, width: nat)
      requires View().Valid() && value < TWO64 && width <= 64
      modifies this
      ensures View() == WriteSpec(old(View()), value, width)
    {
      hide Pow2, FlushSpec, High, Low, Or;
      var v, k := value, width;
      if n + k > 64 {
        FillValid(View(), v, k);
      }
      if n + k > 64 {
        var move := 64 - n;
        if move > 0 {
          var high := High(v, k - move);
          bits := Or(bits * Pow2(move) % TWO64, high);
        }
        n := 64;
        FlushBits();
        k := k - move;
        if k > 0 && k < 64 {
          v := Low(v, k);
        }
      }
      bits := Or(bits * Pow2(k) % TWO64, v);
      n := n + k;
    }

    method FlushBits()
      requires View().Valid()
      modifies this`out, this`n
      ensures View() == FlushSpec(old(View()))
    {
      if n > 0 {
        var word := bits;
        if n % 8 != 0 {
          word := word * Pow2(8 - n % 8) % TWO64;
        } else {
          assert bits * Pow2(0) % TWO64 == bits;
        }
        var want := (n + 7) / 8;
        var b: bytes := [];
        var i := 0;
        while i < want
          invariant 0 <= i <= want && |b| == i
          invariant forall k :: 0 <= k < i ==> b[k] == Digit(word, want - 1 - k)
        {
          b := b + [Digit(word, want - i - 1)];
          i := i + 1;
        }
        assert b == Put(word, want);
        out := out + b;
        n := 0;
      }
    }
  }

  // The word after staging a value of any width.
  lemma StagedWide(bits: nat, n: nat, v: nat, k: nat)
    requires n + k <= 64 && bits < TWO64 && v < TWO64
    ensures var word := Or(bits * Pow2(k) % TWO64, v);
            && word < TWO64
            && Bits(word % Pow2(n + k), n + k)
               == Join(Bits(Or(bits % Pow2(n), High(v, k) % Pow2(n)), n), Bits(Low(v, k), k))
            && Or(bits % Pow2(n), High(v, k) % Pow2(n)) < Pow2(n)
  {
    hide Pow2, Or, High, Low;
    Word();
    Pow2Positive(k);
    Pow2Positive(n);
    HighLow(v, k);
    var x, z := bits % Pow2(64 - k), High(v, k);
    JoinMod(bits, 64 - k, 0, k);
    OrBound(bits * Pow2(k) % TWO64, v, 64);
    OrJoin(x, 0, z, Low(v, k), k);
    OrZero(Low(v, k));
    JoinMod(Or(x, z), n, Low(v, k), k);
    OrLow(x, z, n);
    LowIs(x, n);
    LowIs(z, n);
    ModMod(bits, n, 64 - k);
    OrBound(bits % Pow2(n), z % Pow2(n), n);
  }

  lemma LowIs(x: nat, n: nat)
    ensures Low(x, n) == x % Pow2(n)
  {
  }

  // The bits of v above its width that reach the staged ones; none do when the word is full and goes out first.
  function Surplus(w: WriterState, v: nat, k: nat): nat {
    if w.n == 64 && k > 0 then 0 else High(v, k) % Pow2(w.n)
  }

  // What the staged bits become when v is written with width k.
  function Spoiled(w: WriterState, v: nat, k: nat): Bits {
    Bits(Or(w.bits % Pow2(w.n), Surplus(w, v, k)), w.n)
  }

  // Staging appends the low k bits, as long as the word has room, behind the staged bits or-ed with the others.
  lemma StageExact(w: WriterState, v: nat, k: nat)
    requires w.Valid() && w.n + k <= 64 && v < TWO64
    ensures StageSpec(w, v, k).Valid() && Spoiled(w, v, k).Valid()
    ensures Written(StageSpec(w, v, k)) == Join(Join(OfBytes(w.out), Spoiled(w, v, k)), Bits(Low(v, k), k))
  {
    hide Pow2, OfBytes, Join, Or, High, Low;
    StagedWide(w.bits, w.n, v, k);
    var w' := StageSpec(w, v, k);
    assert Written(w') == Join(OfBytes(w.out), Bits(w'.bits % Pow2(w.n + k), w.n + k));
    JoinAssoc(OfBytes(w.out), Spoiled(w, v, k), Bits(Low(v, k), k));
  }

  // The first half of a write that spills.
  lemma FillValid(w: WriterState, v: nat, k: nat)
    requires w.Valid() && v < TWO64 && k <= 64 < w.n + k
    ensures High(v, w.n + k - 64) < TWO64
    ensures WriterState(w.out, 64, Or(w.bits * Pow2(64 - w.n) % TWO64, High(v, w.n + k - 64))).Valid()
  {
    hide Pow2, Or, High;
    HighShrinks(v, w.n + k - 64);
    StagedWide(w.bits, w.n, High(v, w.n + k - 64), 64 - w.n);
  }

  lemma HighShrinks(v: nat, n: nat)
    ensures High(v, n) <= v
  {
    hide Pow2;
    HighLow(v, n);
    var h, p := High(v, n), Pow2(n);
    AtLeastItself(h, p);
  }

  lemma AtLeastItself(h: nat, p: nat)
    requires p > 0
    ensures h * p >= h
  {
  }

  // A flush sends what is staged, followed by zeros up to a whole byte, whatever else is in the word.
  lemma FlushAppends(w: WriterState)
    requires w.Valid()
    ensures FlushSpec(w).n == 0 && FlushSpec(w).Valid()
    ensures OfBytes(FlushSpec(w).out) == Join(Written(w), Bits(0, Padding(w.n)))
  {
    hide Pow2, Value, Put;
    if w.n == 0 {
      assert Pow2(0) == 1 by { Pow2Zero(); }
    } else {
      var pad := Padding(w.n);
      var want := (w.n + 7) / 8;
      assert 8 * want == w.n + pad;
      var word := w.bits * Pow2(pad) % TWO64;
      Word();
      ValueOfPut(word, want);
      PowerIsPow2(want);
      ModMod(w.bits * Pow2(pad), w.n + pad, 64);
      Pow2Positive(pad);
      JoinMod(w.bits, w.n, 0, pad);
      OfBytesAppend(w.out, Put(word, want));
      JoinAssoc(OfBytes(w.out), Bits(w.bits % Pow2(w.n), w.n), Bits(0, pad));
    }
  }

  lemma Pow2Zero()
    ensures Pow2(0) == 1
  {
  }

  lemma Pow2Positive(n: nat)
    ensures 0 < Pow2(n)
  {
  }

  // Writing a value with width k appends its low k bits, across the end of a staging word too, and ors the bits
  // above them into what was staged.
  lemma WriteExact(w: WriterState, v: nat, k: nat)
    requires w.Valid() && v < TWO64 && k <= 64
    ensures WriteSpec(w, v, k).Valid() && Spoiled(w, v, k).Valid()
    ensures Written(WriteSpec(w, v, k)) == Join(Join(OfBytes(w.out), Spoiled(w, v, k)), Bits(Low(v, k), k))
  {
    hide Pow2, Value, Written, Or, High, Low, Spoiled, Join, OfBytes;
    if w.n + k <= 64 {
      StageExact(w, v, k);
    } else {
      SpillExact(w, v, k);
    }
  }

  lemma SpillExact(w: WriterState, v: nat, k: nat)
    requires w.Valid() && v < TWO64 && k <= 64 < w.n + k
    ensures WriteSpec(w, v, k).Valid() && Spoiled(w, v, k).Valid()
    ensures Written(WriteSpec(w, v, k)) == Join(Join(OfBytes(w.out), Spoiled(w, v, k)), Bits(Low(v, k), k))
  {
    hide Pow2, Written, FlushSpec, Join, High, Low, Or, OfBytes;
    var move := 64 - w.n;
    var rest := k - move;
    var high, low := High(v, rest), Low(v, rest);
    HighShrinks(v, rest);
    CutTwice(v, move, rest);
    var w1 := if move > 0 then StageSpec(w, high, move) else w;
    if move > 0 {
      StageExact(w, high, move);
      assert Spoiled(w, high, move) == Spoiled(w, v, k);
    } else {
      FullWord(w, v, k);
      JoinEmpty(Written(w));
    }
    FlushFull(w1);
    SpillRest(w, v, k, w1);
    var front := Join(OfBytes(w.out), Spoiled(w, v, k));
    JoinAssoc(front, Bits(Low(high, move), move), Bits(low, rest));
  }

  // The second half: the low bits go into the fresh word.
  lemma SpillRest(w: WriterState, v: nat, k: nat, w1: WriterState)
    requires w.Valid() && v < TWO64 && k <= 64 < w.n + k
    requires w1.Valid() && w1.n == 64 && FlushSpec(w1).Valid() && FlushSpec(w1).n == 0
    ensures var rest := w.n + k - 64;
            var last := if rest < 64 then Low(v, rest) else v;
            var w2 := StageSpec(FlushSpec(w1), last, rest);
            w2.Valid() && Written(w2) == Join(Written(FlushSpec(w1)), Bits(Low(v, rest), rest))
  {
    hide Pow2, Written, FlushSpec, Join, High, Low, Or, OfBytes;
    var rest := w.n + k - 64;
    var last := if rest < 64 then Low(v, rest) else v;
    LowShrinks(v, rest);
    StageExact(FlushSpec(w1), last, rest);
    NothingStaged(FlushSpec(w1), last, rest);
    LowTwice(v, rest);
  }

  lemma LowShrinks(v: nat, n: nat)
    ensures Low(v, n) <= v
  {
    hide Pow2;
    HighLow(v, n);
    AtLeastZero(High(v, n), Pow2(n));
  }

  lemma AtLeastZero(h: nat, p: nat)
    ensures h * p >= 0
  {
  }

  lemma LowTwice(v: nat, n: nat)
    ensures Low(Low(v, n), n) == Low(v, n)
  {
    hide Pow2;
    HighLow(v, n);
    RemainderUnique(Low(v, n), Pow2(n), 0, Low(v, n));
  }

  // With nothing staged there is nothing to spoil.
  lemma NothingStaged(w: WriterState, v: nat, k: nat)
    requires w.n == 0
    ensures Join(OfBytes(w.out), Spoiled(w, v, k)) == Written(w)
  {
    assert Pow2(0) == 1 && Or(0, 0) == 0;
  }

  // The bits above the width are the bits above the part that fits the word.
  lemma CutTwice(v: nat, move: nat, rest: nat)
    ensures High(High(v, rest), move) == High(v, move + rest)
    ensures Join(Bits(Low(High(v, rest), move), move), Bits(Low(v, rest), rest))
         == Bits(Low(v, move + rest), move + rest)
  {
    hide Pow2, High, Low;
    HighLow(v, rest);
    HighLow(High(v, rest), move);
    HighLow(v, move + rest);
    Pow2Add(move, rest);
    var h, l, b := High(High(v, rest), move), Low(High(v, rest), move), Low(v, rest);
    var p, q := Pow2(move), Pow2(rest);
    Recombine(h, p, l, q, b);
    JoinMod(l, move, b, rest);
    RemainderUnique(l, p, 0, l);
    CutUnique(v, move + rest, h, l * q + b);
  }

  lemma Recombine(h: nat, p: nat, l: nat, q: nat, b: nat)
    ensures (h * p + l) * q + b == h * (p * q) + (l * q + b)
  {
  }

  lemma CutUnique(v: nat, n: nat, h: nat, l: nat)
    requires v == h * Pow2(n) + l && l < Pow2(n)
    ensures High(v, n) == h && Low(v, n) == l
  {
    RemainderUnique(v, Pow2(n), h, l);
  }

  // A full word keeps its bits.
  lemma FullWord(w: WriterState, v: nat, k: nat)
    requires w.Valid() && w.n == 64 && k > 0
    ensures Spoiled(w, v, k).Valid() && Written(w) == Join(OfBytes(w.out), Spoiled(w, v, k)) && Low(High(v, k), 0) == 0
  {
    hide Or;
    OrZero(w.bits % Pow2(64));
    assert Pow2(0) == 1;
  }

  // A value within its width is appended as it is.
  lemma WriteAppends(w: WriterState, v: nat, k: nat)
    requires w.Valid() && v < Pow2(k) && k <= 64
    ensures v < TWO64 && WriteSpec(w, v, k).Valid() && Written(WriteSpec(w, v, k)) == Join(Written(w), Bits(v, k))
  {
    hide Pow2, Value, Or, Join, OfBytes, WriteSpec;
    Word();
    Pow2Grows(k, 64);
    LowWhole(v, k);
    WriteExact(w, v, k);
    Pow2Positive(w.n);
    RemainderUnique(0, Pow2(w.n), 0, 0);
    OrZero(w.bits % Pow2(w.n));
  }

  // A wider one leaves what was staged alone exactly when its surplus bits are set there already.
  lemma SurplusHarmless(w: WriterState, v: nat, k: nat)
    requires w.Valid() && v < TWO64 && k <= 64
    ensures WriteSpec(w, v, k).Valid()
    ensures Written(WriteSpec(w, v, k)) == Join(Written(w), Bits(Low(v, k), k))
            <==> Or(w.bits % Pow2(w.n), Surplus(w, v, k)) == w.bits % Pow2(w.n)
  {
    hide Pow2, Value, Or, Join, OfBytes, WriteSpec, High, Low;
    WriteExact(w, v, k);
    HighLow(v, k);
    var tail := Bits(Low(v, k), k);
    var staged := Bits(w.bits % Pow2(w.n), w.n);
    Pow2Positive(w.n);
    if Written(WriteSpec(w, v, k)) == Join(Written(w), tail) {
      JoinInjective(Join(OfBytes(w.out), Spoiled(w, v, k)), tail, Written(w), tail);
      JoinInjective(OfBytes(w.out), Spoiled(w, v, k), OfBytes(w.out), staged);
    }
  }

  lemma LowWhole(v: nat, n: nat)
    requires v < Pow2(n)
    ensures Low(v, n) == v && High(v, n) == 0
  {
    RemainderUnique(v, Pow2(n), 0, v);
  }

  // Flushing a full word changes nothing of what is written.
  lemma FlushFull(w: WriterState)
    requires w.Valid() && w.n == 64
    ensures FlushSpec(w).Valid() && FlushSpec(w).n == 0 && Written(FlushSpec(w)) == Written(w)
  {
    hide Pow2, FlushSpec;
    FlushAppends(w);
    JoinEmpty(Written(w));
    FlushedWritten(FlushSpec(w));
  }

  lemma FlushedWritten(w: WriterState)
    requires w.n == 0
    ensures Written(w) == OfBytes(w.out)
  {
  }

  // ---- the reader ----

  datatype EndOfData = EndOfData

  // `data` is what the underlying reader still has.
  datatype ReaderState = ReaderState(data: bytes, n: nat, bits: nat) {
    predicate Valid() {
      n <= 64 && bits < Pow2(n)
    }
  }

  function Unread(r: ReaderState): Bits {
    Join(Bits(r.bits, r.n), OfBytes(r.data))
  }

  // Bytes shifted into a 64-bit word one after the other.
  function ShiftIn(word: nat, b: bytes): nat {
    if b == [] then word else ShiftIn(word, b[..|b| - 1]) * 256 % TWO64 + b[|b| - 1]
  }

  // The bytes that have to be fetched to have k bits staged.
  function Missing(r: ReaderState, k: nat): (want: nat)
    ensures r.n + 8 * want >= k
    ensures r.n < k ==> r.n + 8 * want < k + 8
  {
    if r.n < k then (k - r.n + 7) / 8 else 0
  }

  function ReadSpec(r: ReaderState, k: nat): (ReaderState, Result<nat, EndOfData>) {
    var want := Missing(r, k);
    if |r.data| < want then (r.(data := []), Err(EndOfData))
    else
      var word := ShiftIn(r.bits, r.data[..want]);
      var left := r.n + 8 * want - k;
      (ReaderState(r.data[want..], left, Low(word, left)), Ok(High(word, left)))
  }

  class Reader {
    var data: bytes
    var n: nat
    var bits: nat

    function View(): ReaderState
      reads this
    {
      ReaderState(data, n, bits)
    }

    constructor (source: bytes)
      ensures View() == ReaderState(source, 0, 0)
    {
      data := source;
      n := 0;
      bits := 0;
    }

    // The bytes are shifted into the staging word one by one.
    method Stage(b: bytes)
      modifies this`bits, this`n
      ensures bits == ShiftIn(old(bits), b) && n == old(n) + 8 * |b|
    {
      var i := 0;
      assert b[..0] == [];
      while i < |b|
        invariant 0 <= i <= |b| && n == old(n)
        invariant bits == ShiftIn(old(bits), b[..i])
      {
        assert b[..i + 1][..i] == b[..i];
        bits := bits * 256 % TWO64 + b[i];
        i := i + 1;
      }
      assert b[..i] == b;
      n := n + |b| * 8;
    }

    // At most 64 bits, the size of the buffer that is read into.
    method ReadBits64(k: nat) returns (r: Result<nat, EndOfData>)
      requires k <= 64
      modifies this
      ensures (View(), r) == ReadSpec(old(View()), k)
    {
      hide High, Low;
      if n < k {
        var want := (k - n + 7) / 8;
        if |data| < want {
          data := [];
          return Err(EndOfData);
        }
        Stage(data[..want]);
        data := data[want..];
      } else {
        assert data[..0] == [] && data[0..] == data;
      }
      var v := High(bits, n - k);
      bits := Low(bits, n - k);
      n := n - k;
      return Ok(v);
    }
  }

  lemma {:induction false} ShiftInValue(word: nat, b: bytes)
    requires word < TWO64
    ensures ShiftIn(word, b) == (word * Power256(|b|) + Value(b)) % TWO64
  {
    if b == [] {
      RemainderUnique(word, TWO64, 0, word);
    } else {
      var m := |b| - 1;
      ShiftInValue(word, b[..m]);
      var x := word * Power256(m) + Value(b[..m]);
      Shift256(word, Power256(m), Value(b[..m]), b[m]);
      ShiftWraps(x, b[m]);
    }
  }

  lemma ShiftWraps(x: nat, d: byte)
    ensures x % TWO64 * 256 % TWO64 + d == (256 * x + d) % TWO64
  {
    var p := TWO64 / 256;
    var y := x % TWO64;
    ShiftDigit(256 * x + d, p);
    ShiftDigit(y * 256, p);
    RemainderUnique(256 * x + d, 256, x, d);
    RemainderUnique(y * 256, 256, y, 0);
    assert y % p == x % p by {
      assert x == p * (256 * (x / TWO64) + y / p) + y % p;
      RemainderUnique(x, p, 256 * (x / TWO64) + y / p, y % p);
    }
  }

  // A read gives the leading k bits of what is unread exactly when no staged bit is shifted out of the word.
  lemma ReadExact(r: ReaderState, k: nat)
    requires r.Valid() && k <= 64 && |r.data| >= Missing(r, k)
    ensures var (r', v) := ReadSpec(r, k);
            var want := Missing(r, k);
            v.Ok? && (Bits(v.value, k).Valid() && r'.Valid() && Unread(r) == Join(Bits(v.value, k), Unread(r'))
                      <==> r.bits * Power256(want) + Value(r.data[..want]) < TWO64)
  {
    hide Pow2, Value, Power256, High, Low, ShiftIn, OfBytes;
    var want := Missing(r, k);
    var tail := r.data[want..];
    var full := r.bits * Power256(want) + Value(r.data[..want]);
    var left := r.n + 8 * want - k;
    StagedWord(r, want);
    UnreadSplit(r, want);
    OfBytesValid(tail);
    ReadWord(ShiftIn(r.bits, r.data[..want]), full, k, left, OfBytes(tail));
  }

  // Cutting the machine word instead of the true value makes no difference exactly when they are equal.
  lemma ReadWord(word: nat, full: nat, k: nat, left: nat, tail: Bits)
    requires word == full % TWO64 && full < Pow2(k + left) && tail.Valid()
    ensures Bits(High(word, left), k).Valid() && Bits(Low(word, left), left).Valid()
            && Join(Bits(full, k + left), tail)
               == Join(Bits(High(word, left), k), Join(Bits(Low(word, left), left), tail))
            <==> full < TWO64
  {
    hide Pow2, High, Low, Join;
    var a, b := Bits(High(word, left), k), Bits(Low(word, left), left);
    HighLow(word, left);
    JoinAssoc(a, b, tail);
    JoinIs(a, b);
    if full < TWO64 {
      RemainderUnique(full, TWO64, 0, full);
      HighBound(full, k, left);
    } else if Join(Bits(full, k + left), tail) == Join(a, Join(b, tail)) {
      JoinInjective(Bits(full, k + left), tail, Join(a, b), tail);
    }
  }

  lemma JoinIs(a: Bits, b: Bits)
    ensures Join(a, b) == Bits(a.v * Pow2(b.n) + b.v, a.n + b.n)
  {
  }

  // The word after shifting, and the true value that it should hold.
  lemma StagedWord(r: ReaderState, want: nat)
    requires r.Valid() && want <= |r.data|
    ensures ShiftIn(r.bits, r.data[..want]) == (r.bits * Power256(want) + Value(r.data[..want])) % TWO64 < TWO64
    ensures Bits(r.bits * Power256(want) + Value(r.data[..want]), r.n + 8 * want).Valid()
  {
    hide Pow2, Value;
    Word();
    Pow2Grows(r.n, 64);
    ShiftInValue(r.bits, r.data[..want]);
    OfBytesValid(r.data[..want]);
    PowerIsPow2(want);
    JoinValid(Bits(r.bits, r.n), OfBytes(r.data[..want]));
  }

  lemma UnreadSplit(r: ReaderState, want: nat)
    requires want <= |r.data|
    ensures Unread(r)
         == Join(Bits(r.bits * Power256(want) + Value(r.data[..want]), r.n + 8 * want), OfBytes(r.data[want..]))
  {
    hide Pow2, Value;
    assert r.data == r.data[..want] + r.data[want..];
    OfBytesAppend(r.data[..want], r.data[want..]);
    JoinAssoc(Bits(r.bits, r.n), OfBytes(r.data[..want]), OfBytes(r.data[want..]));
    PowerIsPow2(want);
  }

  // Up to 57 bits at a time nothing is ever shifted out.
  lemma ReadFits(r: ReaderState, k: nat)
    requires r.Valid() && r.n < 8 && k <= 57 && |r.data| >= Missing(r, k)
    ensures var want := Missing(r, k);
            r.bits * Power256(want) + Value(r.data[..want]) < TWO64
  {
    hide Pow2, Value;
    var want := Missing(r, k);
    StagedWord(r, want);
    Pow2Grows(r.n + 8 * want, 64);
    Word();
  }

  // The reader keeps less than a byte staged, and its next read is the front of what is unread.
  lemma ReadTakes(r: ReaderState, v: nat, k: nat, rest: Bits)
    requires r.Valid() && r.n < 8 && k <= 57 && v < Pow2(k) && rest.Valid() && Unread(r) == Join(Bits(v, k), rest)
    ensures var (r', got) := ReadSpec(r, k);
            got == Ok(v) && r'.Valid() && r'.n < 8 && Unread(r') == rest
  {
    hide Pow2, Value;
    assert r.n + 8 * |r.data| >= k;
    assert |r.data| >= Missing(r, k);
    ReadFits(r, k);
    ReadExact(r, k);
    var (r', got) := ReadSpec(r, k);
    UnreadValid(r');
    JoinInjective(Bits(got.value, k), Unread(r'), Bits(v, k), rest);
  }

  lemma UnreadValid(r: ReaderState)
    requires r.Valid()
    ensures Unread(r).Valid()
  {
    OfBytesValid(r.data);
    JoinValid(Bits(r.bits, r.n), OfBytes(r.data));
  }

  // From a fresh reader, seven bits and then sixty-four: the bit staged in between is lost, so the second value is
  // 0 where the data spell 2^63.
  lemma WideReadLosesBits()
    ensures var r0 := ReaderState([1, 0, 0, 0, 0, 0, 0, 0, 0], 0, 0);
            var (r1, first) := ReadSpec(r0, 7);
            && r0.Valid() && r1.Valid() && first == Ok(0) && ReadSpec(r1, 64).1 == Ok(0)
            && Unread(r1) == Join(Bits(Pow2(63), 64), Bits(0, 1))
  {
    hide ReadSpec, Join;
    FirstSeven();
    NextSixtyFour();
  }

  const BEHIND_SEVEN := ReaderState([0, 0, 0, 0, 0, 0, 0, 0], 1, 1)

  lemma FirstSeven()
    ensures ReadSpec(ReaderState([1, 0, 0, 0, 0, 0, 0, 0, 0], 0, 0), 7) == (BEHIND_SEVEN, Ok(0))
    ensures ReaderState([1, 0, 0, 0, 0, 0, 0, 0, 0], 0, 0).Valid() && BEHIND_SEVEN.Valid()
  {
    hide ShiftIn, Power256, High, Low;
    var data: bytes := [1, 0, 0, 0, 0, 0, 0, 0, 0];
    assert data[..1] == [1] && data[1..] == BEHIND_SEVEN.data;
    ShiftInValue(0, [1]);
    OneByte();
    assert ShiftIn(0, [1]) == 1;
    CutUnique(1, 1, 0, 1);
  }

  lemma NextSixtyFour()
    ensures ReadSpec(BEHIND_SEVEN, 64).1 == Ok(0) && Unread(BEHIND_SEVEN) == Join(Bits(Pow2(63), 64), Bits(0, 1))
  {
    hide ShiftIn, Power256, High, Low, Pow2;
    var data := BEHIND_SEVEN.data;
    assert data[..8] == data;
    ShiftInValue(1, data);
    Zeros(data);
    PowerIsPow2(8);
    Word();
    OneByte();
    CutUnique(0, 1, 0, 0);
    Pow2Add(1, 63);
  }

  lemma OneByte()
    ensures Value([1]) == 1 && Power256(1) == 256 && Pow2(1) == 2
  {
    assert [1][..0] == [];
    assert Value([]) == 0;
  }

  lemma {:induction false} Zeros(b: bytes)
    requires forall i :: 0 <= i < |b| ==> b[i] == 0
    ensures Value(b) == 0
  {
    if b != [] {
      Zeros(b[..|b| - 1]);
    }
  }

  // ---- round trip ----

  // Items are at most 57 bits wide and within their width.
  ghost predicate Writable(items: seq<Bits>) {
    forall i :: 0 <= i < |items| ==> items[i].n <= 57 && items[i].Valid()
  }

  // Items of 64-bit values, as wide as the writer takes them.
  ghost predicate Storable(items: seq<Bits>) {
    forall i :: 0 <= i < |items| ==> items[i].n <= 64 && items[i].v < TWO64
  }

  lemma WritableIsStorable(items: seq<Bits>)
    requires Writable(items)
    ensures Storable(items)
  {
    hide Pow2;
    Word();
    forall i | 0 <= i < |items|
      ensures items[i].n <= 64 && items[i].v < TWO64
    {
      Pow2Grows(items[i].n, 64);
    }
  }

  function WriteAll(w: WriterState, items: seq<Bits>): WriterState
    requires w.Valid() && Storable(items)
    decreases |items|
  {
    if items == [] then w
    else
      WriteExact(w, items[0].v, items[0].n);
      WriteAll(WriteSpec(w, items[0].v, items[0].n), items[1..])
  }

  function Encode(items: seq<Bits>): bytes
    requires Storable(items)
  {
    FlushSpec(WriteAll(WriterState([], 0, 0), items)).out
  }

  // The values read with the widths of the items, or None when the data ends too soon.
  function ReadAll(r: ReaderState, widths: seq<nat>): Option<seq<nat>>
    decreases |widths|
  {
    if widths == [] then Some([])
    else
      var (r', v) := ReadSpec(r, widths[0]);
      if v.Err? then None
      else
        var rest := ReadAll(r', widths[1..]);
        if rest.None? then None else Some([v.value] + rest.value)
  }

  function JoinAll(items: seq<Bits>): Bits {
    if items == [] then Bits(0, 0) else Join(items[0], JoinAll(items[1..]))
  }

  function Values(items: seq<Bits>): (vs: seq<nat>)
    ensures |vs| == |items|
  {
    if items == [] then [] else [items[0].v] + Values(items[1..])
  }

  function Widths(items: seq<Bits>): (ns: seq<nat>)
    ensures |ns| == |items|
  {
    if items == [] then [] else [items[0].n] + Widths(items[1..])
  }

  lemma {:induction false} WriteAllAppends(w: WriterState, items: seq<Bits>)
    requires w.Valid() && Writable(items)
    ensures Storable(items)
    ensures WriteAll(w, items).Valid() && Written(WriteAll(w, items)) == Join(Written(w), JoinAll(items))
    decreases |items|
  {
    hide Written, WriteSpec;
    WritableIsStorable(items);
    if items == [] {
      JoinEmpty(Written(w));
    } else {
      WriteAppends(w, items[0].v, items[0].n);
      WriteAllAppends(WriteSpec(w, items[0].v, items[0].n), items[1..]);
      JoinAssoc(Written(w), items[0], JoinAll(items[1..]));
    }
  }

  lemma {:induction false} JoinAllValid(items: seq<Bits>)
    requires Writable(items)
    ensures JoinAll(items).Valid()
  {
    if items != [] {
      JoinAllValid(items[1..]);
      JoinValid(items[0], JoinAll(items[1..]));
    }
  }

  // The zeros after the last item.
  function PadOf(items: seq<Bits>): nat
    requires Storable(items)
  {
    Padding(WriteAll(WriterState([], 0, 0), items).n)
  }

  // The bytes of an encoding spell the items and then zeros.
  lemma EncodedBits(items: seq<Bits>)
    requires Writable(items)
    ensures Storable(items)
    ensures OfBytes(Encode(items)) == Join(JoinAll(items), Bits(0, PadOf(items)))
  {
    hide Written, WriteAll, FlushSpec, Join, OfBytes, JoinAll;
    var w0 := WriterState([], 0, 0);
    WriteAllAppends(w0, items);
    FlushAppends(WriteAll(w0, items));
    NothingWritten();
    JoinEmpty(JoinAll(items));
  }

  lemma NothingWritten()
    ensures WriterState([], 0, 0).Valid() && Written(WriterState([], 0, 0)) == Bits(0, 0)
  {
  }

  lemma {:induction false} ReadAllTakes(r: ReaderState, items: seq<Bits>, tail: Bits)
    requires r.Valid() && r.n < 8 && Writable(items) && tail.Valid() && Unread(r) == Join(JoinAll(items), tail)
    ensures ReadAll(r, Widths(items)) == Some(Values(items))
    decreases |items|
  {
    hide Unread, ReadSpec, Pow2;
    if items != [] {
      var rest := JoinAll(items[1..]);
      JoinAssoc(items[0], rest, tail);
      JoinAllValid(items[1..]);
      JoinValid(rest, tail);
      ReadTakes(r, items[0].v, items[0].n, Join(rest, tail));
      ReadAllTakes(ReadSpec(r, items[0].n).0, items[1..], tail);
      assert Widths(items)[1..] == Widths(items[1..]);
    }
  }

  // Values written with widths up to 57 and flushed are read back with the same widths, whatever a flush in
  // between left in the staging word.
  lemma BitRoundTrip(items: seq<Bits>)
    requires Writable(items)
    ensures Storable(items)
    ensures ReadAll(ReaderState(Encode(items), 0, 0), Widths(items)) == Some(Values(items))
  {
    hide Encode, ReadAll, PadOf, Join, OfBytes;
    EncodedBits(items);
    var r := ReaderState(Encode(items), 0, 0);
    JoinEmpty(OfBytes(Encode(items)));
    Pow2Zero();
    Pow2Positive(PadOf(items));
    ReadAllTakes(r, items, Bits(0, PadOf(items)));
  }
}
