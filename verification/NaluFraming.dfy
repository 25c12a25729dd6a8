/** The two framings of a list of NAL units: AVCC length prefixes and Annex B start codes. */
module NaluFraming {
  import opened Bytes
  import opened StartCodes

  datatype Framing = Raw | Avcc | AnnexB

  // Each unit behind its 32-bit length.
  function AvccOf(nalus: seq<bytes>): bytes {
    if nalus == [] then [] else PutU32(|nalus[0]|) + nalus[0] + AvccOf(nalus[1..])
  }

  // Each unit behind a four-byte start code.
  function AnnexBOf(nalus: seq<bytes>): bytes {
    if nalus == [] then [] else CODE4 + nalus[0] + AnnexBOf(nalus[1..])
  }

  lemma {:induction false} AvccSnoc(nalus: seq<bytes>, n: bytes)
    ensures AvccOf(nalus + [n]) == AvccOf(nalus) + (PutU32(|n|) + n)
  {
    if nalus == [] {
      assert nalus + [n] == [n] && [n][1..] == [];
    } else {
      assert (nalus + [n])[1..] == nalus[1..] + [n];
      AvccSnoc(nalus[1..], n);
    }
  }

  // h264parser's AnnexBToAVCC, which takes the units themselves.
  method EncodeAvcc(nalus: seq<bytes>) returns (out: bytes)
    ensures out == AvccOf(nalus)
  {
    out := [];
    var i := 0;
    while i < |nalus|
      invariant 0 <= i <= |nalus| && out == AvccOf(nalus[..i])
    {
      assert nalus[..i + 1] == nalus[..i] + [nalus[i]];
      AvccSnoc(nalus[..i], nalus[i]);
      out := out + (PutU32(|nalus[i]|) + nalus[i]);
      i := i + 1;
    }
    assert nalus[..i] == nalus;
  }

  ghost predicate Short(nalus: seq<bytes>) {
    forall k :: 0 <= k < |nalus| ==> |nalus[k]| < TWO32
  }

  lemma {:induction false} ShortFromTotal(nalus: seq<bytes>)
    requires |AvccOf(nalus)| < TWO32
    ensures Short(nalus)
  {
    if nalus != [] {
      ShortFromTotal(nalus[1..]);
    }
  }

  // A list of units is determined by its AVCC framing.
  lemma {:induction false} AvccInjective(a: seq<bytes>, b: seq<bytes>)
    requires Short(a) && Short(b) && AvccOf(a) == AvccOf(b)
    ensures a == b
  {
    hide PutU32;
    if a != [] && b != [] {
      var x, y := AvccOf(a), AvccOf(b);
      assert x[..4] == PutU32(|a[0]|) && y[..4] == PutU32(|b[0]|);
      PutU32Injective(|a[0]|, |b[0]|);
      var n := |a[0]|;
      assert x[4..4 + n] == a[0] && y[4..4 + n] == b[0];
      assert x[4 + n..] == AvccOf(a[1..]) && y[4 + n..] == AvccOf(b[1..]);
      AvccInjective(a[1..], b[1..]);
      assert a == [a[0]] + a[1..] && b == [b[0]] + b[1..];
    }
  }

  // ---- detection ----

  function Detect(b: bytes): Framing {
    if |b| < 4 then Raw
    else if b[0] == 0 && b[1] == 0 && b[2] == 0 && b[3] == 1 then AnnexB
    else if 0 < U32(b, 0) <= |b| - 4 then Avcc
    else if b[0] == 0 && b[1] == 0 && b[2] == 1 then AnnexB
    else Raw
  }

  // ---- splitting AVCC data ----

  // The units from a length prefix at `off` on, and where the walk stops.
  function AvccWalk(b: bytes, off: nat): (r: (seq<bytes>, nat))
    requires off + 4 <= |b|
    ensures r.1 <= |b|
    decreases |b| - off
  {
    var size := U32(b, off);
    var p := off + 4;
    if size > (|b| - p) % TWO32 || size > |b| - p then ([], p)
    else if |b| - (p + size) < 4 then ([b[p..p + size]], p + size)
    else
      var (rest, end) := AvccWalk(b, p + size);
      ([b[p..p + size]] + rest, end)
  }

  // ---- splitting Annex B data ----

  // The next start code at or after i, the length of the data when there is none.
  function ScanCode(b: bytes, i: nat): (e: nat)
    requires i <= |b|
    ensures i <= e <= |b|
    ensures e < |b| ==> CodeLen(b, e) > 0
    ensures forall k :: i <= k < e ==> CodeLen(b, k) == 0
    decreases |b| - i
  {
    if i == |b| || CodeLen(b, i) > 0 then i else ScanCode(b, i + 1)
  }

  // The non-empty units from the start code at i on.
  function AnnexBWalk(b: bytes, i: nat): seq<bytes>
    requires i < |b| && CodeLen(b, i) > 0
    decreases |b| - i
  {
    var s := i + CodeLen(b, i);
    var e := ScanCode(b, s);
    var rest := if e < |b| then AnnexBWalk(b, e) else [];
    if s == e then rest else [b[s..e]] + rest
  }

  function SplitSpec(b: bytes): (seq<bytes>, Framing) {
    match Detect(b)
    case AnnexB => (AnnexBWalk(b, 0), AnnexB)
    case Avcc =>
      var (nalus, end) := AvccWalk(b, 0);
      if end == |b| then (nalus, Avcc) else ([b], Raw)
    case Raw => ([b], Raw)
  }

  // The positions of the start codes from i on.
  function Starts(b: bytes, i: nat): (idx: seq<nat>)
    requires i <= |b|
    ensures forall k :: 0 <= k < |idx| ==> i <= idx[k] < |b| && CodeLen(b, idx[k]) > 0
    ensures forall k :: 0 <= k < |idx| - 1 ==> idx[k] < idx[k + 1]
    decreases |b| - i
  {
    if i == |b| then []
    else if CodeLen(b, i) > 0 then [i] + Starts(b, i + CodeLen(b, i))
    else Starts(b, i + 1)
  }

  // The non-empty units that start at the positions, each reaching to the next one.
  function Extract(b: bytes, idx: seq<nat>): seq<bytes>
    requires forall k :: 0 <= k < |idx| ==> idx[k] < |b|
    requires forall k :: 0 <= k < |idx| - 1 ==> idx[k] < idx[k + 1]
    decreases |idx|
  {
    if idx == [] then []
    else
      var nalu := b[idx[0]..if |idx| > 1 then idx[1] else |b|];
      var off := CodeLen(nalu, 0);
      var rest := Extract(b, idx[1..]);
      if off >= |nalu| then rest else [nalu[off..]] + rest
  }

  lemma {:induction false} StartsSkip(b: bytes, i: nat)
    requires i <= |b|
    ensures Starts(b, i) == if ScanCode(b, i) == |b| then [] else Starts(b, ScanCode(b, i))
    decreases |b| - i
  {
    if i < |b| && CodeLen(b, i) == 0 {
      StartsSkip(b, i + 1);
    }
  }

  lemma StartsHead(b: bytes, i: nat)
    requires i < |b| && CodeLen(b, i) > 0
    ensures var s := i + CodeLen(b, i);
            var e := ScanCode(b, s);
            && Starts(b, i) == [i] + Starts(b, s)
            && (if e < |b| then Starts(b, s) != [] && Starts(b, s)[0] == e else Starts(b, s) == [])
  {
    var s := i + CodeLen(b, i);
    StartsSkip(b, s);
  }

  // Extraction at the positions found is the walk from code to code.
  lemma {:induction false} ExtractWalk(b: bytes, i: nat)
    requires i < |b| && CodeLen(b, i) > 0
    ensures Extract(b, Starts(b, i)) == AnnexBWalk(b, i)
    decreases |b| - i
  {
    var s := i + CodeLen(b, i);
    var e := ScanCode(b, s);
    StartsHead(b, i);
    StartsSkip(b, s);
    var nalu := b[i..e];
    assert CodeLen(nalu, 0) == CodeLen(b, i);
    assert nalu[CodeLen(b, i)..] == b[s..e];
    assert Starts(b, i)[1..] == Starts(b, s);
    if e < |b| {
      ExtractWalk(b, e);
    }
  }

  method FindStarts(b: bytes) returns (idx: seq<nat>)
    ensures idx == Starts(b, 0)
  {
    idx := [];
    var i: nat := 0;
    while i < |b|
      invariant 0 <= i <= |b| && idx + Starts(b, i) == Starts(b, 0)
    {
      var scLen := CodeLen(b, i);
      if scLen > 0 {
        assert idx + ([i] + Starts(b, i + scLen)) == idx + [i] + Starts(b, i + scLen);
        idx := idx + [i];
        i := i + scLen;
      } else {
        i := i + 1;
      }
    }
  }

  method ExtractUnits(b: bytes, idx: seq<nat>) returns (nalus: seq<bytes>)
    requires forall k :: 0 <= k < |idx| ==> idx[k] < |b|
    requires forall k :: 0 <= k < |idx| - 1 ==> idx[k] < idx[k + 1]
    ensures nalus == Extract(b, idx)
  {
    hide CodeLen;
    nalus := [];
    var k := 0;
    assert idx[0..] == idx;
    while k < |idx|
      invariant 0 <= k <= |idx| && nalus + Extract(b, idx[k..]) == Extract(b, idx)
    {
      var end := if k + 1 < |idx| then idx[k + 1] else |b|;
      var nalu := b[idx[k]..end];
      assert idx[k..][1..] == idx[k + 1..];
      var off := CodeLen(nalu, 0);
      if off < |nalu| {
        assert nalus + ([nalu[off..]] + Extract(b, idx[k + 1..])) == nalus + [nalu[off..]] + Extract(b, idx[k + 1..]);
        nalus := nalus + [nalu[off..]];
      }
      k := k + 1;
    }
  }

  method SplitAnnexB(b: bytes) returns (nalus: seq<bytes>)
    requires |b| > 0 && CodeLen(b, 0) > 0
    ensures nalus == AnnexBWalk(b, 0)
  {
    var idx := FindStarts(b);
    nalus := ExtractUnits(b, idx);
    ExtractWalk(b, 0);
  }

  // The walk from `off` on, after the units already found.
  ghost predicate WalkedTo(b: bytes, nalus: seq<bytes>, off: nat)
    requires |b| >= 4
  {
    off + 4 <= |b| && AvccWalk(b, 0) == (nalus + AvccWalk(b, off).0, AvccWalk(b, off).1)
  }

  lemma WalkedStep(b: bytes, nalus: seq<bytes>, off: nat)
    requires |b| >= 4 && WalkedTo(b, nalus, off)
    ensures var size := U32(b, off);
            var p := off + 4;
            if size > (|b| - p) % TWO32 || size > |b| - p then AvccWalk(b, 0) == (nalus, p)
            else if |b| - (p + size) < 4 then AvccWalk(b, 0) == (nalus + [b[p..p + size]], p + size)
            else WalkedTo(b, nalus + [b[p..p + size]], p + size)
  {
    hide U32;
    var size := U32(b, off);
    var p := off + 4;
    if size > (|b| - p) % TWO32 || size > |b| - p {
      assert nalus + [] == nalus;
    } else if |b| - (p + size) >= 4 {
      var rest := AvccWalk(b, p + size).0;
      assert nalus + ([b[p..p + size]] + rest) == nalus + [b[p..p + size]] + rest;
    }
  }

  // The units of AVCC data, and how many bytes are left over.
  method SplitAvcc(b: bytes) returns (nalus: seq<bytes>, left: nat)
    requires |b| >= 4
    ensures nalus == AvccWalk(b, 0).0 && left == |b| - AvccWalk(b, 0).1
  {
    hide U32;
    nalus := [];
    var off: nat := 0;
    assert [] + AvccWalk(b, 0).0 == AvccWalk(b, 0).0;
    assert WalkedTo(b, nalus, off);
    hide AvccWalk, WalkedTo;
    while true
      invariant off + 4 <= |b| && WalkedTo(b, nalus, off)
      decreases |b| - off
    {
      WalkedStep(b, nalus, off);
      var size := U32(b, off);
      var p := off + 4;
      if size > (|b| - p) % TWO32 || size > |b| - p {
        return nalus, |b| - p;
      }
      nalus := nalus + [b[p..p + size]];
      if |b| - (p + size) < 4 {
        return nalus, |b| - (p + size);
      }
      off := p + size;
    }
  }

  method SplitNALUs(b: bytes) returns (nalus: seq<bytes>, kind: Framing)
    ensures (nalus, kind) == SplitSpec(b)
  {
    var found := Detect(b);
    if found == AnnexB {
      assert CodeLen(b, 0) > 0;
      nalus := SplitAnnexB(b);
      return nalus, AnnexB;
    }
    if found == Avcc {
      var left;
      nalus, left := SplitAvcc(b);
      if left == 0 {
        return nalus, Avcc;
      }
    }
    return [b], Raw;
  }

  // ---- AVCC framing is recognised and undone ----

  // The walk over data that ends in an AVCC framing, from where that begins.
  lemma {:induction false} WalkAvcc(pre: bytes, nalus: seq<bytes>)
    requires nalus != [] && |pre + AvccOf(nalus)| < TWO32
    ensures AvccWalk(pre + AvccOf(nalus), |pre|) == (nalus, |pre + AvccOf(nalus)|)
    decreases |nalus|
  {
    hide U32;
    var b := pre + AvccOf(nalus);
    var n, rest := nalus[0], AvccOf(nalus[1..]);
    AvccPlaced(pre, n, rest);
    if |nalus| == 1 {
      assert nalus == [n];
    } else {
      WalkAvcc(pre + PutU32(|n|) + n, nalus[1..]);
      assert nalus == [n] + nalus[1..];
    }
  }

  lemma AvccPlaced(pre: bytes, n: bytes, rest: bytes)
    requires |n| < TWO32
    ensures var b := pre + (PutU32(|n|) + n + rest);
            var p := |pre| + 4;
            && b == pre + PutU32(|n|) + n + rest && |b| == p + |n| + |rest|
            && U32(b, |pre|) == |n| && b[p..p + |n|] == n
  {
    hide PutU32, U32;
    var b := pre + (PutU32(|n|) + n + rest);
    assert b == pre + PutU32(|n|) + n + rest;
    assert b[|pre|..|pre| + 4] == PutU32(|n|);
    U32OfPut(b, |pre|, |n|);
  }

  lemma FirstPrefix(nalus: seq<bytes>)
    requires nalus != [] && |AvccOf(nalus)| < TWO32
    ensures var b := AvccOf(nalus);
            |b| >= 4 + |nalus[0]| && U32(b, 0) == |nalus[0]| && b[0..4] == PutU32(|nalus[0]|)
  {
    hide PutU32, U32;
    var b := AvccOf(nalus);
    assert b[0..4] == PutU32(|nalus[0]|);
    U32OfPut(b, 0, |nalus[0]|);
  }

  // A prefix that spells a four-byte start code is the length 1.
  lemma PrefixIsOne(b: bytes)
    requires |b| >= 4
    ensures b[0] == 0 && b[1] == 0 && b[2] == 0 && b[3] == 1 <==> U32(b, 0) == 1
  {
    var one := b[0..4];
    if U32(b, 0) == 1 {
      ValueInjective(one, [0, 0, 0, 1]) by { ValueOfOne(); }
      assert one[0] == 0 && one[1] == 0 && one[2] == 0 && one[3] == 1;
    } else if b[0] == 0 && b[1] == 0 && b[2] == 0 && b[3] == 1 {
      assert one == [0, 0, 0, 1];
      ValueOfOne();
    }
  }

  lemma ValueOfOne()
    ensures Value([0, 0, 0, 1]) == 1 && Value([0, 0, 0, 0]) == 0
  {
    assert [0, 0, 0, 1][..3] == [0, 0, 0] && [0, 0, 0, 0][..3] == [0, 0, 0];
    assert [0, 0, 0][..2] == [0, 0] && [0, 0][..1] == [0] && [0][..0] == [];
    assert Value([0]) == 0 && Value([0, 0]) == 0 && Value([0, 0, 0]) == 0;
  }

  // An AVCC framing of less than 2^32 bytes is split back into its units and called AVCC exactly when its first
  // unit has at least two bytes, also where the length prefix looks like a three-byte start code.
  lemma AvccRecognised(nalus: seq<bytes>)
    requires |AvccOf(nalus)| < TWO32
    ensures SplitSpec(AvccOf(nalus)) == (nalus, Avcc) <==> nalus != [] && |nalus[0]| >= 2
  {
    hide PutU32, U32, AnnexBWalk, AvccWalk;
    var b := AvccOf(nalus);
    if nalus != [] {
      FirstPrefix(nalus);
      PrefixIsOne(b);
      WalkAvcc([], nalus);
      assert [] + b == b;
    }
  }

  // ---- every unit split off Annex B data is clean ----

  lemma {:induction false} WalkClean(b: bytes, i: nat)
    requires i < |b| && CodeLen(b, i) > 0
    ensures forall k :: 0 <= k < |AnnexBWalk(b, i)| ==> AnnexBWalk(b, i)[k] != [] && CodeFree(AnnexBWalk(b, i)[k])
    decreases |b| - i
  {
    var s := i + CodeLen(b, i);
    var e := ScanCode(b, s);
    UnitClean(b, s, e);
    if e < |b| {
      WalkClean(b, e);
    }
  }

  lemma UnitClean(b: bytes, s: nat, e: nat)
    requires s <= e <= |b| && forall k :: s <= k < e ==> CodeLen(b, k) == 0
    ensures CodeFree(b[s..e])
  {
    forall j: nat
      ensures !CodeAt(b[s..e], j)
    {
      assert CodeAt(b[s..e], j) ==> CodeAt(b, s + j) && s + j < e;
      assert s + j < e ==> CodeLen(b, s + j) == 0;
    }
  }

  ghost predicate AllClean(nalus: seq<bytes>) {
    forall k :: 0 <= k < |nalus| ==> nalus[k] != [] && CodeFree(nalus[k])
  }

  // Inside a unit that is followed by the end or by a four-byte code, a code can only be one of the unit's own.
  lemma CodesInside(b: bytes, s: nat, n: bytes, i: nat)
    requires s + |n| <= |b| && b[s..s + |n|] == n && (s + |n| == |b| || CodeLen(b, s + |n|) == 4)
    requires s <= i < s + |n|
    ensures CodeLen(b, i) == CodeLen(n, i - s)
  {
    forall j | 0 <= j < |n|
      ensures b[s + j] == n[j]
    {
      assert b[s + j] == b[s..s + |n|][j];
    }
  }

  lemma {:induction false} WalkAnnexB(pre: bytes, nalus: seq<bytes>)
    requires nalus != [] && AllClean(nalus)
    ensures var b := pre + AnnexBOf(nalus);
            |pre| < |b| && CodeLen(b, |pre|) == 4 && AnnexBWalk(b, |pre|) == nalus
    decreases |nalus|
  {
    hide CodeLen, AnnexBWalk, CodeFree;
    var b := pre + AnnexBOf(nalus);
    var n, rest := nalus[0], AnnexBOf(nalus[1..]);
    AnnexBPlaced(pre, n, rest);
    if |nalus| > 1 {
      WalkAnnexB(pre + CODE4 + n, nalus[1..]);
    }
    WalkOne(b, |pre|, n);
    assert nalus == [n] + nalus[1..];
  }

  // One clean unit between its code and the next one, or the end.
  lemma WalkOne(b: bytes, i: nat, n: bytes)
    requires i < |b| && CodeLen(b, i) == 4 && i + 4 + |n| <= |b| && b[i + 4..i + 4 + |n|] == n
    requires n != [] && CodeFree(n) && (i + 4 + |n| == |b| || CodeLen(b, i + 4 + |n|) == 4)
    ensures AnnexBWalk(b, i) == [n] + (if i + 4 + |n| < |b| then AnnexBWalk(b, i + 4 + |n|) else [])
  {
    hide CodeLen, CodeFree;
    var s := i + 4;
    forall k | s <= k < s + |n|
      ensures CodeLen(b, k) == 0
    {
      CodesInside(b, s, n, k);
      NoCode(n, k - s);
    }
    assert ScanCode(b, s) == s + |n|;
  }

  lemma NoCode(n: bytes, i: nat)
    requires CodeFree(n)
    ensures CodeLen(n, i) == 0
  {
    assert !CodeAt(n, i) && !CodeAt(n, i + 1);
  }

  lemma AnnexBPlaced(pre: bytes, n: bytes, rest: bytes)
    ensures var b := pre + (CODE4 + n + rest);
            var s := |pre| + 4;
            && b == pre + CODE4 + n + rest && |b| == s + |n| + |rest|
            && CodeLen(b, |pre|) == 4 && b[s..s + |n|] == n
  {
    var b := pre + (CODE4 + n + rest);
    assert b == pre + CODE4 + n + rest;
    assert b[|pre|..|pre| + 4] == CODE4;
    assert forall j :: 0 <= j < 4 ==> b[|pre| + j] == CODE4[j];
  }

  // Units behind four-byte start codes are split back exactly when none is empty and none holds a start code.
  lemma AnnexBRecognised(nalus: seq<bytes>)
    requires nalus != []
    ensures SplitSpec(AnnexBOf(nalus)) == (nalus, AnnexB) <==> AllClean(nalus)
  {
    hide AnnexBWalk, AvccWalk, U32;
    var b := AnnexBOf(nalus);
    assert b[..4] == CODE4;
    assert b[0] == b[..4][0] && b[1] == b[..4][1] && b[2] == b[..4][2] && b[3] == b[..4][3];
    assert CodeLen(b, 0) == 4;
    WalkClean(b, 0);
    if AllClean(nalus) {
      WalkAnnexB([], nalus);
      assert [] + b == b;
    }
  }
}
