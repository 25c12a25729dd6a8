/** Converting between the two framings and back. */
module NaluConversion {
  import opened Bytes
  import opened StartCodes
  import opened NaluFraming
  import opened Wrappers

  datatype LengthError = InvalidNALULength

  // ---- AVCC to Annex B ----

  function ToAnnexBSpec(data: bytes, off: nat): Result<bytes, LengthError>
    decreases |data| - off
  {
    if off + 4 > |data| then Ok([])
    else
      var size := U32(data, off);
      var p := off + 4;
      if p + size > |data| then Err(InvalidNALULength)
      else
        var rest := ToAnnexBSpec(data, p + size);
        if rest.Err? then rest else Ok(CODE4 + data[p..p + size] + rest.value)
  }

  function Prepend(out: bytes, r: Result<bytes, LengthError>): Result<bytes, LengthError> {
    if r.Err? then r else Ok(out + r.value)
  }

  method AVCCToAnnexB(data: bytes) returns (r: Result<bytes, LengthError>)
    ensures r == ToAnnexBSpec(data, 0)
  {
    hide U32;
    var out: bytes := [];
    var off: nat := 0;
    assert ToAnnexBSpec(data, 0).Ok? ==> [] + ToAnnexBSpec(data, 0).value == ToAnnexBSpec(data, 0).value;
    while off + 4 <= |data|
      invariant 0 <= off <= |data|
      invariant ToAnnexBSpec(data, 0) == Prepend(out, ToAnnexBSpec(data, off))
      decreases |data| - off
    {
      var size := U32(data, off);
      ToAnnexBStep(data, off, out);
      off := off + 4;
      if off + size > |data| {
        return Err(InvalidNALULength);
      }
      out := out + CODE4;
      out := out + data[off..off + size];
      off := off + size;
    }
    assert out + [] == out;
    return Ok(out);
  }

  lemma ToAnnexBStep(data: bytes, off: nat, out: bytes)
    requires off + 4 <= |data|
    ensures var size := U32(data, off);
            var p := off + 4;
            Prepend(out, ToAnnexBSpec(data, off)) ==
            if p + size > |data| then Err(InvalidNALULength)
            else Prepend(out + CODE4 + data[p..p + size], ToAnnexBSpec(data, p + size))
  {
    hide U32;
    var size := U32(data, off);
    var p := off + 4;
    if p + size <= |data| && ToAnnexBSpec(data, p + size).Ok? {
      var rest := ToAnnexBSpec(data, p + size).value;
      assert out + (CODE4 + data[p..p + size] + rest) == out + CODE4 + data[p..p + size] + rest;
    }
  }

  lemma {:induction false} ToAnnexBOfAvcc(pre: bytes, nalus: seq<bytes>)
    requires Short(nalus)
    ensures ToAnnexBSpec(pre + AvccOf(nalus), |pre|) == Ok(AnnexBOf(nalus))
    decreases |nalus|
  {
    hide U32, PutU32;
    var b := pre + AvccOf(nalus);
    if nalus == [] {
      assert b == pre;
    } else {
      var n, rest := nalus[0], AvccOf(nalus[1..]);
      AvccPlaced(pre, n, rest);
      ToAnnexBOfAvcc(pre + PutU32(|n|) + n, nalus[1..]);
    }
  }

  // ---- Annex B to AVCC ----

  // The search stops three bytes before the end, so a start code in the last three bytes is not seen.
  predicate Hit(data: bytes, i: nat) {
    i + 3 < |data| && CodeLen(data, i) > 0
  }

  function NextHit(data: bytes, i: nat): (h: nat)
    requires i <= |data|
    ensures i <= h <= |data|
    ensures h < |data| ==> Hit(data, h)
    ensures forall k :: i <= k < h ==> !Hit(data, k)
    decreases |data| - i
  {
    if i == |data| || Hit(data, i) then i else NextHit(data, i + 1)
  }

  method FindHit(data: bytes, from: nat) returns (h: int)
    ensures h == if from > |data| || NextHit(data, from) == |data| then -1 else NextHit(data, from)
  {
    h := from;
    while h + 3 < |data|
      invariant from <= h && (from <= |data| ==> h <= |data|)
      invariant forall k :: from <= k < h ==> !Hit(data, k)
    {
      if CodeLen(data, h) > 0 {
        assert Hit(data, h);
        return;
      }
      h := h + 1;
    }
    assert forall k :: from <= k < |data| ==> !Hit(data, k);
    h := -1;
  }

  // The unit after the first start code at or after `start`, as a range; (-1, -1) when there is none.
  function FindNextSpec(data: bytes, start: nat): (int, int) {
    if start > |data| then (-1, -1)
    else
      var h := NextHit(data, start);
      if h == |data| then (-1, -1)
      else
        var s := h + CodeLen(data, h);
        (s as int, NextHit(data, s) as int)
  }

  method FindNextAnnexBNALUnit(data: bytes, start: nat) returns (nalStart: int, nalEnd: int)
    ensures (nalStart, nalEnd) == FindNextSpec(data, start)
  {
    var h := FindHit(data, start);
    if h == -1 {
      return -1, -1;
    }
    nalStart := h + CodeLen(data, h);
    nalEnd := FindHit(data, nalStart);
    if nalEnd == -1 {
      nalEnd := |data|;
    }
  }

  // All the units found from `off` on.
  function UnitsFrom(data: bytes, off: nat): seq<bytes>
    requires off <= |data|
    decreases |data| - off
  {
    var (s, e) := FindNextSpec(data, off);
    if s < 0 then [] else [data[s..e]] + UnitsFrom(data, e)
  }

  // The units found so far, and those still to come.
  ghost predicate FoundTo(data: bytes, done: seq<bytes>, off: nat) {
    off <= |data| && done + UnitsFrom(data, off) == UnitsFrom(data, 0)
  }

  lemma FoundStep(data: bytes, done: seq<bytes>, off: nat)
    requires FoundTo(data, done, off)
    ensures var (s, e) := FindNextSpec(data, off);
            if s < 0 then UnitsFrom(data, 0) == done
            else off < e <= |data| && 0 <= s <= e && FoundTo(data, done + [data[s..e]], e)
  {
    var (s, e) := FindNextSpec(data, off);
    if s < 0 {
      assert done + [] == done;
    } else {
      assert done + ([data[s..e]] + UnitsFrom(data, e)) == done + [data[s..e]] + UnitsFrom(data, e);
    }
  }

  lemma FoundAll(data: bytes, done: seq<bytes>)
    ensures FoundTo(data, [], 0)
    ensures FoundTo(data, done, |data|) ==> done == UnitsFrom(data, 0)
  {
    assert [] + UnitsFrom(data, 0) == UnitsFrom(data, 0);
    assert done + UnitsFrom(data, |data|) == done;
  }

  method AnnexBToAVCC(data: bytes) returns (out: bytes)
    ensures out == AvccOf(UnitsFrom(data, 0))
  {
    hide FoundTo, UnitsFrom, FindNextSpec, AvccOf, PutU32;
    out := [];
    var off: nat := 0;
    ghost var done: seq<bytes> := [];
    FoundAll(data, []);
    NothingFramed();
    while off < |data|
      invariant 0 <= off <= |data| && out == AvccOf(done) && FoundTo(data, done, off)
      decreases |data| - off
    {
      var start, end := FindNextAnnexBNALUnit(data, off);
      FoundStep(data, done, off);
      if start < 0 || end < 0 {
        return;
      }
      var nalu := data[start..end];
      AvccSnoc(done, nalu);
      out := out + (PutU32(|nalu|) + nalu);
      done := done + [nalu];
      off := end;
    }
    FoundAll(data, done);
  }

  lemma NothingFramed()
    ensures AvccOf([]) == []
  {
  }

  // ---- there and back ----

  // A unit in which the search sees no start code: none at all, or in the last unit of the data a three-byte code
  // as its last three bytes.
  ghost predicate Unseen(n: bytes, isLast: bool) {
    forall j: nat :: CodeAt(n, j) ==> isLast && j + 3 == |n| && (j == 0 || n[j - 1] != 0)
  }

  ghost predicate AllUnseen(nalus: seq<bytes>) {
    forall k :: 0 <= k < |nalus| ==> Unseen(nalus[k], k == |nalus| - 1)
  }

  // The search passes over a unit exactly when it sees no code in it.
  lemma SearchPasses(b: bytes, s: nat, n: bytes)
    requires s + |n| <= |b| && b[s..s + |n|] == n && (s + |n| == |b| || CodeLen(b, s + |n|) == 4)
    ensures NextHit(b, s) == s + |n| <==> Unseen(n, s + |n| == |b|)
  {
    var isLast := s + |n| == |b|;
    if Unseen(n, isLast) {
      forall i | s <= i < s + |n|
        ensures !Hit(b, i)
      {
        CodesInside(b, s, n, i);
        SeenOrNot(n, isLast, i - s);
      }
      assert isLast || Hit(b, s + |n|);
    } else {
      var j: nat :| CodeAt(n, j) && !(isLast && j + 3 == |n| && (j == 0 || n[j - 1] != 0));
      CodesInside(b, s, n, s + j);
      if j > 0 && n[j - 1] == 0 {
        CodesInside(b, s, n, s + j - 1);
        assert Hit(b, s + j - 1);
      } else {
        assert Hit(b, s + j);
      }
    }
  }

  lemma SeenOrNot(n: bytes, isLast: bool, i: nat)
    requires Unseen(n, isLast) && i < |n|
    ensures CodeLen(n, i) == 0 || (isLast && i + 3 == |n|)
  {
    assert CodeAt(n, i + 1) ==> isLast && i + 4 == |n| && n[i] != 0;
  }

  lemma {:induction false} UnitsOfAnnexB(pre: bytes, nalus: seq<bytes>)
    ensures UnitsFrom(pre + AnnexBOf(nalus), |pre|) == nalus <==> AllUnseen(nalus)
    decreases |nalus|
  {
    hide CodeLen, Unseen, UnitsFrom, NextHit;
    var b := pre + AnnexBOf(nalus);
    if nalus == [] {
      assert b == pre;
      NoUnits(b);
    } else {
      var n, rest := nalus[0], AnnexBOf(nalus[1..]);
      var s := |pre| + 4;
      AnnexBPlaced(pre, n, rest);
      NextPlaced(pre + CODE4 + n, nalus[1..]);
      SearchPasses(b, s, n);
      UnitsOfAnnexB(pre + CODE4 + n, nalus[1..]);
      FirstUnit(b, |pre|, n);
      TailUnseen(nalus);
      var units := UnitsFrom(b, |pre|);
      if NextHit(b, s) == s + |n| {
        assert nalus == [n] + nalus[1..];
        assert units == [n] + UnitsFrom(b, s + |n|);
        assert units[1..] == UnitsFrom(b, s + |n|);
      } else {
        assert units[0] != n;
      }
    }
  }

  lemma NoUnits(b: bytes)
    ensures UnitsFrom(b, |b|) == []
  {
  }

  // After a unit comes the next four-byte code, or the end.
  lemma NextPlaced(pre: bytes, nalus: seq<bytes>)
    ensures var b := pre + AnnexBOf(nalus);
            if nalus == [] then |b| == |pre| else |pre| < |b| && CodeLen(b, |pre|) == 4
  {
    if nalus != [] {
      AnnexBPlaced(pre, nalus[0], AnnexBOf(nalus[1..]));
    }
  }

  // The first unit found runs from the code to the next hit.
  lemma FirstUnit(b: bytes, i: nat, n: bytes)
    requires i + 4 + |n| <= |b| && CodeLen(b, i) == 4 && b[i + 4..i + 4 + |n|] == n
    ensures var e := NextHit(b, i + 4);
            && UnitsFrom(b, i) == [b[i + 4..e]] + UnitsFrom(b, e)
            && (e != i + 4 + |n| ==> b[i + 4..e] != n)
  {
    assert Hit(b, i);
    assert NextHit(b, i) == i;
  }

  lemma TailUnseen(nalus: seq<bytes>)
    requires nalus != []
    ensures AllUnseen(nalus) <==> Unseen(nalus[0], |nalus| == 1) && AllUnseen(nalus[1..])
  {
    hide Unseen;
    var rest := nalus[1..];
    if AllUnseen(nalus) {
      forall k | 0 <= k < |rest|
        ensures Unseen(rest[k], k == |rest| - 1)
      {
        assert Unseen(nalus[k + 1], k + 1 == |nalus| - 1);
      }
    }
  }

  // AVCC data converted to Annex B and back is unchanged, trailing zeros and empty units included, exactly when
  // no unit shows the search a start code.
  lemma ThereAndBack(nalus: seq<bytes>)
    requires |AvccOf(nalus)| < TWO32
    ensures var there := ToAnnexBSpec(AvccOf(nalus), 0);
            there.Ok? && (AvccOf(UnitsFrom(there.value, 0)) == AvccOf(nalus) <==> AllUnseen(nalus))
  {
    ShortFromTotal(nalus);
    ToAnnexBOfAvcc([], nalus);
    assert [] + AvccOf(nalus) == AvccOf(nalus);
    var b := AnnexBOf(nalus);
    UnitsOfAnnexB([], nalus);
    assert [] + b == b;
    SameSize(nalus);
    UnitsShort(b, 0);
    if AvccOf(UnitsFrom(b, 0)) == AvccOf(nalus) {
      AvccInjective(UnitsFrom(b, 0), nalus);
    }
  }

  lemma {:induction false} SameSize(nalus: seq<bytes>)
    ensures |AnnexBOf(nalus)| == |AvccOf(nalus)|
  {
    if nalus != [] {
      SameSize(nalus[1..]);
    }
  }

  lemma {:induction false} UnitsShort(b: bytes, off: nat)
    requires off <= |b| < TWO32
    ensures Short(UnitsFrom(b, off))
    decreases |b| - off
  {
    var (s, e) := FindNextSpec(b, off);
    if s >= 0 {
      UnitsShort(b, e);
    }
  }
}
