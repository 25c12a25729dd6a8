/**
  ISO base media file format boxes: the 8-byte header written by `makeBox`, and the
  child-box scanning done by `findBox` and `findBoxes`. A box type is the 32-bit number
  whose big-endian bytes are its four-character code.
 */
module Boxes {
  import opened Bytes
  import opened Wrappers

  type u32 = x: int | 0 <= x < TWO32

  datatype Box = Box(typ: u32, payload: bytes) {
    /** The size field of a box is 32 bits wide. */
    predicate Fits() { |payload| + 8 < TWO32 }
  }

  /** `makeBox`: size, type, payload. */
  function MakeBox(b: Box): (r: bytes)
    ensures |r| == 8 + |b.payload|
  {
    PutU32(8 + |b.payload|) + PutU32(b.typ) + b.payload
  }

  /** `makeFullBox`: one version byte and 24 flag bits in front of the payload. */
  function FullBox(typ: u32, version: byte, flags: nat, payload: bytes): (b: Box)
    ensures b.typ == typ && |b.payload| == 4 + |payload|
  {
    Box(typ, [version] + Put(flags, 3) + payload)
  }

  /** The 24-bit flags of a full-box payload. */
  function Flags(p: bytes): (f: nat)
    requires |p| >= 4
  {
    Value(p[1..4])
  }

  predicate HasFlag(flags: nat, mask: nat)
    requires mask > 0
  {
    flags / mask % 2 == 1
  }

  function MakeBoxes(boxes: seq<Box>): bytes {
    if boxes == [] then [] else MakeBox(boxes[0]) + MakeBoxes(boxes[1..])
  }

  /**
    The child boxes a byte string holds: the reference that both scanners are compared with.
    Scanning stops at the first header that is truncated or whose size is impossible.
   */
  function SplitBoxes(data: bytes): seq<Box>
    decreases |data|
  {
    if |data| < 8 then []
    else
      var size := U32(data, 0);
      if size < 8 || size > |data| then []
      else [Box(U32(data, 4), data[8..size])] + SplitBoxes(data[size..])
  }

  function First(boxes: seq<Box>, typ: u32): Option<bytes> {
    if boxes == [] then None
    else if boxes[0].typ == typ then Some(boxes[0].payload)
    else First(boxes[1..], typ)
  }

  function Select(boxes: seq<Box>, typ: u32): seq<bytes> {
    if boxes == [] then []
    else (if boxes[0].typ == typ then [boxes[0].payload] else []) + Select(boxes[1..], typ)
  }

  /** `findBox`. */
  method FindBox(input: bytes, typ: u32) returns (r: Option<bytes>)
    ensures r == First(SplitBoxes(input), typ)
  {
    var data := input;
    while |data| >= 8
      invariant First(SplitBoxes(input), typ) == First(SplitBoxes(data), typ)
      decreases |data|
    {
      var size := U32(data, 0);
      if size < 8 || size > |data| {
        return None;
      }
      assert SplitBoxes(data)[1..] == SplitBoxes(data[size..]);
      if U32(data, 4) == typ {
        return Some(data[8..size]);
      }
      data := data[size..];
    }
    return None;
  }

  /** `findBoxes`. */
  method FindBoxes(input: bytes, typ: u32) returns (result: seq<bytes>)
    ensures result == Select(SplitBoxes(input), typ)
  {
    hide U32;
    var data := input;
    result := [];
    while |data| >= 8
      invariant Select(SplitBoxes(input), typ) == result + Select(SplitBoxes(data), typ)
      decreases |data|
    {
      var size := U32(data, 0);
      if size < 8 || size > |data| {
        break;
      }
      assert SplitBoxes(data)[1..] == SplitBoxes(data[size..]);
      if U32(data, 4) == typ {
        result := result + [data[8..size]];
      }
      data := data[size..];
    }
  }

  lemma MakeCons(b: Box, rest: seq<Box>)
    ensures MakeBoxes([b] + rest) == MakeBox(b) + MakeBoxes(rest)
  {
    assert ([b] + rest)[1..] == rest;
  }

  lemma {:induction false} MakeAppend(a: seq<Box>, b: seq<Box>)
    ensures MakeBoxes(a + b) == MakeBoxes(a) + MakeBoxes(b)
  {
    if a == [] {
      assert a + b == b;
    } else {
      assert (a + b)[1..] == a[1..] + b;
      MakeAppend(a[1..], b);
    }
  }

  /** One box in front of anything is split off exactly. */
  lemma SplitCons(b: Box, rest: bytes)
    requires b.Fits()
    ensures SplitBoxes(MakeBox(b) + rest) == [b] + SplitBoxes(rest)
  {
    hide PutU32, U32;
    var data := MakeBox(b) + rest;
    var size := 8 + |b.payload|;
    assert data[0..4] == PutU32(size);
    U32OfPut(data, 0, size);
    assert data[4..8] == PutU32(b.typ);
    U32OfPut(data, 4, b.typ);
    assert data[8..size] == b.payload;
    assert data[size..] == rest;
  }

  /** Splitting undoes writing, for any list of boxes whose size fields do not overflow. */
  lemma {:induction false} SplitMakeBoxes(boxes: seq<Box>)
    requires forall b <- boxes :: b.Fits()
    ensures SplitBoxes(MakeBoxes(boxes)) == boxes
  {
    if boxes != [] {
      SplitMakeBoxes(boxes[1..]);
      SplitCons(boxes[0], MakeBoxes(boxes[1..]));
    }
  }

  /** Each child box is shorter than the string that holds it. */
  lemma {:induction false} ChildrenFit(boxes: seq<Box>)
    ensures forall b <- boxes :: |b.payload| + 8 <= |MakeBoxes(boxes)|
  {
    if boxes != [] {
      ChildrenFit(boxes[1..]);
      forall b <- boxes
        ensures |b.payload| + 8 <= |MakeBoxes(boxes)|
      {
        assert b == boxes[0] || b in boxes[1..];
      }
    }
  }

  /** The children of a container whose size field does not overflow are read back as written. */
  lemma ChildrenOf(boxes: seq<Box>)
    requires |MakeBoxes(boxes)| < TWO32
    ensures SplitBoxes(MakeBoxes(boxes)) == boxes
  {
    ChildrenFit(boxes);
    SplitMakeBoxes(boxes);
  }

  /** Looking up in a list that starts with a box of another type. */
  lemma LookupSkip(b: Box, rest: seq<Box>, typ: u32)
    requires b.typ != typ
    ensures First([b] + rest, typ) == First(rest, typ)
    ensures Select([b] + rest, typ) == Select(rest, typ)
  {
    assert ([b] + rest)[1..] == rest;
  }

  lemma LookupHit(b: Box, rest: seq<Box>)
    ensures First([b] + rest, b.typ) == Some(b.payload)
    ensures Select([b] + rest, b.typ) == [b.payload] + Select(rest, b.typ)
  {
    assert ([b] + rest)[1..] == rest;
  }

  lemma {:induction false} FirstAppend(a: seq<Box>, b: seq<Box>, typ: u32)
    ensures First(a + b, typ) == if First(a, typ).Some? then First(a, typ) else First(b, typ)
  {
    if a == [] {
      assert a + b == b;
    } else {
      assert (a + b)[1..] == a[1..] + b;
      FirstAppend(a[1..], b, typ);
    }
  }

  lemma FirstTwo(a: Box, b: Box, typ: u32)
    ensures First([a, b], typ)
         == if a.typ == typ then Some(a.payload) else if b.typ == typ then Some(b.payload) else None
  {
    assert [a, b][1..] == [b];
    FirstOne(b, typ);
  }

  lemma FirstOne(a: Box, typ: u32)
    ensures First([a], typ) == if a.typ == typ then Some(a.payload) else None
    ensures First([], typ) == None
  {
    assert [a][1..] == [];
  }

  lemma FirstThree(a: Box, b: Box, c: Box, typ: u32)
    ensures First([a, b, c], typ) == if a.typ == typ then Some(a.payload) else if b.typ == typ then Some(b.payload)
                                     else if c.typ == typ then Some(c.payload) else None
  {
    assert [a, b, c][1..] == [b, c];
    FirstTwo(b, c, typ);
  }

  /** Two box lists with payloads of the same lengths occupy the same number of bytes. */
  predicate SameShape(a: seq<Box>, b: seq<Box>) {
    |a| == |b| && forall i | 0 <= i < |a| :: |a[i].payload| == |b[i].payload|
  }

  lemma {:induction false} SameShapeSize(a: seq<Box>, b: seq<Box>)
    requires SameShape(a, b)
    ensures |MakeBoxes(a)| == |MakeBoxes(b)|
  {
    if a != [] {
      SameShapeSize(a[1..], b[1..]);
    }
  }

  /** Reading a full-box payload back: version, flags and body. */
  lemma FullBoxFields(typ: u32, version: byte, flags: nat, payload: bytes)
    requires flags < 0x100_0000
    ensures var p := FullBox(typ, version, flags, payload).payload;
            p[0] == version && Flags(p) == flags && p[4..] == payload
  {
    var p := FullBox(typ, version, flags, payload).payload;
    assert p[1..4] == Put(flags, 3);
    ValueOfPut(flags, 3);
  }
}
