/** The AudioSpecificConfig of section 1.6.2.1 of ISO/IEC 14496-3, written and parsed through the bit streams. */
module AudioConfig {
  import opened Bytes
  import opened Wrappers
  import opened BitStream

  const ESCAPE := 31
  const RATES: seq<int> := [96000, 88200, 64000, 48000, 44100, 32000, 24000, 22050, 16000, 12000, 11025, 8000, 7350]

  // Channel masks by channel configuration: front centre 1, left 2, right 4; back centre 8, left 16, right 32;
  // side left 64, right 128; low frequency 256.
  const LAYOUTS: seq<int> := [0, 1, 6, 7, 15, 55, 311, 503]

  // Go's uint on a 64-bit machine.
  type uint = v: int | 0 <= v < TWO64

  datatype Config = Config(sampleRate: int, layout: int, objectType: nat, rateIndex: nat, channelConfig: nat) {
    predicate InUints() {
      objectType < TWO64 && rateIndex < TWO64 && channelConfig < TWO64
    }
  }

  // A configuration as the program holds it.
  type UintConfig = c: Config | c.InUints() witness Config(0, 0, 0, 0, 0)

  // Configuration 7 has a layout but no way back from it.
  function ConfigOfLayout(layout: int): (c: nat)
    ensures c <= 6
    ensures c > 0 ==> LAYOUTS[c] == layout
  {
    if layout == 1 then 1 else if layout == 6 then 2 else if layout == 7 then 3
    else if layout == 15 then 4 else if layout == 55 then 5 else if layout == 311 then 6 else 0
  }

  // The index of a rate in the table, 0 when it is not there.
  function IndexOfRate(rate: int, n: nat): (i: nat)
    requires n <= |RATES|
    ensures i < |RATES|
  {
    if n == 0 then 0 else if RATES[n - 1] == rate then n - 1 else IndexOfRate(rate, n - 1)
  }

  // The index found holds the rate exactly when the table has it; otherwise it is the first one.
  lemma {:induction false} IndexHolds(rate: int, n: nat)
    requires n <= |RATES|
    ensures rate in RATES[..n] ==> RATES[IndexOfRate(rate, n)] == rate
    ensures rate !in RATES[..n] ==> IndexOfRate(rate, n) == 0
  {
    if n > 0 {
      IndexHolds(rate, n - 1);
      assert RATES[..n] == RATES[..n - 1] + [RATES[n - 1]];
    }
  }

  // The fields as written: a missing index or channel configuration is looked up.
  function Normalised(c: Config): Config {
    c.(rateIndex := if c.rateIndex == 0 then IndexOfRate(c.sampleRate, |RATES|) else c.rateIndex,
       channelConfig := if c.channelConfig == 0 then ConfigOfLayout(c.layout) else c.channelConfig)
  }

  // The fields fit their widths.
  predicate Fits(c: Config) {
    c.objectType < 96 && c.rateIndex < 0x100_0000 && c.channelConfig < 16
  }

  function ObjectItems(objectType: nat): seq<Bits> {
    if objectType >= 32 then [Bits(ESCAPE, 5), Bits(objectType - 32, 6)] else [Bits(objectType, 5)]
  }

  function RateItems(index: nat): seq<Bits> {
    if index >= 15 then [Bits(15, 4), Bits(index, 24)] else [Bits(index, 4)]
  }

  function Items(c: Config): seq<Bits> {
    ObjectItems(c.objectType) + RateItems(c.rateIndex) + [Bits(c.channelConfig, 4)]
  }

  lemma Widths4to24()
    ensures Pow2(4) == 16 && Pow2(5) == 32 && Pow2(6) == 64 && Pow2(24) == 0x100_0000
  {
    assert Pow2(4) == 16 && Pow2(5) == 32 && Pow2(6) == 64 && Pow2(8) == 256;
    hide Pow2;
    Pow2Add(8, 8);
    Pow2Add(16, 8);
  }

  lemma ItemsWritable(c: Config)
    requires Fits(c)
    ensures Writable(ObjectItems(c.objectType)) && Writable(RateItems(c.rateIndex))
    ensures Writable([Bits(c.channelConfig, 4)])
    ensures Writable(Items(c))
  {
    hide Pow2;
    Widths4to24();
  }

  lemma NormalisedFits(c: Config)
    ensures Fits(Normalised(c)) <==> Fits(c)
  {
  }

  lemma NormalisedUints(c: Config)
    ensures Normalised(c).InUints() <==> c.InUints()
  {
  }

  lemma ItemsStorable(c: Config)
    requires c.InUints()
    ensures Storable(ObjectItems(c.objectType)) && Storable(RateItems(c.rateIndex))
    ensures Storable([Bits(c.channelConfig, 4)])
    ensures Storable(Items(c))
  {
  }

  // ---- writing ----

  lemma {:induction false} WriteAllJoin(w: WriterState, a: seq<Bits>, b: seq<Bits>)
    requires w.Valid() && Storable(a) && Storable(b) && Storable(a + b)
    ensures WriteAll(w, a).Valid() && WriteAll(w, a + b) == WriteAll(WriteAll(w, a), b)
    decreases |a|
  {
    hide WriteSpec, Pow2;
    if a == [] {
      assert a + b == b;
    } else {
      WriteExact(w, a[0].v, a[0].n);
      assert (a + b)[1..] == a[1..] + b;
      WriteAllJoin(WriteSpec(w, a[0].v, a[0].n), a[1..], b);
    }
  }

  // One item through the writer, whether or not it fits its width.
  method WriteItem(w: Writer, v: uint, k: nat)
    requires w.View().Valid() && k <= 64
    modifies w
    ensures Storable([Bits(v, k)]) && w.View().Valid() && w.View() == WriteAll(old(w.View()), [Bits(v, k)])
  {
    WriteExact(w.View(), v, k);
    assert [Bits(v, k)][1..] == [];
    w.WriteBits64(v, k);
  }

  method WriteObjectType(w: Writer, objectType: uint)
    requires w.View().Valid()
    modifies w
    ensures Storable(ObjectItems(objectType))
    ensures w.View().Valid() && w.View() == WriteAll(old(w.View()), ObjectItems(objectType))
  {
    hide WriteAll, Pow2;
    if objectType >= 32 {
      ghost var first, second := [Bits(ESCAPE, 5)], [Bits(objectType - 32, 6)];
      assert first + second == ObjectItems(objectType);
      WriteAllJoin(w.View(), first, second);
      WriteItem(w, ESCAPE, 5);
      WriteItem(w, objectType - 32, 6);
    } else {
      WriteItem(w, objectType, 5);
    }
  }

  method WriteSampleRateIndex(w: Writer, index: uint)
    requires w.View().Valid()
    modifies w
    ensures Storable(RateItems(index))
    ensures w.View().Valid() && w.View() == WriteAll(old(w.View()), RateItems(index))
  {
    hide WriteAll, Pow2;
    if index >= 15 {
      ghost var first, second := [Bits(15, 4)], [Bits(index, 24)];
      assert first + second == RateItems(index);
      WriteAllJoin(w.View(), first, second);
      WriteItem(w, 15, 4);
      WriteItem(w, index, 24);
    } else {
      WriteItem(w, index, 4);
    }
  }

  method FindRate(rate: int) returns (index: nat)
    ensures index == IndexOfRate(rate, |RATES|) < |RATES|
    ensures if rate in RATES then RATES[index] == rate else index == 0
  {
    IndexHolds(rate, |RATES|);
    assert RATES[..|RATES|] == RATES;
    index := 0;
    var i := 0;
    while i < |RATES|
      invariant 0 <= i <= |RATES| && index == IndexOfRate(rate, i)
    {
      if RATES[i] == rate {
        index := i;
      }
      i := i + 1;
    }
  }

  method WriteConfig(c: UintConfig) returns (out: bytes)
    ensures Storable(Items(Normalised(c))) && out == Encode(Items(Normalised(c)))
  {
    hide WriteAll, Pow2, FlushSpec, Normalised;
    var w := new Writer();
    var index := c.rateIndex;
    if index == 0 {
      index := FindRate(c.sampleRate);
    }
    var channels := c.channelConfig;
    if channels == 0 {
      channels := ConfigOfLayout(c.layout);
    }
    NormalisedFields(c);
    NormalisedUints(c);
    ghost var n := Normalised(c);
    WritePhases(n);
    WriteObjectType(w, c.objectType);
    WriteSampleRateIndex(w, index);
    WriteItem(w, channels, 4);
    w.FlushBits();
    out := w.out;
  }

  lemma NormalisedFields(c: Config)
    ensures var n := Normalised(c);
            && n.objectType == c.objectType
            && n.rateIndex == (if c.rateIndex == 0 then IndexOfRate(c.sampleRate, |RATES|) else c.rateIndex)
            && n.channelConfig == (if c.channelConfig == 0 then ConfigOfLayout(c.layout) else c.channelConfig)
  {
  }

  // The three fields one after the other.
  lemma WritePhases(c: Config)
    requires c.InUints()
    ensures Storable(Items(c)) && Storable(ObjectItems(c.objectType)) && Storable(RateItems(c.rateIndex))
    ensures Storable([Bits(c.channelConfig, 4)]) && WriterState([], 0, 0).Valid()
    ensures var w1 := WriteAll(WriterState([], 0, 0), ObjectItems(c.objectType));
            w1.Valid() && WriteAll(w1, RateItems(c.rateIndex)).Valid()
            && WriteAll(WriterState([], 0, 0), Items(c))
               == WriteAll(WriteAll(w1, RateItems(c.rateIndex)), [Bits(c.channelConfig, 4)])
  {
    hide WriteAll, Pow2;
    ItemsStorable(c);
    var w := WriterState([], 0, 0);
    var a, b, d := ObjectItems(c.objectType), RateItems(c.rateIndex), [Bits(c.channelConfig, 4)];
    WriteAllJoin(w, a, b);
    WriteAllJoin(w, a + b, d);
  }

  // ---- parsing ----

  function ReadObjectSpec(r: ReaderState): (ReaderState, Result<nat, EndOfData>) {
    var (r1, v) := ReadSpec(r, 5);
    if v.Err? || v.value != ESCAPE then (r1, v)
    else
      var (r2, i) := ReadSpec(r1, 6);
      (r2, if i.Err? then i else Ok(32 + i.value))
  }

  function ReadRateSpec(r: ReaderState): (ReaderState, Result<nat, EndOfData>) {
    var (r1, v) := ReadSpec(r, 4);
    if v.Err? || v.value != 15 then (r1, v) else ReadSpec(r1, 24)
  }

  // The rate and the layout that the tables give.
  function Completed(objectType: nat, rateIndex: nat, channelConfig: nat): Config {
    Config(if rateIndex < |RATES| then RATES[rateIndex] else 0,
           if channelConfig < |LAYOUTS| then LAYOUTS[channelConfig] else 0,
           objectType, rateIndex, channelConfig)
  }

  function ParseSpec(data: bytes): Result<Config, EndOfData> {
    var (r1, objectType) := ReadObjectSpec(ReaderState(data, 0, 0));
    if objectType.Err? then Err(EndOfData)
    else
      var (r2, rateIndex) := ReadRateSpec(r1);
      if rateIndex.Err? then Err(EndOfData)
      else
        var (r3, channels) := ReadSpec(r2, 4);
        if channels.Err? then Err(EndOfData)
        else Ok(Completed(objectType.value, rateIndex.value, channels.value))
  }

  method ReadObjectType(r: Reader) returns (v: Result<nat, EndOfData>)
    modifies r
    ensures (r.View(), v) == ReadObjectSpec(old(r.View()))
  {
    hide ReadSpec;
    v := r.ReadBits64(5);
    if v.Err? {
      return;
    }
    if v.value == ESCAPE {
      var i := r.ReadBits64(6);
      if i.Err? {
        return i;
      }
      v := Ok(32 + i.value);
    }
  }

  method ReadSampleRateIndex(r: Reader) returns (v: Result<nat, EndOfData>)
    modifies r
    ensures (r.View(), v) == ReadRateSpec(old(r.View()))
  {
    hide ReadSpec;
    v := r.ReadBits64(4);
    if v.Err? {
      return;
    }
    if v.value == 15 {
      v := r.ReadBits64(24);
    }
  }

  method ParseConfig(data: bytes) returns (c: Result<Config, EndOfData>)
    ensures c == ParseSpec(data)
  {
    hide ReadSpec, ReadObjectSpec, ReadRateSpec;
    var r := new Reader(data);
    var objectType := ReadObjectType(r);
    if objectType.Err? {
      return Err(EndOfData);
    }
    var rateIndex := ReadSampleRateIndex(r);
    if rateIndex.Err? {
      return Err(EndOfData);
    }
    var channels := r.ReadBits64(4);
    if channels.Err? {
      return Err(EndOfData);
    }
    c := Ok(Completed(objectType.value, rateIndex.value, channels.value));
  }

  // ---- round trip ----

  // A reader whose unread bits are the items and then a tail.
  ghost predicate Before(r: ReaderState, items: seq<Bits>, tail: Bits) {
    r.Valid() && r.n < 8 && Writable(items) && tail.Valid() && Unread(r) == Join(JoinAll(items), tail)
  }

  lemma ReadNext(r: ReaderState, items: seq<Bits>, tail: Bits)
    requires Before(r, items, tail) && items != []
    ensures ReadSpec(r, items[0].n).1 == Ok(items[0].v)
    ensures Before(ReadSpec(r, items[0].n).0, items[1..], tail)
  {
    hide Unread, ReadSpec, Pow2, Join;
    var rest := JoinAll(items[1..]);
    JoinAssoc(items[0], rest, tail);
    JoinAllValid(items[1..]);
    JoinValid(rest, tail);
    ReadTakes(r, items[0].v, items[0].n, Join(rest, tail));
  }

  lemma ReadObjectBack(r: ReaderState, objectType: nat, more: seq<Bits>, tail: Bits)
    requires objectType != ESCAPE && Before(r, ObjectItems(objectType) + more, tail)
    ensures ReadObjectSpec(r).1 == Ok(objectType) && Before(ReadObjectSpec(r).0, more, tail)
  {
    hide ReadSpec, Before;
    var items := ObjectItems(objectType) + more;
    ReadNext(r, items, tail);
    if objectType >= 32 {
      ReadNext(ReadSpec(r, 5).0, items[1..], tail);
      assert items[1..][1..] == more;
    } else {
      assert items[1..] == more;
    }
  }

  lemma ReadRateBack(r: ReaderState, index: nat, more: seq<Bits>, tail: Bits)
    requires Before(r, RateItems(index) + more, tail)
    ensures ReadRateSpec(r).1 == Ok(index) && Before(ReadRateSpec(r).0, more, tail)
  {
    hide ReadSpec, Before;
    var items := RateItems(index) + more;
    ReadNext(r, items, tail);
    if index >= 15 {
      ReadNext(ReadSpec(r, 4).0, items[1..], tail);
      assert items[1..][1..] == more;
    } else {
      assert items[1..] == more;
    }
  }

  lemma StartsBefore(items: seq<Bits>)
    requires Writable(items)
    ensures Storable(items)
    ensures Before(ReaderState(Encode(items), 0, 0), items, Bits(0, PadOf(items)))
  {
    hide Encode, PadOf, Join, OfBytes, JoinAll;
    EncodedBits(items);
    JoinEmpty(OfBytes(Encode(items)));
    Pow2Zero();
    Pow2Positive(PadOf(items));
  }

  // An escape object type is never read back as itself.
  lemma EscapeNeverReads(data: bytes)
    ensures ParseSpec(data).Ok? ==> ParseSpec(data).value.objectType != ESCAPE
  {
    hide ReadSpec, ReadRateSpec;
    var (r1, v) := ReadSpec(ReaderState(data, 0, 0), 5);
    if v.Ok? && v.value == ESCAPE {
      var (r2, i) := ReadSpec(r1, 6);
      if i.Ok? {
        var more: nat := i.value;
        assert ReadObjectSpec(ReaderState(data, 0, 0)).1 == Ok(32 + more);
      }
    }
  }

  // A parsed field is never wider than the bits it was read from.
  lemma ReadBounded(r: ReaderState, k: nat)
    requires r.Valid() && r.n < 8 && k <= 57 && ReadSpec(r, k).1.Ok?
    ensures ReadSpec(r, k).1.value < Pow2(k) && ReadSpec(r, k).0.Valid() && ReadSpec(r, k).0.n < 8
  {
    hide Pow2, Value, Power256, High, Low, ShiftIn, OfBytes, Join;
    ReadFits(r, k);
    ReadExact(r, k);
  }

  lemma ParsedFits(data: bytes)
    ensures ParseSpec(data).Ok? ==> Fits(ParseSpec(data).value)
  {
    hide ReadSpec, Pow2;
    Widths4to24();
    Pow2Zero();
    if ParseSpec(data).Ok? {
      var r := ReaderState(data, 0, 0);
      ObjectBounded(r);
      var r1 := ReadObjectSpec(r).0;
      RateBounded(r1);
      ReadBounded(ReadRateSpec(r1).0, 4);
    }
  }

  lemma ObjectBounded(r: ReaderState)
    requires r.Valid() && r.n < 8 && ReadObjectSpec(r).1.Ok?
    ensures ReadObjectSpec(r).1.value < 96 && ReadObjectSpec(r).0.Valid() && ReadObjectSpec(r).0.n < 8
  {
    hide ReadSpec, Pow2;
    Widths4to24();
    ReadBounded(r, 5);
    if ReadSpec(r, 5).1.value == ESCAPE {
      ReadBounded(ReadSpec(r, 5).0, 6);
    }
  }

  lemma RateBounded(r: ReaderState)
    requires r.Valid() && r.n < 8 && ReadRateSpec(r).1.Ok?
    ensures ReadRateSpec(r).1.value < 0x100_0000 && ReadRateSpec(r).0.Valid() && ReadRateSpec(r).0.n < 8
  {
    hide ReadSpec, Pow2;
    Widths4to24();
    ReadBounded(r, 4);
    if ReadSpec(r, 4).1.value == 15 {
      ReadBounded(ReadSpec(r, 4).0, 24);
    }
  }

  // Parsing what was written gives the object type, the looked-up rate index and channel configuration, and the
  // rate and layout of the tables - for every configuration whose fields fit their widths and whose object type is
  // not the escape value, and for no other.
  lemma ConfigRoundTrip(c: Config)
    requires c.InUints()
    ensures Storable(Items(Normalised(c)))
    ensures var n := Normalised(c);
            ParseSpec(Encode(Items(n))) == Ok(Completed(n.objectType, n.rateIndex, n.channelConfig))
            <==> Fits(c) && c.objectType != ESCAPE
  {
    hide ParseSpec, Encode, Before, Storable, Completed, Normalised, Fits;
    NormalisedUints(c);
    NormalisedFields(c);
    var n := Normalised(c);
    ItemsStorable(n);
    NormalisedFits(c);
    if Fits(c) && c.objectType != ESCAPE {
      ReadsBack(n);
    } else {
      EscapeNeverReads(Encode(Items(n)));
      ParsedFits(Encode(Items(n)));
      CompletedType(n);
    }
  }

  lemma ReadsBack(n: Config)
    requires Fits(n) && n.objectType != ESCAPE
    ensures Storable(Items(n))
    ensures ParseSpec(Encode(Items(n))) == Ok(Completed(n.objectType, n.rateIndex, n.channelConfig))
  {
    hide ReadSpec, ReadObjectSpec, ReadRateSpec, Encode, Before, Writable, Storable, Completed;
    ItemsWritable(n);
    var items := Items(n);
    StartsBefore(items);
    var tail := Bits(0, PadOf(items));
    var r := ReaderState(Encode(items), 0, 0);
    var channel := [Bits(n.channelConfig, 4)];
    assert items == ObjectItems(n.objectType) + (RateItems(n.rateIndex) + channel);
    ReadObjectBack(r, n.objectType, RateItems(n.rateIndex) + channel, tail);
    ReadRateBack(ReadObjectSpec(r).0, n.rateIndex, channel, tail);
    ReadNext(ReadRateSpec(ReadObjectSpec(r).0).0, channel, tail);
  }

  lemma CompletedType(n: Config)
    ensures var done := Completed(n.objectType, n.rateIndex, n.channelConfig);
            done.objectType == n.objectType && (Fits(done) <==> Fits(n))
  {
  }

  // A configuration that gives only its sample rate keeps it exactly when the table has that rate; any other rate is
  // read back as the table's first, 96 kHz.
  lemma RateSurvives(c: Config)
    requires Fits(c) && c.objectType != ESCAPE && c.rateIndex == 0
    ensures Storable(Items(Normalised(c)))
    ensures var r := ParseSpec(Encode(Items(Normalised(c))));
            && r.Ok? && (r.value.sampleRate == c.sampleRate <==> c.sampleRate in RATES)
            && (c.sampleRate !in RATES ==> r.value.sampleRate == 96000)
  {
    hide ParseSpec, Encode, Storable, Items;
    ConfigRoundTrip(c);
    IndexHolds(c.sampleRate, |RATES|);
    assert RATES[..|RATES|] == RATES;
  }

  // A configuration that states its rate index and channel configuration comes back with both unchanged.
  lemma StatedFieldsSurvive(c: Config)
    requires Fits(c) && c.objectType != ESCAPE && c.rateIndex != 0 && c.channelConfig != 0
    ensures Normalised(c) == c && Storable(Items(c))
    ensures var r := ParseSpec(Encode(Items(c)));
            r.Ok? && r.value.objectType == c.objectType && r.value.rateIndex == c.rateIndex
            && r.value.channelConfig == c.channelConfig
  {
    hide ParseSpec, Encode;
    ConfigRoundTrip(c);
  }
}
