/** Conversions between nanoseconds and track ticks, as the muxers and demuxers make them. */
module Ticks {
  import opened Bytes
  import opened Boxes

  const SECOND := 1_000_000_000

  /** `dtsToTimescale`, `durationToTimescale` and `durationToTicks`: 64-bit product, truncated quotient. */
  function ToTicks(d: int, timescale: u32): int {
    QuoTrunc(Int64(d * timescale), SECOND)
  }

  /** `ticksToDuration`. */
  function ToDuration(ticks: int, timescale: u32): int {
    if timescale == 0 then 0 else QuoTrunc(Int64(ticks * SECOND), timescale)
  }

  /** Later ticks are later nanoseconds, strictly so where a tick is at least one nanosecond. */
  lemma DurationMonotone(a: nat, b: nat, timescale: u32)
    requires a <= b && b * SECOND < TWO63
    ensures ToDuration(a, timescale) <= ToDuration(b, timescale)
    ensures 0 < timescale <= SECOND && a < b ==> ToDuration(a, timescale) < ToDuration(b, timescale)
  {
    hide Int64;
    if timescale > 0 {
      var x, y := a * SECOND, b * SECOND;
      assert Int64(x) == x && Int64(y) == y;
      DivMonotone(x, y, timescale);
    }
  }
}
