/** Timestamp validation of `src/webhook.rs`. */
module Webhook {
  import opened Units
  import opened Wrappers

  const END_OF_CLOCK: Instant := 0x8000_0000_0000_0000 * 1_000_000_000

  /** A reading of the system clock whose whole seconds fit the source's `i64`. */
  type WallClock = t: Instant | t < END_OF_CLOCK

  datatype TimestampError =
    | TooOld(ageSeconds: i64, maxSeconds: i64)
    | FromFuture(offsetSeconds: i64, maxSeconds: i64)

  function UnixTimestamp(now: WallClock): i64 {
    WholeSeconds(now)
  }

  function Abs(n: int): int {
    if n < 0 then -n else n
  }

  function ValidateTimestamp(timestamp: u32, maxOffset: i64, now: WallClock): Result<u32, TimestampError> {
    var age := SaturatingSub64(UnixTimestamp(now), timestamp);
    if age > maxOffset then
      Err(TooOld(age, maxOffset))
    else if age < SaturatingNeg64(maxOffset) then
      Err(FromFuture(Abs(age), maxOffset))
    else
      Ok(timestamp)
  }

  /**
   * A timestamp is accepted exactly if it lies within the offset of the clock, on either side;
   * a negative offset accepts nothing. Rejections report the true distance: saturation never
   * distorts it.
   */
  lemma AcceptedIffClose(timestamp: u32, maxOffset: i64, now: WallClock)
    ensures var r, secs := ValidateTimestamp(timestamp, maxOffset, now), WholeSeconds(now);
            && (r.Ok? <==> timestamp - maxOffset <= secs <= timestamp + maxOffset)
            && (r.Ok? ==> r.value == timestamp)
            && (r.Err? ==> (r.error.TooOld? <==> secs - timestamp > maxOffset) && r.error.maxSeconds == maxOffset)
            && (r.Err? && r.error.TooOld? ==> r.error.ageSeconds == secs - timestamp > maxOffset)
            && (r.Err? && r.error.FromFuture? ==>
                 r.error.offsetSeconds == Abs(timestamp - secs) && (maxOffset >= 0 ==> timestamp - secs > maxOffset))
  {}

  /** In ticks, the accepted readings are a half-open interval of `2 * maxOffset + 1` seconds. */
  lemma AcceptedInterval(timestamp: u32, maxOffset: i64, now: WallClock)
    requires maxOffset >= 0
    ensures ValidateTimestamp(timestamp, maxOffset, now).Ok?
       <==> Seconds(timestamp - maxOffset) <= now < Seconds(timestamp + maxOffset + 1)
  {
    AcceptedIffClose(timestamp, maxOffset, now);
  }
}
