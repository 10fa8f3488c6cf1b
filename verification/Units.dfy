/**
 * Clock readings, durations and the fixed-width integers of the source.
 *
 * A clock reading is a number of nanosecond ticks since the Unix epoch, so the monotonic
 * clock of the limiter and the wall clock of the webhook handler are one clock here; the
 * wall clock is that reading rounded down to whole seconds.
 */
module Units {
  type Instant = nat
  type Duration = nat

  const MINUTE: Duration := 60_000_000_000
  const HOUR: Duration := 3600_000_000_000

  /** The ticks of `n` seconds. */
  function Seconds(n: int): (ticks: int)
    ensures n >= 0 ==> ticks >= 0
  {
    n * 1_000_000_000
  }

  /** `Duration::as_secs` */
  function WholeSeconds(d: Duration): nat {
    d / 1_000_000_000
  }

  /** `Instant::elapsed`: zero when the reading lies before `since`. */
  function Elapsed(since: Instant, now: Instant): Duration {
    if since <= now then now - since else 0
  }

  /** `Duration::saturating_sub`. */
  function SaturatingSub(a: Duration, b: Duration): Duration {
    if b <= a then a - b else 0
  }

  const U32_MAX: nat := 0xFFFF_FFFF
  type u32 = n: nat | n <= U32_MAX

  /** `u32::saturating_add(1)`. */
  function SaturatingSucc(n: u32): u32 {
    if n == U32_MAX then U32_MAX else n + 1
  }

  const I64_MAX: int := 0x7FFF_FFFF_FFFF_FFFF
  const I64_MIN: int := -0x8000_0000_0000_0000
  type i64 = n: int | I64_MIN <= n <= I64_MAX

  function Clamp64(n: int): i64 {
    if n < I64_MIN then I64_MIN else if n > I64_MAX then I64_MAX else n
  }

  /** `i64::saturating_sub`. */
  function SaturatingSub64(a: i64, b: i64): i64 {
    Clamp64(a - b)
  }

  /** `i64::saturating_neg`. */
  function SaturatingNeg64(a: i64): i64 {
    var n: int := a;
    Clamp64(-n)
  }
}
