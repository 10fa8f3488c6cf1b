/**
 * How much of what one user sends in an interval gets through both levels: upper bounds for
 * every list of check times, and lists that attain them.
 */
module LimiterBounds {
  import opened FixedWindows
  import opened LimiterRuns
  import opened RateLimit
  import opened Units

  /** How many of a user's checks in `[from, to]` are allowed. */
  function AllowedWithin(cfg: RateLimitConfig, times: seq<Instant>, from: Instant, to: Instant): nat {
    if times == [] then 0 else
    AllowedWithin(cfg, Front(times), from, to) + One(from <= Last(times) <= to && GreedyVerdict(cfg, times).Pass?)
  }

  // ---- Upper bounds ----

  /** Allowed is what passes the hour level, of what passes the minute level. */
  lemma {:induction false} AllowedPassBoth(cfg: RateLimitConfig, times: seq<Instant>, from: Instant, to: Instant)
    ensures AllowedWithin(cfg, times, from, to) <= PassedWithin(times, MINUTE, cfg.messagesPerMinute, from, to)
    ensures AllowedWithin(cfg, times, from, to)
         == PassedWithin(Admitted(times, MINUTE, cfg.messagesPerMinute), HOUR, cfg.messagesPerHour, from, to)
    decreases |times|
  {
    if times != [] {
      AllowedPassBoth(cfg, Front(times), from, to);
      var counted := Admitted(times, MINUTE, cfg.messagesPerMinute);
      if Passes(times, MINUTE, cfg.messagesPerMinute) {
        assert Front(counted) == Admitted(Front(times), MINUTE, cfg.messagesPerMinute);
      }
    }
  }

  /** In any `k` minutes at most `k + 1` times the minute limit is allowed. */
  lemma MinuteBound(cfg: RateLimitConfig, times: seq<Instant>, from: Instant, to: Instant, k: nat)
    requires 1 <= cfg.messagesPerMinute < U32_MAX && Sorted(times) && to <= from + k * MINUTE
    ensures AllowedWithin(cfg, times, from, to) <= (k + 1) * cfg.messagesPerMinute
  {
    AllowedPassBoth(cfg, times, from, to);
    SlidingBound(times, MINUTE, cfg.messagesPerMinute, from, to, k);
  }

  /** In any `k` hours at most `k + 1` times the hour limit is allowed. */
  lemma HourBound(cfg: RateLimitConfig, times: seq<Instant>, from: Instant, to: Instant, k: nat)
    requires 1 <= cfg.messagesPerHour < U32_MAX && Sorted(times) && to <= from + k * HOUR
    ensures AllowedWithin(cfg, times, from, to) <= (k + 1) * cfg.messagesPerHour
  {
    AllowedPassBoth(cfg, times, from, to);
    AdmittedSorted(times, MINUTE, cfg.messagesPerMinute);
    SlidingBound(Admitted(times, MINUTE, cfg.messagesPerMinute), HOUR, cfg.messagesPerHour, from, to, k);
  }

  /** In less than `k` hours at most `k + 1` times the hour limit, less one, is allowed. */
  lemma ShortBound(cfg: RateLimitConfig, times: seq<Instant>, from: Instant, to: Instant, k: nat)
    requires 1 <= cfg.messagesPerHour < U32_MAX && Sorted(times) && to < from + k * HOUR
    ensures AllowedWithin(cfg, times, from, to) < (k + 1) * cfg.messagesPerHour
  {
    AllowedPassBoth(cfg, times, from, to);
    AdmittedSorted(times, MINUTE, cfg.messagesPerMinute);
    ShortInterval(Admitted(times, MINUTE, cfg.messagesPerMinute), HOUR, cfg.messagesPerHour, from, to, k);
  }

  /** At one instant no more than the minute limit gets past both levels. */
  lemma AtOnce(cfg: RateLimitConfig, times: seq<Instant>, t: Instant)
    requires 1 <= cfg.messagesPerMinute < U32_MAX && Sorted(times)
    ensures PassedWithin(Admitted(times, MINUTE, cfg.messagesPerMinute), HOUR, cfg.messagesPerHour, t, t)
         <= cfg.messagesPerMinute
  {
    AllowedPassBoth(cfg, times, t, t);
    InstantBound(times, MINUTE, cfg.messagesPerMinute, t);
  }

  /** And in exactly `k` hours as well if the minute limit is the lower one. */
  lemma ClosedBound(cfg: RateLimitConfig, times: seq<Instant>, from: Instant, to: Instant, k: nat)
    requires 1 <= cfg.messagesPerMinute < cfg.messagesPerHour < U32_MAX && Sorted(times) && to <= from + k * HOUR
    ensures AllowedWithin(cfg, times, from, to) < (k + 1) * cfg.messagesPerHour
  {
    var m, h := cfg.messagesPerMinute, cfg.messagesPerHour;
    if to < from + k * HOUR {
      ShortBound(cfg, times, from, to, k);
    } else {
      var counted := Admitted(times, MINUTE, m);
      AllowedPassBoth(cfg, times, from, to);
      AtOnce(cfg, times, to);
      AdmittedSorted(times, MINUTE, m);
      EndDecides(counted, HOUR, h, from, to, k);
    }
  }

  // ---- Who is never turned away ----

  ghost predicate PassBoth(cfg: RateLimitConfig, times: seq<Instant>) {
    AllPass(times, MINUTE, cfg.messagesPerMinute) && AllPass(times, HOUR, cfg.messagesPerHour)
  }

  lemma PassBothAllowed(cfg: RateLimitConfig, times: seq<Instant>)
    requires times != [] && PassBoth(cfg, times)
    ensures GreedyVerdict(cfg, times).Pass?
  {
    AllAdmitted(times, MINUTE, cfg.messagesPerMinute);
  }

  /** Who keeps to both limits in every sliding minute and every sliding hour is always allowed. */
  lemma CompliantIsAllowed(cfg: RateLimitConfig, times: seq<Instant>)
    requires cfg.Validated() && times != [] && Sorted(times)
    requires Complies(times, MINUTE, cfg.messagesPerMinute) && Complies(times, HOUR, cfg.messagesPerHour)
    ensures GreedyVerdict(cfg, times) == Pass
  {
    CompliantPass(times, MINUTE, cfg.messagesPerMinute);
    CompliantPass(times, HOUR, cfg.messagesPerHour);
    PassBothAllowed(cfg, times);
  }

  // ---- The bounds are attained ----

  lemma {:induction false} AllAllowed(cfg: RateLimitConfig, earlier: seq<Instant>, more: seq<Instant>, from: Instant,
                                      to: Instant)
    requires PassBoth(cfg, earlier + more)
    requires forall i :: 0 <= i < |more| ==> from <= more[i] <= to
    ensures AllowedWithin(cfg, earlier + more, from, to) == AllowedWithin(cfg, earlier, from, to) + |more|
    decreases |more|
  {
    if more == [] {
      assert earlier + more == earlier;
    } else {
      assert Front(earlier + more) == earlier + Front(more);
      AllAllowed(cfg, earlier, Front(more), from, to);
      PassBothAllowed(cfg, earlier + more);
    }
  }

  lemma WholeAllowed(cfg: RateLimitConfig, times: seq<Instant>, from: Instant, to: Instant)
    requires PassBoth(cfg, times) && forall i :: 0 <= i < |times| ==> from <= times[i] <= to
    ensures AllowedWithin(cfg, times, from, to) == |times|
  {
    assert [] + times == times;
    AllAllowed(cfg, [], times, from, to);
  }

  lemma {:induction false} BurstsComply(n: nat, m: nat, limit: u32)
    requires (if n <= 60 then n else 60) * m <= limit
    ensures Complies(Bursts(0, n, m, MINUTE), HOUR, limit)
  {
    var times := Bursts(0, n, m, MINUTE);
    TimesIsProduct(n, m);
    if n > 60 {
      TimesIsProduct(60, m);
      TimesIsProduct(60, MINUTE);
      BurstsSorted(0, n, m, MINUTE);
      forall i | limit <= i < |times| ensures times[i - limit] + HOUR <= times[i] {
        LaterBurst(0, n, m, MINUTE, 60, i - 60 * m);
      }
    }
  }

  lemma MinuteBurstsPass(cfg: RateLimitConfig, n: nat)
    requires cfg.Validated()
    requires (if n <= 60 then n else 60) * cfg.messagesPerMinute <= cfg.messagesPerHour
    ensures PassBoth(cfg, Bursts(0, n, cfg.messagesPerMinute, MINUTE))
  {
    var m := cfg.messagesPerMinute;
    BurstsSorted(0, n, m, MINUTE);
    BurstsAllPass(0, n, m, MINUTE, MINUTE, m);
    BurstsComply(n, m, cfg.messagesPerHour);
    CompliantPass(Bursts(0, n, m, MINUTE), HOUR, cfg.messagesPerHour);
  }

  /** Bursts one minute apart attain the minute bound if an hour of them does not exceed the hour limit. */
  lemma {:induction false} MinuteBoundAttained(cfg: RateLimitConfig, k: nat)
    requires cfg.Validated()
    requires (if k < 60 then k + 1 else 60) * cfg.messagesPerMinute <= cfg.messagesPerHour
    ensures var times := Bursts(0, k + 1, cfg.messagesPerMinute, MINUTE);
            && Sorted(times) && (forall i :: 0 <= i < |times| ==> times[i] <= k * MINUTE)
            && AllowedWithin(cfg, times, 0, k * MINUTE) == (k + 1) * cfg.messagesPerMinute
  {
    MinuteBurstsPass(cfg, k + 1);
    BurstsWithin(cfg, k, cfg.messagesPerMinute, MINUTE);
  }

  lemma {:induction false} BurstsWithin(cfg: RateLimitConfig, k: nat, m: nat, gap: Duration)
    requires PassBoth(cfg, Bursts(0, k + 1, m, gap))
    ensures var times := Bursts(0, k + 1, m, gap);
            && Sorted(times) && (forall i :: 0 <= i < |times| ==> times[i] <= k * gap)
            && AllowedWithin(cfg, times, 0, k * gap) == (k + 1) * m
  {
    var times := Bursts(0, k + 1, m, gap);
    BurstsSorted(0, k + 1, m, gap);
    TimesIsProduct(k + 1, m);
    TimesIsProduct(k, gap);
    WholeAllowed(cfg, times, 0, k * gap);
  }

  /** The hour bound is attained, for every `k`, if the minute limit does not cut in. */
  lemma {:induction false} HourBoundAttained(cfg: RateLimitConfig, k: nat)
    requires cfg.messagesPerHour <= cfg.messagesPerMinute
    ensures var times := Bursts(0, k + 1, cfg.messagesPerHour, HOUR);
            && Sorted(times) && (forall i :: 0 <= i < |times| ==> times[i] <= k * HOUR)
            && AllowedWithin(cfg, times, 0, k * HOUR) == (k + 1) * cfg.messagesPerHour
  {
    BurstsAllPass(0, k + 1, cfg.messagesPerHour, HOUR, MINUTE, cfg.messagesPerMinute);
    BurstsAllPass(0, k + 1, cfg.messagesPerHour, HOUR, HOUR, cfg.messagesPerHour);
    BurstsWithin(cfg, k, cfg.messagesPerHour, HOUR);
  }

  // ---- Minutes across the end of an hour ----

  const HALF_MINUTE: Duration := 30_000_000_000

  /** A burst of which `p` checks come before the end of the hour is split by half a minute. */
  function Pause(p: nat): Duration {
    if p == 0 then 0 else HALF_MINUTE
  }

  /** When the burst that meets the end of the hour begins. */
  function LastBurst(p: nat): Instant {
    HOUR - Pause(p)
  }

  lemma EarlyBurstsPass(m: u32, start: Instant, j: nat)
    requires m > 0 && MINUTE <= start
    ensures var times := [0] + Bursts(start, j, m, MINUTE);
            AllPass(times, MINUTE, m) && Opening(times, MINUTE) + MINUTE <= start + j * MINUTE
  {
    TimesIsProduct(j, MINUTE);
    FewAllPass([0], MINUTE, m);
    BurstsPassBehind([0], start, j, m, MINUTE, MINUTE, m);
  }

  lemma SplitBurstPasses(before: seq<Instant>, m: u32, p: nat)
    requires p < m && AllPass(before, MINUTE, m)
    requires before != [] ==> Opening(before, MINUTE) + MINUTE <= LastBurst(p)
    ensures var times := before + (Repeat(LastBurst(p), p) + Repeat(HOUR, m - p));
            AllPass(times, MINUTE, m) && Opening(times, MINUTE) == LastBurst(p)
  {
    SharedWindow(before, Repeat(LastBurst(p), p) + Repeat(HOUR, m - p), MINUTE, m);
  }

  lemma Regrouped(a: seq<Instant>, b: seq<Instant>, c: seq<Instant>, d: seq<Instant>, limit: u32)
    requires AllPass(a + (b + c) + d, MINUTE, limit)
    ensures AllPass((a + b) + (c + d), MINUTE, limit)
  {
    assert a + (b + c) + d == (a + b) + (c + d);
  }

  ghost predicate SortedWithin(times: seq<Instant>, from: Instant, to: Instant) {
    Sorted(times) && forall i :: 0 <= i < |times| ==> from <= times[i] <= to
  }

  lemma EarlyShape(from: Instant, j: nat, m: nat, p: nat)
    requires from + j * MINUTE == LastBurst(p)
    ensures var before := Bursts(from, j, m, MINUTE) + Repeat(LastBurst(p), p);
            |before| == j * m + p && SortedWithin(before, from, HOUR - 1)
  {
    TimesIsProduct(j, m);
    TimesIsProduct(j, MINUTE);
    BurstsSorted(from, j, m, MINUTE);
  }

  lemma LateShape(m: nat, p: nat, n: nat)
    requires p < m && (p > 0 ==> n > 0)
    ensures var more := Repeat(HOUR, m - p) + Bursts(LastBurst(p) + MINUTE, n, m, MINUTE);
            |more| == m - p + n * m && SortedWithin(more, HOUR, LastBurst(p) + n * MINUTE)
  {
    TimesIsProduct(n, m);
    TimesIsProduct(n, MINUTE);
    BurstsSorted(LastBurst(p) + MINUTE, n, m, MINUTE);
  }

  lemma {:induction false} StraddlePasses(m: u32, from: Instant, j: nat, p: nat, n: nat)
    requires p < m && MINUTE <= from && from + j * MINUTE == LastBurst(p)
    ensures AllPass(([0] + Bursts(from, j, m, MINUTE) + Repeat(LastBurst(p), p))
                    + (Repeat(HOUR, m - p) + Bursts(LastBurst(p) + MINUTE, n, m, MINUTE)), MINUTE, m)
  {
    var early, late := [0] + Bursts(from, j, m, MINUTE), Bursts(LastBurst(p) + MINUTE, n, m, MINUTE);
    var head, tail := Repeat(LastBurst(p), p), Repeat(HOUR, m - p);
    EarlyBurstsPass(m, from, j);
    SplitBurstPasses(early, m, p);
    BurstsPassBehind(early + (head + tail), LastBurst(p) + MINUTE, n, m, MINUTE, MINUTE, m);
    Regrouped(early, head, tail, late, m);
  }

  /**
   * `j` bursts and `p` checks of another before the end of an hour opened by a single check, and
   * the rest of that burst and `n` more bursts from then on, all within `j + n` minutes.
   */
  lemma {:induction false} StraddlingMinutes(m: u32, j: nat, p: nat, n: nat)
    returns (before: seq<Instant>, more: seq<Instant>, from: Instant)
    requires j < 60 && p < m && (p > 0 ==> j < 59 && n > 0)
    ensures AllPass([0] + before + more, MINUTE, m)
    ensures |before| == j * m + p && |more| == m - p + n * m
    ensures MINUTE <= from <= HOUR && HOUR <= from + (j + n) * MINUTE
    ensures SortedWithin(before, from, HOUR - 1) && SortedWithin(more, HOUR, from + (j + n) * MINUTE)
  {
    from := LastBurst(p) - j * MINUTE;
    before := Bursts(from, j, m, MINUTE) + Repeat(LastBurst(p), p);
    more := Repeat(HOUR, m - p) + Bursts(LastBurst(p) + MINUTE, n, m, MINUTE);
    EarlyShape(from, j, m, p);
    LateShape(m, p, n);
    StraddlePasses(m, from, j, p, n);
    assert [0] + before == [0] + Bursts(from, j, m, MINUTE) + Repeat(LastBurst(p), p);
  }

  lemma {:induction false} PassesHours(hour: seq<Instant>, more: seq<Instant>, limit: u32)
    requires hour != [] && hour[0] == 0 && |hour| <= limit && |more| <= limit
    requires forall i :: 0 <= i < |hour| ==> hour[i] < HOUR
    requires forall i :: 0 <= i < |more| ==> HOUR <= more[i]
    ensures AllPass(hour + more, HOUR, limit)
  {
    FewAllPass(hour, HOUR, limit);
    OpenedByIsUnique(hour, HOUR, 0);
    NextWindowPasses(hour, more, HOUR, limit);
  }

  /** What both levels together let through in a closed interval of `k` minutes, for `1 <= k < 60`. */
  function MostInMinutes(cfg: RateLimitConfig, k: nat): int {
    var all, twice := (k + 1) * cfg.messagesPerMinute, 2 * cfg.messagesPerHour - 1;
    if all < twice then all else twice
  }

  lemma DividesInto(m: nat, k: nat, a: nat) returns (j: nat, p: nat)
    requires m > 0 && 2 * a < (k + 1) * m
    ensures a == j * m + p && p < m && 2 * j <= k
    ensures m - p + (k - j) * m == (k + 1) * m - a
  {
    j, p := a / m, a % m;
    assert a == j * m + p;
    if 2 * j > k {
      MulMonotone(k + 1, 2 * j, m);
    }
    assert (k - j) * m == k * m - j * m;
  }

  /**
   * The maximum is attained where the `k` minutes lie across the end of an hour; beyond an hour it
   * is still allowed, but need not be the maximum.
   */
  lemma {:induction false} MostIsAllowed(cfg: RateLimitConfig, k: nat) returns (times: seq<Instant>, from: Instant)
    requires cfg.Validated() && 1 <= k <= 117
    ensures SortedWithin(times, 0, from + k * MINUTE) && from <= HOUR
    ensures AllowedWithin(cfg, times, from, from + k * MINUTE) == MostInMinutes(cfg, k)
  {
    var m, h, most := cfg.messagesPerMinute, cfg.messagesPerHour, MostInMinutes(cfg, k);
    var a := if most > h then most - h else 0;
    MulMonotone(1, k + 1, m);
    var j, p := DividesInto(m, k, a);
    var before, more;
    before, more, from := StraddlingMinutes(m, j, p, k - j);
    times := Straddled(cfg, before, more, most - a, from, from + k * MINUTE);
  }

  lemma {:induction false} Straddled(cfg: RateLimitConfig, before: seq<Instant>, more: seq<Instant>, n: nat,
                                     from: Instant, to: Instant) returns (times: seq<Instant>)
    requires AllPass([0] + before + more, MINUTE, cfg.messagesPerMinute)
    requires |before| < cfg.messagesPerHour && n <= |more| && n <= cfg.messagesPerHour
    requires 0 < from <= HOUR <= to && SortedWithin(before, from, HOUR - 1) && SortedWithin(more, HOUR, to)
    ensures SortedWithin(times, 0, to) && AllowedWithin(cfg, times, from, to) == |before| + n
  {
    var hour, rest := [0] + before, more[..n];
    times := hour + rest;
    StraddledPass(cfg, hour, more, rest);
    StraddledShape(before, rest, from, to);
    SecondAndLater(cfg, before + rest, from, to);
  }

  lemma StraddledShape(before: seq<Instant>, rest: seq<Instant>, from: Instant, to: Instant)
    requires from <= HOUR <= to && SortedWithin(before, from, HOUR - 1) && SortedWithin(rest, HOUR, to)
    ensures [0] + before + rest == [0] + (before + rest) && SortedWithin([0] + before + rest, 0, to)
    ensures SortedWithin(before + rest, from, to)
  {}

  lemma StraddledPass(cfg: RateLimitConfig, hour: seq<Instant>, more: seq<Instant>, rest: seq<Instant>)
    requires AllPass(hour + more, MINUTE, cfg.messagesPerMinute) && rest <= more
    requires hour != [] && hour[0] == 0 && |hour| <= cfg.messagesPerHour && |rest| <= cfg.messagesPerHour
    requires forall i :: 0 <= i < |hour| ==> hour[i] < HOUR
    requires forall i :: 0 <= i < |more| ==> HOUR <= more[i]
    ensures PassBoth(cfg, hour + rest)
  {
    PrefixAllPass(hour + more, hour + rest, MINUTE, cfg.messagesPerMinute);
    PassesHours(hour, rest, cfg.messagesPerHour);
  }

  lemma SecondAndLater(cfg: RateLimitConfig, later: seq<Instant>, from: Instant, to: Instant)
    requires PassBoth(cfg, [0] + later) && 0 < from && SortedWithin(later, from, to)
    ensures AllowedWithin(cfg, [0] + later, from, to) == |later|
  {
    AllAllowed(cfg, [0], later, from, to);
    assert Front([0]) == [];
  }

  /** What both levels together let through in a closed hour. */
  function MostInHour(cfg: RateLimitConfig): int {
    if cfg.messagesPerHour <= cfg.messagesPerMinute then 2 * cfg.messagesPerHour else MostInMinutes(cfg, 60)
  }

  lemma MostInHourBounds(cfg: RateLimitConfig, times: seq<Instant>, from: Instant, to: Instant)
    requires cfg.Validated() && cfg.messagesPerHour < U32_MAX && Sorted(times) && to <= from + HOUR
    ensures AllowedWithin(cfg, times, from, to) <= MostInHour(cfg)
  {
    if cfg.messagesPerHour <= cfg.messagesPerMinute {
      HourBound(cfg, times, from, to, 1);
    } else {
      ClosedBound(cfg, times, from, to, 1);
      MinuteBound(cfg, times, from, to, 60);
    }
  }

  lemma MostIsAllowedInHour(cfg: RateLimitConfig) returns (times: seq<Instant>, from: Instant)
    requires cfg.Validated()
    ensures SortedWithin(times, 0, from + HOUR) && from <= HOUR
    ensures AllowedWithin(cfg, times, from, from + HOUR) == MostInHour(cfg)
  {
    if cfg.messagesPerHour <= cfg.messagesPerMinute {
      times, from := Bursts(0, 2, cfg.messagesPerHour, HOUR), 0;
      HourBoundAttained(cfg, 1);
    } else {
      times, from := MostIsAllowed(cfg, 60);
    }
  }
}
