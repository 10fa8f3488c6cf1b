/** Runs of the webhook handler that attain the bounds of `ServerRuns`. */
module ServerWitnesses {
  import opened LimiterBounds
  import opened FixedWindows
  import opened RateLimit
  import opened Server
  import opened ServerRuns
  import opened Units
  import opened Webhook
  import opened Wrappers

  /** The last full second a message can name as its creation time. */
  const U32_CLOCK: Instant := 4_294_967_295_000_000_000

  // ---- Bursts of messages ----

  /** One text message of `sender` per time, each with an identifier of its own. */
  function Chat(sender: ThreemaId, times: seq<Instant>): (r: Run)
    requires forall i :: 0 <= i < |times| ==> times[i] <= U32_CLOCK
    ensures |r| == |times| && forall i :: 0 <= i < |r| ==> r[i].now == r[i].checkedAt == times[i]
  {
    if times == [] then [] else
    var t := Last(times);
    Chat(sender, Front(times))
    + [Delivery(t, t, Authentic(Message(sender, |times| - 1, WholeSeconds(t), None), true, Some(Text(""))))]
  }

  lemma ChatGrows(sender: ThreemaId, times: seq<Instant>)
    requires times != [] && forall i :: 0 <= i < |times| ==> times[i] <= U32_CLOCK
    ensures var run, t := Chat(sender, times), Last(times);
            && Earlier(run) == Chat(sender, Front(times))
            && Latest(run)
            == Delivery(t, t, Authentic(Message(sender, |times| - 1, WholeSeconds(t), None), true, Some(Text(""))))
  {
    assert Earlier(Chat(sender, times)) == Chat(sender, Front(times));
  }

  lemma MessageReachesLimiter(cfg: Config, s: ServerState, d: Delivery, sender: ThreemaId, n: nat)
    requires cfg.maxWebhookAge >= 0 && IsSenderAllowed(cfg.allowedUsers, sender) && d.now <= U32_CLOCK
    requires d.request == Authentic(Message(sender, n, WholeSeconds(d.now), None), true, Some(Text("")))
    requires forall key :: key in s.seen ==> key.id < n
    ensures ReachesLimiter(cfg, s, d)
    ensures forall key :: key in Step(cfg, s, d).state.seen ==> key.id < n + 1
  {
    AcceptedIffClose(WholeSeconds(d.now), cfg.maxWebhookAge, d.now);
    StepSeen(cfg, s, d);
  }

  lemma {:induction false} ChatReachesLimiter(cfg: Config, sender: ThreemaId, times: seq<Instant>)
    requires forall i :: 0 <= i < |times| ==> times[i] <= U32_CLOCK
    requires cfg.maxWebhookAge >= 0 && IsSenderAllowed(cfg.allowedUsers, sender)
    ensures ChecksOf(cfg, Chat(sender, times), sender) == times
    ensures forall key :: key in StateAfter(cfg, Chat(sender, times)).seen ==> key.id < |times|
    decreases |times|
  {
    if times != [] {
      var run := Chat(sender, times);
      ChatGrows(sender, times);
      ChatReachesLimiter(cfg, sender, Front(times));
      MessageReachesLimiter(cfg, StateAfter(cfg, Earlier(run)), Latest(run), sender, |times| - 1);
      ChecksOfLatest(cfg, run, sender);
    }
  }

  /** What the limiter allows of some check times is dispatched if messages come at these times. */
  lemma ChatIsDispatched(cfg: Config, sender: ThreemaId, times: seq<Instant>, from: Instant, to: Instant)
    requires cfg.Validated() && cfg.limits.Some?
    requires cfg.maxWebhookAge >= 0 && IsSenderAllowed(cfg.allowedUsers, sender)
    requires Sorted(times) && forall i :: 0 <= i < |times| ==> times[i] <= U32_CLOCK
    ensures var run := Chat(sender, times);
            && Ordered(run)
            && DispatchedWithin(cfg, run, sender, from, to) == AllowedWithin(cfg.limits.value, times, from, to)
  {
    ChatReachesLimiter(cfg, sender, times);
    DispatchesAreAllowedChecks(cfg, Chat(sender, times), sender, from, to);
  }

  /**
   * `k + 1` times the minute limit does get through within `k` minutes if an hour of bursts does
   * not exceed the hour limit.
   */
  lemma MinuteBoundAttained(cfg: Config, sender: ThreemaId, k: nat)
    requires cfg.Validated() && cfg.limits.Some?
    requires cfg.maxWebhookAge >= 0 && IsSenderAllowed(cfg.allowedUsers, sender)
    requires (if k < 60 then k + 1 else 60) * cfg.limits.value.messagesPerMinute <= cfg.limits.value.messagesPerHour
    requires 60 * k <= U32_MAX
    ensures exists run :: Ordered(run)
              && DispatchedWithin(cfg, run, sender, 0, k * MINUTE) == (k + 1) * cfg.limits.value.messagesPerMinute
  {
    LimiterBounds.MinuteBoundAttained(cfg.limits.value, k);
    ChatIsDispatched(cfg, sender, Bursts(0, k + 1, cfg.limits.value.messagesPerMinute, MINUTE), 0, k * MINUTE);
  }

  /** `k + 1` times the hour limit does get through within `k` hours if the minute limit permits. */
  lemma HourBoundAttained(cfg: Config, sender: ThreemaId, k: nat)
    requires cfg.Validated() && cfg.limits.Some?
    requires cfg.maxWebhookAge >= 0 && IsSenderAllowed(cfg.allowedUsers, sender)
    requires cfg.limits.value.messagesPerHour <= cfg.limits.value.messagesPerMinute && 3600 * k <= U32_MAX
    ensures exists run :: Ordered(run)
              && DispatchedWithin(cfg, run, sender, 0, k * HOUR) == (k + 1) * cfg.limits.value.messagesPerHour
  {
    LimiterBounds.HourBoundAttained(cfg.limits.value, k);
    ChatIsDispatched(cfg, sender, Bursts(0, k + 1, cfg.limits.value.messagesPerHour, HOUR), 0, k * HOUR);
  }

  // ---- When the documented limits are kept ----

  /** In no run more than `limit` messages of one sender are dispatched in an interval of this length. */
  ghost predicate AtMostWithin(cfg: Config, limit: int, length: Duration) {
    forall run, sender, from: Instant, to: Instant :: Ordered(run) && to <= from + length ==>
      DispatchedWithin(cfg, run, sender, from, to) <= limit
  }

  function AllowedSender(cfg: Config): (r: ThreemaId)
    ensures IsSenderAllowed(cfg.allowedUsers, r)
  {
    if cfg.allowedUsers == [] then ThreemaId("SOMEBODY") else cfg.allowedUsers[0]
  }

  /** In some run this many messages of one sender are dispatched in an interval of this length. */
  ghost predicate Attains(cfg: Config, n: int, length: Duration) {
    exists run, sender, from: Instant, to: Instant :: Ordered(run) && to == from + length
      && DispatchedWithin(cfg, run, sender, from, to) == n
  }

  lemma WhatIsAllowedIsAttained(cfg: Config, times: seq<Instant>, from: Instant, to: Instant)
    requires cfg.Validated() && cfg.limits.Some? && cfg.maxWebhookAge >= 0 && from <= to
    requires SortedWithin(times, 0, U32_CLOCK)
    ensures Attains(cfg, AllowedWithin(cfg.limits.value, times, from, to), to - from)
  {
    ChatIsDispatched(cfg, AllowedSender(cfg), times, from, to);
    var run := Chat(AllowedSender(cfg), times);
    assert to == from + (to - from);
  }

  lemma MostIsDispatched(cfg: Config, k: nat)
    requires cfg.Validated() && cfg.limits.Some? && cfg.maxWebhookAge >= 0 && 1 <= k <= 117
    ensures Attains(cfg, MostInMinutes(cfg.limits.value, k), k * MINUTE)
  {
    var times, from := MostIsAllowed(cfg.limits.value, k);
    WhatIsAllowedIsAttained(cfg, times, from, from + k * MINUTE);
  }

  lemma MostBounds(cfg: Config, run: Run, sender: ThreemaId, from: Instant, to: Instant, k: nat)
    requires Ordered(run) && cfg.Validated() && cfg.limits.Some? && cfg.limits.value.messagesPerHour < U32_MAX
    requires 1 <= k < 60 && to <= from + k * MINUTE
    ensures DispatchedWithin(cfg, run, sender, from, to) <= MostInMinutes(cfg.limits.value, k)
  {
    DispatchBounds(cfg, run, sender, from, to, k);
    ShortDispatchBound(cfg, run, sender, from, to, 1);
    MulMonotone(2, k + 1, cfg.limits.value.messagesPerMinute);
  }

  /**
   * Below an hour the most that gets through in `k` minutes is known exactly: `k + 1` times the
   * minute limit, or twice the hour limit less one, whichever is less.
   */
  lemma MinuteMaximum(cfg: Config, k: nat)
    requires cfg.Validated() && cfg.limits.Some? && cfg.maxWebhookAge >= 0 && 1 <= k < 60
    requires cfg.limits.value.messagesPerHour < U32_MAX
    ensures AtMostWithin(cfg, MostInMinutes(cfg.limits.value, k), k * MINUTE)
    ensures Attains(cfg, MostInMinutes(cfg.limits.value, k), k * MINUTE)
  {
    forall run, sender, from: Instant, to: Instant | Ordered(run) && to <= from + k * MINUTE
      ensures DispatchedWithin(cfg, run, sender, from, to) <= MostInMinutes(cfg.limits.value, k)
    {
      MostBounds(cfg, run, sender, from, to, k);
    }
    MostIsDispatched(cfg, k);
  }

  lemma MostInHourIsDispatched(cfg: Config)
    requires cfg.Validated() && cfg.limits.Some? && cfg.maxWebhookAge >= 0
    ensures Attains(cfg, MostInHour(cfg.limits.value), HOUR)
  {
    var times, from := MostIsAllowedInHour(cfg.limits.value);
    WhatIsAllowedIsAttained(cfg, times, from, from + HOUR);
  }

  lemma HourBounds(cfg: Config, run: Run, sender: ThreemaId, from: Instant, to: Instant)
    requires Ordered(run) && cfg.Validated() && cfg.limits.Some? && cfg.limits.value.messagesPerHour < U32_MAX
    requires to <= from + HOUR
    ensures DispatchedWithin(cfg, run, sender, from, to) <= MostInHour(cfg.limits.value)
  {
    LimiterEventsOrdered(cfg, run);
    ChecksSorted(LimiterEvents(cfg, run), sender);
    DispatchesAreAllowedChecks(cfg, run, sender, from, to);
    MostInHourBounds(cfg.limits.value, ChecksOf(cfg, run, sender), from, to);
  }

  /**
   * The most that gets through in an hour: twice the hour limit if a burst of that size passes the
   * minute level; otherwise 61 times the minute limit, or twice the hour limit less one.
   */
  lemma HourMaximum(cfg: Config)
    requires cfg.Validated() && cfg.limits.Some? && cfg.maxWebhookAge >= 0
    requires cfg.limits.value.messagesPerHour < U32_MAX
    ensures AtMostWithin(cfg, MostInHour(cfg.limits.value), HOUR) && Attains(cfg, MostInHour(cfg.limits.value), HOUR)
  {
    forall run, sender, from: Instant, to: Instant | Ordered(run) && to <= from + HOUR
      ensures DispatchedWithin(cfg, run, sender, from, to) <= MostInHour(cfg.limits.value)
    {
      HourBounds(cfg, run, sender, from, to);
    }
    MostInHourIsDispatched(cfg);
  }

  /**
   * The configuration promises a maximum for any one-minute window. It is kept exactly if twice
   * the hour limit does not exceed the minute limit by more than one, so that the hour limit
   * alone keeps it; or if nothing is accepted at all.
   */
  lemma MinutePromiseIff(cfg: Config)
    requires cfg.Validated() && cfg.limits.Some?
    ensures AtMostWithin(cfg, cfg.limits.value.messagesPerMinute, MINUTE)
       <==> cfg.maxWebhookAge < 0 || 2 * cfg.limits.value.messagesPerHour <= cfg.limits.value.messagesPerMinute + 1
  {
    var m: nat, h: nat := cfg.limits.value.messagesPerMinute, cfg.limits.value.messagesPerHour;
    if cfg.maxWebhookAge < 0 {
      NothingWithin(cfg, m, MINUTE);
    } else if 2 * h <= m + 1 {
      forall run, sender, from: Instant, to: Instant | Ordered(run) && to <= from + MINUTE
        ensures DispatchedWithin(cfg, run, sender, from, to) <= m
      {
        ShortDispatchBound(cfg, run, sender, from, to, 1);
      }
    } else {
      MostIsDispatched(cfg, 1);
      Exceeds(cfg, MostInMinutes(cfg.limits.value, 1), m, MINUTE);
    }
  }

  /** The promise for any one-hour window is kept exactly if 61 times the minute limit keeps it. */
  lemma HourPromiseIff(cfg: Config)
    requires cfg.Validated() && cfg.limits.Some?
    ensures AtMostWithin(cfg, cfg.limits.value.messagesPerHour, HOUR)
       <==> cfg.maxWebhookAge < 0 || 61 * cfg.limits.value.messagesPerMinute <= cfg.limits.value.messagesPerHour
  {
    var m: nat, h: nat := cfg.limits.value.messagesPerMinute, cfg.limits.value.messagesPerHour;
    if cfg.maxWebhookAge < 0 {
      NothingWithin(cfg, h, HOUR);
    } else if 61 * m <= h {
      forall run, sender, from: Instant, to: Instant | Ordered(run) && to <= from + HOUR
        ensures DispatchedWithin(cfg, run, sender, from, to) <= h
      {
        DispatchBounds(cfg, run, sender, from, to, 60);
      }
    } else {
      MostInHourIsDispatched(cfg);
      Exceeds(cfg, MostInHour(cfg.limits.value), h, HOUR);
    }
  }

  lemma Exceeds(cfg: Config, n: int, limit: int, length: Duration)
    requires Attains(cfg, n, length) && limit < n
    ensures !AtMostWithin(cfg, limit, length)
  {}

  // ---- When the general bounds are attained ----

  /**
   * Up to an hour, `k + 1` times the minute limit gets through within `k` minutes exactly if that is
   * less than twice the hour limit.
   */
  lemma MinuteBoundAttainedIff(cfg: Config, k: nat)
    requires cfg.Validated() && cfg.limits.Some? && cfg.limits.value.messagesPerHour < U32_MAX && 1 <= k <= 60
    ensures Attains(cfg, (k + 1) * cfg.limits.value.messagesPerMinute, k * MINUTE)
       <==> && cfg.maxWebhookAge >= 0
            && (k + 1) * cfg.limits.value.messagesPerMinute < 2 * cfg.limits.value.messagesPerHour
  {
    var m: nat, h: nat := cfg.limits.value.messagesPerMinute, cfg.limits.value.messagesPerHour;
    MulMonotone(1, k + 1, m);
    if cfg.maxWebhookAge < 0 {
      NothingWithin(cfg, 0, k * MINUTE);
    } else {
      MostIsDispatched(cfg, k);
      if k < 60 {
        MinuteMaximum(cfg, k);
      } else {
        HourMaximum(cfg);
      }
    }
  }

  /**
   * `k + 1` times the hour limit gets through within `k` hours exactly if the minute level lets a
   * burst of the hour limit pass.
   */
  lemma HourBoundAttainedIff(cfg: Config, k: nat)
    requires cfg.Validated() && cfg.limits.Some? && cfg.limits.value.messagesPerHour < U32_MAX && 3600 * k <= U32_MAX
    ensures Attains(cfg, (k + 1) * cfg.limits.value.messagesPerHour, k * HOUR)
       <==> cfg.maxWebhookAge >= 0 && cfg.limits.value.messagesPerHour <= cfg.limits.value.messagesPerMinute
  {
    var m: nat, h: nat := cfg.limits.value.messagesPerMinute, cfg.limits.value.messagesPerHour;
    MulMonotone(1, k + 1, h);
    if cfg.maxWebhookAge < 0 {
      NothingWithin(cfg, 0, k * HOUR);
    } else if h <= m {
      HourBoundAttained(cfg, AllowedSender(cfg), k);
    } else if Attains(cfg, (k + 1) * h, k * HOUR) {
      var run, sender, from: Instant, to: Instant :| Ordered(run) && to == from + k * HOUR
        && DispatchedWithin(cfg, run, sender, from, to) == (k + 1) * h;
      ShortDispatchBound(cfg, run, sender, from, to, k);
    }
  }

  lemma NothingWithin(cfg: Config, limit: nat, length: Duration)
    requires cfg.maxWebhookAge < 0
    ensures AtMostWithin(cfg, limit, length)
  {
    forall run, sender, from: Instant, to: Instant | Ordered(run) && to <= from + length
      ensures DispatchedWithin(cfg, run, sender, from, to) <= limit
    {
      NothingDispatched(cfg, run, sender, from, to);
    }
  }

  // ---- Repeated deliveries of one webhook ----

  const TIRELESS := ThreemaId("TIRELESS")

  /** A webhook created at `createdAt` is accepted at each of these times. */
  ghost predicate Accepts(cfg: Config, createdAt: u32, times: seq<Instant>) {
    forall i :: 0 <= i < |times| ==>
      times[i] < END_OF_CLOCK && ValidateTimestamp(createdAt, cfg.maxWebhookAge, times[i]).Ok?
  }

  /** The same webhook, delivered again and again. */
  function Replay(createdAt: u32, times: seq<Instant>): (r: Run)
    requires forall i :: 0 <= i < |times| ==> times[i] < END_OF_CLOCK
    ensures |r| == |times| && forall i :: 0 <= i < |r| ==> r[i].now == r[i].checkedAt == times[i]
  {
    if times == [] then [] else
    Replay(createdAt, Front(times))
    + [Delivery(Last(times), Last(times), Authentic(Message(TIRELESS, 0, createdAt, None), false, None))]
  }

  const REPLAYED := Dedup.MessageKey(TIRELESS, 0)

  /** After `times`, the webhook was last inserted at the last of them. */
  ghost predicate SeenAtLast(seen: Dedup.Seen, times: seq<Instant>) {
    (REPLAYED in seen <==> times != []) && (times != [] ==> seen[REPLAYED].stamp == Last(times))
  }

  lemma ReplayPasses(cfg: Config, s: ServerState, times: seq<Instant>, d: Delivery)
    requires SeenAtLast(s.seen, times) && PassesTimestamp(cfg, d) && KeyOf(d) == REPLAYED
    requires times != [] ==> Last(times) + cfg.DedupTtl() <= d.now
    ensures PassesGates(cfg, s, d) && SeenAtLast(Step(cfg, s, d).state.seen, times + [d.now])
  {
    StepSeen(cfg, s, d);
  }

  /** The webhook passes each time it is accepted if the times are spaced. */
  lemma {:induction false} ReplaysPass(cfg: Config, createdAt: u32, times: seq<Instant>)
    requires Accepts(cfg, createdAt, times) && Dedup.Spaced(times, cfg.DedupTtl())
    ensures var run := Replay(createdAt, times);
            && |PassTimes(cfg, run, REPLAYED, createdAt)| == |times|
            && SeenAtLast(StateAfter(cfg, run).seen, times)
    decreases |times|
  {
    if times != [] {
      var run := Replay(createdAt, times);
      FrontAndLast(times);
      ReplaysPass(cfg, createdAt, Front(times));
      assert Earlier(run) == Replay(createdAt, Front(times));
      var s := StateAfter(cfg, Earlier(run));
      ReplayPasses(cfg, s, Front(times), Latest(run));
      assert StateAfter(cfg, run) == Step(cfg, s, Latest(run)).state;
    }
  }

  /** The creation time whose webhooks are accepted for longest: the epoch is just within reach. */
  function LongLived(age: i64): u32
    requires age >= 0
  {
    if age < U32_MAX then age else U32_MAX
  }

  lemma LongLivedIsAccepted(cfg: Config, times: seq<Instant>)
    requires cfg.maxWebhookAge >= 0
    requires forall i :: 0 <= i < |times| ==> times[i] <= Seconds(Reach(cfg.maxWebhookAge))
    ensures Accepts(cfg, LongLived(cfg.maxWebhookAge), times)
  {
    forall i | 0 <= i < |times|
      ensures times[i] < END_OF_CLOCK
      ensures ValidateTimestamp(LongLived(cfg.maxWebhookAge), cfg.maxWebhookAge, times[i]).Ok?
    {
      AcceptedIffClose(LongLived(cfg.maxWebhookAge), cfg.maxWebhookAge, times[i]);
    }
  }

  /** `n` times, `gap` apart. */
  function Regular(n: nat, gap: Duration): (r: seq<Instant>)
    ensures |r| == n && Dedup.Spaced(r, gap) && Sorted(r)
    ensures forall i :: 0 <= i < n ==> r[i] <= (n - 1) * gap
    ensures n > 0 ==> r[n - 1] == (n - 1) * gap
  {
    if n == 0 then [] else
    assert n > 1 ==> (n - 1) * gap == (n - 2) * gap + gap;
    Regular(n - 1, gap) + [(n - 1) * gap]
  }

  lemma ReplayOrdered(createdAt: u32, times: seq<Instant>)
    requires Sorted(times) && forall i :: 0 <= i < |times| ==> times[i] < END_OF_CLOCK
    ensures Ordered(Replay(createdAt, times))
  {}

  lemma RegularWithin(n: nat, ttl: nat, reach: nat)
    requires n > 0 && (n - 1) * ttl <= reach
    ensures forall i :: 0 <= i < n ==> Regular(n, Seconds(ttl))[i] <= Seconds(reach)
  {
    assert (n - 1) * Seconds(ttl) == Seconds((n - 1) * ttl);
  }

  lemma RegularReplay(cfg: Config, n: nat) returns (run: Run, key: Dedup.MessageKey, createdAt: u32)
    requires 0 <= cfg.maxWebhookAge && n > 0 && (n - 1) * cfg.dedupTtlSeconds <= Reach(cfg.maxWebhookAge)
    ensures Ordered(run) && |PassTimes(cfg, run, key, createdAt)| == n
  {
    var times := Regular(n, cfg.DedupTtl());
    RegularWithin(n, cfg.dedupTtlSeconds, Reach(cfg.maxWebhookAge));
    key, createdAt := REPLAYED, LongLived(cfg.maxWebhookAge);
    LongLivedIsAccepted(cfg, times);
    ReplaysPass(cfg, createdAt, times);
    ReplayOrdered(createdAt, times);
    run := Replay(createdAt, times);
  }

  /** The bound on repeated acceptance is attained. */
  lemma {:induction false} RepeatBoundAttained(cfg: Config) returns (run: Run, key: Dedup.MessageKey, createdAt: u32)
    requires 0 <= cfg.maxWebhookAge && cfg.dedupTtlSeconds > 0
    ensures Ordered(run)
    ensures |PassTimes(cfg, run, key, createdAt)| == Reach(cfg.maxWebhookAge) / cfg.dedupTtlSeconds + 1
  {
    var ttl, reach := cfg.dedupTtlSeconds, Reach(cfg.maxWebhookAge);
    assert reach / ttl * ttl <= reach;
    run, key, createdAt := RegularReplay(cfg, reach / ttl + 1);
  }

  lemma {:induction false} NothingPasses(cfg: Config, run: Run, key: Dedup.MessageKey, createdAt: u32)
    requires cfg.maxWebhookAge < 0
    ensures PassTimes(cfg, run, key, createdAt) == []
    decreases |run|
  {
    if run != [] {
      NothingPasses(cfg, Earlier(run), key, createdAt);
    }
  }

  lemma PassesAtMostOnce(cfg: Config, run: Run, key: Dedup.MessageKey, createdAt: u32)
    requires Ordered(run)
    requires cfg.maxWebhookAge < 0 || Reach(cfg.maxWebhookAge) < cfg.dedupTtlSeconds
    ensures |PassTimes(cfg, run, key, createdAt)| <= 1
  {
    if cfg.maxWebhookAge < 0 {
      NothingPasses(cfg, run, key, createdAt);
    } else {
      SmallQuotient(Reach(cfg.maxWebhookAge), cfg.dedupTtlSeconds);
      RepeatBound(cfg, run, key, createdAt);
    }
  }

  lemma SmallQuotient(x: nat, d: nat)
    requires x < d
    ensures x / d == 0
  {}

  ghost predicate AtMostOnce(cfg: Config) {
    forall run, key, createdAt :: Ordered(run) ==> |PassTimes(cfg, run, key, createdAt)| <= 1
  }

  /**
   * No webhook gets past the gates twice exactly when its reach, which is twice the maximum age
   * for all ages of 32 bits, is below the time to live; or when nothing gets past them at all.
   */
  lemma AtMostOnceIff(cfg: Config)
    ensures AtMostOnce(cfg) <==> cfg.maxWebhookAge < 0 || Reach(cfg.maxWebhookAge) < cfg.dedupTtlSeconds
  {
    if cfg.maxWebhookAge < 0 || Reach(cfg.maxWebhookAge) < cfg.dedupTtlSeconds {
      forall run, key, createdAt | Ordered(run) ensures |PassTimes(cfg, run, key, createdAt)| <= 1 {
        PassesAtMostOnce(cfg, run, key, createdAt);
      }
    } else {
      var run, key, createdAt := RegularReplay(cfg, 2);
      assert |PassTimes(cfg, run, key, createdAt)| > 1;
    }
  }

  /** With the default maximum age of 300 seconds and the fixed time to live, the bound is three. */
  lemma DefaultsAdmitThree(cfg: Config)
    requires cfg.maxWebhookAge == 300 && cfg.dedupTtlSeconds == DEDUP_TTL_SECONDS
    ensures forall run, key, createdAt :: Ordered(run) ==> |PassTimes(cfg, run, key, createdAt)| <= 3
    ensures exists run, key, createdAt :: Ordered(run) && |PassTimes(cfg, run, key, createdAt)| == 3
  {
    forall run, key, createdAt | Ordered(run) ensures |PassTimes(cfg, run, key, createdAt)| <= 3 {
      RepeatBound(cfg, run, key, createdAt);
    }
    var run, key, createdAt := RepeatBoundAttained(cfg);
    assert |PassTimes(cfg, run, key, createdAt)| == 3;
  }
}
