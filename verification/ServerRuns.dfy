/**
 * Serial runs of the webhook handler: what the gates guarantee together, over any number of
 * deliveries from any number of senders.
 */
module ServerRuns {
  import LimiterBounds
  import LimiterRuns
  import opened FixedWindows
  import opened RateLimit
  import opened Server
  import opened Units
  import opened Webhook

  type Run = seq<Delivery>

  function Earlier(run: Run): Run
    requires run != []
  {
    run[..|run| - 1]
  }

  function Latest(run: Run): Delivery
    requires run != []
  {
    run[|run| - 1]
  }

  function StateAfter(cfg: Config, run: Run): ServerState {
    if run == [] then NEW_SERVER else Step(cfg, StateAfter(cfg, Earlier(run)), Latest(run)).state
  }

  /** What the last delivery of a run brings about. */
  function LastOutcome(cfg: Config, run: Run): Outcome
    requires run != []
  {
    Step(cfg, StateAfter(cfg, Earlier(run)), Latest(run))
  }

  /** One delivery after the other, on a clock that does not go backwards. */
  ghost predicate Ordered(run: Run) {
    && (forall i :: 0 <= i < |run| ==> run[i].now <= run[i].checkedAt)
    && (forall i, j :: 0 <= i < j < |run| ==> run[i].checkedAt <= run[j].now)
  }

  function Now(run: Run): Instant {
    if run == [] then 0 else Latest(run).checkedAt
  }

  // ---- Erasure ----

  /** The deliveries of `run` that `keep` keeps. */
  function Kept(run: Run, keep: seq<bool>): Run
    requires |keep| == |run|
  {
    if run == [] then [] else
    var earlier := Kept(Earlier(run), keep[..|run| - 1]);
    if keep[|run| - 1] then earlier + [Latest(run)] else earlier
  }

  ghost predicate ErasesOnlyTraceless(cfg: Config, run: Run, keep: seq<bool>)
    requires |keep| == |run|
  {
    forall i :: 0 <= i < |run| && !keep[i] ==> LeavesNoTrace(LastOutcome(cfg, run[..i + 1]).reply)
  }

  /**
   * Deliveries turned away by signature, parsing, timestamp or deduplication can be erased, all
   * or some of them: the state and the outcome of every other delivery stay the same.
   */
  lemma {:induction false} Erasure(cfg: Config, run: Run, keep: seq<bool>)
    requires |keep| == |run| && ErasesOnlyTraceless(cfg, run, keep)
    ensures StateAfter(cfg, Kept(run, keep)) == StateAfter(cfg, run)
    ensures run != [] && keep[|run| - 1] ==> LastOutcome(cfg, Kept(run, keep)) == LastOutcome(cfg, run)
    decreases |run|
  {
    if run != [] {
      var init := keep[..|run| - 1];
      forall i | 0 <= i < |run| - 1 && !init[i] ensures LeavesNoTrace(LastOutcome(cfg, Earlier(run)[..i + 1]).reply) {
        assert Earlier(run)[..i + 1] == run[..i + 1];
      }
      Erasure(cfg, Earlier(run), init);
      StepTraceless(cfg, StateAfter(cfg, Earlier(run)), Latest(run));
      if keep[|run| - 1] {
        assert Earlier(Kept(run, keep)) == Kept(Earlier(run), init);
      } else {
        assert run[..|run|] == run;
      }
    }
  }

  // ---- The limiter sees only what reaches it ----

  /** The checks a run puts to the rate limiter. */
  function LimiterEvents(cfg: Config, run: Run): LimiterRuns.Events {
    if run == [] then [] else
    var d := Latest(run);
    var events := LimiterEvents(cfg, Earlier(run));
    if ReachesLimiter(cfg, StateAfter(cfg, Earlier(run)), d) then
      events + [LimiterRuns.Check(d.request.msg.from, d.checkedAt)]
    else
      events
  }

  lemma {:induction false} LimiterEventsOrdered(cfg: Config, run: Run)
    requires Ordered(run)
    ensures LimiterRuns.Ordered(LimiterEvents(cfg, run))
    ensures LimiterRuns.Now(LimiterEvents(cfg, run)) <= Now(run)
    ensures forall i :: 0 <= i < |LimiterEvents(cfg, run)| ==> LimiterEvents(cfg, run)[i].now <= Now(run)
    decreases |run|
  {
    if run != [] {
      LimiterEventsOrdered(cfg, Earlier(run));
    }
  }

  /** The limiter's state is that of its own history; nothing else in the run touches it. */
  lemma {:induction false} LimiterStateIsItsHistory(cfg: Config, run: Run)
    requires cfg.limits.Some?
    ensures StateAfter(cfg, run).limiter == LimiterRuns.After(cfg.limits.value, SOURCE_IDLE, LimiterEvents(cfg, run))
    decreases |run|
  {
    if run != [] {
      LimiterStateIsItsHistory(cfg, Earlier(run));
      StepLimiter(cfg, StateAfter(cfg, Earlier(run)), Latest(run));
      var events := LimiterEvents(cfg, Earlier(run));
      assert LimiterEvents(cfg, run)[..|events|] == events;
    }
  }

  /** The times at which `sender` reached the limiter. */
  function ChecksOf(cfg: Config, run: Run, sender: ThreemaId): seq<Instant> {
    LimiterRuns.ChecksOf(LimiterEvents(cfg, run), sender)
  }

  lemma ChecksOfLatest(cfg: Config, run: Run, sender: ThreemaId)
    requires run != []
    ensures var d, times := Latest(run), ChecksOf(cfg, Earlier(run), sender);
            ChecksOf(cfg, run, sender) ==
              if ReachesLimiter(cfg, StateAfter(cfg, Earlier(run)), d) && d.request.msg.from == sender
              then times + [d.checkedAt] else times
  {
    var events := LimiterEvents(cfg, Earlier(run));
    assert LimiterEvents(cfg, run)[..|events|] == events;
  }

  /** The effects of the last delivery of a run. */
  function LatestEffects(cfg: Config, run: Run): seq<Effect>
    requires run != []
  {
    LastOutcome(cfg, run).effects
  }

  /**
   * A sender's message is handed to the bot once if it reaches the limiter and limiting is
   * disabled or the limiter's reference verdict allows it; otherwise never.
   */
  lemma DispatchedIffAllowed(cfg: Config, run: Run, sender: ThreemaId)
    requires run != [] && Ordered(run) && cfg.Validated()
    ensures var s, d := StateAfter(cfg, Earlier(run)), Latest(run);
            HandOvers(LatestEffects(cfg, run), sender) ==
              One(&& ReachesLimiter(cfg, s, d) && d.request.msg.from == sender
                  && (cfg.limits.None?
                      || LimiterRuns.GreedyVerdict(cfg.limits.value,
                                                   ChecksOf(cfg, Earlier(run), sender) + [d.checkedAt]).Pass?))
  {
    var earlier, d := Earlier(run), Latest(run);
    StepHandsOverOnce(cfg, StateAfter(cfg, earlier), d, sender);
    if cfg.limits.Some? {
      LimiterStateIsItsHistory(cfg, earlier);
      LimiterEventsOrdered(cfg, earlier);
      LimiterRuns.VerdictIsGreedy(cfg.limits.value, SOURCE_IDLE, LimiterEvents(cfg, earlier), sender, d.checkedAt);
    }
  }

  /** How many times a message of `sender` is handed to the bot in `[from, to]`. */
  function DispatchedWithin(cfg: Config, run: Run, sender: ThreemaId, from: Instant, to: Instant): nat {
    if run == [] then 0 else
    DispatchedWithin(cfg, Earlier(run), sender, from, to)
    + if from <= Latest(run).checkedAt <= to then HandOvers(LatestEffects(cfg, run), sender) else 0
  }

  lemma {:induction false} DispatchesAreAllowedChecks(cfg: Config, run: Run, sender: ThreemaId, from: Instant,
                                                      to: Instant)
    requires Ordered(run) && cfg.Validated() && cfg.limits.Some?
    ensures DispatchedWithin(cfg, run, sender, from, to)
         == LimiterBounds.AllowedWithin(cfg.limits.value, ChecksOf(cfg, run, sender), from, to)
    decreases |run|
  {
    if run != [] {
      DispatchesAreAllowedChecks(cfg, Earlier(run), sender, from, to);
      DispatchedIffAllowed(cfg, run, sender);
      ChecksOfLatest(cfg, run, sender);
      var times := ChecksOf(cfg, Earlier(run), sender);
      assert Front(times + [Latest(run).checkedAt]) == times;
    }
  }

  lemma {:induction false} ChecksSorted(events: LimiterRuns.Events, user: ThreemaId)
    requires LimiterRuns.Ordered(events)
    ensures var times := LimiterRuns.ChecksOf(events, user);
            Sorted(times) && forall i :: 0 <= i < |times| ==> times[i] <= LimiterRuns.Now(events)
    decreases |events|
  {
    if events != [] {
      ChecksSorted(events[..|events| - 1], user);
    }
  }

  /**
   * In any closed interval of `k` minutes at most `k + 1` times the minute limit of one sender's
   * messages are dispatched, and in any `k` hours at most `k + 1` times the hour limit.
   */
  lemma DispatchBounds(cfg: Config, run: Run, sender: ThreemaId, from: Instant, to: Instant, k: nat)
    requires Ordered(run) && cfg.Validated() && cfg.limits.Some?
    ensures cfg.limits.value.messagesPerMinute < U32_MAX && to <= from + k * MINUTE ==>
              DispatchedWithin(cfg, run, sender, from, to) <= (k + 1) * cfg.limits.value.messagesPerMinute
    ensures cfg.limits.value.messagesPerHour < U32_MAX && to <= from + k * HOUR ==>
              DispatchedWithin(cfg, run, sender, from, to) <= (k + 1) * cfg.limits.value.messagesPerHour
  {
    LimiterEventsOrdered(cfg, run);
    ChecksSorted(LimiterEvents(cfg, run), sender);
    var times := ChecksOf(cfg, run, sender);
    DispatchesAreAllowedChecks(cfg, run, sender, from, to);
    if cfg.limits.value.messagesPerMinute < U32_MAX && to <= from + k * MINUTE {
      LimiterBounds.MinuteBound(cfg.limits.value, times, from, to, k);
    }
    if cfg.limits.value.messagesPerHour < U32_MAX && to <= from + k * HOUR {
      LimiterBounds.HourBound(cfg.limits.value, times, from, to, k);
    }
  }

  /** In less than `k` hours one message less is dispatched; also in `k` hours, if the minute limit is the lower one. */
  lemma ShortDispatchBound(cfg: Config, run: Run, sender: ThreemaId, from: Instant, to: Instant, k: nat)
    requires Ordered(run) && cfg.Validated() && cfg.limits.Some? && cfg.limits.value.messagesPerHour < U32_MAX
    requires var limits := cfg.limits.value;
             to < from + k * HOUR || (to == from + k * HOUR && limits.messagesPerMinute < limits.messagesPerHour)
    ensures DispatchedWithin(cfg, run, sender, from, to) < (k + 1) * cfg.limits.value.messagesPerHour
  {
    LimiterEventsOrdered(cfg, run);
    ChecksSorted(LimiterEvents(cfg, run), sender);
    DispatchesAreAllowedChecks(cfg, run, sender, from, to);
    if to < from + k * HOUR {
      LimiterBounds.ShortBound(cfg.limits.value, ChecksOf(cfg, run, sender), from, to, k);
    } else {
      LimiterBounds.ClosedBound(cfg.limits.value, ChecksOf(cfg, run, sender), from, to, k);
    }
  }

  /** With a negative maximum age every timestamp is rejected. */
  lemma {:induction false} NothingDispatched(cfg: Config, run: Run, sender: ThreemaId, from: Instant, to: Instant)
    requires cfg.maxWebhookAge < 0
    ensures DispatchedWithin(cfg, run, sender, from, to) == 0
    decreases |run|
  {
    if run != [] {
      NothingDispatched(cfg, Earlier(run), sender, from, to);
      StepTraceless(cfg, StateAfter(cfg, Earlier(run)), Latest(run));
    }
  }

  // ---- Deduplication over runs ----

  /** The deduplication calls a run makes. */
  function DedupHistory(cfg: Config, run: Run): Dedup.History {
    if run == [] then [] else
    var history := DedupHistory(cfg, Earlier(run));
    if PassesTimestamp(cfg, Latest(run)) then history + [Dedup.Call(KeyOf(Latest(run)), Latest(run).now)] else history
  }

  lemma {:induction false} DedupHistoryOrdered(cfg: Config, run: Run)
    requires Ordered(run)
    ensures Dedup.Ordered(DedupHistory(cfg, run)) && Dedup.NoEviction(DedupHistory(cfg, run))
    ensures Dedup.Now(DedupHistory(cfg, run)) <= Now(run)
    ensures forall i :: 0 <= i < |DedupHistory(cfg, run)| ==> DedupHistory(cfg, run)[i].now <= Now(run)
    decreases |run|
  {
    if run != [] {
      DedupHistoryOrdered(cfg, Earlier(run));
    }
  }

  lemma {:induction false} SeenIsItsHistory(cfg: Config, run: Run)
    ensures StateAfter(cfg, run).seen == Dedup.After(cfg.DedupTtl(), DedupHistory(cfg, run))
    decreases |run|
  {
    if run != [] {
      SeenIsItsHistory(cfg, Earlier(run));
      StepSeen(cfg, StateAfter(cfg, Earlier(run)), Latest(run));
      var history := DedupHistory(cfg, Earlier(run));
      assert DedupHistory(cfg, run) != history ==> DedupHistory(cfg, run)[..|history|] == history;
    }
  }

  /** The times at which one webhook (sender, id and creation time) gets past both gates. */
  function PassTimes(cfg: Config, run: Run, key: Dedup.MessageKey, createdAt: u32): seq<Instant> {
    if run == [] then [] else
    var d := Latest(run);
    var times := PassTimes(cfg, Earlier(run), key, createdAt);
    if PassesGates(cfg, StateAfter(cfg, Earlier(run)), d) && KeyOf(d) == key && d.request.msg.createdAt == createdAt
    then times + [d.now] else times
  }

  predicate LatestPasses(cfg: Config, run: Run)
    requires run != []
  {
    PassesGates(cfg, StateAfter(cfg, Earlier(run)), Latest(run))
  }

  /** The latest delivery gets past the gates, as one of this message. */
  predicate PassesFor(cfg: Config, run: Run, key: Dedup.MessageKey)
    requires run != []
  {
    LatestPasses(cfg, run) && KeyOf(Latest(run)) == key
  }

  /** The gates and the history agree on what is new. */
  lemma PassesIfNew(cfg: Config, run: Run, d: Delivery)
    requires PassesTimestamp(cfg, d)
    ensures PassesGates(cfg, StateAfter(cfg, run), d)
       <==> Dedup.Answer(cfg.DedupTtl(), DedupHistory(cfg, run), KeyOf(d), d.now).New?
  {
    SeenIsItsHistory(cfg, run);
  }

  lemma NewTimesLatest(cfg: Config, run: Run, key: Dedup.MessageKey)
    requires run != []
    ensures var news := Dedup.NewTimes(cfg.DedupTtl(), DedupHistory(cfg, Earlier(run)), key);
            Dedup.NewTimes(cfg.DedupTtl(), DedupHistory(cfg, run), key)
            == if PassesFor(cfg, run, key) then news + [Latest(run).now] else news
  {
    var d := Latest(run);
    if PassesTimestamp(cfg, d) {
      PassesIfNew(cfg, Earlier(run), d);
      Dedup.NewTimesSnoc(cfg.DedupTtl(), DedupHistory(cfg, Earlier(run)), Dedup.Call(KeyOf(d), d.now), key);
    }
  }

  /** The clock is within the maximum age of `createdAt`, on either side, and can be read at all. */
  ghost predicate IsClose(cfg: Config, createdAt: u32, t: Instant) {
    Seconds(createdAt - cfg.maxWebhookAge) <= t < Seconds(createdAt + cfg.maxWebhookAge + 1) && t < END_OF_CLOCK
  }

  /**
   * How many seconds the first and the last acceptance of one webhook can be apart: twice the
   * maximum age, unless creation times, which have 32 bits, or the clock set narrower bounds.
   */
  function Reach(age: i64): (r: nat)
    requires age >= 0
    ensures age <= U32_MAX ==> r == 2 * age
  {
    var reach: int := age + if age < U32_MAX then age else U32_MAX;
    if reach < I64_MAX then reach else I64_MAX
  }

  lemma PassIsClose(cfg: Config, d: Delivery)
    requires cfg.maxWebhookAge >= 0 && PassesTimestamp(cfg, d)
    ensures IsClose(cfg, d.request.msg.createdAt, d.now)
  {
    AcceptedInterval(d.request.msg.createdAt, cfg.maxWebhookAge, d.now);
  }

  lemma {:induction false} PassTimesClose(cfg: Config, run: Run, key: Dedup.MessageKey, createdAt: u32)
    requires cfg.maxWebhookAge >= 0
    ensures forall t :: t in PassTimes(cfg, run, key, createdAt) ==> IsClose(cfg, createdAt, t)
    decreases |run|
  {
    if run != [] {
      PassTimesClose(cfg, Earlier(run), key, createdAt);
      if PassesTimestamp(cfg, Latest(run)) {
        PassIsClose(cfg, Latest(run));
      }
    }
  }

  /** A delivery that passes comes a time to live after the last `New` for its key. */
  lemma PassIsLate(cfg: Config, run: Run, d: Delivery)
    requires Ordered(run) && Now(run) <= d.now && PassesGates(cfg, StateAfter(cfg, run), d)
    ensures var news := Dedup.NewTimes(cfg.DedupTtl(), DedupHistory(cfg, run), KeyOf(d));
            news != [] ==> news[|news| - 1] + cfg.DedupTtl() <= d.now
  {
    DedupHistoryOrdered(cfg, run);
    SeenIsItsHistory(cfg, run);
    Dedup.NewIffNoneRecent(cfg.DedupTtl(), DedupHistory(cfg, run), KeyOf(d), d.now);
  }

  /** `times` are spaced by `ttl`, and the last of `news` is no earlier than any of them. */
  ghost predicate SpacedBefore(times: seq<Instant>, news: seq<Instant>, ttl: Duration) {
    && Dedup.Spaced(times, ttl)
    && (times != [] ==> news != [] && times[|times| - 1] <= news[|news| - 1])
  }

  lemma SpacedStep(times: seq<Instant>, news: seq<Instant>, longer: seq<Instant>, longerNews: seq<Instant>,
                   ttl: Duration, t: Instant)
    requires SpacedBefore(times, news, ttl)
    requires longerNews == news ==> longer == times
    requires longerNews != news ==> longerNews == news + [t] && (longer == times || longer == times + [t])
    requires longerNews != news && news != [] ==> news[|news| - 1] + ttl <= t
    ensures SpacedBefore(longer, longerNews, ttl)
  {}

  lemma PassTimesLatest(cfg: Config, run: Run, key: Dedup.MessageKey, createdAt: u32)
    requires run != []
    ensures var times, longer := PassTimes(cfg, Earlier(run), key, createdAt), PassTimes(cfg, run, key, createdAt);
            longer == times || (PassesFor(cfg, run, key) && longer == times + [Latest(run).now])
  {}

  lemma NewIsLate(cfg: Config, run: Run, key: Dedup.MessageKey)
    requires run != [] && Ordered(run) && PassesFor(cfg, run, key)
    ensures var news := Dedup.NewTimes(cfg.DedupTtl(), DedupHistory(cfg, Earlier(run)), key);
            news != [] ==> news[|news| - 1] + cfg.DedupTtl() <= Latest(run).now
  {
    PassIsLate(cfg, Earlier(run), Latest(run));
  }

  lemma {:induction false} PassTimesSpaced(cfg: Config, run: Run, key: Dedup.MessageKey, createdAt: u32)
    requires Ordered(run)
    ensures SpacedBefore(PassTimes(cfg, run, key, createdAt),
                         Dedup.NewTimes(cfg.DedupTtl(), DedupHistory(cfg, run), key), cfg.DedupTtl())
    decreases |run|
  {
    if run != [] {
      PassTimesSpaced(cfg, Earlier(run), key, createdAt);
      PassTimesLatest(cfg, run, key, createdAt);
      NewTimesLatest(cfg, run, key);
      if PassesFor(cfg, run, key) {
        NewIsLate(cfg, run, key);
      }
      var ttl := cfg.DedupTtl();
      SpacedStep(PassTimes(cfg, Earlier(run), key, createdAt),
                 Dedup.NewTimes(ttl, DedupHistory(cfg, Earlier(run)), key),
                 PassTimes(cfg, run, key, createdAt),
                 Dedup.NewTimes(ttl, DedupHistory(cfg, run), key), ttl, Latest(run).now);
    }
  }

  lemma NewsGrow(cfg: Config, run: Run, key: Dedup.MessageKey, t: Instant)
    requires run != [] && t in Dedup.NewTimes(cfg.DedupTtl(), DedupHistory(cfg, Earlier(run)), key)
    ensures t in Dedup.NewTimes(cfg.DedupTtl(), DedupHistory(cfg, run), key)
  {
    NewTimesLatest(cfg, run, key);
  }

  lemma LatestIsNew(cfg: Config, run: Run)
    requires run != [] && LatestPasses(cfg, run)
    ensures Latest(run).now in Dedup.NewTimes(cfg.DedupTtl(), DedupHistory(cfg, run), KeyOf(Latest(run)))
  {
    NewTimesLatest(cfg, run, KeyOf(Latest(run)));
  }

  lemma {:induction false} PassedIsNew(cfg: Config, run: Run, i: nat)
    requires i < |run| && PassesGates(cfg, StateAfter(cfg, run[..i]), run[i])
    ensures run[i].now in Dedup.NewTimes(cfg.DedupTtl(), DedupHistory(cfg, run), KeyOf(run[i]))
    decreases |run|
  {
    if i < |run| - 1 {
      assert Earlier(run)[..i] == run[..i];
      PassedIsNew(cfg, Earlier(run), i);
      NewsGrow(cfg, run, KeyOf(run[i]), run[i].now);
    } else {
      LatestIsNew(cfg, run);
    }
  }

  /** Delivery `i` got past the gates, whatever came of it. */
  ghost predicate HasPassed(cfg: Config, run: Run, key: Dedup.MessageKey, i: int) {
    0 <= i < |run| && PassesGates(cfg, StateAfter(cfg, run[..i]), run[i]) && KeyOf(run[i]) == key
  }

  /** Every `New` of the history is owed to a delivery that got past the gates. */
  lemma {:induction false} NewHasPassed(cfg: Config, run: Run, key: Dedup.MessageKey, t: Instant) returns (i: nat)
    requires t in Dedup.NewTimes(cfg.DedupTtl(), DedupHistory(cfg, run), key)
    ensures HasPassed(cfg, run, key, i) && run[i].now == t
    decreases |run|
  {
    NewTimesLatest(cfg, run, key);
    if t in Dedup.NewTimes(cfg.DedupTtl(), DedupHistory(cfg, Earlier(run)), key) {
      i := NewHasPassed(cfg, Earlier(run), key, t);
      assert Earlier(run)[..i] == run[..i];
    } else {
      i := |run| - 1;
    }
  }

  lemma {:induction false} NoneRecent(cfg: Config, run: Run, key: Dedup.MessageKey, now: Instant)
    requires Ordered(run)
    ensures var ttl, news := cfg.DedupTtl(), Dedup.NewTimes(cfg.DedupTtl(), DedupHistory(cfg, run), key);
            (forall j :: 0 <= j < |news| ==> news[j] + ttl <= now)
            <==> forall i :: HasPassed(cfg, run, key, i) ==> run[i].now + ttl <= now
  {
    var ttl, news := cfg.DedupTtl(), Dedup.NewTimes(cfg.DedupTtl(), DedupHistory(cfg, run), key);
    if forall j :: 0 <= j < |news| ==> news[j] + ttl <= now {
      forall i | HasPassed(cfg, run, key, i) ensures run[i].now + ttl <= now {
        PassedIsNew(cfg, run, i);
      }
    } else {
      var j :| 0 <= j < |news| && news[j] + ttl > now;
      var i := NewHasPassed(cfg, run, key, news[j]);
      assert HasPassed(cfg, run, key, i);
    }
  }

  lemma GatesAgree(cfg: Config, run: Run, d: Delivery)
    requires Ordered(run) && Now(run) <= d.now && PassesTimestamp(cfg, d)
    ensures var news := Dedup.NewTimes(cfg.DedupTtl(), DedupHistory(cfg, run), KeyOf(d));
            PassesGates(cfg, StateAfter(cfg, run), d)
            <==> forall j :: 0 <= j < |news| ==> news[j] + cfg.DedupTtl() <= d.now
  {
    DedupHistoryOrdered(cfg, run);
    SeenIsItsHistory(cfg, run);
    Dedup.NewIffNoneRecent(cfg.DedupTtl(), DedupHistory(cfg, run), KeyOf(d), d.now);
  }

  /**
   * A delivery that passes the timestamp gate gets past both exactly if no delivery of its
   * message did so within the time to live; otherwise it is a duplicate and changes nothing.
   */
  lemma {:induction false} DuplicateIffRecent(cfg: Config, run: Run, d: Delivery)
    requires Ordered(run) && Now(run) <= d.now && PassesTimestamp(cfg, d)
    ensures PassesGates(cfg, StateAfter(cfg, run), d)
       <==> forall i :: HasPassed(cfg, run, KeyOf(d), i) ==> run[i].now + cfg.DedupTtl() <= d.now
    ensures !PassesGates(cfg, StateAfter(cfg, run), d) ==>
              Step(cfg, StateAfter(cfg, run), d) == Outcome(StateAfter(cfg, run), DuplicateMessage, [])
  {
    GatesAgree(cfg, run, d);
    NoneRecent(cfg, run, KeyOf(d), d.now);
    StepReplies(cfg, StateAfter(cfg, run), d);
    StepTraceless(cfg, StateAfter(cfg, run), d);
  }

  /**
   * The gateway delivers again what is answered 429. Within the time to live that is in vain:
   * the message is answered as a duplicate, and no rate budget is spent on it. Later it gets past
   * both gates, if it still passes the first, unless it did so in between.
   */
  lemma {:induction false} RateLimitedRetryIsInVain(cfg: Config, run: Run, i: nat, d: Delivery)
    requires Ordered(run) && Now(run) <= d.now && i < |run|
    requires StatusOf(LastOutcome(cfg, run[..i + 1]).reply) == 429
    requires PassesTimestamp(cfg, d) && run[i].request.Authentic? && KeyOf(d) == KeyOf(run[i])
    ensures d.now < run[i].now + cfg.DedupTtl() ==>
              Step(cfg, StateAfter(cfg, run), d) == Outcome(StateAfter(cfg, run), DuplicateMessage, [])
    ensures d.now >= run[i].now + cfg.DedupTtl() ==>
              (PassesGates(cfg, StateAfter(cfg, run), d) <==>
                forall j :: i < j && HasPassed(cfg, run, KeyOf(d), j) ==> run[j].now + cfg.DedupTtl() <= d.now)
  {
    assert Earlier(run[..i + 1]) == run[..i];
    StepTraceless(cfg, StateAfter(cfg, run[..i]), run[i]);
    assert HasPassed(cfg, run, KeyOf(d), i);
    DuplicateIffRecent(cfg, run, d);
  }

  /** The same webhook: sender, identifier and creation time are the same. */
  predicate SameWebhook(d: Delivery, e: Delivery) {
    && d.request.Authentic? && e.request.Authentic?
    && KeyOf(d) == KeyOf(e) && d.request.msg.createdAt == e.request.msg.createdAt
  }

  /** The end of the interval in which the webhook is accepted. */
  function EndOfAcceptance(cfg: Config, d: Delivery): int
    requires d.request.Authentic?
  {
    Seconds(d.request.msg.createdAt + cfg.maxWebhookAge + 1)
  }

  /** A webhook that was accepted once is accepted later until the end of its acceptance. */
  lemma LaterTimestamp(cfg: Config, first: Delivery, d: Delivery)
    requires SameWebhook(first, d) && PassesTimestamp(cfg, first) && first.now <= d.now
    ensures PassesTimestamp(cfg, d) <==> d.now < EndOfAcceptance(cfg, d)
  {
    var createdAt := d.request.msg.createdAt;
    AcceptedIffClose(createdAt, cfg.maxWebhookAge, first.now);
    AcceptedInterval(createdAt, cfg.maxWebhookAge, first.now);
    AcceptedInterval(createdAt, cfg.maxWebhookAge, d.now);
  }

  lemma RateLimitedHasPassed(cfg: Config, run: Run, i: nat)
    requires i < |run| && StatusOf(LastOutcome(cfg, run[..i + 1]).reply) == 429
    ensures run[i].request.Authentic? && HasPassed(cfg, run, KeyOf(run[i]), i)
  {
    assert Earlier(run[..i + 1]) == run[..i];
    StepTraceless(cfg, StateAfter(cfg, run[..i]), run[i]);
  }

  /**
   * What becomes of a webhook answered 429 when it is delivered again: before the time to live is
   * over it is a duplicate; once its acceptance has ended it is rejected by its timestamp; and it
   * gets past the gates exactly in between, unless it did so again within the time to live.
   */
  lemma {:induction false} RateLimitedRedelivery(cfg: Config, run: Run, i: nat, d: Delivery)
    requires Ordered(run) && Now(run) <= d.now && i < |run|
    requires StatusOf(LastOutcome(cfg, run[..i + 1]).reply) == 429 && SameWebhook(run[i], d)
    ensures var s, again, end := StateAfter(cfg, run), run[i].now + cfg.DedupTtl(), EndOfAcceptance(cfg, d);
            && (d.now >= end ==> Step(cfg, s, d) == Outcome(s, InvalidTimestamp, []))
            && (d.now < end && d.now < again ==> Step(cfg, s, d) == Outcome(s, DuplicateMessage, []))
            && (PassesGates(cfg, s, d) <==>
                 && again <= d.now < end
                 && forall j :: i < j && HasPassed(cfg, run, KeyOf(d), j) ==> run[j].now + cfg.DedupTtl() <= d.now)
  {
    RateLimitedHasPassed(cfg, run, i);
    LaterTimestamp(cfg, run[i], d);
    if PassesTimestamp(cfg, d) {
      RateLimitedRetryIsInVain(cfg, run, i, d);
    }
  }

  /** After some longer run the webhook delivered last gets past both gates again. */
  ghost predicate CanReturn(cfg: Config, run: Run)
    requires run != [] && Latest(run).request.Authentic?
  {
    exists longer: Run, j :: run <= longer && Ordered(longer) && |run| <= j
      && HasPassed(cfg, longer, KeyOf(Latest(run)), j) && SameWebhook(Latest(run), longer[j])
  }

  /** The earliest moment at which the webhook delivered last can get past the gates again. */
  function EarliestReturn(cfg: Config, run: Run): Instant
    requires run != []
  {
    var d := Latest(run);
    if d.checkedAt < d.now + cfg.DedupTtl() then d.now + cfg.DedupTtl() else d.checkedAt
  }

  lemma {:induction false} ReturnsLate(cfg: Config, run: Run, longer: Run, j: nat)
    requires run != [] && Ordered(longer) && run <= longer && |run| <= j < |longer|
    requires LatestPasses(cfg, run)
    requires HasPassed(cfg, longer, KeyOf(Latest(run)), j) && SameWebhook(Latest(run), longer[j])
    ensures EarliestReturn(cfg, run) <= longer[j].now < EndOfAcceptance(cfg, Latest(run))
  {
    var before, n := longer[..j], |run| - 1;
    assert before[..n] == Earlier(run) && before[n] == Latest(run) == longer[n];
    assert HasPassed(cfg, before, KeyOf(Latest(run)), n);
    DuplicateIffRecent(cfg, before, longer[j]);
    LaterTimestamp(cfg, Latest(run), longer[j]);
  }

  lemma {:induction false} Returns(cfg: Config, run: Run) returns (longer: Run)
    requires run != [] && Ordered(run) && LatestPasses(cfg, run)
    requires EarliestReturn(cfg, run) < EndOfAcceptance(cfg, Latest(run)) && EarliestReturn(cfg, run) < END_OF_CLOCK
    ensures run <= longer && Ordered(longer) && |longer| == |run| + 1 && SameWebhook(Latest(run), Latest(longer))
    ensures HasPassed(cfg, longer, KeyOf(Latest(run)), |run|)
  {
    var t := EarliestReturn(cfg, run);
    var d := Delivery(t, t, Latest(run).request);
    LaterTimestamp(cfg, Latest(run), d);
    DuplicateIffRecent(cfg, run, d);
    longer := run + [d];
    assert longer[..|run|] == run;
  }

  /**
   * Whether a webhook that got past the gates can ever do so again: exactly if its time to live
   * is over before it stops being accepted.
   */
  lemma {:induction false} CanReturnIff(cfg: Config, run: Run)
    requires run != [] && Ordered(run) && LatestPasses(cfg, run)
    ensures CanReturn(cfg, run)
       <==> EarliestReturn(cfg, run) < EndOfAcceptance(cfg, Latest(run)) && EarliestReturn(cfg, run) < END_OF_CLOCK
  {
    if CanReturn(cfg, run) {
      var longer: Run, j :| run <= longer && Ordered(longer) && |run| <= j
        && HasPassed(cfg, longer, KeyOf(Latest(run)), j) && SameWebhook(Latest(run), longer[j]);
      ReturnsLate(cfg, run, longer, j);
    }
    if EarliestReturn(cfg, run) < EndOfAcceptance(cfg, Latest(run)) && EarliestReturn(cfg, run) < END_OF_CLOCK {
      var longer := Returns(cfg, run);
    }
  }

  /** A message answered 429 can get past the gates again, as the same webhook, exactly if so. */
  lemma {:induction false} RateLimitedReturnsIff(cfg: Config, run: Run)
    requires run != [] && Ordered(run) && StatusOf(LastOutcome(cfg, run).reply) == 429
    ensures Latest(run).request.Authentic?
    ensures CanReturn(cfg, run)
       <==> EarliestReturn(cfg, run) < EndOfAcceptance(cfg, Latest(run)) && EarliestReturn(cfg, run) < END_OF_CLOCK
  {
    StepTraceless(cfg, StateAfter(cfg, Earlier(run)), Latest(run));
    CanReturnIff(cfg, run);
  }

  /**
   * With the default maximum age, a message answered 429 is lost for good, unless it was vetted in
   * or before the very second in which it was created.
   */
  lemma {:induction false} RateLimitedIsLostAtDefaults(cfg: Config, run: Run)
    requires cfg.maxWebhookAge == 300 && cfg.dedupTtlSeconds == DEDUP_TTL_SECONDS
    requires run != [] && Ordered(run) && StatusOf(LastOutcome(cfg, run).reply) == 429
    ensures Latest(run).request.Authentic?
    ensures var d := Latest(run);
            CanReturn(cfg, run) <==>
              && WholeSeconds(d.now) <= d.request.msg.createdAt
              && WholeSeconds(d.checkedAt) <= d.request.msg.createdAt + 300
  {
    RateLimitedReturnsIff(cfg, run);
  }

  /**
   * One and the same webhook gets past the timestamp and deduplication gates at most
   * `floor(R / T) + 1` times, for a reach of `R` and a time to live of `T` seconds.
   */
  lemma RepeatBound(cfg: Config, run: Run, key: Dedup.MessageKey, createdAt: u32)
    requires Ordered(run) && cfg.maxWebhookAge >= 0 && cfg.dedupTtlSeconds > 0
    ensures |PassTimes(cfg, run, key, createdAt)| <= Reach(cfg.maxWebhookAge) / cfg.dedupTtlSeconds + 1
  {
    var times := PassTimes(cfg, run, key, createdAt);
    PassTimesSpaced(cfg, run, key, createdAt);
    PassTimesClose(cfg, run, key, createdAt);
    if times != [] {
      assert IsClose(cfg, createdAt, times[0]) && IsClose(cfg, createdAt, times[|times| - 1]);
      CloseTimesWithinReach(cfg, createdAt, times[0], times[|times| - 1]);
      Dedup.SpacedCount(times, cfg.DedupTtl());
      RoundsDown(|times| - 1, cfg.dedupTtlSeconds, Reach(cfg.maxWebhookAge));
    }
  }

  lemma CloseTimesWithinReach(cfg: Config, createdAt: u32, first: Instant, last: Instant)
    requires cfg.maxWebhookAge >= 0 && IsClose(cfg, createdAt, first) && IsClose(cfg, createdAt, last)
    ensures last < first + Seconds(Reach(cfg.maxWebhookAge) + 1)
  {}

  lemma {:induction false} RoundsDown(n: nat, ttl: nat, x: nat)
    requires ttl > 0 && n * Seconds(ttl) < Seconds(x + 1)
    ensures n <= x / ttl
  {
    assert n * Seconds(ttl) == Seconds(n * ttl);
    QuotientIsLargest(n, ttl, x);
  }

  lemma {:induction false} QuotientIsLargest(n: nat, d: nat, x: nat)
    requires d > 0 && n * d <= x
    ensures n <= x / d
  {
    if n > x / d {
      MulMonotone(x / d + 1, n, d);
    }
  }

  // ---- Rate limit notifications ----

  /** The times at which `sender` is told about the rate limit, as often as that happens. */
  function NoticeTimes(cfg: Config, run: Run, sender: ThreemaId): seq<Instant> {
    if run == [] then [] else
    NoticeTimes(cfg, Earlier(run), sender)
    + Repeat(Latest(run).checkedAt, Notices(LatestEffects(cfg, run), sender))
  }

  /** The notification cache holds the time of the last notice. */
  ghost predicate NoticesAgree(times: seq<Instant>, notified: Notified, key: string, now: Instant) {
    if times == [] then key !in notified else
    times[|times| - 1] <= now && key in notified && notified[key].stamp == times[|times| - 1]
  }

  lemma NoticeTimesLatest(cfg: Config, run: Run, sender: ThreemaId)
    requires run != []
    ensures var s, d, times := StateAfter(cfg, Earlier(run)), Latest(run), NoticeTimes(cfg, Earlier(run), sender);
            NoticeTimes(cfg, run, sender)
            == if LastOutcome(cfg, run).reply == RateLimited && d.request.msg.from == sender
                  && NotJustTold(s, sender, d.checkedAt) then times + [d.checkedAt] else times
  {
    StepNotifies(cfg, StateAfter(cfg, Earlier(run)), Latest(run), sender);
    var times, t := NoticeTimes(cfg, Earlier(run), sender), Latest(run).checkedAt;
    assert Repeat(t, 1) == [t] && times + Repeat(t, 0) == times;
  }

  lemma NoticeStep(times: seq<Instant>, longer: seq<Instant>, s: ServerState, t: ServerState, sender: ThreemaId,
                   told: bool, before: Instant, now: Instant)
    requires Dedup.Spaced(times, Seconds(10)) && before <= now
    requires NoticesAgree(times, s.notified, NotificationKey(sender), before)
    requires told ==> NotJustTold(s, sender, now)
    requires longer == if told then times + [now] else times
    requires var key := NotificationKey(sender);
             if told then key in t.notified && t.notified[key].stamp == now
             else && (key in t.notified <==> key in s.notified)
                  && (key in s.notified ==> t.notified[key] == s.notified[key])
    ensures Dedup.Spaced(longer, Seconds(10)) && NoticesAgree(longer, t.notified, NotificationKey(sender), now)
  {}

  /** Notices to one sender are at least ten seconds apart. */
  lemma {:induction false} NoticesSpaced(cfg: Config, run: Run, sender: ThreemaId)
    requires Ordered(run)
    ensures Dedup.Spaced(NoticeTimes(cfg, run, sender), Seconds(10))
    ensures NoticesAgree(NoticeTimes(cfg, run, sender), StateAfter(cfg, run).notified, NotificationKey(sender),
                         Now(run))
    decreases |run|
  {
    if run != [] {
      var s, d := StateAfter(cfg, Earlier(run)), Latest(run);
      NoticesSpaced(cfg, Earlier(run), sender);
      NoticeTimesLatest(cfg, run, sender);
      StepRemembersNotice(cfg, s, d, sender);
      var told := LastOutcome(cfg, run).reply == RateLimited && d.request.msg.from == sender
                  && NotJustTold(s, sender, d.checkedAt);
      NoticeStep(NoticeTimes(cfg, Earlier(run), sender), NoticeTimes(cfg, run, sender), s, StateAfter(cfg, run), sender,
                 told, Now(Earlier(run)), d.checkedAt);
    }
  }

  lemma WasTold(times: seq<Instant>, s: ServerState, sender: ThreemaId, before: Instant, now: Instant)
    requires NoticesAgree(times, s.notified, NotificationKey(sender), before) && before <= now
    requires !NotJustTold(s, sender, now)
    ensures times != [] && times[|times| - 1] in times
    ensures times[|times| - 1] <= now < times[|times| - 1] + Seconds(10)
  {}

  /** Whenever a sender is rate limited, a notice to that sender was sent then or less than ten seconds before. */
  lemma LimitedSenderIsNotified(cfg: Config, run: Run) returns (notice: Instant)
    requires run != [] && Ordered(run) && LastOutcome(cfg, run).reply.RateLimited?
    ensures notice in NoticeTimes(cfg, run, Latest(run).request.msg.from)
    ensures notice <= Latest(run).checkedAt < notice + Seconds(10)
  {
    var s, d := StateAfter(cfg, Earlier(run)), Latest(run);
    var sender, times := d.request.msg.from, NoticeTimes(cfg, Earlier(run), d.request.msg.from);
    NoticeTimesLatest(cfg, run, sender);
    if NotJustTold(s, sender, d.checkedAt) {
      notice := d.checkedAt;
      assert (times + [notice])[|times|] == notice;
    } else {
      NoticesSpaced(cfg, Earlier(run), sender);
      WasTold(times, s, sender, Now(Earlier(run)), d.checkedAt);
      notice := times[|times| - 1];
    }
  }
}
