/**
 * The per-user rate limiter of `src/rate_limit.rs`: two fixed-window counters per user, each
 * kept in its own idle-expiring cache.
 *
 * `Window` and `RateLimiterManager` change their state in place, as the source does. The
 * functions on `WindowState` and `LimiterState` say what one call does to that state.
 */
module RateLimit {
  import opened Durations
  import opened ExpiringCache
  import opened Units

  /** An eight-character Threema ID. */
  datatype ThreemaId = ThreemaId(text: string)

  datatype RateLimitConfig = RateLimitConfig(messagesPerMinute: u32, messagesPerHour: u32)
  {
    /** What configuration validation demands when limiting is enabled. */
    predicate Validated() {
      messagesPerMinute > 0 && messagesPerHour > 0
    }
  }

  datatype RateLimitResult = Allowed | Limited(message: string)

  // ---- One window ----

  datatype WindowState = WindowState(count: u32, startedAt: Instant, duration: Duration)

  function NewWindow(duration: Duration, now: Instant): WindowState {
    WindowState(0, now, duration)
  }

  predicate HasRunOut(w: WindowState, now: Instant) {
    Elapsed(w.startedAt, now) >= w.duration
  }

  /** The window after a check at `now`. */
  function Counted(w: WindowState, now: Instant): WindowState {
    if HasRunOut(w, now) then
      w.(count := 1, startedAt := now)
    else
      w.(count := SaturatingSucc(w.count))
  }

  /** Whether a check at `now` passes; a window that has run out passes it unseen. */
  predicate Admits(w: WindowState, limit: u32, now: Instant) {
    HasRunOut(w, now) || SaturatingSucc(w.count) <= limit
  }

  function Remaining(w: WindowState, now: Instant): Duration {
    SaturatingSub(w.duration, Elapsed(w.startedAt, now))
  }

  class Window {
    var count: u32
    var startedAt: Instant
    const duration: Duration

    ghost function State(): WindowState
      reads this
    {
      WindowState(count, startedAt, duration)
    }

    constructor (duration: Duration, now: Instant)
      ensures State() == NewWindow(duration, now)
    {
      this.duration := duration;
      count, startedAt := 0, now;
    }

    /** The caches hand out clones. */
    constructor Clone(w: WindowState)
      ensures State() == w
    {
      duration := w.duration;
      count, startedAt := w.count, w.startedAt;
    }

    method CheckAndIncrement(limit: u32, now: Instant) returns (ok: bool)
      modifies this
      ensures State() == Counted(old(State()), now)
      ensures ok == Admits(old(State()), limit, now)
    {
      if Elapsed(startedAt, now) >= duration {
        count := 1;
        startedAt := now;
        return true;
      }
      count := SaturatingSucc(count);
      ok := count <= limit;
    }

    method TimeRemaining(now: Instant) returns (remaining: Duration)
      ensures remaining <= duration
      ensures duration > 0 ==> (remaining > 0 <==> !HasRunOut(State(), now))
      ensures !HasRunOut(State(), now) && startedAt <= now ==> now + remaining == startedAt + duration
      ensures now <= startedAt ==> remaining == duration
    {
      remaining := SaturatingSub(duration, Elapsed(startedAt, now));
    }

    method Snapshot() returns (w: WindowState)
      ensures w == State()
    {
      w := WindowState(count, startedAt, duration);
    }
  }

  // ---- One level: a cache of windows ----

  type Windows = map<ThreemaId, Slot<WindowState>>

  datatype Consulted = Consulted(windows: Windows, admitted: bool, wait: Duration)

  /** A check of `user` against one level, whose cache forgets a window left idle for `idle`. */
  function Consult(windows: Windows, idle: Duration, duration: Duration, limit: u32, user: ThreemaId, now: Instant)
    : Consulted
  {
    var w := match Find(windows, TimeToIdle(idle), user, now)
             case Some(known) => known
             case None => NewWindow(duration, now);
    var counted := Counted(w, now);
    Consulted(Put(windows, user, counted, now), Admits(w, limit, now), Remaining(counted, now))
  }

  // ---- Both levels ----

  const MINUTE_IDLE: Duration := 70_000_000_000
  const HOUR_IDLE: Duration := 3660_000_000_000

  const NOTICE_PREFIX := "Rate limit exceeded. Try again in "

  function Notice(wait: Duration): string {
    NOTICE_PREFIX + FormatDuration(wait) + "."
  }

  /** What a check decides; a rejected user has to wait. */
  datatype Verdict = Pass | Reject(wait: Duration)

  datatype IdleTimes = IdleTimes(minute: Duration, hour: Duration)

  datatype LimiterState = LimiterState(minute: Windows, hour: Windows)

  const NEW_LIMITER := LimiterState(map[], map[])

  /** One `check`: the minute level first, and the hour level only if the minute level admits. */
  function CheckStep(cfg: RateLimitConfig, idle: IdleTimes, s: LimiterState, user: ThreemaId, now: Instant)
    : (LimiterState, Verdict)
  {
    var m := Consult(s.minute, idle.minute, MINUTE, cfg.messagesPerMinute, user, now);
    if !m.admitted then
      (LimiterState(m.windows, s.hour), Reject(m.wait))
    else
      var h := Consult(s.hour, idle.hour, HOUR, cfg.messagesPerHour, user, now);
      (LimiterState(m.windows, h.windows), if h.admitted then Pass else Reject(h.wait))
  }

  /** How many users a level keeps by default. */
  const DEFAULT_CAPACITY: nat := 10_000

  const SOURCE_IDLE := IdleTimes(MINUTE_IDLE, HOUR_IDLE)

  class RateLimiterManager {
    const config: RateLimitConfig
    const minuteWindows: Cache<ThreemaId, WindowState>
    const hourWindows: Cache<ThreemaId, WindowState>

    ghost predicate Valid() {
      && minuteWindows != hourWindows
      && minuteWindows.expiry == TimeToIdle(MINUTE_IDLE)
      && hourWindows.expiry == TimeToIdle(HOUR_IDLE)
    }

    ghost function State(): LimiterState
      reads minuteWindows, hourWindows
    {
      LimiterState(minuteWindows.slots, hourWindows.slots)
    }

    constructor (config: RateLimitConfig, capacity: nat := DEFAULT_CAPACITY)
      ensures Valid() && this.config == config && State() == NEW_LIMITER
      ensures fresh(minuteWindows) && fresh(hourWindows)
      ensures minuteWindows.expiry == TimeToIdle(Seconds(60 + 10)) && hourWindows.expiry == TimeToIdle(Seconds(61 * 60))
      ensures minuteWindows.capacity == hourWindows.capacity == capacity
    {
      this.config := config;
      minuteWindows := new Cache(TimeToIdle(MINUTE_IDLE), capacity);
      hourWindows := new Cache(TimeToIdle(HOUR_IDLE), capacity);
    }

    /** Gets the user's window (or a new one), counts the check, and stores the window again. */
    static method ConsultLevel(windows: Cache<ThreemaId, WindowState>, duration: Duration, limit: u32,
                               user: ThreemaId, now: Instant)
      returns (ok: bool, wait: Duration)
      requires windows.expiry.TimeToIdle?
      modifies windows
      ensures Consulted(windows.slots, ok, wait)
           == Consult(old(windows.slots), windows.expiry.period, duration, limit, user, now)
    {
      var known := windows.Get(user, now);
      var window: Window;
      if known.Some? {
        window := new Window.Clone(known.value);
      } else {
        window := new Window(duration, now);
      }
      ok := window.CheckAndIncrement(limit, now);
      wait := window.TimeRemaining(now);
      var w := window.Snapshot();
      windows.Insert(user, w, now);
    }

    method Check(user: ThreemaId, now: Instant) returns (result: RateLimitResult)
      requires Valid()
      modifies minuteWindows, hourWindows
      ensures Valid()
      ensures var (s, verdict) := CheckStep(config, SOURCE_IDLE, old(State()), user, now);
              && State() == s
              && result == match verdict
                           case Pass => Allowed
                           case Reject(wait) =>
                             Limited("Rate limit exceeded. Try again in " + FormatDuration(wait) + ".")
    {
      var ok, wait := ConsultLevel(minuteWindows, MINUTE, config.messagesPerMinute, user, now);
      if !ok {
        return Limited(NOTICE_PREFIX + FormatDuration(wait) + ".");
      }
      ok, wait := ConsultLevel(hourWindows, HOUR, config.messagesPerHour, user, now);
      if !ok {
        return Limited(NOTICE_PREFIX + FormatDuration(wait) + ".");
      }
      result := Allowed;
    }
  }
}
