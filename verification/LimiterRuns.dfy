/**
 * Serial runs of the rate limiter, of any length and for any number of users.
 *
 * The main result is `VerdictIsGreedy`: what a check answers is a function of that user's own
 * check times alone. The idle-expiring caches, housekeeping and all other users drop out.
 */
module LimiterRuns {
  import opened Durations
  import opened ExpiringCache
  import opened FixedWindows
  import opened RateLimit
  import opened Text
  import opened Units
  import opened Wrappers

  /** A check, or the caches dropping those entries of the given users that have expired. */
  datatype LimiterEvent =
    | Check(user: ThreemaId, now: Instant)
    | Housekeeping(minuteUsers: set<ThreemaId>, hourUsers: set<ThreemaId>, now: Instant)

  type Events = seq<LimiterEvent>

  function Apply(cfg: RateLimitConfig, idle: IdleTimes, s: LimiterState, e: LimiterEvent): LimiterState {
    match e
    case Check(user, now) => CheckStep(cfg, idle, s, user, now).0
    case Housekeeping(mu, hu, now) =>
      LimiterState(Sweep(s.minute, TimeToIdle(idle.minute), mu, now), Sweep(s.hour, TimeToIdle(idle.hour), hu, now))
  }

  function After(cfg: RateLimitConfig, idle: IdleTimes, events: Events): LimiterState {
    if events == [] then NEW_LIMITER else
    Apply(cfg, idle, After(cfg, idle, events[..|events| - 1]), events[|events| - 1])
  }

  ghost predicate Ordered(events: Events) {
    forall i, j :: 0 <= i < j < |events| ==> events[i].now <= events[j].now
  }

  /** The times at which `user` was checked. */
  function ChecksOf(events: Events, user: ThreemaId): seq<Instant> {
    if events == [] then [] else
    var earlier := ChecksOf(events[..|events| - 1], user);
    var e := events[|events| - 1];
    if e.Check? && e.user == user then earlier + [e.now] else earlier
  }

  // ---- The reference: one user's verdict from that user's check times ----

  /** The verdict on the last of a user's checks. */
  function GreedyVerdict(cfg: RateLimitConfig, times: seq<Instant>): Verdict
    requires times != []
  {
    if !Passes(times, MINUTE, cfg.messagesPerMinute) then
      Reject(WaitAfter(times, MINUTE))
    else
      var counted := Admitted(times, MINUTE, cfg.messagesPerMinute);
      if !Passes(counted, HOUR, cfg.messagesPerHour) then
        Reject(WaitAfter(counted, HOUR))
      else
        Pass
  }

  // ---- The caches agree with the reference ----

  function LevelState(times: seq<Instant>, d: Duration): WindowState
    requires times != []
  {
    WindowState(if Rank(times, d) <= U32_MAX then Rank(times, d) else U32_MAX, Opening(times, d), d)
  }

  /** `windows` holds the user's window, unless it was dropped after running out. */
  ghost predicate Agrees(windows: Windows, user: ThreemaId, times: seq<Instant>, d: Duration, now: Instant) {
    if times == [] then user !in windows else
    var w := LevelState(times, d);
    if user in windows then
      windows[user].value == w && w.startedAt <= windows[user].stamp <= now
    else
      w.startedAt + d <= now
  }

  lemma ConsultAgrees(windows: Windows, idle: Duration, d: Duration, limit: u32, user: ThreemaId,
                      times: seq<Instant>, before: Instant, now: Instant)
    requires 0 < d <= idle && limit >= 1 && before <= now
    requires Agrees(windows, user, times, d, before)
    ensures var r := Consult(windows, idle, d, limit, user, now);
            var longer := times + [now];
            && Agrees(r.windows, user, longer, d, now)
            && r.admitted == Passes(longer, d, limit)
            && (!r.admitted ==> r.wait == WaitAfter(longer, d))
  {
    var longer := times + [now];
    assert Front(longer) == times;
    if times != [] {
      assert OpenedBy(longer, d) == if Opening(times, d) + d <= now then |times| else OpenedBy(times, d);
    }
  }

  lemma AgreesLater(windows: Windows, user: ThreemaId, times: seq<Instant>, d: Duration, before: Instant, now: Instant)
    requires before <= now && Agrees(windows, user, times, d, before)
    ensures Agrees(windows, user, times, d, now)
  {}

  lemma ConsultLeavesOthers(windows: Windows, idle: Duration, d: Duration, limit: u32, other: ThreemaId,
                            user: ThreemaId, times: seq<Instant>, before: Instant, now: Instant)
    requires user != other && before <= now && Agrees(windows, user, times, d, before)
    ensures Agrees(Consult(windows, idle, d, limit, other, now).windows, user, times, d, now)
  {}

  lemma SweepAgrees(windows: Windows, idle: Duration, users: set<ThreemaId>, d: Duration,
                    user: ThreemaId, times: seq<Instant>, before: Instant, now: Instant)
    requires d <= idle && before <= now && Agrees(windows, user, times, d, before)
    ensures Agrees(Sweep(windows, TimeToIdle(idle), users, now), user, times, d, now)
  {}

  ghost predicate LongEnough(idle: IdleTimes) {
    idle.minute >= MINUTE && idle.hour >= HOUR
  }

  function Now(events: Events): Instant {
    if events == [] then 0 else events[|events| - 1].now
  }

  ghost predicate BothAgree(cfg: RateLimitConfig, s: LimiterState, user: ThreemaId, times: seq<Instant>, now: Instant) {
    && Agrees(s.minute, user, times, MINUTE, now)
    && Agrees(s.hour, user, Admitted(times, MINUTE, cfg.messagesPerMinute), HOUR, now)
  }

  lemma {:induction false} CheckAgrees(cfg: RateLimitConfig, idle: IdleTimes, s: LimiterState, user: ThreemaId,
                    times: seq<Instant>, before: Instant, now: Instant)
    requires cfg.Validated() && LongEnough(idle) && before <= now && BothAgree(cfg, s, user, times, before)
    ensures var (t, result) := CheckStep(cfg, idle, s, user, now);
            BothAgree(cfg, t, user, times + [now], now) && result == GreedyVerdict(cfg, times + [now])
  {
    var hourTimes := Admitted(times, MINUTE, cfg.messagesPerMinute);
    assert Front(times + [now]) == times;
    ConsultAgrees(s.minute, idle.minute, MINUTE, cfg.messagesPerMinute, user, times, before, now);
    ConsultAgrees(s.hour, idle.hour, HOUR, cfg.messagesPerHour, user, hourTimes, before, now);
    AgreesLater(s.hour, user, hourTimes, HOUR, before, now);
  }

  lemma {:induction false} OthersAgree(cfg: RateLimitConfig, idle: IdleTimes, s: LimiterState, e: LimiterEvent,
                                       user: ThreemaId,
                    times: seq<Instant>, before: Instant)
    requires LongEnough(idle) && before <= e.now && BothAgree(cfg, s, user, times, before)
    requires e.Check? ==> e.user != user
    ensures BothAgree(cfg, Apply(cfg, idle, s, e), user, times, e.now)
  {
    var hourTimes := Admitted(times, MINUTE, cfg.messagesPerMinute);
    match e {
      case Housekeeping(mu, hu, now) =>
        SweepAgrees(s.minute, idle.minute, mu, MINUTE, user, times, before, now);
        SweepAgrees(s.hour, idle.hour, hu, HOUR, user, hourTimes, before, now);
      case Check(other, now) =>
        ConsultLeavesOthers(s.minute, idle.minute, MINUTE, cfg.messagesPerMinute, other, user, times, before, now);
        ConsultLeavesOthers(s.hour, idle.hour, HOUR, cfg.messagesPerHour, other, user, hourTimes, before, now);
        AgreesLater(s.hour, user, hourTimes, HOUR, before, now);
    }
  }

  lemma {:induction false} StateAgrees(cfg: RateLimitConfig, idle: IdleTimes, events: Events, user: ThreemaId)
    requires cfg.Validated() && LongEnough(idle) && Ordered(events)
    ensures BothAgree(cfg, After(cfg, idle, events), user, ChecksOf(events, user), Now(events))
    decreases |events|
  {
    if events != [] {
      var earlier, e := events[..|events| - 1], events[|events| - 1];
      StateAgrees(cfg, idle, earlier, user);
      if e.Check? && e.user == user {
        CheckAgrees(cfg, idle, After(cfg, idle, earlier), user, ChecksOf(earlier, user), Now(earlier), e.now);
      } else {
        OthersAgree(cfg, idle, After(cfg, idle, earlier), e, user, ChecksOf(earlier, user), Now(earlier));
      }
    }
  }

  /** Every check answers what the reference says of its user's own check times. */
  lemma {:induction false} VerdictIsGreedy(cfg: RateLimitConfig, idle: IdleTimes, events: Events, user: ThreemaId,
                                           now: Instant)
    requires cfg.Validated() && LongEnough(idle) && Ordered(events) && Now(events) <= now
    ensures CheckStep(cfg, idle, After(cfg, idle, events), user, now).1
         == GreedyVerdict(cfg, ChecksOf(events, user) + [now])
  {
    StateAgrees(cfg, idle, events, user);
    CheckAgrees(cfg, idle, After(cfg, idle, events), user, ChecksOf(events, user), Now(events), now);
  }

  /**
   * Two runs that check a user at the same times answer that user alike, whatever the other
   * users do, whenever housekeeping runs, and however long the caches keep idle windows.
   */
  lemma {:induction false} ForgettingAndOthersDoNotMatter(cfg: RateLimitConfig, idleA: IdleTimes, idleB: IdleTimes,
                                       runA: Events, runB: Events, user: ThreemaId, now: Instant)
    requires cfg.Validated() && LongEnough(idleA) && LongEnough(idleB)
    requires Ordered(runA) && Ordered(runB) && Now(runA) <= now && Now(runB) <= now
    requires ChecksOf(runA, user) == ChecksOf(runB, user)
    ensures CheckStep(cfg, idleA, After(cfg, idleA, runA), user, now).1
         == CheckStep(cfg, idleB, After(cfg, idleB, runB), user, now).1
  {
    VerdictIsGreedy(cfg, idleA, runA, user, now);
    VerdictIsGreedy(cfg, idleB, runB, user, now);
  }

  // ---- Why the configuration and the idle times are what they are ----

  /** A window that has run out may be forgotten exactly when the limit is not zero. */
  lemma ForgettingNeedsPositiveLimit(w: WindowState, limit: u32, now: Instant)
    requires w.duration > 0 && HasRunOut(w, now)
    ensures Counted(w, now) == Counted(NewWindow(w.duration, now), now)
    ensures Admits(w, limit, now) == Admits(NewWindow(w.duration, now), limit, now) <==> limit >= 1
  {}

  // ---- What a rejected user is told ----

  function DecodeNotice(message: string): Option<nat> {
    match StripPrefix(message, NOTICE_PREFIX)
    case None => None
    case Some(rest) =>
      if rest == "" || rest[|rest| - 1] != '.' then None else DecodeDuration(rest[..|rest| - 1])
  }

  lemma NoticeRoundTrip(wait: Duration)
    ensures DecodeNotice(Notice(wait)) == Some(Announced(wait))
  {
    var text := FormatDuration(wait);
    var rest := text + ".";
    assert Notice(wait) == NOTICE_PREFIX + rest;
    assert Notice(wait)[|NOTICE_PREFIX|..] == rest && rest[..|rest| - 1] == text;
    FormatRoundTrip(wait);
  }

  lemma WaitIsPositive(times: seq<Instant>, d: Duration)
    requires times != [] && d > 0 && Sorted(times)
    ensures 0 < WaitAfter(times, d) <= d
    ensures Last(times) + WaitAfter(times, d) == Opening(times, d) + d
  {
    WithinWindow(times, d, |times| - 1);
  }

  /**
   * The notice a rejected check reports names the whole seconds of the wait, which is what is
   * left of the window of the level that rejected the check.
   */
  lemma {:induction false} NoticeNamesWait(cfg: RateLimitConfig, times: seq<Instant>)
    requires times != [] && Sorted(times) && GreedyVerdict(cfg, times).Reject?
    ensures var wait := GreedyVerdict(cfg, times).wait;
            && 0 < wait <= HOUR
            && Notice(wait) == "Rate limit exceeded. Try again in " + FormatDuration(wait) + "."
            && DecodeNotice(Notice(wait)) == Some(WholeSeconds(wait))
            && if !Passes(times, MINUTE, cfg.messagesPerMinute) then
                 Last(times) + wait == Opening(times, MINUTE) + MINUTE
               else
                 var counted := Admitted(times, MINUTE, cfg.messagesPerMinute);
                 !Passes(counted, HOUR, cfg.messagesPerHour) && Last(times) + wait == Opening(counted, HOUR) + HOUR
  {
    var wait := GreedyVerdict(cfg, times).wait;
    NoticeRoundTrip(wait);
    WaitIsPositive(times, MINUTE);
    if Passes(times, MINUTE, cfg.messagesPerMinute) {
      AdmittedSorted(times, MINUTE, cfg.messagesPerMinute);
      WaitIsPositive(Admitted(times, MINUTE, cfg.messagesPerMinute), HOUR);
    }
    assert Announced(wait) == WholeSeconds(wait);
  }

  lemma {:induction false} AdmittedBehind(times: seq<Instant>, more: seq<Instant>, d: Duration, limit: u32,
                                          bound: Instant) returns (rest: seq<Instant>)
    requires forall i :: 0 <= i < |more| ==> more[i] < bound
    ensures Admitted(times + more, d, limit) == Admitted(times, d, limit) + rest
    ensures forall i :: 0 <= i < |rest| ==> rest[i] < bound
    decreases |more|
  {
    if more == [] {
      assert times + more == times;
      rest := [];
    } else {
      assert Front(times + more) == times + Front(more);
      rest := AdmittedBehind(times, Front(more), d, limit, bound);
      if Passes(times + more, d, limit) {
        rest := rest + [Last(more)];
      }
    }
  }

  /** The hour level rejects whatever reaches it before the end of the wait it announced. */
  lemma {:induction false} HourRejectsUntil(cfg: RateLimitConfig, times: seq<Instant>, more: seq<Instant>, t: Instant)
    requires cfg.Validated() && times != [] && Passes(times, MINUTE, cfg.messagesPerMinute)
    requires GreedyVerdict(cfg, times).Reject?
    requires forall i :: 0 <= i < |more| ==> more[i] < Last(times) + GreedyVerdict(cfg, times).wait
    ensures GreedyVerdict(cfg, times + more + [t]).Pass?
       <==> && Passes(times + more + [t], MINUTE, cfg.messagesPerMinute)
            && t >= Last(times) + GreedyVerdict(cfg, times).wait
  {
    var m, end := cfg.messagesPerMinute, Last(times) + GreedyVerdict(cfg, times).wait;
    var counted := Admitted(times, MINUTE, m);
    assert Last(counted) == Last(times);
    var rest := AdmittedBehind(times, more, MINUTE, m, end);
    WaitIsExact(counted, rest, t, HOUR, cfg.messagesPerHour);
    assert Front(times + more + [t]) == times + more;
  }

  /**
   * After a rejection, with wait `w` announced: every check of the user before the end of the
   * wait is rejected, and those do not prolong it. If the minute level rejected, the next check
   * passes that level exactly if the wait is over; if the hour level did, the next check is
   * allowed exactly if it passes the minute level and the wait is over.
   */
  lemma {:induction false} RejectedUntilWaitIsOver(cfg: RateLimitConfig, times: seq<Instant>, more: seq<Instant>,
                                                   t: Instant)
    requires cfg.Validated() && times != [] && GreedyVerdict(cfg, times).Reject?
    requires forall i :: 0 <= i < |more| ==> more[i] < Last(times) + GreedyVerdict(cfg, times).wait
    ensures forall i :: 0 <= i <= |more| ==> GreedyVerdict(cfg, times + more[..i]).Reject?
    ensures var all, isOver := times + more + [t], t >= Last(times) + GreedyVerdict(cfg, times).wait;
            if Passes(times, MINUTE, cfg.messagesPerMinute) then
              GreedyVerdict(cfg, all).Pass? <==> Passes(all, MINUTE, cfg.messagesPerMinute) && isOver
            else
              Passes(all, MINUTE, cfg.messagesPerMinute) <==> isOver
  {
    if !Passes(times, MINUTE, cfg.messagesPerMinute) {
      WaitIsExact(times, more, t, MINUTE, cfg.messagesPerMinute);
    } else {
      HourRejectsUntil(cfg, times, more, t);
      forall i | 0 <= i <= |more| ensures GreedyVerdict(cfg, times + more[..i]).Reject? {
        if i > 0 {
          HourRejectsUntil(cfg, times, more[..i - 1], more[i - 1]);
          assert times + more[..i] == times + more[..i - 1] + [more[i - 1]];
        } else {
          assert times + more[..0] == times;
        }
      }
    }
  }

  /** A whole number of seconds. */
  predicate IsWhole(ticks: int) {
    ticks % 1_000_000_000 == 0
  }

  /** Nothing is rounded away from a wait exactly if whole seconds have passed since the opening. */
  lemma WholeWait(times: seq<Instant>, d: Duration)
    requires times != [] && d > 0 && IsWhole(d) && Sorted(times)
    ensures var wait := WaitAfter(times, d);
            Seconds(WholeSeconds(wait)) >= wait <==> IsWhole(Last(times) - Opening(times, d))
  {
    WaitIsPositive(times, d);
  }

  /** The hour level passes the last check, provided the minute level did. */
  predicate HourPasses(cfg: RateLimitConfig, times: seq<Instant>)
    requires times != []
  {
    Passes(times, MINUTE, cfg.messagesPerMinute) ==>
      Passes(Admitted(times, MINUTE, cfg.messagesPerMinute), HOUR, cfg.messagesPerHour)
  }

  /** When the window of the level that rejected the last check opened. */
  function RejectingOpening(cfg: RateLimitConfig, times: seq<Instant>): Instant
    requires times != []
  {
    if Passes(times, MINUTE, cfg.messagesPerMinute) then
      Opening(Admitted(times, MINUTE, cfg.messagesPerMinute), HOUR)
    else
      Opening(times, MINUTE)
  }

  /**
   * The announced wait is rounded down to whole seconds. A check after exactly the announced
   * seconds, whatever came in between, is allowed if and only if the rejected check came a whole
   * number of seconds after the window that rejected it opened, and the other level lets the
   * check pass.
   */
  lemma {:induction false} RetryAfterAnnouncedSeconds(cfg: RateLimitConfig, times: seq<Instant>, more: seq<Instant>)
    requires cfg.Validated() && times != [] && Sorted(times) && GreedyVerdict(cfg, times).Reject?
    requires forall i :: 0 <= i < |more| ==> more[i] < Last(times) + GreedyVerdict(cfg, times).wait
    ensures var retry := Last(times) + Seconds(WholeSeconds(GreedyVerdict(cfg, times).wait));
            var all := times + more + [retry];
            GreedyVerdict(cfg, all).Pass? <==>
              && IsWhole(Last(times) - RejectingOpening(cfg, times))
              && if Passes(times, MINUTE, cfg.messagesPerMinute) then Passes(all, MINUTE, cfg.messagesPerMinute)
                 else HourPasses(cfg, all)
  {
    var m, retry := cfg.messagesPerMinute, Last(times) + Seconds(WholeSeconds(GreedyVerdict(cfg, times).wait));
    RejectedUntilWaitIsOver(cfg, times, more, retry);
    if Passes(times, MINUTE, m) {
      var counted := Admitted(times, MINUTE, m);
      AdmittedSorted(times, MINUTE, m);
      assert Last(counted) == Last(times);
      WholeWait(counted, HOUR);
    } else {
      WholeWait(times, MINUTE);
    }
  }

  /** A whole number of seconds is not enough: the other level can reject the retry. */
  lemma WholeWaitIsNotEnough(cfg: RateLimitConfig)
    requires cfg.messagesPerMinute == 1 && cfg.messagesPerHour == 1
    ensures GreedyVerdict(cfg, [0, Seconds(30)]) == Reject(Seconds(30))
    ensures GreedyVerdict(cfg, [0, Seconds(30), Seconds(60)]).Reject?
  {
    assert Front([0, Seconds(30), Seconds(60)]) == [0, Seconds(30)];
    assert Front([0, Seconds(30)]) == [0];
    assert OpenedBy([0, Seconds(30)], MINUTE) == 0 && OpenedBy([0, Seconds(30), Seconds(60)], MINUTE) == 2;
    assert Admitted([0], MINUTE, 1) == [0];
    assert Admitted([0, Seconds(30)], MINUTE, 1) == [0];
    assert Admitted([0, Seconds(30), Seconds(60)], MINUTE, 1) == [0, Seconds(60)];
    assert Front([0, Seconds(60)]) == [0] && OpenedBy([0, Seconds(60)], HOUR) == 0;
  }

  // ---- How long a window has to be remembered ----

  /** A level after checks of `user` at `times`, with an idle time of `idle`. */
  function LevelAfter(idle: Duration, d: Duration, limit: u32, user: ThreemaId, times: seq<Instant>): Windows {
    if times == [] then map[] else
    Consult(LevelAfter(idle, d, limit, user, Front(times)), idle, d, limit, user, Last(times)).windows
  }

  /** Forgetting idle windows never changes what the level answers. */
  ghost predicate ForgettingIsHarmless(idle: Duration, d: Duration, limit: u32, user: ThreemaId) {
    forall times, now :: Sorted(times + [now]) ==>
      (Consult(LevelAfter(idle, d, limit, user, times), idle, d, limit, user, now).admitted
       <==> Passes(times + [now], d, limit))
  }

  lemma {:induction false} LevelAgrees(idle: Duration, d: Duration, limit: u32, user: ThreemaId, times: seq<Instant>)
    requires 0 < d <= idle && limit >= 1 && Sorted(times)
    ensures Agrees(LevelAfter(idle, d, limit, user, times), user, times, d, if times == [] then 0 else Last(times))
    decreases |times|
  {
    if times != [] {
      LevelAgrees(idle, d, limit, user, Front(times));
      ConsultAgrees(LevelAfter(idle, d, limit, user, Front(times)), idle, d, limit, user, Front(times),
                    if |times| == 1 then 0 else Last(Front(times)), Last(times));
      FrontAndLast(times);
    }
  }

  /** After as many checks as the limit allows, and the idle time, a forgetful level admits one more. */
  lemma ForgetfulAdmits(idle: Duration, d: Duration, limit: u32, user: ThreemaId)
    requires idle < d && 1 <= limit < U32_MAX
    ensures var times := Repeat(0, limit);
            && Sorted(times + [idle]) && !Passes(times + [idle], d, limit)
            && Consult(LevelAfter(idle, d, limit, user, times), idle, d, limit, user, idle).admitted
  {
    var times := Repeat(0, limit);
    OpenedByIsUnique(times + [idle], d, 0);
    assert times != [] && Last(times) == 0;
  }

  lemma SortedSnoc(times: seq<Instant>, t: Instant)
    requires Sorted(times + [t])
    ensures Sorted(times) && (times != [] ==> Last(times) <= t)
  {
    var longer := times + [t];
    assert forall i :: 0 <= i < |times| ==> longer[i] == times[i];
    assert longer[|times|] == t;
  }

  /**
   * For every duration and limit, an idle time is long enough exactly if it is not shorter than
   * the duration; or if the limit never limits.
   */
  lemma ForgettingIsHarmlessIff(idle: Duration, d: Duration, limit: u32, user: ThreemaId)
    requires d > 0 && limit >= 1
    ensures ForgettingIsHarmless(idle, d, limit, user) <==> idle >= d || limit == U32_MAX
  {
    if idle >= d || limit == U32_MAX {
      forall times, now | Sorted(times + [now])
        ensures Consult(LevelAfter(idle, d, limit, user, times), idle, d, limit, user, now).admitted
           <==> Passes(times + [now], d, limit)
      {
        if limit != U32_MAX {
          SortedSnoc(times, now);
          LevelAgrees(idle, d, limit, user, times);
          ConsultAgrees(LevelAfter(idle, d, limit, user, times), idle, d, limit, user, times,
                        if times == [] then 0 else Last(times), now);
        }
      }
    } else {
      ForgetfulAdmits(idle, d, limit, user);
    }
  }
}
