/**
 * Fixed windows over a list of check times, told without any state: which check opened the
 * window of the last check, which rank the last check has in it, and what follows for the
 * number of checks that pass in an interval.
 */
module FixedWindows {
  import opened Units

  ghost predicate Sorted(times: seq<Instant>) {
    forall i, j :: 0 <= i < j < |times| ==> times[i] <= times[j]
  }

  function Last(times: seq<Instant>): Instant
    requires times != []
  {
    times[|times| - 1]
  }

  function Front(times: seq<Instant>): seq<Instant>
    requires times != []
  {
    times[..|times| - 1]
  }

  lemma FrontAndLast(times: seq<Instant>)
    requires times != []
    ensures Front(times) + [Last(times)] == times
  {}

  /**
   * The index of the check that opened the window of the last check. Windows are greedy: one
   * opens with the first check, and the next with the first check a full duration later.
   */
  function OpenedBy(times: seq<Instant>, d: Duration): (r: nat)
    requires times != []
    ensures r < |times|
    decreases |times|
  {
    if |times| == 1 then 0 else
    var r := OpenedBy(Front(times), d);
    if times[r] + d <= Last(times) then |times| - 1 else r
  }

  function Opening(times: seq<Instant>, d: Duration): Instant
    requires times != []
  {
    times[OpenedBy(times, d)]
  }

  /** The rank of the last check among the checks of its window, starting at 1. */
  function Rank(times: seq<Instant>, d: Duration): nat
    requires times != []
  {
    |times| - OpenedBy(times, d)
  }

  /** The last check passes: it is among the first `limit` of its window. */
  predicate Passes(times: seq<Instant>, d: Duration, limit: u32)
    requires times != []
  {
    Rank(times, d) <= limit || limit == U32_MAX
  }

  /** The time left in the window of the last check. */
  function WaitAfter(times: seq<Instant>, d: Duration): Duration
    requires times != []
  {
    SaturatingSub(Opening(times, d) + d, Last(times))
  }

  /** The times of the checks that pass. */
  function Admitted(times: seq<Instant>, d: Duration, limit: u32): seq<Instant> {
    if times == [] then [] else
    var earlier := Admitted(Front(times), d, limit);
    if Passes(times, d, limit) then earlier + [Last(times)] else earlier
  }

  function One(b: bool): nat {
    if b then 1 else 0
  }

  /** How many checks in `[from, to]` pass. */
  function PassedWithin(times: seq<Instant>, d: Duration, limit: u32, from: Instant, to: Instant): nat {
    if times == [] then 0 else
    PassedWithin(Front(times), d, limit, from, to) + One(from <= Last(times) <= to && Passes(times, d, limit))
  }

  // ---- What the decomposition means ----

  /** All checks since the opening lie within one duration of it. */
  lemma {:induction false} WithinWindow(times: seq<Instant>, d: Duration, i: nat)
    requires times != [] && d > 0 && OpenedBy(times, d) <= i < |times|
    ensures times[i] < Opening(times, d) + d
    decreases |times|
  {
    if OpenedBy(times, d) < |times| - 1 && i < |times| - 1 {
      WithinWindow(Front(times), d, i);
    }
  }

  /** The opening check comes at least one duration after the opening of the window before. */
  lemma {:induction false} OpensLate(times: seq<Instant>, d: Duration)
    requires times != [] && d > 0 && OpenedBy(times, d) > 0
    ensures Opening(times[..OpenedBy(times, d)], d) + d <= Opening(times, d)
    decreases |times|
  {
    var r := OpenedBy(times, d);
    if r == |times| - 1 {
      assert times[..r] == Front(times);
    } else {
      assert Front(times)[..r] == times[..r];
      OpensLate(Front(times), d);
    }
  }

  /** Nothing else meets these two conditions. */
  lemma {:induction false} OpenedByIsUnique(times: seq<Instant>, d: Duration, r: nat)
    requires times != [] && d > 0 && r < |times|
    requires forall i :: r <= i < |times| ==> times[i] < times[r] + d
    requires r > 0 ==> Opening(times[..r], d) + d <= times[r]
    ensures OpenedBy(times, d) == r
    decreases |times|
  {
    if r < |times| - 1 {
      assert Front(times)[..r] == times[..r];
      OpenedByIsUnique(Front(times), d, r);
    } else if r > 0 {
      assert Front(times) == times[..r];
    }
  }

  // ---- Sliding intervals ----

  /** One window lets at most `limit` checks pass, and one less in an interval that misses its opening. */
  lemma {:induction false} WindowQuota(times: seq<Instant>, d: Duration, limit: u32, from: Instant, to: Instant)
    requires times != [] && d > 0 && 1 <= limit < U32_MAX
    ensures PassedWithin(times, d, limit, from, to) + One(Opening(times, d) < from)
         <= PassedWithin(times[..OpenedBy(times, d)], d, limit, from, to)
            + if Rank(times, d) < limit then Rank(times, d) else limit
    decreases |times|
  {
    var n, r := |times| - 1, OpenedBy(times, d);
    if r < n {
      assert OpenedBy(Front(times), d) == r;
      WindowQuota(Front(times), d, limit, from, to);
      assert Front(times)[..r] == times[..r];
    }
  }

  lemma {:induction false} NothingBefore(times: seq<Instant>, d: Duration, limit: u32, from: Instant, to: Instant)
    requires d > 0 && Sorted(times) && (times != [] ==> Last(times) < from)
    ensures PassedWithin(times, d, limit, from, to) == 0
    decreases |times|
  {
    if times != [] {
      NothingBefore(Front(times), d, limit, from, to);
    }
  }

  /** `k * x`, by repeated addition. */
  function Times(k: nat, x: nat): nat {
    if k == 0 then 0 else Times(k - 1, x) + x
  }

  lemma {:induction false} TimesIsProduct(k: nat, x: nat)
    ensures Times(k, x) == k * x
  {
    if k > 0 {
      TimesIsProduct(k - 1, x);
    }
  }

  lemma MulMonotone(a: nat, b: nat, d: nat)
    requires a <= b
    ensures a * d <= b * d
  {}

  lemma {:induction false} QuotaByOpening(times: seq<Instant>, d: Duration, limit: u32, from: Instant, to: Instant,
                                          k: nat)
    requires times != [] && d > 0 && 1 <= limit < U32_MAX && Sorted(times)
    requires Opening(times, d) <= from + Times(k, d)
    ensures PassedWithin(times, d, limit, from, to) <= Times(k, limit) + limit
    decreases |times|
  {
    var r := OpenedBy(times, d);
    var earlier := times[..r];
    WindowQuota(times, d, limit, from, to);
    if r == 0 || Last(earlier) < from {
      NothingBefore(earlier, d, limit, from, to);
    } else {
      // The window before ends after `from` and no later than this one starts, so k >= 1.
      assert Opening(earlier, d) + d <= Opening(times, d) && from < Opening(earlier, d) + d by {
        WithinWindow(earlier, d, r - 1);
        OpensLate(times, d);
      }
      QuotaByOpening(earlier, d, limit, from, to, k - 1);
    }
  }

  /** In any closed interval of `k` durations at most `k + 1` times the limit passes. */
  lemma {:induction false} SlidingBound(times: seq<Instant>, d: Duration, limit: u32, from: Instant, to: Instant,
                                        k: nat)
    requires d > 0 && 1 <= limit < U32_MAX && Sorted(times)
    requires to <= from + k * d
    ensures PassedWithin(times, d, limit, from, to) <= (k + 1) * limit
    decreases |times|
  {
    TimesIsProduct(k, d);
    TimesIsProduct(k + 1, limit);
    if times != [] {
      if Last(times) > to {
        SlidingBound(Front(times), d, limit, from, to, k);
      } else {
        QuotaByOpening(times, d, limit, from, to, k);
      }
    }
  }

  lemma InstantBound(times: seq<Instant>, d: Duration, limit: u32, t: Instant)
    requires d > 0 && 1 <= limit < U32_MAX && Sorted(times)
    ensures PassedWithin(times, d, limit, t, t) <= limit
  {
    SlidingBound(times, d, limit, t, t, 0);
  }

  /** If the last window opens less than `k` durations into the interval, one check less passes. */
  lemma {:induction false} EarlyOpeningQuota(times: seq<Instant>, d: Duration, limit: u32, from: Instant, to: Instant,
                                             k: nat)
    requires times != [] && d > 0 && 1 <= limit < U32_MAX && Sorted(times)
    requires Opening(times, d) < from + Times(k, d)
    ensures PassedWithin(times, d, limit, from, to) < Times(k, limit) + limit
    decreases |times|
  {
    var r := OpenedBy(times, d);
    var earlier := times[..r];
    WindowQuota(times, d, limit, from, to);
    if r == 0 || Last(earlier) < from {
      NothingBefore(earlier, d, limit, from, to);
      assert k > 0 ==> Times(k, limit) >= limit;
    } else {
      assert Opening(earlier, d) + d <= Opening(times, d) && from < Opening(earlier, d) + d by {
        WithinWindow(earlier, d, r - 1);
        OpensLate(times, d);
      }
      EarlyOpeningQuota(earlier, d, limit, from, to, k - 1);
    }
  }

  /** In an interval shorter than `k` durations at most `k + 1` times the limit, less one, passes. */
  lemma {:induction false} ShortInterval(times: seq<Instant>, d: Duration, limit: u32, from: Instant, to: Instant,
                                         k: nat)
    requires d > 0 && 1 <= limit < U32_MAX && Sorted(times)
    requires to < from + k * d
    ensures PassedWithin(times, d, limit, from, to) < (k + 1) * limit
    decreases |times|
  {
    TimesIsProduct(k, d);
    TimesIsProduct(k + 1, limit);
    if times != [] {
      if Last(times) > to {
        ShortInterval(Front(times), d, limit, from, to, k);
      } else {
        EarlyOpeningQuota(times, d, limit, from, to, k);
      }
    }
  }

  /** From index `r` on, all checks come at `to`. */
  lemma {:induction false} OnlyAtTheEnd(times: seq<Instant>, d: Duration, limit: u32, from: Instant, to: Instant,
                                        r: nat)
    requires r <= |times| && forall i :: r <= i < |times| ==> times[i] == to
    ensures PassedWithin(times, d, limit, from, to)
         <= PassedWithin(times[..r], d, limit, from, to) + PassedWithin(times, d, limit, to, to)
    decreases |times|
  {
    if r < |times| {
      assert Front(times)[..r] == times[..r];
      OnlyAtTheEnd(Front(times), d, limit, from, to, r);
    } else {
      assert times[..r] == times;
    }
  }

  /**
   * In a closed interval of `k` durations, `k + 1` times the limit passes only if as many as the
   * limit pass at the very end of it.
   */
  lemma {:induction false} ClosedInterval(times: seq<Instant>, d: Duration, limit: u32, from: Instant, to: Instant,
                                          k: nat)
    requires d > 0 && 1 <= limit < U32_MAX && Sorted(times)
    requires to == from + Times(k, d)
    ensures || PassedWithin(times, d, limit, from, to) < Times(k, limit) + limit
            || PassedWithin(times, d, limit, from, to) <= Times(k, limit) + PassedWithin(times, d, limit, to, to)
    decreases |times|
  {
    if times != [] {
      if Last(times) > to {
        ClosedInterval(Front(times), d, limit, from, to, k);
      } else if Opening(times, d) < to {
        EarlyOpeningQuota(times, d, limit, from, to, k);
      } else {
        var r := OpenedBy(times, d);
        OnlyAtTheEnd(times, d, limit, from, to, r);
        EarlierQuota(times, d, limit, from, to, k);
      }
    }
  }

  lemma {:induction false} EarlierQuota(times: seq<Instant>, d: Duration, limit: u32, from: Instant, to: Instant,
                                        k: nat)
    requires times != [] && d > 0 && 1 <= limit < U32_MAX && Sorted(times)
    requires Opening(times, d) <= from + Times(k, d)
    ensures PassedWithin(times[..OpenedBy(times, d)], d, limit, from, to) <= Times(k, limit)
  {
    var earlier := times[..OpenedBy(times, d)];
    if earlier == [] || Last(earlier) < from {
      NothingBefore(earlier, d, limit, from, to);
    } else {
      OpensLate(times, d);
      WithinWindow(earlier, d, |earlier| - 1);
      QuotaByOpening(earlier, d, limit, from, to, k - 1);
    }
  }

  lemma EndDecides(times: seq<Instant>, d: Duration, limit: u32, from: Instant, to: Instant, k: nat)
    requires d > 0 && 1 <= limit < U32_MAX && Sorted(times)
    requires to == from + k * d && PassedWithin(times, d, limit, to, to) < limit
    ensures PassedWithin(times, d, limit, from, to) < (k + 1) * limit
  {
    TimesIsProduct(k, d);
    TimesIsProduct(k + 1, limit);
    ClosedInterval(times, d, limit, from, to, k);
  }

  lemma {:induction false} AdmittedSorted(times: seq<Instant>, d: Duration, limit: u32)
    requires Sorted(times)
    ensures var r := Admitted(times, d, limit);
            Sorted(r) && forall i :: 0 <= i < |r| ==> times != [] && r[i] <= Last(times)
    decreases |times|
  {
    if times != [] {
      AdmittedSorted(Front(times), d, limit);
    }
  }

  // ---- Rejections and waiting ----

  lemma {:induction false} StaysOpen(times: seq<Instant>, more: seq<Instant>, d: Duration)
    requires times != [] && d > 0
    requires forall i :: 0 <= i < |more| ==> more[i] < Opening(times, d) + d
    ensures OpenedBy(times + more, d) == OpenedBy(times, d)
    decreases |more|
  {
    if more == [] {
      assert times + more == times;
    } else {
      var init := more[..|more| - 1];
      StaysOpen(times, init, d);
      assert Front(times + more) == times + init;
    }
  }

  /**
   * After a rejected check, however many checks come before the announced wait is over, each of
   * them is rejected, and the next one passes exactly when the wait is over.
   */
  lemma {:induction false} WaitIsExact(times: seq<Instant>, more: seq<Instant>, t: Instant, d: Duration, limit: u32)
    requires times != [] && d > 0 && limit >= 1 && !Passes(times, d, limit)
    requires forall i :: 0 <= i < |more| ==> more[i] < Last(times) + WaitAfter(times, d)
    ensures forall i :: 0 <= i <= |more| ==> !Passes(times + more[..i], d, limit)
    ensures Passes(times + more + [t], d, limit) <==> t >= Last(times) + WaitAfter(times, d)
  {
    forall i | 0 <= i <= |more| ensures !Passes(times + more[..i], d, limit) {
      StaysOpen(times, more[..i], d);
    }
    StaysOpen(times, more, d);
    assert Front(times + more + [t]) == times + more;
  }

  // ---- Lists of which every check passes ----

  ghost predicate AllPass(times: seq<Instant>, d: Duration, limit: u32) {
    times == [] || (Passes(times, d, limit) && AllPass(Front(times), d, limit))
  }

  lemma {:induction false} AllAdmitted(times: seq<Instant>, d: Duration, limit: u32)
    requires AllPass(times, d, limit)
    ensures Admitted(times, d, limit) == times
    decreases |times|
  {
    if times != [] {
      AllAdmitted(Front(times), d, limit);
    }
  }

  lemma {:induction false} PrefixAllPass(times: seq<Instant>, first: seq<Instant>, d: Duration, limit: u32)
    requires AllPass(times, d, limit) && first <= times
    ensures AllPass(first, d, limit)
    decreases |times|
  {
    if first != times {
      PrefixAllPass(Front(times), first, d, limit);
    }
  }

  /** Each check comes at least one duration after the one `limit` checks before it. */
  ghost predicate Complies(times: seq<Instant>, d: Duration, limit: u32) {
    forall i :: limit <= i < |times| ==> times[i - limit] + d <= times[i]
  }

  /** Who keeps to the limit in every sliding interval is never turned away. */
  lemma {:induction false} CompliantPass(times: seq<Instant>, d: Duration, limit: u32)
    requires d > 0 && limit >= 1 && Sorted(times) && Complies(times, d, limit)
    ensures AllPass(times, d, limit)
    decreases |times|
  {
    if times != [] {
      CompliantPass(Front(times), d, limit);
    }
  }

  lemma {:induction false} FewAllPass(times: seq<Instant>, d: Duration, limit: u32)
    requires |times| <= limit
    ensures AllPass(times, d, limit)
    decreases |times|
  {
    if times != [] {
      FewAllPass(Front(times), d, limit);
    }
  }

  /** From a full duration after the last opening on, as many as the limit pass. */
  lemma {:induction false} NextWindowPasses(earlier: seq<Instant>, more: seq<Instant>, d: Duration, limit: u32)
    requires d > 0 && AllPass(earlier, d, limit) && |more| <= limit
    requires earlier != [] && more != [] ==> Opening(earlier, d) + d <= more[0]
    ensures AllPass(earlier + more, d, limit)
    ensures more != [] ==> OpenedBy(earlier + more, d) >= |earlier|
    decreases |more|
  {
    if more == [] {
      assert earlier + more == earlier;
    } else {
      assert Front(earlier + more) == earlier + Front(more);
      NextWindowPasses(earlier, Front(more), d, limit);
      if |more| == 1 {
        assert earlier + Front(more) == earlier;
      }
    }
  }

  /** If they all come within a duration of the first of them, they share the window it opens. */
  lemma {:induction false} SharedWindow(earlier: seq<Instant>, more: seq<Instant>, d: Duration, limit: u32)
    requires d > 0 && AllPass(earlier, d, limit) && 0 < |more| <= limit
    requires earlier != [] ==> Opening(earlier, d) + d <= more[0]
    requires forall i :: 0 <= i < |more| ==> more[i] < more[0] + d
    ensures AllPass(earlier + more, d, limit) && Opening(earlier + more, d) == more[0]
  {
    NextWindowPasses(earlier, more, d, limit);
    OpenedAtFirst(earlier, more, d);
  }

  lemma {:induction false} OpenedAtFirst(earlier: seq<Instant>, more: seq<Instant>, d: Duration)
    requires d > 0 && more != []
    requires earlier != [] ==> Opening(earlier, d) + d <= more[0]
    requires forall i :: 0 <= i < |more| ==> more[i] < more[0] + d
    ensures OpenedBy(earlier + more, d) == |earlier|
    decreases |more|
  {
    assert Front(earlier + more) == earlier + Front(more);
    if |more| > 1 {
      OpenedAtFirst(earlier, Front(more), d);
    } else {
      assert earlier + Front(more) == earlier;
    }
  }

  function Repeat(t: Instant, n: nat): (r: seq<Instant>)
    ensures |r| == n && forall i :: 0 <= i < n ==> r[i] == t
  {
    seq(n, _ => t)
  }

  /** `k` bursts of `m` checks, `gap` apart. */
  function Bursts(start: Instant, k: nat, m: nat, gap: Duration): (r: seq<Instant>)
    ensures |r| == Times(k, m)
    ensures forall i :: 0 <= i < |r| ==> start <= r[i] && r[i] + gap <= start + Times(k, gap)
  {
    if k == 0 then [] else Bursts(start, k - 1, m, gap) + Repeat(start + Times(k - 1, gap), m)
  }

  lemma {:induction false} BurstsSorted(start: Instant, k: nat, m: nat, gap: Duration)
    ensures Sorted(Bursts(start, k, m, gap))
  {
    if k > 0 {
      BurstsSorted(start, k - 1, m, gap);
    }
  }

  lemma {:induction false} NextBurst(start: Instant, k: nat, m: nat, gap: Duration, i: nat)
    requires i + m < Times(k, m)
    ensures Bursts(start, k, m, gap)[i + m] == Bursts(start, k, m, gap)[i] + gap
  {
    if i + m < Times(k - 1, m) {
      NextBurst(start, k - 1, m, gap, i);
    } else {
      assert Bursts(start, k - 1, m, gap)[i] == start + Times(k - 2, gap);
    }
  }

  lemma {:induction false} LaterBurst(start: Instant, k: nat, m: nat, gap: Duration, n: nat, i: nat)
    requires i + Times(n, m) < Times(k, m)
    ensures Bursts(start, k, m, gap)[i + Times(n, m)] == Bursts(start, k, m, gap)[i] + Times(n, gap)
    decreases n
  {
    if n > 0 {
      LaterBurst(start, k, m, gap, n - 1, i);
      NextBurst(start, k, m, gap, i + Times(n - 1, m));
    }
  }

  lemma BurstPassesBehind(earlier: seq<Instant>, t: Instant, m: nat, d: Duration, limit: u32)
    requires d > 0 && m <= limit && AllPass(earlier, d, limit)
    requires earlier != [] ==> Opening(earlier, d) + d <= t
    ensures var times := earlier + Repeat(t, m);
            AllPass(times, d, limit) && (times != [] ==> Opening(times, d) <= t)
  {
    NextWindowPasses(earlier, Repeat(t, m), d, limit);
    if m == 0 {
      assert earlier + Repeat(t, m) == earlier;
    }
  }

  /** Bursts a duration apart pass behind whatever passed at least a duration before them. */
  lemma {:induction false} BurstsPassBehind(earlier: seq<Instant>, start: Instant, k: nat, m: nat, gap: Duration,
                                            d: Duration, limit: u32)
    requires 0 < d <= gap && m <= limit && AllPass(earlier, d, limit)
    requires earlier != [] ==> Opening(earlier, d) + d <= start
    ensures var times := earlier + Bursts(start, k, m, gap);
            AllPass(times, d, limit) && (times != [] ==> Opening(times, d) + d <= start + Times(k, gap))
  {
    if k == 0 {
      assert earlier + Bursts(start, k, m, gap) == earlier;
    } else {
      BurstsPassBehind(earlier, start, k - 1, m, gap, d, limit);
      var before, t := earlier + Bursts(start, k - 1, m, gap), start + Times(k - 1, gap);
      assert earlier + Bursts(start, k, m, gap) == before + Repeat(t, m);
      BurstPassesBehind(before, t, m, d, limit);
    }
  }

  lemma {:induction false} BurstsAllPass(start: Instant, k: nat, m: nat, gap: Duration, d: Duration, limit: u32)
    requires 0 < d <= gap && m <= limit
    ensures AllPass(Bursts(start, k, m, gap), d, limit)
  {
    BurstsPassBehind([], start, k, m, gap, d, limit);
    assert [] + Bursts(start, k, m, gap) == Bursts(start, k, m, gap);
  }
}
