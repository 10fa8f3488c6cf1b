/** Message deduplication of `src/dedup.rs`, and its agreement with the history of calls. */
module Dedup {
  import opened ExpiringCache
  import opened RateLimit
  import opened Units

  type MessageId = nat

  datatype MessageKey = MessageKey(sender: ThreemaId, id: MessageId)

  datatype DeduplicateResult = New | Duplicate

  type Seen = map<MessageKey, Slot<()>>

  function CheckAndInsertStep(seen: Seen, ttl: Duration, key: MessageKey, now: Instant): (Seen, DeduplicateResult) {
    if Find(seen, TimeToLive(ttl), key, now).None? then
      (Put(seen, key, (), now), New)
    else
      (Touched(seen, TimeToLive(ttl), key, now), Duplicate)
  }

  class MessageDeduplicator {
    const cache: Cache<MessageKey, ()>

    constructor (capacity: nat, ttlSeconds: nat)
      ensures fresh(cache) && cache.slots == map[]
      ensures cache.expiry == TimeToLive(Seconds(ttlSeconds)) && cache.capacity == capacity
    {
      cache := new Cache(TimeToLive(Seconds(ttlSeconds)), capacity);
    }

    method CheckAndInsert(sender: ThreemaId, id: MessageId, now: Instant) returns (r: DeduplicateResult)
      requires cache.expiry.TimeToLive?
      modifies cache
      ensures (cache.slots, r)
           == CheckAndInsertStep(old(cache.slots), cache.expiry.period, MessageKey(sender, id), now)
    {
      var inserted := cache.GetOrInsert(MessageKey(sender, id), (), now);
      r := if inserted then New else Duplicate;
    }
  }

  // ---- Histories ----

  /** A call, expired entries being dropped, or entries being evicted for lack of capacity. */
  datatype DedupEvent =
    | Call(key: MessageKey, now: Instant)
    | Housekeeping(keys: set<MessageKey>, now: Instant)
    | Eviction(keys: set<MessageKey>, now: Instant)

  type History = seq<DedupEvent>

  function Apply(ttl: Duration, seen: Seen, e: DedupEvent): Seen {
    match e
    case Call(key, now) => CheckAndInsertStep(seen, ttl, key, now).0
    case Housekeeping(keys, now) => Sweep(seen, TimeToLive(ttl), keys, now)
    case Eviction(keys, _) => Evict(seen, keys)
  }

  function After(ttl: Duration, history: History): Seen {
    if history == [] then map[] else
    Apply(ttl, After(ttl, history[..|history| - 1]), history[|history| - 1])
  }

  function Answer(ttl: Duration, history: History, key: MessageKey, now: Instant): DeduplicateResult {
    CheckAndInsertStep(After(ttl, history), ttl, key, now).1
  }

  ghost predicate Ordered(history: History) {
    forall i, j :: 0 <= i < j < |history| ==> history[i].now <= history[j].now
  }

  ghost predicate NoEviction(history: History) {
    forall i :: 0 <= i < |history| ==> !history[i].Eviction?
  }

  function Now(history: History): Instant {
    if history == [] then 0 else history[|history| - 1].now
  }

  /** The times at which calls for `key` answered `New`. */
  function NewTimes(ttl: Duration, history: History, key: MessageKey): seq<Instant> {
    if history == [] then [] else
    var earlier, e := history[..|history| - 1], history[|history| - 1];
    if e.Call? && e.key == key && Answer(ttl, earlier, key, e.now).New? then
      NewTimes(ttl, earlier, key) + [e.now]
    else
      NewTimes(ttl, earlier, key)
  }

  lemma NewTimesSnoc(ttl: Duration, history: History, e: DedupEvent, key: MessageKey)
    ensures NewTimes(ttl, history + [e], key)
         == if e.Call? && e.key == key && Answer(ttl, history, key, e.now).New?
            then NewTimes(ttl, history, key) + [e.now]
            else NewTimes(ttl, history, key)
  {
    assert (history + [e])[..|history|] == history;
  }

  /** Entries are as old as the last `New`; only eviction loses one before its time. */
  lemma {:induction false} SeenAgrees(ttl: Duration, history: History, key: MessageKey)
    requires Ordered(history)
    ensures var seen, news := After(ttl, history), NewTimes(ttl, history, key);
            && (key in seen ==> news != [] && seen[key].stamp == news[|news| - 1])
            && (news != [] ==> news[|news| - 1] <= Now(history))
            && (NoEviction(history) && news != [] && key !in seen ==> news[|news| - 1] + ttl <= Now(history))
    decreases |history|
  {
    if history != [] {
      var earlier, e := history[..|history| - 1], history[|history| - 1];
      SeenAgrees(ttl, earlier, key);
    }
  }

  /** `Spaced`: each is at least `gap` after the one before. */
  ghost predicate Spaced(times: seq<Instant>, gap: Duration) {
    forall i :: 0 < i < |times| ==> times[i - 1] + gap <= times[i]
  }

  lemma {:induction false} NewTimesSpaced(ttl: Duration, history: History, key: MessageKey)
    requires Ordered(history) && NoEviction(history)
    ensures Spaced(NewTimes(ttl, history, key), ttl)
    decreases |history|
  {
    if history != [] {
      var earlier := history[..|history| - 1];
      NewTimesSpaced(ttl, earlier, key);
      SeenAgrees(ttl, earlier, key);
    }
  }

  /** Spaced times are increasing, so the last one decides whether any is recent. */
  lemma {:induction false} LastIsLatest(times: seq<Instant>, gap: Duration, i: nat)
    requires Spaced(times, gap) && i < |times|
    ensures times[i] <= times[|times| - 1]
    decreases |times|
  {
    if i < |times| - 1 {
      LastIsLatest(times[..|times| - 1], gap, i);
    }
  }

  /**
   * Without eviction, a call is `New` exactly when no call for the same key was `New` within
   * the preceding time to live. Duplicates play no part: they do not extend the lifetime.
   */
  lemma NewIffNoneRecent(ttl: Duration, history: History, key: MessageKey, now: Instant)
    requires Ordered(history) && NoEviction(history) && Now(history) <= now
    ensures Answer(ttl, history, key, now).New?
       <==> forall i :: 0 <= i < |NewTimes(ttl, history, key)| ==> NewTimes(ttl, history, key)[i] + ttl <= now
  {
    var news := NewTimes(ttl, history, key);
    SeenAgrees(ttl, history, key);
    NewTimesSpaced(ttl, history, key);
    forall i | 0 <= i < |news| ensures news[i] <= news[|news| - 1] {
      LastIsLatest(news, ttl, i);
    }
  }

  /** Whatever is evicted, a `Duplicate` is never false: some call was `New` within the time to live. */
  lemma DuplicateIsNeverFalse(ttl: Duration, history: History, key: MessageKey, now: Instant)
    requires Ordered(history) && Now(history) <= now
    requires Answer(ttl, history, key, now).Duplicate?
    ensures exists i :: 0 <= i < |NewTimes(ttl, history, key)|
              && NewTimes(ttl, history, key)[i] <= now < NewTimes(ttl, history, key)[i] + ttl
  {
    SeenAgrees(ttl, history, key);
    var news := NewTimes(ttl, history, key);
    assert news[|news| - 1] <= now;
  }

  // ---- Counting spaced times ----

  /** From the first to the last of `n` spaced times there are at least `n - 1` gaps. */
  lemma {:induction false} SpacedCount(times: seq<Instant>, gap: Duration)
    requires times != [] && Spaced(times, gap)
    ensures times[0] + (|times| - 1) * gap <= times[|times| - 1]
    decreases |times|
  {
    if |times| > 1 {
      var init := times[..|times| - 1];
      SpacedCount(init, gap);
      assert (|times| - 1) * gap == (|init| - 1) * gap + gap;
    }
  }
}
