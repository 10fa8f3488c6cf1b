/**
 * The rate limiter under concurrency. `check` reads a window, counts in its own copy and stores
 * the copy, so concurrent calls interleave and can undo one another's updates; caches may also
 * drop any entry at any moment.
 *
 * A rejection is never wrong: it is always backed by as many other checks of the same user,
 * inside the very window that rejects, as the limit allows (`NoFalseRejection`). There is no
 * bound on what is allowed (`LostUpdatesAllowAnyNumber`), but the serial bound holds as soon as
 * no call is interrupted within a level (`AtomicLevelsAreBounded`).
 */
module LimiterRaces {
  import opened FixedWindows
  import LimiterRuns
  import opened RateLimit
  import opened Units

  datatype Level = MinuteLevel | HourLevel

  function DurationOf(level: Level): Duration {
    if level.MinuteLevel? then MINUTE else HOUR
  }

  function LimitOf(cfg: RateLimitConfig, level: Level): u32 {
    if level.MinuteLevel? then cfg.messagesPerMinute else cfg.messagesPerHour
  }

  type CallId = nat

  /** Where a call stands: about to read a level, holding its copy, about to store it, or done. */
  datatype Pc =
    | Reading(level: Level)
    | Holding(level: Level, window: WindowState)
    | Storing(level: Level, window: WindowState, ok: bool)
    | DoneAllowed
    | DoneLimited(level: Level, window: WindowState)

  datatype Call = Call(user: ThreemaId, pc: Pc)

  /** `taken` is the history: when a call took its increment at a level. */
  datatype State = State(
    clock: Instant,
    cache: map<(Level, ThreemaId), WindowState>,
    calls: map<CallId, Call>,
    taken: map<(Level, CallId), Instant>)

  const INITIAL := State(0, map[], map[], map[])

  /** `Count` reads the clock twice, as the source does when a window is reset. */
  datatype Action =
    | Begin(id: CallId, user: ThreemaId)
    | Read(id: CallId, now: Instant)
    | Count(id: CallId, elapsedAt: Instant, resetAt: Instant)
    | Store(id: CallId)
    | Drop(keys: set<(Level, ThreemaId)>)

  function SetPc(s: State, id: CallId, pc: Pc): State
    requires id in s.calls
  {
    s.(calls := s.calls[id := Call(s.calls[id].user, pc)])
  }

  /** Where a call that passes `level` goes next. */
  function NextPc(level: Level): Pc {
    if level.MinuteLevel? then Reading(HourLevel) else DoneAllowed
  }

  /** One atomic step; an action that is not enabled does nothing. */
  function Step(cfg: RateLimitConfig, s: State, a: Action): State {
    match a
    case Begin(id, user) =>
      if id in s.calls then s else s.(calls := s.calls[id := Call(user, Reading(MinuteLevel))])
    case Read(id, now) =>
      if id !in s.calls || !s.calls[id].pc.Reading? || now < s.clock then s else
      var level, user := s.calls[id].pc.level, s.calls[id].user;
      var w := if (level, user) in s.cache then s.cache[(level, user)] else NewWindow(DurationOf(level), now);
      SetPc(s.(clock := now), id, Holding(level, w))
    case Count(id, elapsedAt, resetAt) =>
      if id !in s.calls || !s.calls[id].pc.Holding? || elapsedAt < s.clock || resetAt < elapsedAt then s else
      var level, w := s.calls[id].pc.level, s.calls[id].pc.window;
      var reset := HasRunOut(w, elapsedAt);
      var counted := if reset then w.(count := 1, startedAt := resetAt) else w.(count := SaturatingSucc(w.count));
      var ok := reset || counted.count <= LimitOf(cfg, level);
      var s' := s.(clock := resetAt, taken := s.taken[(level, id) := if reset then resetAt else elapsedAt]);
      SetPc(s', id, Storing(level, counted, ok))
    case Store(id) =>
      if id !in s.calls || !s.calls[id].pc.Storing? then s else
      var Storing(level, w, ok) := s.calls[id].pc;
      var s' := s.(cache := s.cache[(level, s.calls[id].user) := w]);
      SetPc(s', id, if ok then NextPc(level) else DoneLimited(level, w))
    case Drop(keys) => s.(cache := s.cache - keys)
  }

  function Run(cfg: RateLimitConfig, actions: seq<Action>): State {
    if actions == [] then INITIAL else
    Step(cfg, Run(cfg, actions[..|actions| - 1]), actions[|actions| - 1])
  }

  // ---- Windows are backed by the history ----

  /** Call `id` of `user` took its increment at `level` inside the window `w`. */
  ghost predicate TookWithin(s: State, level: Level, user: ThreemaId, w: WindowState, id: CallId) {
    && (level, id) in s.taken
    && id in s.calls && s.calls[id].user == user
    && w.startedAt <= s.taken[(level, id)] < w.startedAt + w.duration
  }

  ghost predicate AllTookWithin(s: State, level: Level, user: ThreemaId, w: WindowState, ids: set<CallId>) {
    forall id :: id in ids ==> TookWithin(s, level, user, w, id)
  }

  /** Every count of the window is owed to a call of its own. */
  ghost predicate Backed(s: State, level: Level, user: ThreemaId, w: WindowState) {
    && w.duration == DurationOf(level)
    && w.startedAt <= s.clock
    && exists ids: set<CallId> :: |ids| >= w.count && AllTookWithin(s, level, user, w, ids)
  }

  /** What holds of a call: its copy is backed, and it takes each level once, in order. */
  ghost predicate CallOk(cfg: RateLimitConfig, s: State, id: CallId)
    requires id in s.calls
  {
    var Call(user, pc) := s.calls[id];
    match pc
    case Reading(level) => (level, id) !in s.taken && (level.MinuteLevel? ==> (HourLevel, id) !in s.taken)
    case Holding(level, w) =>
      Backed(s, level, user, w) && (level, id) !in s.taken && (level.MinuteLevel? ==> (HourLevel, id) !in s.taken)
    case Storing(level, w, ok) =>
      && Backed(s, level, user, w) && (level.MinuteLevel? ==> (HourLevel, id) !in s.taken)
      && (!ok ==> w.count > LimitOf(cfg, level))
    case DoneAllowed => true
    case DoneLimited(level, w) => Backed(s, level, user, w) && w.count > LimitOf(cfg, level)
  }

  ghost predicate Inv(cfg: RateLimitConfig, s: State) {
    && (forall key :: key in s.cache ==> Backed(s, key.0, key.1, s.cache[key]))
    && (forall id :: id in s.calls ==> CallOk(cfg, s, id))
    && (forall key :: key in s.taken ==> key.1 in s.calls)
  }

  ghost predicate Grows(s: State, t: State) {
    && s.clock <= t.clock
    && (forall key :: key in s.taken ==> key in t.taken && t.taken[key] == s.taken[key])
    && (forall id :: id in s.calls ==> id in t.calls && t.calls[id].user == s.calls[id].user)
  }

  lemma BackedGrows(s: State, t: State, level: Level, user: ThreemaId, w: WindowState)
    requires Grows(s, t) && Backed(s, level, user, w)
    ensures Backed(t, level, user, w)
  {
    var ids: set<CallId> :| |ids| >= w.count && AllTookWithin(s, level, user, w, ids);
    assert AllTookWithin(t, level, user, w, ids);
  }

  lemma NewWindowBacked(s: State, level: Level, user: ThreemaId)
    ensures Backed(s, level, user, NewWindow(DurationOf(level), s.clock))
  {
    var none: set<CallId> := {};
    assert AllTookWithin(s, level, user, NewWindow(DurationOf(level), s.clock), none);
  }

  /** Counting once more, by a call that had not counted, keeps the window backed. */
  lemma CountBacked(s: State, t: State, level: Level, user: ThreemaId, id: CallId, w: WindowState, counted: WindowState)
    requires Grows(s, t) && Backed(s, level, user, w) && (level, id) !in s.taken
    requires TookWithin(t, level, user, counted, id)
    requires counted.duration == w.duration && counted.startedAt <= t.clock
    requires counted.count <= 1 || (counted.startedAt == w.startedAt && counted.count <= w.count + 1)
    ensures Backed(t, level, user, counted)
  {
    if counted.count <= 1 {
      assert |{id}| == 1 && AllTookWithin(t, level, user, counted, {id});
    } else {
      var ids: set<CallId> :| |ids| >= w.count && AllTookWithin(s, level, user, w, ids);
      assert id !in ids;
      assert |ids + {id}| == |ids| + 1 && AllTookWithin(t, level, user, counted, ids + {id});
    }
  }

  /** From `s` to `t` only call `id` moves; what it writes to the cache is backed. */
  ghost predicate OnlyMoves(s: State, t: State, id: CallId) {
    && Grows(s, t)
    && (forall other :: other in t.calls && other != id ==> other in s.calls && t.calls[other] == s.calls[other])
    && (forall key :: key in t.taken ==> key in s.taken || key.1 == id)
    && (forall key :: key in t.cache ==>
         (key in s.cache && t.cache[key] == s.cache[key]) || Backed(t, key.0, key.1, t.cache[key]))
  }

  lemma MoveKeepsInv(cfg: RateLimitConfig, s: State, t: State, id: CallId)
    requires Inv(cfg, s) && OnlyMoves(s, t, id)
    requires id in t.calls && CallOk(cfg, t, id)
    ensures Inv(cfg, t)
  {
    forall key | key in t.cache ensures Backed(t, key.0, key.1, t.cache[key]) {
      if key in s.cache && t.cache[key] == s.cache[key] {
        BackedGrows(s, t, key.0, key.1, s.cache[key]);
      }
    }
    forall other | other in t.calls && other != id ensures CallOk(cfg, t, other) {
      assert CallOk(cfg, s, other);
      var Call(user, pc) := s.calls[other];
      if pc.Holding? || pc.Storing? || pc.DoneLimited? {
        BackedGrows(s, t, pc.level, user, pc.window);
      }
    }
  }

  lemma {:induction false} ReadKeepsInv(cfg: RateLimitConfig, s: State, id: CallId, now: Instant)
    requires Inv(cfg, s)
    ensures Inv(cfg, Step(cfg, s, Read(id, now)))
  {
    var t := Step(cfg, s, Read(id, now));
    if t != s {
      var Call(user, pc) := s.calls[id];
      assert CallOk(cfg, s, id) && OnlyMoves(s, t, id);
      if (pc.level, user) in s.cache {
        BackedGrows(s, t, pc.level, user, s.cache[(pc.level, user)]);
      } else {
        NewWindowBacked(t, pc.level, user);
      }
      MoveKeepsInv(cfg, s, t, id);
    }
  }

  lemma {:induction false} CountKeepsInv(cfg: RateLimitConfig, s: State, id: CallId, elapsedAt: Instant,
                                         resetAt: Instant)
    requires Inv(cfg, s)
    ensures Inv(cfg, Step(cfg, s, Count(id, elapsedAt, resetAt)))
  {
    var t := Step(cfg, s, Count(id, elapsedAt, resetAt));
    if t != s {
      var Call(user, pc) := s.calls[id];
      assert CallOk(cfg, s, id) && OnlyMoves(s, t, id);
      CountBacked(s, t, pc.level, user, id, pc.window, t.calls[id].pc.window);
      MoveKeepsInv(cfg, s, t, id);
    }
  }

  lemma {:induction false} StoreKeepsInv(cfg: RateLimitConfig, s: State, id: CallId)
    requires Inv(cfg, s)
    ensures Inv(cfg, Step(cfg, s, Store(id)))
  {
    var t := Step(cfg, s, Store(id));
    if t != s {
      var Call(user, pc) := s.calls[id];
      assert CallOk(cfg, s, id) && Grows(s, t);
      BackedGrows(s, t, pc.level, user, pc.window);
      assert OnlyMoves(s, t, id);
      MoveKeepsInv(cfg, s, t, id);
    }
  }

  lemma {:induction false} StepKeepsInv(cfg: RateLimitConfig, s: State, a: Action)
    requires Inv(cfg, s)
    ensures Inv(cfg, Step(cfg, s, a))
  {
    match a {
      case Begin(id, user) =>
        if id !in s.calls {
          var t := Step(cfg, s, a);
          assert (MinuteLevel, id) !in s.taken && (HourLevel, id) !in s.taken;
          assert OnlyMoves(s, t, id);
          MoveKeepsInv(cfg, s, t, id);
        }
      case Read(id, now) => ReadKeepsInv(cfg, s, id, now);
      case Count(id, elapsedAt, resetAt) => CountKeepsInv(cfg, s, id, elapsedAt, resetAt);
      case Store(id) => StoreKeepsInv(cfg, s, id);
      case Drop(keys) =>
        var t := Step(cfg, s, a);
        forall key | key in t.cache ensures Backed(t, key.0, key.1, t.cache[key]) {
          BackedGrows(s, t, key.0, key.1, s.cache[key]);
        }
        forall id | id in t.calls ensures CallOk(cfg, t, id) {
          assert CallOk(cfg, s, id);
          var Call(user, pc) := s.calls[id];
          if pc.Holding? || pc.Storing? || pc.DoneLimited? {
            BackedGrows(s, t, pc.level, user, pc.window);
          }
        }
    }
  }

  lemma {:induction false} RunKeepsInv(cfg: RateLimitConfig, actions: seq<Action>)
    ensures Inv(cfg, Run(cfg, actions))
    decreases |actions|
  {
    if actions != [] {
      RunKeepsInv(cfg, actions[..|actions| - 1]);
      StepKeepsInv(cfg, Run(cfg, actions[..|actions| - 1]), actions[|actions| - 1]);
    }
  }

  /**
   * However calls interleave and whatever the caches drop: when a call is rejected at a level,
   * at least `limit` other calls of the same user took their increment in the same window.
   */
  lemma NoFalseRejection(cfg: RateLimitConfig, actions: seq<Action>, id: CallId)
    requires id in Run(cfg, actions).calls && Run(cfg, actions).calls[id].pc.DoneLimited?
    ensures var s := Run(cfg, actions);
            var Call(user, DoneLimited(level, w)) := s.calls[id];
            && w.duration == (if level == MinuteLevel then MINUTE else HOUR)
            && exists others: set<CallId> ::
                 && id !in others
                 && |others| >= (if level == MinuteLevel then cfg.messagesPerMinute else cfg.messagesPerHour)
                 && AllTookWithin(s, level, user, w, others)
  {
    RunKeepsInv(cfg, actions);
    var s := Run(cfg, actions);
    var Call(user, DoneLimited(level, w)) := s.calls[id];
    assert CallOk(cfg, s, id);
    var ids: set<CallId> :| |ids| >= w.count && AllTookWithin(s, level, user, w, ids);
    var others := ids - {id};
    assert |others| >= |ids| - 1;
    assert AllTookWithin(s, level, user, w, others);
  }

  /** Dropping takes away the given entries, live or not, and nothing else. */
  lemma DropForgets(cfg: RateLimitConfig, s: State, keys: set<(Level, ThreemaId)>)
    ensures var t := Step(cfg, s, Drop(keys));
            && (forall key :: key in t.cache <==> key in s.cache && key !in keys)
            && (forall key :: key in t.cache ==> t.cache[key] == s.cache[key])
            && t.calls == s.calls && t.taken == s.taken && t.clock == s.clock
  {}

  // ---- Levels that are not interrupted ----

  /** The window a call reads to count `user` at `level`. */
  function WindowRead(s: State, level: Level, user: ThreemaId, now: Instant): WindowState {
    if (level, user) in s.cache then s.cache[(level, user)] else NewWindow(DurationOf(level), now)
  }

  /** Call `id` does at its level, from `s` to `t`, what the serial limiter does there at `now`. */
  ghost predicate ActsSerially(cfg: RateLimitConfig, s: State, t: State, id: CallId, now: Instant)
    requires id in s.calls && s.calls[id].pc.Reading?
  {
    var Call(user, Reading(level)) := s.calls[id];
    var w := WindowRead(s, level, user, now);
    var pc := if Admits(w, LimitOf(cfg, level), now) then NextPc(level) else DoneLimited(level, Counted(w, now));
    && t.clock == now && t.cache == s.cache[(level, user) := Counted(w, now)]
    && t.calls == s.calls[id := Call(user, pc)]
  }

  /** A call that is not interrupted at a level does there what the serial limiter does. */
  lemma UninterruptedIsSerial(cfg: RateLimitConfig, s: State, id: CallId, now: Instant)
    requires id in s.calls && s.calls[id].pc.Reading? && s.clock <= now
    ensures ActsSerially(cfg, s, Step(cfg, Step(cfg, Step(cfg, s, Read(id, now)), Count(id, now, now)), Store(id)),
                         id, now)
  {}

  lemma RunSnoc(cfg: RateLimitConfig, actions: seq<Action>, a: Action)
    ensures Run(cfg, actions + [a]) == Step(cfg, Run(cfg, actions), a)
  {
    assert (actions + [a])[..|actions|] == actions;
  }

  /** A new call, the three steps of a call at a level in one go, or the caches dropping some entries. */
  datatype Block =
    | Enter(id: CallId, user: ThreemaId, now: Instant)
    | Consult(id: CallId, now: Instant)
    | Forget(keys: set<(Level, ThreemaId)>, now: Instant)

  function ActionsOf(block: Block): seq<Action> {
    match block
    case Enter(id, user, _) => [Begin(id, user)]
    case Consult(id, now) => [Read(id, now), Count(id, now, now), Store(id)]
    case Forget(keys, _) => [Drop(keys)]
  }

  /** Calls may interleave between the two levels, but not within one. */
  function Unfold(blocks: seq<Block>): seq<Action> {
    if blocks == [] then [] else Unfold(blocks[..|blocks| - 1]) + ActionsOf(blocks[|blocks| - 1])
  }

  ghost predicate InOrder(blocks: seq<Block>) {
    forall i, j :: 0 <= i < j < |blocks| ==> blocks[i].now <= blocks[j].now
  }

  /** What is dropped has run out, as it has for a cache that drops what is idle for its duration. */
  ghost predicate ForgetsRunOut(s: State, block: Block) {
    block.Forget? ==> forall key :: key in block.keys && key in s.cache ==> HasRunOut(s.cache[key], block.now)
  }

  ghost predicate AllForgetRunOut(cfg: RateLimitConfig, blocks: seq<Block>) {
    forall i :: 0 <= i < |blocks| ==> ForgetsRunOut(Run(cfg, Unfold(blocks[..i])), blocks[i])
  }

  function StepBlock(cfg: RateLimitConfig, s: State, block: Block): State {
    match block
    case Enter(id, user, _) => Step(cfg, s, Begin(id, user))
    case Consult(id, now) => Step(cfg, Step(cfg, Step(cfg, s, Read(id, now)), Count(id, now, now)), Store(id))
    case Forget(keys, _) => Step(cfg, s, Drop(keys))
  }

  lemma RunBlock(cfg: RateLimitConfig, actions: seq<Action>, block: Block)
    ensures Run(cfg, actions + ActionsOf(block)) == StepBlock(cfg, Run(cfg, actions), block)
  {
    match block {
      case Enter(id, user, _) => RunSnoc(cfg, actions, Begin(id, user));
      case Forget(keys, _) => RunSnoc(cfg, actions, Drop(keys));
      case Consult(id, now) =>
        var read, count, store := Read(id, now), Count(id, now, now), Store(id);
        RunSnoc(cfg, actions, read);
        RunSnoc(cfg, actions + [read], count);
        RunSnoc(cfg, actions + [read] + [count], store);
        assert actions + ActionsOf(block) == actions + [read] + [count] + [store];
    }
  }

  /** The block counts a check of `user` at `level`. */
  predicate Counts(s: State, block: Block, level: Level, user: ThreemaId) {
    block.Consult? && block.id in s.calls && s.calls[block.id] == Call(user, Reading(level))
  }

  /** The times at which `user` was counted at `level`. */
  function TimesAt(cfg: RateLimitConfig, blocks: seq<Block>, level: Level, user: ThreemaId): seq<Instant> {
    if blocks == [] then [] else
    var earlier, block := blocks[..|blocks| - 1], blocks[|blocks| - 1];
    var times := TimesAt(cfg, earlier, level, user);
    if Counts(Run(cfg, Unfold(earlier)), block, level, user) then times + [block.now] else times
  }

  /** How many calls of `user` get past `level` in `[from, to]`. */
  function PastLevel(cfg: RateLimitConfig, blocks: seq<Block>, level: Level, user: ThreemaId, from: Instant,
                     to: Instant): nat
  {
    if blocks == [] then 0 else
    var earlier, block := blocks[..|blocks| - 1], blocks[|blocks| - 1];
    var s, t := Run(cfg, Unfold(earlier)), Run(cfg, Unfold(blocks));
    PastLevel(cfg, earlier, level, user, from, to)
    + One(Counts(s, block, level, user) && from <= block.now <= to
          && block.id in t.calls && t.calls[block.id].pc == NextPc(level))
  }

  /** The window in the cache remembers the checks counted so far, unless it was dropped after running out. */
  ghost predicate Remembers(s: State, level: Level, user: ThreemaId, times: seq<Instant>, now: Instant) {
    && Sorted(times) && s.clock <= now
    && (forall id :: id in s.calls ==> !s.calls[id].pc.Holding? && !s.calls[id].pc.Storing?)
    && if times == [] then (level, user) !in s.cache else
       && Last(times) <= now
       && var w := LimiterRuns.LevelState(times, DurationOf(level));
          if (level, user) in s.cache then s.cache[(level, user)] == w else w.startedAt + w.duration <= now
  }

  lemma CountAgrees(times: seq<Instant>, known: bool, d: Duration, limit: u32, now: Instant)
    requires Sorted(times) && d > 0 && limit >= 1 && (times != [] ==> Last(times) <= now)
    requires known ==> times != []
    requires !known && times != [] ==> Opening(times, d) + d <= now
    ensures var longer, w := times + [now], if known then LimiterRuns.LevelState(times, d) else NewWindow(d, now);
            && Sorted(longer) && Counted(w, now) == LimiterRuns.LevelState(longer, d)
            && (Admits(w, limit, now) <==> Passes(longer, d, limit))
  {
    assert Front(times + [now]) == times;
  }

  /** What holds after a consultation that counts `user` at `level`, or does not. */
  ghost predicate RemembersOneMore(cfg: RateLimitConfig, s: State, t: State, block: Block, level: Level,
                                   user: ThreemaId, times: seq<Instant>) {
    if Counts(s, block, level, user) then
      && Remembers(t, level, user, times + [block.now], block.now)
      && block.id in t.calls
      && (t.calls[block.id].pc == NextPc(level)
          <==> Passes(times + [block.now], DurationOf(level), LimitOf(cfg, level)))
    else
      Remembers(t, level, user, times, block.now)
  }

  lemma OthersRemembered(cfg: RateLimitConfig, s: State, t: State, block: Block, level: Level, user: ThreemaId,
                         times: seq<Instant>, now: Instant)
    requires Remembers(s, level, user, times, now) && now <= block.now
    requires block.Consult? && block.id in s.calls && s.calls[block.id].pc.Reading?
    requires ActsSerially(cfg, s, t, block.id, block.now) && !Counts(s, block, level, user)
    ensures Remembers(t, level, user, times, block.now)
  {
    var Call(other, Reading(at)) := s.calls[block.id];
    assert (at, other) != (level, user);
  }

  lemma WindowReadAgrees(cfg: RateLimitConfig, s: State, level: Level, user: ThreemaId, times: seq<Instant>,
                         now: Instant, at: Instant)
    requires cfg.Validated() && Remembers(s, level, user, times, now) && now <= at
    ensures var longer, w := times + [at], WindowRead(s, level, user, at);
            && Sorted(longer) && Counted(w, at) == LimiterRuns.LevelState(longer, DurationOf(level))
            && (Admits(w, LimitOf(cfg, level), at) <==> Passes(longer, DurationOf(level), LimitOf(cfg, level)))
  {
    CountAgrees(times, (level, user) in s.cache, DurationOf(level), LimitOf(cfg, level), at);
  }

  lemma UserRemembered(s: State, t: State, id: CallId, at: Instant, level: Level, user: ThreemaId,
                       longer: seq<Instant>, counted: WindowState, pc: Pc)
    requires Sorted(longer) && longer != [] && Last(longer) == at
    requires counted == LimiterRuns.LevelState(longer, DurationOf(level)) && !pc.Holding? && !pc.Storing?
    requires forall other :: other in s.calls ==> !s.calls[other].pc.Holding? && !s.calls[other].pc.Storing?
    requires t.clock == at && t.cache == s.cache[(level, user) := counted] && t.calls == s.calls[id := Call(user, pc)]
    ensures Remembers(t, level, user, longer, at)
  {}

  lemma ConsultationRemembers(cfg: RateLimitConfig, s: State, t: State, block: Block, level: Level, user: ThreemaId,
                              times: seq<Instant>, now: Instant)
    requires cfg.Validated() && Remembers(s, level, user, times, now) && now <= block.now
    requires block.Consult? && block.id in s.calls && s.calls[block.id].pc.Reading?
    requires ActsSerially(cfg, s, t, block.id, block.now)
    ensures RemembersOneMore(cfg, s, t, block, level, user, times)
  {
    if Counts(s, block, level, user) {
      var w := WindowRead(s, level, user, block.now);
      WindowReadAgrees(cfg, s, level, user, times, now, block.now);
      UserRemembered(s, t, block.id, block.now, level, user, times + [block.now], Counted(w, block.now),
                     t.calls[block.id].pc);
    } else {
      OthersRemembered(cfg, s, t, block, level, user, times, now);
    }
  }

  lemma ForgettingRemembers(cfg: RateLimitConfig, s: State, block: Block, level: Level, user: ThreemaId,
                            times: seq<Instant>, now: Instant)
    requires Remembers(s, level, user, times, now) && now <= block.now
    requires block.Forget? && ForgetsRunOut(s, block)
    ensures Remembers(StepBlock(cfg, s, block), level, user, times, block.now)
  {}

  lemma BlockRemembers(cfg: RateLimitConfig, s: State, block: Block, level: Level, user: ThreemaId,
                       times: seq<Instant>, now: Instant)
    requires cfg.Validated() && Remembers(s, level, user, times, now) && now <= block.now
    requires ForgetsRunOut(s, block)
    ensures RemembersOneMore(cfg, s, StepBlock(cfg, s, block), block, level, user, times)
  {
    if block.Forget? {
      ForgettingRemembers(cfg, s, block, level, user, times, now);
    } else if block.Consult? && block.id in s.calls && s.calls[block.id].pc.Reading? {
      UninterruptedIsSerial(cfg, s, block.id, block.now);
      ConsultationRemembers(cfg, s, StepBlock(cfg, s, block), block, level, user, times, now);
    } else if block.Consult? {
      assert StepBlock(cfg, s, block) == s;
    }
  }

  function NowOf(blocks: seq<Block>): Instant {
    if blocks == [] then 0 else blocks[|blocks| - 1].now
  }

  lemma ShorterForgets(cfg: RateLimitConfig, blocks: seq<Block>)
    requires blocks != [] && InOrder(blocks) && AllForgetRunOut(cfg, blocks)
    ensures var earlier := blocks[..|blocks| - 1];
            && InOrder(earlier) && AllForgetRunOut(cfg, earlier) && NowOf(earlier) <= blocks[|blocks| - 1].now
            && ForgetsRunOut(Run(cfg, Unfold(earlier)), blocks[|blocks| - 1])
  {
    var earlier := blocks[..|blocks| - 1];
    assert ForgetsRunOut(Run(cfg, Unfold(blocks[..|blocks| - 1])), blocks[|blocks| - 1]);
    forall i | 0 <= i < |earlier| ensures ForgetsRunOut(Run(cfg, Unfold(earlier[..i])), earlier[i]) {
      assert earlier[..i] == blocks[..i] && earlier[i] == blocks[i];
      assert ForgetsRunOut(Run(cfg, Unfold(blocks[..i])), blocks[i]);
    }
  }

  lemma OneMorePassed(times: seq<Instant>, t: Instant, d: Duration, limit: u32, from: Instant, to: Instant)
    ensures PassedWithin(times + [t], d, limit, from, to)
         == PassedWithin(times, d, limit, from, to) + One(from <= t <= to && Passes(times + [t], d, limit))
  {
    assert Front(times + [t]) == times;
  }

  lemma {:induction false} RunRemembers(cfg: RateLimitConfig, blocks: seq<Block>, level: Level, user: ThreemaId)
    requires cfg.Validated() && InOrder(blocks) && AllForgetRunOut(cfg, blocks)
    ensures Remembers(Run(cfg, Unfold(blocks)), level, user, TimesAt(cfg, blocks, level, user), NowOf(blocks))
    decreases |blocks|
  {
    if blocks != [] {
      var earlier, block := blocks[..|blocks| - 1], blocks[|blocks| - 1];
      ShorterForgets(cfg, blocks);
      RunRemembers(cfg, earlier, level, user);
      RunBlock(cfg, Unfold(earlier), block);
      BlockRemembers(cfg, Run(cfg, Unfold(earlier)), block, level, user, TimesAt(cfg, earlier, level, user),
                     NowOf(earlier));
    }
  }

  /** What gets past a level is what passes there, of the times at which the user was counted. */
  lemma {:induction false} PastLevelIsPassed(cfg: RateLimitConfig, blocks: seq<Block>, level: Level, user: ThreemaId,
                                             from: Instant, to: Instant)
    requires cfg.Validated() && InOrder(blocks) && AllForgetRunOut(cfg, blocks)
    ensures PastLevel(cfg, blocks, level, user, from, to)
         == PassedWithin(TimesAt(cfg, blocks, level, user), DurationOf(level), LimitOf(cfg, level), from, to)
    decreases |blocks|
  {
    if blocks != [] {
      var earlier, block := blocks[..|blocks| - 1], blocks[|blocks| - 1];
      var times := TimesAt(cfg, earlier, level, user);
      ShorterForgets(cfg, blocks);
      PastLevelIsPassed(cfg, earlier, level, user, from, to);
      RunRemembers(cfg, earlier, level, user);
      RunBlock(cfg, Unfold(earlier), block);
      BlockRemembers(cfg, Run(cfg, Unfold(earlier)), block, level, user, times, NowOf(earlier));
      OneMorePassed(times, block.now, DurationOf(level), LimitOf(cfg, level), from, to);
    }
  }

  /**
   * The serial bound holds at a level as soon as no call is interrupted there, however the calls
   * interleave otherwise, as long as the caches drop only what has run out.
   */
  lemma AtomicLevelsAreBounded(cfg: RateLimitConfig, blocks: seq<Block>, level: Level, user: ThreemaId, from: Instant,
                               to: Instant, k: nat)
    requires cfg.Validated() && InOrder(blocks) && AllForgetRunOut(cfg, blocks)
    requires LimitOf(cfg, level) < U32_MAX && to <= from + k * DurationOf(level)
    ensures PastLevel(cfg, blocks, level, user, from, to) <= (k + 1) * LimitOf(cfg, level)
  {
    RunRemembers(cfg, blocks, level, user);
    PastLevelIsPassed(cfg, blocks, level, user, from, to);
    SlidingBound(TimesAt(cfg, blocks, level, user), DurationOf(level), LimitOf(cfg, level), from, to, k);
  }

  // ---- Lost updates ----

  /** At time 0, calls `0..n` of `user`, the first `i` of them at `ahead` and the others at `behind`. */
  ghost predicate InStep(s: State, user: ThreemaId, n: nat, i: nat, ahead: Pc, behind: Pc) {
    && s.clock == 0
    && forall id :: 0 <= id < n ==> id in s.calls && s.calls[id] == Call(user, if id < i then ahead else behind)
  }

  ghost predicate AllTaken(s: State, level: Level, n: nat) {
    forall id :: 0 <= id < n ==> (level, id) in s.taken && s.taken[(level, id)] == 0
  }

  /** From `s` to `t` the other level loses no increment, and its cache gains no entry. */
  ghost predicate SameElsewhere(s: State, t: State, level: Level) {
    && (forall key :: key in s.taken && key.0 != level ==> key in t.taken && t.taken[key] == s.taken[key])
    && (forall key :: key in t.cache && key.0 != level ==> key in s.cache)
  }

  lemma {:induction false} AllBegin(cfg: RateLimitConfig, user: ThreemaId, n: nat) returns (actions: seq<Action>)
    ensures InStep(Run(cfg, actions), user, n, n, Reading(MinuteLevel), Reading(MinuteLevel))
    ensures Run(cfg, actions).cache == map[]
    ensures forall id :: id in Run(cfg, actions).calls ==> id < n
  {
    actions := [];
    if n > 0 {
      var earlier := AllBegin(cfg, user, n - 1);
      RunSnoc(cfg, earlier, Begin(n - 1, user));
      actions := earlier + [Begin(n - 1, user)];
    }
  }

  lemma {:induction false} AllRead(cfg: RateLimitConfig, actions: seq<Action>, level: Level, user: ThreemaId, n: nat,
                                   i: nat) returns (longer: seq<Action>)
    requires var s := Run(cfg, actions);
             InStep(s, user, n, n, Reading(level), Reading(level)) && (level, user) !in s.cache && i <= n
    ensures var s, t := Run(cfg, actions), Run(cfg, longer);
            && InStep(t, user, n, i, Holding(level, NewWindow(DurationOf(level), 0)), Reading(level))
            && t.cache == s.cache && t.taken == s.taken
    decreases i
  {
    longer := actions;
    if i > 0 {
      var earlier := AllRead(cfg, actions, level, user, n, i - 1);
      RunSnoc(cfg, earlier, Read(i - 1, 0));
      longer := earlier + [Read(i - 1, 0)];
    }
  }

  function Once(level: Level): WindowState {
    WindowState(1, 0, DurationOf(level))
  }

  lemma {:induction false} AllCount(cfg: RateLimitConfig, actions: seq<Action>, level: Level, user: ThreemaId, n: nat,
                                    i: nat) returns (longer: seq<Action>)
    requires LimitOf(cfg, level) >= 1 && i <= n
    requires var held := Holding(level, NewWindow(DurationOf(level), 0));
             InStep(Run(cfg, actions), user, n, n, held, held)
    ensures var s, t := Run(cfg, actions), Run(cfg, longer);
            && InStep(t, user, n, i, Storing(level, Once(level), true), Holding(level, NewWindow(DurationOf(level), 0)))
            && t.cache == s.cache && AllTaken(t, level, i) && SameElsewhere(s, t, level)
    decreases i
  {
    longer := actions;
    if i > 0 {
      var earlier := AllCount(cfg, actions, level, user, n, i - 1);
      RunSnoc(cfg, earlier, Count(i - 1, 0, 0));
      longer := earlier + [Count(i - 1, 0, 0)];
    }
  }

  lemma {:induction false} AllStore(cfg: RateLimitConfig, actions: seq<Action>, level: Level, user: ThreemaId, n: nat,
                                    i: nat) returns (longer: seq<Action>)
    requires i <= n
    requires var done := Storing(level, Once(level), true); InStep(Run(cfg, actions), user, n, n, done, done)
    ensures var s, t := Run(cfg, actions), Run(cfg, longer);
            && InStep(t, user, n, i, NextPc(level), Storing(level, Once(level), true))
            && t.taken == s.taken && SameElsewhere(s, t, level)
    decreases i
  {
    longer := actions;
    if i > 0 {
      var earlier := AllStore(cfg, actions, level, user, n, i - 1);
      RunSnoc(cfg, earlier, Store(i - 1));
      longer := earlier + [Store(i - 1)];
    }
  }

  /** All of `n` calls pass a level together if all of them read it before any stores. */
  lemma {:induction false} AllPassLevel(cfg: RateLimitConfig, actions: seq<Action>, level: Level, user: ThreemaId,
                                        n: nat) returns (longer: seq<Action>)
    requires LimitOf(cfg, level) >= 1
    requires var s := Run(cfg, actions);
             InStep(s, user, n, n, Reading(level), Reading(level)) && (level, user) !in s.cache
    ensures var s, t := Run(cfg, actions), Run(cfg, longer);
            && InStep(t, user, n, n, NextPc(level), NextPc(level))
            && AllTaken(t, level, n) && SameElsewhere(s, t, level)
  {
    var read := AllRead(cfg, actions, level, user, n, n);
    var counted := AllCount(cfg, read, level, user, n, n);
    longer := AllStore(cfg, counted, level, user, n, n);
  }

  /**
   * There is no upper bound under concurrency: whatever the limits, any number of calls of one
   * user can take both increments at one and the same time and all be allowed.
   */
  lemma {:induction false} LostUpdatesAllowAnyNumber(cfg: RateLimitConfig, user: ThreemaId, n: nat)
    returns (actions: seq<Action>)
    requires cfg.Validated()
    ensures var s := Run(cfg, actions);
            && (forall id :: 0 <= id < n ==> id in s.calls && s.calls[id] == Call(user, DoneAllowed))
            && AllTaken(s, MinuteLevel, n) && AllTaken(s, HourLevel, n)
  {
    var begun := AllBegin(cfg, user, n);
    var middle := AllPassLevel(cfg, begun, MinuteLevel, user, n);
    actions := AllPassLevel(cfg, middle, HourLevel, user, n);
  }
}
