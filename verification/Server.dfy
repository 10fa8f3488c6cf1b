/**
 * The webhook handler of `src/server/mod.rs` as a state machine: the gates a delivery passes,
 * in order, and what each of them answers, changes and emits.
 *
 * The signature check, the key lookup and the decryption are oracles: their outcomes are part
 * of the delivery. Emitted effects are what the handler starts; whether a send succeeds makes no
 * difference to the handler.
 */
module Server {
  import opened Dedup
  import opened Durations
  import opened ExpiringCache
  import opened RateLimit
  import opened Units
  import opened Webhook
  import opened Wrappers

  // ---- Deliveries ----

  datatype Receipt = ReceiptReceived | ReceiptRead | ReceiptAcknowledged | ReceiptDeclined | ReceiptOther

  datatype ClassicReaction = ThumbsUp | ThumbsDown

  function ToReaction(receipt: Receipt): (r: Option<ClassicReaction>)
    ensures r == Some(ThumbsUp) <==> receipt == ReceiptAcknowledged
    ensures r == Some(ThumbsDown) <==> receipt == ReceiptDeclined
  {
    match receipt
    case ReceiptAcknowledged => Some(ThumbsUp)
    case ReceiptDeclined => Some(ThumbsDown)
    case _ => None
  }

  type Location = string

  datatype Content =
    | Text(text: string)
    | DeliveryReceipt(receipt: Receipt, ids: seq<MessageId>)
    | LocationContent(location: Location)
    | File
    | TypingIndicator
    | Edit
    | Delete
    | OtherContent

  datatype Message = Message(from: ThreemaId, id: MessageId, createdAt: u32, nickname: Option<string>)

  /** The outcome of parsing and authenticating a body, of the key lookup, and of the decryption. */
  datatype Request =
    | InvalidMac
    | Unparsable
    | OtherFailure
    | Authentic(msg: Message, keyFound: bool, content: Option<Content>)

  /**
   * The clock is read when the message is vetted, and again at the limiter: in between the
   * handler waits for the key lookup and for two receipts to be sent.
   */
  datatype Delivery = Delivery(now: WallClock, checkedAt: Instant, request: Request)

  // ---- Replies and effects ----

  datatype Reply =
    | InvalidSignature | ParseError | Error | InvalidTimestamp | DuplicateMessage
    | NoPublicKey | DecryptionFailed | Accepted | Unauthorized | RateLimited

  function StatusOf(reply: Reply): nat {
    match reply
    case InvalidSignature => 401
    case RateLimited => 429
    case _ => 200
  }

  datatype MessageContext = MessageContext(id: MessageId, sender: ThreemaId, nickname: Option<string>, createdAt: u32)

  datatype Effect =
    | SendReceipt(to: ThreemaId, id: MessageId, receipt: Receipt)
    | DenyAccess(to: ThreemaId)
    | NotifyLimited(to: ThreemaId, notice: string)
    | ProcessText(ctx: MessageContext, text: string)
    | ProcessLocation(ctx: MessageContext, location: Location)
    | HandleReactions(contexts: seq<MessageContext>, reaction: ClassicReaction)

  // ---- Configuration and state ----

  const DEDUP_TTL_SECONDS: nat := 5 * 60
  const NOTIFICATION_TTL: Duration := 10_000_000_000

  datatype Config = Config(
    maxWebhookAge: i64,
    allowedUsers: seq<ThreemaId>,
    messageIdCacheSize: nat,
    dedupTtlSeconds: nat,
    limits: Option<RateLimitConfig>)
  {
    predicate Validated() {
      limits.Some? ==> limits.value.Validated()
    }

    function DedupTtl(): Duration {
      Seconds(dedupTtlSeconds)
    }
  }

  type Notified = map<string, Slot<()>>

  datatype ServerState = ServerState(seen: Seen, limiter: LimiterState, notified: Notified)

  const NEW_SERVER := ServerState(map[], NEW_LIMITER, map[])

  datatype Outcome = Outcome(state: ServerState, reply: Reply, effects: seq<Effect>)

  predicate IsSenderAllowed(allowedUsers: seq<ThreemaId>, sender: ThreemaId): (r: bool)
    ensures r <==> (exists i :: 0 <= i < |allowedUsers| && allowedUsers[i] == sender) || allowedUsers == []
  {
    |allowedUsers| == 0 || sender in allowedUsers
  }

  function NotificationKey(sender: ThreemaId): string {
    "rate_limit:" + sender.text
  }

  // ---- One delivery ----

  /** `check_rate_limit`: whether to proceed; a rejected sender is notified unless just notified. */
  function CheckRateLimitStep(cfg: Config, s: ServerState, sender: ThreemaId, now: Instant): (ServerState, bool,
                              seq<Effect>) {
    if cfg.limits.None? then (s, true, []) else
    var (limiter, verdict) := CheckStep(cfg.limits.value, SOURCE_IDLE, s.limiter, sender, now);
    if verdict.Pass? then (s.(limiter := limiter), true, []) else
    var key := NotificationKey(sender);
    if Find(s.notified, TimeToLive(NOTIFICATION_TTL), key, now).Some? then
      (s.(limiter := limiter), false, [])
    else
      (s.(limiter := limiter, notified := Put(s.notified, key, (), now)), false,
       [NotifyLimited(sender, Notice(verdict.wait))])
  }

  function ContextFor(msg: Message, id: MessageId): MessageContext {
    MessageContext(id, msg.from, msg.nickname, msg.createdAt)
  }

  function Contexts(msg: Message, ids: seq<MessageId>): (r: seq<MessageContext>)
    ensures |r| == |ids| && forall i :: 0 <= i < |ids| ==> r[i] == ContextFor(msg, ids[i])
  {
    seq(|ids|, i requires 0 <= i < |ids| => ContextFor(msg, ids[i]))
  }

  predicate Dispatchable(content: Content) {
    content.Text? || content.LocationContent?
  }

  /** The reactions carried by a delivery receipt bypass receipts and rate limiting. */
  function ReactionStep(cfg: Config, s: ServerState, msg: Message, content: Content): Outcome
    requires content.DeliveryReceipt?
  {
    match ToReaction(content.receipt)
    case Some(reaction) =>
      if IsSenderAllowed(cfg.allowedUsers, msg.from) then
        Outcome(s, Accepted, [HandleReactions(Contexts(msg, content.ids), reaction)])
      else
        Outcome(s, Accepted, [])
    case None => Outcome(s, Accepted, [])
  }

  function DispatchStep(cfg: Config, s: ServerState, msg: Message, content: Content, now: Instant): Outcome
    requires Dispatchable(content)
  {
    if !IsSenderAllowed(cfg.allowedUsers, msg.from) then Outcome(s, Unauthorized, [DenyAccess(msg.from)]) else
    var receipts := [SendReceipt(msg.from, msg.id, ReceiptReceived), SendReceipt(msg.from, msg.id, ReceiptRead)];
    var (s', proceed, notices) := CheckRateLimitStep(cfg, s, msg.from, now);
    if !proceed then Outcome(s', RateLimited, receipts + notices) else
    var ctx := ContextFor(msg, msg.id);
    Outcome(s', Accepted,
            receipts
            + [if content.Text? then ProcessText(ctx, content.text) else ProcessLocation(ctx, content.location)])
  }

  function Step(cfg: Config, s: ServerState, d: Delivery): Outcome {
    match d.request
    case InvalidMac => Outcome(s, InvalidSignature, [])
    case Unparsable => Outcome(s, ParseError, [])
    case OtherFailure => Outcome(s, Error, [])
    case Authentic(msg, keyFound, content) =>
      if ValidateTimestamp(msg.createdAt, cfg.maxWebhookAge, d.now).Err? then Outcome(s, InvalidTimestamp, []) else
      var (seen, result) := CheckAndInsertStep(s.seen, cfg.DedupTtl(), MessageKey(msg.from, msg.id), d.now);
      var s' := s.(seen := seen);
      if result.Duplicate? then Outcome(s', DuplicateMessage, [])
      else if !keyFound then Outcome(s', NoPublicKey, [])
      else if content.None? then Outcome(s', DecryptionFailed, [])
      else if content.value.DeliveryReceipt? then ReactionStep(cfg, s', msg, content.value)
      else if !Dispatchable(content.value) then Outcome(s', Accepted, [])
      else DispatchStep(cfg, s', msg, content.value, d.checkedAt)
  }

  // ---- What one delivery changes ----

  /** Replies given before the handler has changed anything. */
  predicate LeavesNoTrace(reply: Reply) {
    reply.InvalidSignature? || reply.ParseError? || reply.Error? || reply.InvalidTimestamp? || reply.DuplicateMessage?
  }

  predicate PassesTimestamp(cfg: Config, d: Delivery) {
    d.request.Authentic? && ValidateTimestamp(d.request.msg.createdAt, cfg.maxWebhookAge, d.now).Ok?
  }

  /** The delivery gets past the timestamp and deduplication gates. */
  predicate PassesGates(cfg: Config, s: ServerState, d: Delivery) {
    && PassesTimestamp(cfg, d)
    && CheckAndInsertStep(s.seen, cfg.DedupTtl(), KeyOf(d), d.now).1.New?
  }

  function KeyOf(d: Delivery): MessageKey
    requires d.request.Authentic?
  {
    MessageKey(d.request.msg.from, d.request.msg.id)
  }

  /** The delivery is put to the rate limiter: a readable text or location of an allowed sender. */
  predicate ReachesLimiter(cfg: Config, s: ServerState, d: Delivery) {
    && PassesGates(cfg, s, d)
    && d.request.keyFound && d.request.content.Some? && Dispatchable(d.request.content.value)
    && IsSenderAllowed(cfg.allowedUsers, d.request.msg.from)
  }

  /** What the limiter says of the delivery. */
  function LimiterVerdict(cfg: Config, s: ServerState, d: Delivery): Verdict
    requires cfg.limits.Some? && d.request.Authentic?
  {
    CheckStep(cfg.limits.value, SOURCE_IDLE, s.limiter, d.request.msg.from, d.checkedAt).1
  }

  /** The limiter is asked about the delivery and rejects it. */
  predicate IsRejected(cfg: Config, s: ServerState, d: Delivery)
    requires d.request.Authentic?
  {
    cfg.limits.Some? && LimiterVerdict(cfg, s, d).Reject?
  }

  /** A new message whose sender's key was found and whose content could be decrypted. */
  predicate Readable(cfg: Config, s: ServerState, d: Delivery) {
    PassesGates(cfg, s, d) && d.request.keyFound && d.request.content.Some?
  }

  lemma PassesTimestampIff(cfg: Config, d: Delivery)
    ensures PassesTimestamp(cfg, d) <==>
              && d.request.Authentic?
              && d.request.msg.createdAt - cfg.maxWebhookAge <= WholeSeconds(d.now)
                                                            <= d.request.msg.createdAt + cfg.maxWebhookAge
  {
    if d.request.Authentic? {
      AcceptedIffClose(d.request.msg.createdAt, cfg.maxWebhookAge, d.now);
    }
  }

  /**
   * The gates, spelled out: the creation time is within the maximum age on either side, and no
   * entry for sender and identifier is younger than the time to live.
   */
  lemma PassesGatesIff(cfg: Config, s: ServerState, d: Delivery)
    ensures PassesGates(cfg, s, d) <==>
              && d.request.Authentic?
              && var msg, key := d.request.msg, MessageKey(d.request.msg.from, d.request.msg.id);
                 && msg.createdAt - cfg.maxWebhookAge <= WholeSeconds(d.now) <= msg.createdAt + cfg.maxWebhookAge
                 && (key in s.seen ==> s.seen[key].stamp + Seconds(cfg.dedupTtlSeconds) <= d.now)
  {
    PassesTimestampIff(cfg, d);
  }

  /** What is put to the limiter: readable texts and locations of listed senders, or of all if none is listed. */
  lemma ReachesLimiterIff(cfg: Config, s: ServerState, d: Delivery)
    ensures ReachesLimiter(cfg, s, d) <==>
              && Readable(cfg, s, d) && (d.request.content.value.Text? || d.request.content.value.LocationContent?)
              && (cfg.allowedUsers == []
                  || exists i :: 0 <= i < |cfg.allowedUsers| && cfg.allowedUsers[i] == d.request.msg.from)
  {}

  /** Which reply each delivery gets that is not readable. */
  lemma StepReplies(cfg: Config, s: ServerState, d: Delivery)
    ensures var reply := Step(cfg, s, d).reply;
            && (reply == InvalidSignature <==> d.request == InvalidMac)
            && (reply == ParseError <==> d.request == Unparsable)
            && (reply == Error <==> d.request == OtherFailure)
            && (reply == InvalidTimestamp <==> d.request.Authentic? && !PassesTimestamp(cfg, d))
            && (reply == DuplicateMessage <==> PassesTimestamp(cfg, d) && !PassesGates(cfg, s, d))
            && (reply == NoPublicKey <==> PassesGates(cfg, s, d) && !d.request.keyFound)
            && (reply == DecryptionFailed <==>
                 PassesGates(cfg, s, d) && d.request.keyFound && d.request.content.None?)
  {}

  /**
   * Who is refused: unlisted senders of texts and locations, and those the limiter rejects. Only
   * the latter and bad signatures get a status other than 200.
   */
  lemma StepRefuses(cfg: Config, s: ServerState, d: Delivery)
    ensures var reply := Step(cfg, s, d).reply;
            && (reply == Unauthorized <==>
                 && Readable(cfg, s, d) && (d.request.content.value.Text? || d.request.content.value.LocationContent?)
                 && cfg.allowedUsers != []
                 && forall i :: 0 <= i < |cfg.allowedUsers| ==> cfg.allowedUsers[i] != d.request.msg.from)
            && (reply == RateLimited <==> ReachesLimiter(cfg, s, d) && IsRejected(cfg, s, d))
            && StatusOf(reply) == if d.request == InvalidMac then 401 else if reply == RateLimited then 429 else 200
  {}

  lemma StepTraceless(cfg: Config, s: ServerState, d: Delivery)
    ensures LeavesNoTrace(Step(cfg, s, d).reply) <==> !PassesGates(cfg, s, d)
    ensures LeavesNoTrace(Step(cfg, s, d).reply) ==> Step(cfg, s, d).state == s && Step(cfg, s, d).effects == []
  {}

  lemma StepSeen(cfg: Config, s: ServerState, d: Delivery)
    ensures Step(cfg, s, d).state.seen
         == if PassesTimestamp(cfg, d) then CheckAndInsertStep(s.seen, cfg.DedupTtl(), KeyOf(d), d.now).0 else s.seen
  {}

  /** Deliveries that are denied, unreadable, not dispatchable or reactions leave the limiter alone. */
  lemma StepLimiter(cfg: Config, s: ServerState, d: Delivery)
    ensures Step(cfg, s, d).state.limiter
         == if cfg.limits.Some? && ReachesLimiter(cfg, s, d)
            then CheckStep(cfg.limits.value, SOURCE_IDLE, s.limiter, d.request.msg.from, d.checkedAt).0 else s.limiter
  {}

  // ---- What one delivery starts ----

  /** What becomes of a new message that is not readable. */
  lemma StepUnreadable(cfg: Config, s: ServerState, d: Delivery)
    requires PassesGates(cfg, s, d) && !Readable(cfg, s, d)
    ensures var o := Step(cfg, s, d);
            && o.reply == (if d.request.keyFound then DecryptionFailed else NoPublicKey)
            && o.effects == [] && o.state.limiter == s.limiter && o.state.notified == s.notified
            && MessageKey(d.request.msg.from, d.request.msg.id) in o.state.seen
  {}

  /** A message that the limiter does not reject is confirmed twice and handed to the bot, in this order. */
  lemma StepHandsOver(cfg: Config, s: ServerState, d: Delivery)
    requires ReachesLimiter(cfg, s, d) && !IsRejected(cfg, s, d)
    ensures var Message(from, id, createdAt, nickname) := d.request.msg;
            var ctx := MessageContext(id, from, nickname, createdAt);
            && Step(cfg, s, d).reply == Accepted
            && Step(cfg, s, d).effects
            == [SendReceipt(from, id, ReceiptReceived),
                SendReceipt(from, id, ReceiptRead),
                match d.request.content.value
                case Text(text) => ProcessText(ctx, text)
                case LocationContent(location) => ProcessLocation(ctx, location)]
  {}

  /** A rejected message is confirmed as well, and the sender told the wait unless told within ten seconds. */
  lemma StepTurnsAway(cfg: Config, s: ServerState, d: Delivery)
    requires ReachesLimiter(cfg, s, d) && IsRejected(cfg, s, d)
    ensures var Message(from, id, _, _) := d.request.msg;
            var key, o := NotificationKey(from), Step(cfg, s, d);
            var receipts := [SendReceipt(from, id, ReceiptReceived), SendReceipt(from, id, ReceiptRead)];
            if key in s.notified && d.checkedAt < s.notified[key].stamp + Seconds(10) then
              o.effects == receipts && o.state.notified == s.notified
            else
              && o.effects == receipts
                              + [NotifyLimited(from, "Rate limit exceeded. Try again in "
                                                     + FormatDuration(LimiterVerdict(cfg, s, d).wait) + ".")]
              && key in o.state.notified && o.state.notified[key].stamp == d.checkedAt
  {}

  /** Unlisted senders of texts and locations are denied, and nothing else happens. */
  lemma StepDenies(cfg: Config, s: ServerState, d: Delivery)
    requires Step(cfg, s, d).reply == Unauthorized
    ensures Step(cfg, s, d).effects == [DenyAccess(d.request.msg.from)]
  {}

  /** Thumbs up or down of listed senders are handled for every message they are about; no other receipt is. */
  lemma StepReacts(cfg: Config, s: ServerState, d: Delivery)
    requires Readable(cfg, s, d) && d.request.content.value.DeliveryReceipt?
    ensures var (o, Message(from, id, createdAt, nickname)) := (Step(cfg, s, d), d.request.msg);
            var DeliveryReceipt(receipt, ids) := d.request.content.value;
            && o.reply == Accepted
            && if (receipt == ReceiptAcknowledged || receipt == ReceiptDeclined)
                  && (cfg.allowedUsers == []
                      || exists i :: 0 <= i < |cfg.allowedUsers| && cfg.allowedUsers[i] == from) then
                 && |o.effects| == 1 && o.effects[0].HandleReactions?
                 && o.effects[0].reaction == (if receipt == ReceiptAcknowledged then ThumbsUp else ThumbsDown)
                 && |o.effects[0].contexts| == |ids|
                 && forall i :: 0 <= i < |ids| ==>
                      o.effects[0].contexts[i] == MessageContext(ids[i], from, nickname, createdAt)
               else o.effects == []
  {}

  /** Whatever is neither handed over nor turned away, denied or a reaction starts nothing. */
  lemma StepStartsNothing(cfg: Config, s: ServerState, d: Delivery)
    requires !ReachesLimiter(cfg, s, d) && Step(cfg, s, d).reply != Unauthorized
    requires Readable(cfg, s, d) ==> !d.request.content.value.DeliveryReceipt?
    ensures Step(cfg, s, d).effects == []
  {}

  // ---- Counting what is started ----

  /** How many texts and locations of `sender` are handed to the bot. */
  function HandOvers(effects: seq<Effect>, sender: ThreemaId): nat {
    if effects == [] then 0 else
    HandOvers(effects[1..], sender)
    + if (effects[0].ProcessText? || effects[0].ProcessLocation?) && effects[0].ctx.sender == sender then 1 else 0
  }

  /** How many times `sender` is told about the rate limit. */
  function Notices(effects: seq<Effect>, sender: ThreemaId): nat {
    if effects == [] then 0 else
    Notices(effects[1..], sender) + if effects[0].NotifyLimited? && effects[0].to == sender then 1 else 0
  }

  lemma CountsOfOne(e: Effect, sender: ThreemaId)
    ensures HandOvers([e], sender)
         == if (e.ProcessText? || e.ProcessLocation?) && e.ctx.sender == sender then 1 else 0
    ensures Notices([e], sender) == if e.NotifyLimited? && e.to == sender then 1 else 0
  {}

  lemma CountsBehindReceipts(effects: seq<Effect>, sender: ThreemaId)
    requires 2 <= |effects| && effects[0].SendReceipt? && effects[1].SendReceipt?
    ensures HandOvers(effects, sender) == HandOvers(effects[2..], sender)
    ensures Notices(effects, sender) == Notices(effects[2..], sender)
  {
    assert effects[1..][1..] == effects[2..];
  }

  /** Every message is handed over once, if it reaches the limiter and is not rejected, and otherwise never. */
  lemma {:induction false} StepHandsOverOnce(cfg: Config, s: ServerState, d: Delivery, sender: ThreemaId)
    ensures HandOvers(Step(cfg, s, d).effects, sender)
         == if ReachesLimiter(cfg, s, d) && d.request.msg.from == sender && !IsRejected(cfg, s, d) then 1 else 0
  {
    var effects := Step(cfg, s, d).effects;
    if ReachesLimiter(cfg, s, d) {
      CountsBehindReceipts(effects, sender);
      if IsRejected(cfg, s, d) {
        StepTurnsAway(cfg, s, d);
      } else {
        StepHandsOver(cfg, s, d);
      }
      if |effects| == 3 {
        assert effects[2..] == [effects[2]];
        CountsOfOne(effects[2], sender);
      }
    } else if effects != [] {
      assert effects == [effects[0]];
      CountsOfOne(effects[0], sender);
    }
  }

  lemma NotificationKeysDiffer(a: ThreemaId, b: ThreemaId)
    requires NotificationKey(a) == NotificationKey(b)
    ensures a == b
  {
    assert NotificationKey(a)[|"rate_limit:"|..] == a.text;
    assert NotificationKey(b)[|"rate_limit:"|..] == b.text;
  }

  /** No notice for `sender` is younger than ten seconds. */
  predicate NotJustTold(s: ServerState, sender: ThreemaId, now: Instant) {
    var key := NotificationKey(sender);
    key in s.notified ==> s.notified[key].stamp + Seconds(10) <= now
  }

  /** The cache remembers the notice, and changes for no other reason and no other sender. */
  lemma StepRemembersNotice(cfg: Config, s: ServerState, d: Delivery, sender: ThreemaId)
    ensures var o, key := Step(cfg, s, d), NotificationKey(sender);
            if o.reply == RateLimited && d.request.msg.from == sender && NotJustTold(s, sender, d.checkedAt) then
              key in o.state.notified && o.state.notified[key].stamp == d.checkedAt
            else
              && (key in o.state.notified <==> key in s.notified)
              && (key in s.notified ==> o.state.notified[key] == s.notified[key])
  {
    if ReachesLimiter(cfg, s, d) && NotificationKey(d.request.msg.from) == NotificationKey(sender) {
      NotificationKeysDiffer(d.request.msg.from, sender);
    }
  }

  /** A rejected sender is told once, unless told within ten seconds; nobody else is told anything. */
  lemma {:induction false} StepNotifies(cfg: Config, s: ServerState, d: Delivery, sender: ThreemaId)
    ensures Notices(Step(cfg, s, d).effects, sender)
         == if Step(cfg, s, d).reply == RateLimited && d.request.msg.from == sender
               && NotJustTold(s, sender, d.checkedAt) then 1 else 0
  {
    var effects := Step(cfg, s, d).effects;
    if ReachesLimiter(cfg, s, d) {
      CountsBehindReceipts(effects, sender);
      if |effects| == 3 {
        assert effects[2..] == [effects[2]];
        CountsOfOne(effects[2], sender);
      }
    } else if effects != [] {
      assert effects == [effects[0]];
      CountsOfOne(effects[0], sender);
    }
  }

  // ---- The handler itself ----

  class AppState {
    const config: Config
    const messageDedup: MessageDeduplicator
    const rateLimiter: RateLimiterManager?
    const rateLimitNotificationCache: Cache<string, ()>
    /** Everything the handler has started so far, in order. */
    var effects: seq<Effect>

    ghost predicate Valid() {
      && config.dedupTtlSeconds == DEDUP_TTL_SECONDS
      && messageDedup.cache.expiry == TimeToLive(config.DedupTtl())
      && rateLimitNotificationCache.expiry == TimeToLive(NOTIFICATION_TTL)
      && messageDedup.cache as object != rateLimitNotificationCache as object
      && this as object != rateLimitNotificationCache as object && this as object != messageDedup.cache as object
      && (config.limits.Some? <==> rateLimiter != null)
      && (rateLimiter != null ==>
           && rateLimiter.Valid() && rateLimiter.config == config.limits.value
           && {rateLimiter.minuteWindows as object, rateLimiter.hourWindows as object}
              !! {messageDedup.cache as object, rateLimitNotificationCache as object, this as object})
    }

    ghost function Caches(): set<object> {
      {messageDedup.cache as object, rateLimitNotificationCache as object} +
      if rateLimiter == null then {} else {rateLimiter.minuteWindows as object, rateLimiter.hourWindows as object}
    }

    ghost function State(): ServerState
      reads Caches()
    {
      ServerState(
        messageDedup.cache.slots,
        if rateLimiter == null then NEW_LIMITER else rateLimiter.State(),
        rateLimitNotificationCache.slots)
    }

    constructor (config: Config)
      requires config.dedupTtlSeconds == DEDUP_TTL_SECONDS
      ensures Valid() && this.config == config && State() == NEW_SERVER && effects == []
    {
      this.config := config;
      messageDedup := new MessageDeduplicator(config.messageIdCacheSize, DEDUP_TTL_SECONDS);
      rateLimitNotificationCache := new Cache(TimeToLive(NOTIFICATION_TTL), DEFAULT_CAPACITY);
      if config.limits.Some? {
        rateLimiter := new RateLimiterManager(config.limits.value);
      } else {
        rateLimiter := null;
      }
      effects := [];
    }

    method Emit(effect: Effect)
      modifies `effects
      ensures effects == old(effects) + [effect]
    {
      effects := effects + [effect];
    }

    method CheckRateLimit(sender: ThreemaId, now: Instant) returns (proceed: bool)
      requires Valid()
      modifies Caches(), `effects
      ensures var r := CheckRateLimitStep(config, old(State()), sender, now);
              State() == r.0 && proceed == r.1 && effects == old(effects) + r.2
    {
      if rateLimiter != null {
        var result := rateLimiter.Check(sender, now);
        if result.Limited? {
          var key := NotificationKey(sender);
          var notified := rateLimitNotificationCache.Get(key, now);
          if notified.None? {
            rateLimitNotificationCache.Insert(key, (), now);
            Emit(NotifyLimited(sender, result.message));
          }
          return false;
        }
      }
      return true;
    }

    method WebhookHandler(d: Delivery) returns (reply: Reply)
      requires Valid()
      modifies Caches(), `effects
      ensures Outcome(State(), reply, effects)
           == var o := Step(config, old(State()), d); o.(effects := old(effects) + o.effects)
    {
      if d.request.InvalidMac? {
        return InvalidSignature;
      }
      if d.request.Unparsable? {
        return ParseError;
      }
      if d.request.OtherFailure? {
        return Error;
      }
      var Authentic(msg, keyFound, content) := d.request;

      var createdAt := ValidateTimestamp(msg.createdAt, config.maxWebhookAge, d.now);
      if createdAt.Err? {
        return InvalidTimestamp;
      }
      var dedup := messageDedup.CheckAndInsert(msg.from, msg.id, d.now);
      if dedup.Duplicate? {
        return DuplicateMessage;
      }
      if !keyFound {
        return NoPublicKey;
      }
      if content.None? {
        return DecryptionFailed;
      }
      if content.value.DeliveryReceipt? {
        var reaction := ToReaction(content.value.receipt);
        if reaction.Some? && IsSenderAllowed(config.allowedUsers, msg.from) {
          Emit(HandleReactions(Contexts(msg, content.value.ids), reaction.value));
        }
        return Accepted;
      }
      if !Dispatchable(content.value) {
        return Accepted;
      }
      reply := Dispatch(msg, content.value, d.checkedAt);
    }

    method Dispatch(msg: Message, content: Content, now: Instant) returns (reply: Reply)
      requires Valid() && Dispatchable(content)
      modifies Caches(), `effects
      ensures Outcome(State(), reply, effects)
           == var o := DispatchStep(config, old(State()), msg, content, now); o.(effects := old(effects) + o.effects)
    {
      if !IsSenderAllowed(config.allowedUsers, msg.from) {
        Emit(DenyAccess(msg.from));
        return Unauthorized;
      }
      Emit(SendReceipt(msg.from, msg.id, ReceiptReceived));
      Emit(SendReceipt(msg.from, msg.id, ReceiptRead));
      ghost var receipts :=
        [SendReceipt(msg.from, msg.id, ReceiptReceived), SendReceipt(msg.from, msg.id, ReceiptRead)];
      assert effects == old(effects) + receipts;
      var proceed := CheckRateLimit(msg.from, now);
      if !proceed {
        return RateLimited;
      }
      var ctx := MessageContext(msg.id, msg.from, msg.nickname, msg.createdAt);
      if content.Text? {
        Emit(ProcessText(ctx, content.text));
      } else {
        Emit(ProcessLocation(ctx, content.location));
      }
      assert effects == old(effects) + (receipts + [effects[|effects| - 1]]);
      return Accepted;
    }
  }
}
