/**
 * What the bot does with a dispatched message, in `src/server/mod.rs`: asking the handler,
 * carrying out its action, and sending responses one by one.
 *
 * The handler and the network are oracles: a `Fate` decides every outcome, so that every pattern
 * of failures is covered.
 */
module Responses {
  import opened Commands
  import opened Dedup
  import opened Help
  import Parsing
  import opened Text
  import opened RateLimit
  import opened Server
  import opened Visibility
  import opened Wrappers

  datatype FileData = FileData(data: string, mediaType: string, fileName: Option<string>, caption: Option<string>)

  datatype Response = TextResponse(text: string) | ImageResponse(image: FileData) | FileResponse(file: FileData)

  datatype Action = Ignore | ShowHelp(prelude: Option<string>) | Respond(responses: seq<Response>)

  datatype CommandType = RegisteredCommand | UnknownCommand

  /** The methods of the handler that yield an action. */
  datatype HandlerCall =
    | HandleText(text: string)
    | HandleCommand(name: string, args: string, kind: CommandType)
    | HandleLocation(location: Location)
    | HandleClassicReaction(reaction: ClassicReaction)

  datatype Act =
    | Ask(ctx: MessageContext, call: HandlerCall)
    | AskVisibility(ctx: MessageContext)
    | Send(to: ThreemaId, response: Response)
    | OnResponseSent(ctx: MessageContext, sent: MessageId)

  datatype SendError = SendFailed | HandlerFailed

  /** The outcome of one response: the send fails, the callback about it fails, or neither. */
  datatype Attempt = SendFails | CallbackFails(id: MessageId) | Succeeds(id: MessageId)

  /**
   * All that is outside the bot's hands when it acts on one message. Besides responses it sends
   * at most one text of its own, help or an error message.
   */
  datatype Fate = Fate(
    answer: Result<Action, ()>,
    visibility: Result<VisibilityState, ()>,
    textIsSent: bool,
    attempts: nat -> Attempt)

  const GENERIC_ERROR := "Sorry, I encountered an error processing your request. Please try again."

  // ---- Sending responses ----

  function AttemptActs(ctx: MessageContext, to: ThreemaId, response: Response, attempt: Attempt): seq<Act> {
    if attempt.SendFails? then [Send(to, response)] else [Send(to, response), OnResponseSent(ctx, attempt.id)]
  }

  datatype Sent = Sent(acts: seq<Act>, ids: seq<MessageId>, error: Option<SendError>)

  /** `send_responses`: after the first failure nothing more is done. */
  function SendAll(attempts: nat -> Attempt, ctx: MessageContext, to: ThreemaId, responses: seq<Response>): Sent {
    if responses == [] then Sent([], [], None) else
    var n := |responses| - 1;
    var earlier := SendAll(attempts, ctx, to, responses[..n]);
    if earlier.error.Some? then earlier else
    var acts := earlier.acts + AttemptActs(ctx, to, responses[n], attempts(n));
    match attempts(n)
    case SendFails => Sent(acts, earlier.ids, Some(SendFailed))
    case CallbackFails(id) => Sent(acts, earlier.ids + [id], Some(HandlerFailed))
    case Succeeds(id) => Sent(acts, earlier.ids + [id], None)
  }

  lemma {:induction false} ErrorSticks(attempts: nat -> Attempt, ctx: MessageContext, to: ThreemaId,
                                       responses: seq<Response>, i: nat)
    requires i <= |responses| && SendAll(attempts, ctx, to, responses[..i]).error.Some?
    ensures SendAll(attempts, ctx, to, responses) == SendAll(attempts, ctx, to, responses[..i])
    decreases |responses|
  {
    if i < |responses| {
      var init := responses[..|responses| - 1];
      assert init[..i] == responses[..i];
      ErrorSticks(attempts, ctx, to, init, i);
    } else {
      assert responses[..i] == responses;
    }
  }

  // ---- Actions ----

  function HelpOrError(registry: Registry, prelude: Option<string>, visibility: Result<VisibilityState, ()>): string {
    match visibility
    case Ok(v) => HelpTextWithPrelude(prelude, HelpTextFor(registry, v))
    case Err(_) => GENERIC_ERROR
  }

  function SendErrorOf(fate: Fate): Option<SendError> {
    if fate.textIsSent then None else Some(SendFailed)
  }

  datatype Done = Done(acts: seq<Act>, error: Option<SendError>)

  /** `handle_action` */
  function ActionDone(registry: Registry, fate: Fate, ctx: MessageContext, to: ThreemaId, action: Action): Done {
    match action
    case Ignore => Done([], None)
    case ShowHelp(prelude) =>
      var text := HelpOrError(registry, prelude, fate.visibility);
      Done([AskVisibility(ctx), Send(to, TextResponse(text))], SendErrorOf(fate))
    case Respond(responses) =>
      var sent := SendAll(fate.attempts, ctx, to, responses);
      Done(sent.acts, sent.error)
  }

  /** The acts for one reaction: an error of the handler is only logged. */
  function ReactionDone(registry: Registry, fate: Fate, ctx: MessageContext, reaction: ClassicReaction): seq<Act> {
    match fate.answer
    case Ok(action) =>
      [Ask(ctx, HandleClassicReaction(reaction))] + ActionDone(registry, fate, ctx, ctx.sender, action).acts
    case Err(_) => [Ask(ctx, HandleClassicReaction(reaction))]
  }

  /** The reaction loop: every context is put to the handler, whatever became of the earlier ones. */
  function ReactionActs(registry: Registry, fates: nat -> Fate, contexts: seq<MessageContext>,
                        reaction: ClassicReaction)
    : seq<Act>
  {
    if contexts == [] then [] else
    var n := |contexts| - 1;
    ReactionActs(registry, fates, contexts[..n], reaction)
    + ReactionDone(registry, fates(n), contexts[n], reaction)
  }

  lemma ReactionActsSnoc(registry: Registry, fates: nat -> Fate, contexts: seq<MessageContext>, i: nat,
                         reaction: ClassicReaction)
    requires i < |contexts|
    ensures ReactionActs(registry, fates, contexts[..i + 1], reaction)
         == ReactionActs(registry, fates, contexts[..i], reaction)
            + ReactionDone(registry, fates(i), contexts[i], reaction)
  {
    assert contexts[..i + 1][..i] == contexts[..i];
  }

  /** What a text asks of the handler, or the action taken without it. */
  function CallFor(registry: Registry, parsed: ParsedCommand): Result<HandlerCall, Action> {
    match parsed
    case Help => Err(ShowHelp(None))
    case Registered(name, args) => Ok(HandleCommand(name, args, RegisteredCommand))
    case Unknown(name, args) =>
      if registry.handleUnknown then Ok(HandleCommand(name, args, UnknownCommand))
      else Err(ShowHelp(Some("Unknown command: " + FormatCommand(registry.style, name))))
    case NoCommand(text) => Ok(HandleText(text))
  }

  /** The action is carried out; without one the sender gets an error message. */
  function Concluded(registry: Registry, fate: Fate, ctx: MessageContext, result: Result<Action, ()>): Done {
    match result
    case Ok(action) => ActionDone(registry, fate, ctx, ctx.sender, action)
    case Err(_) => Done([Send(ctx.sender, TextResponse(GENERIC_ERROR))], SendErrorOf(fate))
  }

  function CallDone(registry: Registry, fate: Fate, ctx: MessageContext, call: Result<HandlerCall, Action>): Done {
    match call
    case Err(action) => Concluded(registry, fate, ctx, Ok(action))
    case Ok(asked) =>
      var done := Concluded(registry, fate, ctx, fate.answer);
      Done([Ask(ctx, asked)] + done.acts, done.error)
  }

  lemma Regroup(a: seq<Act>, b: seq<Act>, c: seq<Act>, all: seq<Act>)
    requires all == a + b + c
    ensures all == a + (b + c)
  {}

  // ---- The bot ----

  class Bot {
    const registry: Registry
    var trace: seq<Act>

    constructor (registry: Registry)
      ensures this.registry == registry && trace == []
    {
      this.registry, trace := registry, [];
    }

    method Do(act: Act)
      modifies this
      ensures trace == old(trace) + [act]
    {
      trace := trace + [act];
    }

    method SendResponses(attempts: nat -> Attempt, ctx: MessageContext, to: ThreemaId, responses: seq<Response>)
      returns (result: Result<seq<MessageId>, SendError>)
      modifies this
      ensures var sent := SendAll(attempts, ctx, to, responses);
              && trace == old(trace) + sent.acts
              && result == match sent.error case None => Ok(sent.ids) case Some(error) => Err(error)
    {
      var messageIds := [];
      for i := 0 to |responses|
        invariant trace == old(trace) + SendAll(attempts, ctx, to, responses[..i]).acts
        invariant messageIds == SendAll(attempts, ctx, to, responses[..i]).ids
        invariant SendAll(attempts, ctx, to, responses[..i]).error.None?
      {
        ghost var earlier := SendAll(attempts, ctx, to, responses[..i]).acts;
        assert responses[..i + 1][..i] == responses[..i];
        var attempt := attempts(i);
        Do(Send(to, responses[i]));
        if attempt.SendFails? {
          assert trace == old(trace) + (earlier + [Send(to, responses[i])]);
          ErrorSticks(attempts, ctx, to, responses, i + 1);
          return Err(SendFailed);
        }
        messageIds := messageIds + [attempt.id];
        Do(OnResponseSent(ctx, attempt.id));
        assert trace == old(trace) + (earlier + [Send(to, responses[i]), OnResponseSent(ctx, attempt.id)]);
        if attempt.CallbackFails? {
          ErrorSticks(attempts, ctx, to, responses, i + 1);
          return Err(HandlerFailed);
        }
      }
      assert responses[..|responses|] == responses;
      return Ok(messageIds);
    }

    method RenderHelp(prelude: Option<string>, v: VisibilityState) returns (text: string)
      ensures text == HelpTextWithPrelude(prelude, HelpTextFor(registry, v))
    {
      var visibility := new HelpVisibility.Built(v);
      var help := HelpText(registry, visibility);
      text := HelpTextWithPrelude(prelude, help);
    }

    method HandleAction(fate: Fate, ctx: MessageContext, to: ThreemaId,
                        action: Action) returns (error: Option<SendError>)
      modifies this
      ensures var done := ActionDone(registry, fate, ctx, to, action);
              trace == old(trace) + done.acts && error == done.error
    {
      error := None;
      match action {
        case Ignore =>
        case ShowHelp(prelude) =>
          Do(AskVisibility(ctx));
          // An error never falls back to full visibility.
          var text := GENERIC_ERROR;
          if fate.visibility.Ok? {
            text := RenderHelp(prelude, fate.visibility.value);
          }
          Do(Send(to, TextResponse(text)));
          error := SendErrorOf(fate);
        case Respond(responses) =>
          var result := SendResponses(fate.attempts, ctx, to, responses);
          error := if result.Err? then Some(result.error) else None;
      }
    }

    method AskHandler(fate: Fate, ctx: MessageContext, call: HandlerCall) returns (result: Result<Action, ()>)
      modifies this
      ensures result == fate.answer && trace == old(trace) + [Ask(ctx, call)]
    {
      Do(Ask(ctx, call));
      result := fate.answer;
    }

    method Conclude(fate: Fate, ctx: MessageContext, result: Result<Action, ()>) returns (error: Option<SendError>)
      modifies this
      ensures var done := Concluded(registry, fate, ctx, result);
              trace == old(trace) + done.acts && error == done.error
    {
      if result.Ok? {
        error := HandleAction(fate, ctx, ctx.sender, result.value);
      } else {
        Do(Send(ctx.sender, TextResponse(GENERIC_ERROR)));
        error := SendErrorOf(fate);
      }
    }

    method ProcessTextMessage(fate: Fate, ctx: MessageContext, text: string) returns (error: Option<SendError>)
      modifies this
      ensures var done := CallDone(registry, fate, ctx, CallFor(registry, Parse(registry, text)));
              trace == old(trace) + done.acts && error == done.error
    {
      var result: Result<Action, ()>;
      match Parse(registry, text) {
        case Help =>
          result := Ok(ShowHelp(None));
        case Registered(name, args) =>
          result := AskHandler(fate, ctx, HandleCommand(name, args, RegisteredCommand));
        case Unknown(name, args) =>
          if registry.handleUnknown {
            result := AskHandler(fate, ctx, HandleCommand(name, args, UnknownCommand));
          } else {
            result := Ok(ShowHelp(Some("Unknown command: " + FormatCommand(registry.style, name))));
          }
        case NoCommand(plain) =>
          result := AskHandler(fate, ctx, HandleText(plain));
      }
      ghost var asked := trace[|old(trace)|..];
      error := Conclude(fate, ctx, result);
      Regroup(old(trace), asked, Concluded(registry, fate, ctx, result).acts, trace);
    }

    method ProcessLocationMessage(fate: Fate, ctx: MessageContext, location: Location)
      returns (error: Option<SendError>)
      modifies this
      ensures var done := CallDone(registry, fate, ctx, Ok(HandleLocation(location)));
              trace == old(trace) + done.acts && error == done.error
    {
      var result := AskHandler(fate, ctx, HandleLocation(location));
      error := Conclude(fate, ctx, result);
    }

    method HandleReaction(fate: Fate, ctx: MessageContext, reaction: ClassicReaction)
      modifies this
      ensures trace == old(trace) + ReactionDone(registry, fate, ctx, reaction)
    {
      var result := AskHandler(fate, ctx, HandleClassicReaction(reaction));
      if result.Ok? {
        var _ := HandleAction(fate, ctx, ctx.sender, result.value);
      }
    }

    /** What is spawned for reactions: failures are only logged, and the loop goes on. */
    method HandleReactions(fates: nat -> Fate, contexts: seq<MessageContext>, reaction: ClassicReaction)
      modifies this
      ensures trace == old(trace) + ReactionActs(registry, fates, contexts, reaction)
    {
      for i := 0 to |contexts|
        invariant trace == old(trace) + ReactionActs(registry, fates, contexts[..i], reaction)
      {
        ghost var before := trace;
        HandleReaction(fates(i), contexts[i], reaction);
        assert trace == old(trace) + ReactionActs(registry, fates, contexts[..i + 1], reaction) by {
          ReactionActsSnoc(registry, fates, contexts, i, reaction);
          Regroup(old(trace), ReactionActs(registry, fates, contexts[..i], reaction), trace[|before|..], trace);
        }
      }
      assert contexts[..|contexts|] == contexts;
    }
  }

  // ---- What the traces show ----

  /** What the handler was asked, about which message. */
  function Asks(acts: seq<Act>): seq<Act> {
    if acts == [] then [] else if acts[0].Ask? then [acts[0]] + Asks(acts[1..]) else Asks(acts[1..])
  }

  lemma {:induction false} AsksConcat(a: seq<Act>, b: seq<Act>)
    ensures Asks(a + b) == Asks(a) + Asks(b)
  {
    if a == [] {
      assert a + b == b;
    } else {
      assert (a + b)[1..] == a[1..] + b;
      AsksConcat(a[1..], b);
    }
  }

  lemma {:induction false} NoneAsked(acts: seq<Act>)
    requires forall i :: 0 <= i < |acts| ==> !acts[i].Ask?
    ensures Asks(acts) == []
  {
    if acts != [] {
      NoneAsked(acts[1..]);
    }
  }

  lemma {:induction false} SendingAsksNothing(attempts: nat -> Attempt, ctx: MessageContext, to: ThreemaId,
                                              responses: seq<Response>)
    ensures Asks(SendAll(attempts, ctx, to, responses).acts) == []
    decreases |responses|
  {
    if responses != [] {
      var n := |responses| - 1;
      SendingAsksNothing(attempts, ctx, to, responses[..n]);
      NoneAsked(AttemptActs(ctx, to, responses[n], attempts(n)));
      AsksConcat(SendAll(attempts, ctx, to, responses[..n]).acts, AttemptActs(ctx, to, responses[n], attempts(n)));
    }
  }

  lemma ActionsAskNothing(registry: Registry, fate: Fate, ctx: MessageContext, to: ThreemaId, action: Action)
    ensures Asks(ActionDone(registry, fate, ctx, to, action).acts) == []
  {
    if action.Respond? {
      SendingAsksNothing(fate.attempts, ctx, to, action.responses);
    } else {
      NoneAsked(ActionDone(registry, fate, ctx, to, action).acts);
    }
  }

  lemma ReactionAsksOnce(registry: Registry, fate: Fate, ctx: MessageContext, reaction: ClassicReaction)
    ensures Asks(ReactionDone(registry, fate, ctx, reaction)) == [Ask(ctx, HandleClassicReaction(reaction))]
  {
    if fate.answer.Ok? {
      ActionsAskNothing(registry, fate, ctx, ctx.sender, fate.answer.value);
    }
  }

  /** The question about each of the contexts, in order. */
  function Questions(contexts: seq<MessageContext>, reaction: ClassicReaction): (r: seq<Act>)
    ensures |r| == |contexts|
    ensures forall i :: 0 <= i < |r| ==> r[i] == Ask(contexts[i], HandleClassicReaction(reaction))
  {
    seq(|contexts|, i requires 0 <= i < |contexts| => Ask(contexts[i], HandleClassicReaction(reaction)))
  }

  /** The reaction loop asks about every context exactly once, in order, whatever fails. */
  lemma {:induction false} EveryReactionIsHandled(registry: Registry, fates: nat -> Fate,
                                                  contexts: seq<MessageContext>, reaction: ClassicReaction)
    ensures Asks(ReactionActs(registry, fates, contexts, reaction)) == Questions(contexts, reaction)
    decreases |contexts|
  {
    if contexts != [] {
      var n := |contexts| - 1;
      EveryReactionIsHandled(registry, fates, contexts[..n], reaction);
      ReactionAsksOnce(registry, fates(n), contexts[n], reaction);
      AsksConcat(ReactionActs(registry, fates, contexts[..n], reaction),
                 ReactionDone(registry, fates(n), contexts[n], reaction));
    }
  }

  lemma {:induction false} ReactionsGoOn(registry: Registry, fates: nat -> Fate, contexts: seq<MessageContext>,
                                         reaction: ClassicReaction, i: nat) returns (after: seq<Act>)
    requires i <= |contexts|
    ensures ReactionActs(registry, fates, contexts, reaction)
         == ReactionActs(registry, fates, contexts[..i], reaction) + after
    decreases |contexts|
  {
    if i == |contexts| {
      after := [];
      assert contexts[..i] == contexts;
    } else {
      var n := |contexts| - 1;
      var init := ReactionsGoOn(registry, fates, contexts[..n], reaction, i);
      after := init + ReactionDone(registry, fates(n), contexts[n], reaction);
      assert contexts[..n][..i] == contexts[..i];
      Regroup(ReactionActs(registry, fates, contexts[..i], reaction), init,
              ReactionDone(registry, fates(n), contexts[n], reaction),
              ReactionActs(registry, fates, contexts, reaction));
    }
  }

  /** What is done about each context follows from its own answer, in its place behind the earlier ones. */
  lemma {:induction false} ReactionInItsPlace(registry: Registry, fates: nat -> Fate, contexts: seq<MessageContext>,
                                              reaction: ClassicReaction, i: nat)
    returns (before: seq<Act>, after: seq<Act>)
    requires i < |contexts|
    ensures ReactionActs(registry, fates, contexts, reaction)
         == before + ReactionDone(registry, fates(i), contexts[i], reaction) + after
    ensures Asks(before) == Questions(contexts[..i], reaction)
  {
    before := ReactionActs(registry, fates, contexts[..i], reaction);
    after := ReactionsGoOn(registry, fates, contexts, reaction, i + 1);
    ReactionActsSnoc(registry, fates, contexts, i, reaction);
    EveryReactionIsHandled(registry, fates, contexts[..i], reaction);
  }

  /** The acts of sending the first `k` responses, none of which fails, and of attempting the next. */
  ghost predicate IsPrefixOfPairs(attempts: nat -> Attempt, ctx: MessageContext, to: ThreemaId,
                                  responses: seq<Response>,
                                  k: nat, acts: seq<Act>)
    requires k <= |responses|
  {
    && 2 * k <= |acts|
    && (forall i :: 0 <= i < k ==>
         && attempts(i).Succeeds?
         && acts[2 * i] == Send(to, responses[i])
         && acts[2 * i + 1] == OnResponseSent(ctx, attempts(i).id))
    && acts[2 * k..] == if k == |responses| then []
                        else if attempts(k).SendFails? then [Send(to, responses[k])]
                        else [Send(to, responses[k]), OnResponseSent(ctx, attempts(k).id)]
  }

  /** Sending ends with response `k`, the first to fail, or with all of them sent and reported. */
  ghost predicate SentUpTo(attempts: nat -> Attempt, ctx: MessageContext, to: ThreemaId, responses: seq<Response>,
                           acts: seq<Act>, error: Option<SendError>, k: nat)
  {
    && k <= |responses| && IsPrefixOfPairs(attempts, ctx, to, responses, k, acts)
    && if k == |responses| then error == None
       else !attempts(k).Succeeds? && error == Some(if attempts(k).SendFails? then SendFailed else HandlerFailed)
  }

  ghost predicate EndsAt(attempts: nat -> Attempt, ctx: MessageContext, to: ThreemaId, responses: seq<Response>,
                         sent: Sent, k: nat)
  {
    && SentUpTo(attempts, ctx, to, responses, sent.acts, sent.error, k)
    && (k == |responses| ==> |sent.ids| == k && forall i :: 0 <= i < k ==> sent.ids[i] == attempts(i).id)
  }

  /**
   * There is a first failure, or none. Before it every response is sent and reported, pair by
   * pair in order; at it the send is attempted, and reported if it succeeded; after it nothing
   * happens. The call succeeds, with the identifiers of all responses, exactly if nothing fails.
   */
  lemma {:induction false} StopsAtFirstFailure(attempts: nat -> Attempt, ctx: MessageContext, to: ThreemaId,
                                               responses: seq<Response>)
    returns (k: nat)
    ensures EndsAt(attempts, ctx, to, responses, SendAll(attempts, ctx, to, responses), k)
    decreases |responses|
  {
    if responses == [] {
      k := 0;
    } else {
      var n := |responses| - 1;
      k := StopsAtFirstFailure(attempts, ctx, to, responses[..n]);
      if k == n {
        OneMoreResponse(attempts, ctx, to, responses);
        k := if attempts(n).Succeeds? then n + 1 else n;
      }
    }
  }

  lemma OneMoreResponse(attempts: nat -> Attempt, ctx: MessageContext, to: ThreemaId, responses: seq<Response>)
    requires responses != []
    requires var init := responses[..|responses| - 1];
             EndsAt(attempts, ctx, to, init, SendAll(attempts, ctx, to, init), |init|)
    ensures var n := |responses| - 1;
            EndsAt(attempts, ctx, to, responses, SendAll(attempts, ctx, to, responses),
                   if attempts(n).Succeeds? then n + 1 else n)
  {
    var n := |responses| - 1;
    var before := SendAll(attempts, ctx, to, responses[..n]).acts;
    OneMorePair(attempts, ctx, to, responses, before);
  }

  lemma OneMorePair(attempts: nat -> Attempt, ctx: MessageContext, to: ThreemaId, responses: seq<Response>,
                    before: seq<Act>)
    requires responses != []
    requires IsPrefixOfPairs(attempts, ctx, to, responses[..|responses| - 1], |responses| - 1, before)
    ensures var n := |responses| - 1;
            IsPrefixOfPairs(attempts, ctx, to, responses, if attempts(n).Succeeds? then n + 1 else n,
                            before + AttemptActs(ctx, to, responses[n], attempts(n)))
  {
    var n := |responses| - 1;
    var attempt := AttemptActs(ctx, to, responses[n], attempts(n));
    assert |before| == 2 * n;
    assert (before + attempt)[2 * n..] == attempt;
    forall i | 0 <= i < n
      ensures (before + attempt)[2 * i] == Send(to, responses[i])
      ensures (before + attempt)[2 * i + 1] == OnResponseSent(ctx, attempts(i).id)
    {
      assert responses[..n][i] == responses[i];
    }
  }

  /**
   * A typed registered word asks the handler about exactly that command, with its arguments. As a
   * slash command, another word does so only if unknown commands are handled, and otherwise calls
   * for help that names it as it was typed. Asking for help calls for help.
   */
  lemma {:induction false} TypedCommandIsRouted(registry: Registry, name: string, args: string)
    requires Parsing.IsWord(name)
    ensures var call := CallFor(registry, Parse(registry, FormatCommand(registry.style, name) + " " + args));
            if name == "help" then
              call == Err(ShowHelp(None))
            else if IsRegistered(registry, name) then
              call == Ok(HandleCommand(name, Trim(args), RegisteredCommand))
            else
              registry.style.Slash? ==>
                call == if registry.handleUnknown then Ok(HandleCommand(name, Trim(args), UnknownCommand))
                        else Err(ShowHelp(Some("Unknown command: " + ("/" + name))))
  {
    Parsing.TypedMeaning(registry, name, args);
  }

  /** The text is no command: it has no slash, is a bare slash, or does not begin with a known word. */
  ghost predicate IsPlain(registry: Registry, trimmed: string) {
    match registry.style
    case Slash => !("/" <= trimmed) || trimmed == "/"
    case Word =>
      trimmed == "" || (LeadingWord(trimmed) != "help" && !IsRegistered(registry, LeadingWord(trimmed)))
  }

  /** Exactly what is no command reaches the handler as text, trimmed. */
  lemma {:induction false} PlainTextIff(registry: Registry, text: string)
    ensures var call, t := CallFor(registry, Parse(registry, text)), Trim(text);
            && (call == Ok(HandleText(t)) <==> IsPlain(registry, t))
            && (call.Ok? && call.value.HandleText? ==> call.value.text == t)
  {
    var t := Trim(text);
    TrimTrims(text);
    Parsing.ResultShape(registry, text);
    if registry.style.Slash? && "/" <= t && t != "/" {
      assert t[1..][|t| - 2] == t[|t| - 1];
      TrimStartKeepsEnd(t[1..], "");
    }
  }

  // ---- What becomes of a call ----

  /** A call is put to the handler first and once; what is answered without it is never put to it. */
  lemma {:induction false} HandlerIsAskedOnce(registry: Registry, fate: Fate, ctx: MessageContext,
                                              call: Result<HandlerCall, Action>)
    ensures var acts := CallDone(registry, fate, ctx, call).acts;
            && Asks(acts) == (if call.Ok? then [Ask(ctx, call.value)] else [])
            && (call.Ok? ==> acts != [] && acts[0] == Ask(ctx, call.value))
  {
    var result := if call.Err? then Ok(call.error) else fate.answer;
    match result {
      case Ok(action) => ActionsAskNothing(registry, fate, ctx, ctx.sender, action);
      case Err(_) => NoneAsked([Send(ctx.sender, TextResponse(GENERIC_ERROR))]);
    }
  }

  /** What is to be done about a call: the action taken without the handler, or what the handler answers. */
  function Decision(fate: Fate, call: Result<HandlerCall, Action>): Result<Action, ()> {
    match call
    case Ok(_) => fate.answer
    case Err(action) => Ok(action)
  }

  /** The acts behind the question, if there is one. */
  function BehindQuestion(registry: Registry, fate: Fate, ctx: MessageContext, call: Result<HandlerCall, Action>)
    : seq<Act>
  {
    var acts := CallDone(registry, fate, ctx, call).acts;
    if call.Ok? && acts != [] then acts[1..] else acts
  }

  /** Responses are sent to the sender and reported one by one, up to the first failure, whose error is returned. */
  lemma {:induction false} ResponsesAreSent(registry: Registry, fate: Fate, ctx: MessageContext,
                                            call: Result<HandlerCall, Action>, responses: seq<Response>)
    returns (k: nat)
    requires Decision(fate, call) == Ok(Respond(responses))
    ensures SentUpTo(fate.attempts, ctx, ctx.sender, responses, BehindQuestion(registry, fate, ctx, call),
                     CallDone(registry, fate, ctx, call).error, k)
  {
    k := StopsAtFirstFailure(fate.attempts, ctx, ctx.sender, responses);
  }

  /**
   * Where help is called for, the visibility is asked for and one text sent: the prelude, if there
   * is one, and the help that this visibility shows; or an error message if there is no visibility.
   */
  lemma {:induction false} HelpIsSent(registry: Registry, fate: Fate, ctx: MessageContext,
                                      call: Result<HandlerCall, Action>, prelude: Option<string>)
    requires Decision(fate, call) == Ok(ShowHelp(prelude))
    ensures BehindQuestion(registry, fate, ctx, call) ==
              [AskVisibility(ctx),
               Send(ctx.sender,
                    TextResponse(
                      match fate.visibility
                      case Ok(v) =>
                        (if prelude.Some? then prelude.value + "\n\n---\n\n" else "") + HelpTextFor(registry, v)
                      case Err(_) =>
                        "Sorry, I encountered an error processing your request. Please try again."))]
  {
    if fate.visibility.Ok? {
      assert "" + HelpTextFor(registry, fate.visibility.value) == HelpTextFor(registry, fate.visibility.value);
    }
  }

  /** An action that ignores the message does nothing; a handler that fails has one error message sent. */
  lemma IgnoredOrFailed(registry: Registry, fate: Fate, ctx: MessageContext, call: Result<HandlerCall, Action>)
    ensures Decision(fate, call) == Ok(Ignore) ==> BehindQuestion(registry, fate, ctx, call) == []
    ensures Decision(fate, call).Err? ==>
              BehindQuestion(registry, fate, ctx, call) ==
                [Send(ctx.sender,
                      TextResponse("Sorry, I encountered an error processing your request. Please try again."))]
  {}

  /** An error is returned exactly if something that was to be sent, or its report, failed. */
  lemma {:induction false} ErrorIff(registry: Registry, fate: Fate, ctx: MessageContext,
                                    call: Result<HandlerCall, Action>)
    ensures CallDone(registry, fate, ctx, call).error.None? <==>
              match Decision(fate, call)
              case Ok(Ignore) => true
              case Ok(ShowHelp(_)) => fate.textIsSent
              case Ok(Respond(responses)) => forall i: nat :: i < |responses| ==> fate.attempts(i).Succeeds?
              case Err(_) => fate.textIsSent
  {
    var decision := Decision(fate, call);
    if decision.Ok? && decision.value.Respond? {
      var k := ResponsesAreSent(registry, fate, ctx, call, decision.value.responses);
    }
  }

  /** A reaction leads to what a call leads to, except that a failing handler goes unmentioned. */
  lemma ReactionIsACall(registry: Registry, fate: Fate, ctx: MessageContext, reaction: ClassicReaction)
    ensures ReactionDone(registry, fate, ctx, reaction)
         == if fate.answer.Ok? then CallDone(registry, fate, ctx, Ok(HandleClassicReaction(reaction))).acts
            else [Ask(ctx, HandleClassicReaction(reaction))]
  {}

  lemma {:induction false} SendsOnlyResponses(attempts: nat -> Attempt, ctx: MessageContext, to: ThreemaId,
                                              responses: seq<Response>)
    ensures forall act :: act in SendAll(attempts, ctx, to, responses).acts && act.Send? ==>
              act.to == to && act.response in responses
    decreases |responses|
  {
    if responses != [] {
      SendsOnlyResponses(attempts, ctx, to, responses[..|responses| - 1]);
    }
  }

  /**
   * Nothing is sent but to the sender: responses the handler gave, the generic error, and help
   * with the visibility the handler gave. If that cannot be determined, no help is sent at all.
   */
  lemma {:induction false} HelpFailsClosed(registry: Registry, fate: Fate, ctx: MessageContext,
                                           call: Result<HandlerCall, Action>, act: Act)
    requires act in CallDone(registry, fate, ctx, call).acts && act.Send?
    requires call.Err? ==> call.error.ShowHelp?
    ensures act.to == ctx.sender
    ensures var response := act.response;
            || (call.Ok? && fate.answer.Ok? && fate.answer.value.Respond? && response in fate.answer.value.responses)
            || response == TextResponse(GENERIC_ERROR)
            || (fate.visibility.Ok? && exists prelude ::
                 response == TextResponse(HelpTextWithPrelude(prelude, HelpTextFor(registry, fate.visibility.value))))
  {
    var action := if call.Err? then Ok(call.error) else fate.answer;
    if action.Ok? && action.value.Respond? {
      SendsOnlyResponses(fate.attempts, ctx, ctx.sender, action.value.responses);
    }
  }
}
