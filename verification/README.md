# Verified model of the Threema bot SDK

A Dafny model of the parts of the SDK in which bugs would be hard to see by testing: the per-user
rate limiter, message deduplication, the webhook handler as a state machine, the command language,
the help text, and the sending of responses. It models what the code does, including where that
differs from its documentation, and proves what follows for whole runs, all inputs and all
interleavings.

`dafny verify dfyconfig.toml` checks everything.

## How it is organised

| file | contents |
|---|---|
| `Units.dfy`, `Wrappers.dfy` | clock readings, durations, saturating integers, `Option` and `Result` |
| `ExpiringCache.dfy` | the contract assumed of the `moka` caches, as a class |
| `Durations.dfy` | `format_duration` and a decoder for its text |
| `RateLimit.dfy` | `Window` and `RateLimiterManager` as classes, and what one check does |
| `FixedWindows.dfy` | greedy windows over a list of check times, without any state |
| `LimiterRuns.dfy` | serial runs of the limiter |
| `LimiterBounds.dfy` | how much one user gets through, and lists of check times that attain it |
| `LimiterRaces.dfy` | interleaved runs of the limiter |
| `Dedup.dfy`, `Webhook.dfy` | deduplication and its history; timestamp validation |
| `Server.dfy` | the webhook handler: one delivery |
| `ServerRuns.dfy`, `ServerWitnesses.dfy` | runs of the webhook handler; runs that attain the bounds, and when the documented limits are kept |
| `Text.dfy`, `Commands.dfy`, `Parsing.dfy` | Rust's string operations, the command language, what parsing promises |
| `Visibility.dfy`, `Help.dfy`, `HelpDecoding.dfy` | help visibility, the help text, and a decoder for it |
| `Responses.dfy` | asking the handler, carrying out its action, sending responses |

Objects that the source updates in place (`Window`, the caches, `RateLimiterManager`,
`MessageDeduplicator`, `AppState`, `HelpVisibility`) are classes, and its loops are loops. Each such
method is tied by its postcondition to a function of the old state, and the theorems are about
those functions.

## Assumptions

- A `moka` entry is gone once the time since its last insert (time to live) or since its last
  insert or read (time to idle) reaches its period. Expired entries may be dropped at any moment;
  live entries are dropped only for lack of capacity, which is the `Eviction` event of `Dedup` and
  the `Drop` action of `LimiterRaces`, and does not happen in the other runs.
- Time is counted in nanoseconds from the Unix epoch and does not go backwards. One serial `check`
  reads the clock once. The webhook handler reads it twice per delivery: once for timestamp and
  deduplication, between which it does not wait, and again for limiter and notification cache,
  after it has waited for the key lookup and for two receipts to be sent. Webhook time is the same
  clock rounded down to seconds; its seconds fit an `i64`. In `LimiterRaces` every step has clock
  readings of its own.
- Signature checks, key lookups, decryption, sends and handler calls are oracles whose outcomes are
  part of the input. Nothing is assumed about them.
- Configurations are validated: limits are positive when limiting is enabled. A limit of 2^32-1
  never limits, because the counter saturates there, so the bounds exclude it.

## What the proofs found

- *Windows are fixed, not sliding.* `src/config.rs:257` promises a maximum "within any one-minute
  window". With limits of M per minute and H per hour, the most that gets through in `k < 60` minutes
  is min((k+1)M, 2H-1) (`MinuteMaximum`), and in an hour 2H if H <= M, and otherwise min(61M, 2H-1)
  (`HourMaximum`): two windows of either level can meet in the interval. So the promise is kept
  exactly if 2H <= M + 1, which is not so for the defaults of 20 and 100 (`MinutePromiseIff`), and
  the one for "any one-hour window" in line 262 exactly if 61M <= H (`HourPromiseIff`). The other way
  round, the limiter is never stricter than documented (`CompliantIsAllowed`).
- *Deduplication does not rule out repeats.* With the defaults, one and the same webhook can get
  past the timestamp and deduplication gates three times, and no more (`DefaultsAdmitThree`). It is
  at most once exactly when twice the maximum age is below the time to live; a maximum age beyond
  32 bits reaches back to the epoch only, and a negative one accepts nothing (`AtMostOnceIff`).
- *Retrying a rate-limited message is in vain.* The 429 makes the gateway deliver the message again,
  but it was already recorded as seen: until its time to live is over a redelivery is a duplicate,
  and once its creation time is too old it is rejected for that (`RateLimitedRedelivery`). It gets
  another chance exactly if there is time in between (`RateLimitedReturnsIff`). With the defaults of
  300 seconds for both there is none, and the message is lost for good, unless it was vetted in or
  before the very second it was created in (`RateLimitedIsLostAtDefaults`).
- *The announced wait is rounded down.* A user who waits the announced seconds is let through exactly
  if the rejected check came a whole number of seconds after the window that rejected it opened, and
  the other level, of which the announcement says nothing, lets the message pass as well
  (`RetryAfterAnnouncedSeconds`, `WholeWaitIsNotEnough`).
- *A space behind the slash drops the arguments.* `src/server/handler.rs:266` promises that `args`
  holds any text after the command; for `/ remind 30` it is empty. The promise is kept exactly if no
  whitespace follows the slash or nothing but whitespace follows the name (`ArgsAreTheRestIff`,
  `SpaceBehindSlashDropsArgs`).
- *A limit of zero would not block*: it would let one message through per window, but only in some
  cache states (`ForgettingNeedsPositiveLimit`). Validation rejects it.
- *Concurrent checks can let any number through.* Whatever the limits, any number of concurrent
  checks of one user can all be allowed (`LostUpdatesAllowAnyNumber`). The serial bounds hold again
  once reading, counting and storing are not interrupted within a level (`AtomicLevelsAreBounded`).
  A user who is within the limit is never rejected, whatever the interleaving (`NoFalseRejection`).

## Model

| member | source | states |
|---|---|---|
| `Durations.FormatSpelledOut` | src/rate_limit.rs:167-194 | the text of every duration, letter by letter: seconds below a minute, minutes with the remaining seconds, if any, below an hour, and whole hours from then on, each unit in the singular exactly for one |
| `Durations.DecimalIsUnique` | src/rate_limit.rs:167-194 | numbers are printed as the only decimal numeral without leading zeros that has their value |
| `Durations.FormatRoundTrip` | src/rate_limit.rs:167-194 | the text of a duration reads back as its exact whole seconds below an hour, and rounded down to whole hours from an hour up |
| `Durations.FormatCollisions` | src/rate_limit.rs:167-194 | two durations print alike exactly if they announce the same number of seconds |
| `RateLimit.Window.CheckAndIncrement` | src/rate_limit.rs:55-64 | the window and the answer after a check: a window that has run out restarts and passes the check, otherwise the saturating count is compared with the limit |
| `RateLimit.Window.TimeRemaining` | src/rate_limit.rs:67-69 | the remaining time ends where the window ends, is positive exactly while the window has not run out, and never exceeds the duration, also if the clock reads earlier than the start |
| `RateLimit.RateLimiterManager.constructor` | src/rate_limit.rs:92-114 | two separate empty caches with idle times of 70 seconds and 61 minutes, both with the given capacity |
| `RateLimit.RateLimiterManager.ConsultLevel` | src/rate_limit.rs:124-137 | get or create, count, store back: the whole cache after a check at one level, the answer and the remaining time |
| `RateLimit.RateLimiterManager.Check` | src/rate_limit.rs:120-156 | both caches and the result after a check, the hour level being consulted only if the minute level admits; a rejection tells the wait, in words |
| `FixedWindows.WithinWindow` | src/rate_limit.rs:74-78 | all checks of a window lie within its duration |
| `FixedWindows.OpensLate` | src/rate_limit.rs:74-78 | a window opens at least one duration after the one before |
| `FixedWindows.OpenedByIsUnique` | src/rate_limit.rs:74-78 | no other division of the check times into windows has these properties |
| `FixedWindows.SlidingBound` | src/rate_limit.rs:50-54 | in any closed interval of k durations at most k + 1 times the limit passes one level |
| `FixedWindows.ShortInterval` | src/rate_limit.rs:50-54 | in any interval shorter than k durations at most k + 1 times the limit, less one, passes one level |
| `FixedWindows.EndDecides` | src/rate_limit.rs:50-54 | in a closed interval of k durations the same, unless as many as the limit pass at the very end of it |
| `FixedWindows.WaitIsExact` | src/rate_limit.rs:55-69 | after a rejection all checks before the end of the wait are rejected, do not prolong it, and the next one passes exactly if the wait is over |
| `LimiterRuns.VerdictIsGreedy` | src/rate_limit.rs:120-156 | in every serial run, with any users, housekeeping and long enough idle times, a check answers (message included) a function of that user's own check times: the first checks of each greedy minute window pass, and of those the first of each hour window are allowed |
| `LimiterRuns.ForgettingAndOthersDoNotMatter` | src/rate_limit.rs:99-107 | runs that check a user at the same times answer alike, whatever other users do and however long idle windows are kept |
| `LimiterRuns.ForgettingNeedsPositiveLimit` | src/config.rs:415-425 | a window that has run out may be forgotten without changing the answer exactly if the limit is not zero |
| `LimiterRuns.ForgettingIsHarmlessIff` | src/rate_limit.rs:99-107 | for every duration and positive limit, a level whose cache forgets idle windows answers every list of checks like the reference if and only if the idle time is at least the duration or the limit never limits |
| `LimiterBounds.MinuteBound` | src/rate_limit.rs:50-54 | in any k minutes at most k + 1 times the minute limit is allowed |
| `LimiterBounds.HourBound` | src/rate_limit.rs:50-54 | in any k hours at most k + 1 times the hour limit is allowed |
| `LimiterBounds.ShortBound` | src/rate_limit.rs:50-54 | in less than k hours at most k + 1 times the hour limit, less one, is allowed |
| `LimiterBounds.ClosedBound` | src/rate_limit.rs:50-54 | in exactly k hours as well, if the minute limit is below the hour limit |
| `LimiterBounds.CompliantIsAllowed` | src/config.rs:257-265 | a user who keeps to both limits in every sliding minute and hour is always allowed |
| `LimiterBounds.MostIsAllowed` | src/rate_limit.rs:50-82 | for every k from 1 to 117 some check times across the end of an hour get min((k + 1) M, 2 H - 1) checks allowed within k minutes |
| `LimiterBounds.MinuteBoundAttained` | src/rate_limit.rs:80-82 | bursts one minute apart attain the minute bound for every k if the bursts of one hour do not exceed the hour limit |
| `LimiterBounds.HourBoundAttained` | src/rate_limit.rs:80-82 | bursts one hour apart attain the hour bound for every k if the hour limit does not exceed the minute limit |
| `LimiterBounds.MostInHourBounds` | src/rate_limit.rs:50-82 | in a closed hour at most 2 H checks are allowed if H <= M, and at most min(61 M, 2 H - 1) otherwise |
| `LimiterBounds.MostIsAllowedInHour` | src/rate_limit.rs:50-82 | for every configuration some check times get that many allowed within a closed hour |
| `LimiterRuns.NoticeNamesWait` | src/rate_limit.rs:129-152 | the notice of a rejected check says when to try again and decodes to the whole seconds of the wait, which is more than zero, at most an hour, and what is left of the window of the level that rejected |
| `LimiterRuns.RejectedUntilWaitIsOver` | src/rate_limit.rs:120-156 | after a rejection every check before the end of the wait is rejected by the two levels together and does not prolong it, and the next check passes the level that rejected exactly if the wait is over and it gets there |
| `LimiterRuns.RetryAfterAnnouncedSeconds` | src/rate_limit.rs:66-69 | a check after exactly the announced seconds, whatever came in between, is allowed if and only if the rejected check came a whole number of seconds after the opening of the window that rejected it and the other level passes the check |
| `LimiterRuns.WholeWaitIsNotEnough` | src/rate_limit.rs:120-156 | with limits of one, the check at 30 seconds is told to wait exactly 30 seconds and the one at 60 seconds is rejected again |
| `LimiterRaces.NoFalseRejection` | src/rate_limit.rs:120-156 | for every interleaving of concurrent checks and evictions, a rejection at either level is backed by at least the limit of other calls of the same user that took their increment in the same window |
| `LimiterRaces.DropForgets` | src/rate_limit.rs:99-107 | the caches may drop any entries at any moment, live or not, and nothing else changes then |
| `LimiterRaces.UninterruptedIsSerial` | src/rate_limit.rs:120-156 | a call that is not interrupted at a level does there what the serial limiter does |
| `LimiterRaces.LostUpdatesAllowAnyNumber` | src/rate_limit.rs:120-156 | for all positive limits and every n, some interleaving lets n calls of one user take both increments at one and the same time and all be allowed |
| `LimiterRaces.AtomicLevelsAreBounded` | src/rate_limit.rs:120-156 | however calls interleave between the levels, if none is interrupted within one and the caches drop only what has run out, at most k + 1 times its limit gets past a level in k of its durations |
| `Dedup.MessageDeduplicator.CheckAndInsert` | src/dedup.rs:45-61 | the cache and the answer after a call: inserted and new if no live entry is found, otherwise unchanged and duplicate |
| `Dedup.NewIffNoneRecent` | src/dedup.rs:38-61 | without eviction, a call is new exactly if no call for the same key was new within the preceding time to live; duplicates do not extend it |
| `Dedup.DuplicateIsNeverFalse` | src/dedup.rs:38-61 | whatever is evicted, a duplicate implies a new call for the key within the time to live |
| `Webhook.AcceptedIffClose` | src/webhook.rs:22-45 | a timestamp is accepted exactly if it is within the offset on either side, a negative offset accepts nothing, and rejections say on which side it lies, its true distance, and the offset |
| `Webhook.AcceptedInterval` | src/webhook.rs:10-45 | with a sub-second clock the accepted readings are a half-open interval of twice the offset plus one second |
| `Server.AppState.CheckRateLimit` | src/server/mod.rs:95-128 | limiter and notification cache after the check, whether to proceed, and the notice started if the sender was not just notified |
| `Server.AppState.WebhookHandler` | src/server/mod.rs:299-544 | state, reply and effects of one delivery, gate by gate, in the order of the source |
| `Server.AppState.Dispatch` | src/server/mod.rs:483-543 | allowlist, both receipts, rate limit and dispatch of a text or location |
| `Server.PassesGatesIff` | src/server/mod.rs:324-344 | a delivery gets past both gates exactly if its creation time is within the maximum age on either side and no entry for its sender and identifier is younger than the time to live |
| `Server.ReachesLimiterIff` | src/server/mod.rs:355-517 | exactly the readable texts and locations of listed senders, or of anybody if none is listed, are put to the limiter |
| `Server.StepReplies` | src/server/mod.rs:306-366 | which of the deliveries that are not readable gets which reply, each exactly |
| `Server.StepRefuses` | src/server/mod.rs:483-517 | unauthorized is the reply exactly for readable texts and locations of senders that are not in a list that is not empty, rate limited exactly for what the limiter rejects, and only the latter and bad signatures get a status other than 200 |
| `Server.StepTraceless` | src/server/mod.rs:303-344 | replies for signature, parsing, timestamp and duplicates are given exactly when a gate is not passed, and then nothing changes and nothing is started |
| `Server.StepLimiter` | src/server/mod.rs:346-517 | only readable texts and locations of allowed senders change the limiter; denied, unreadable, other and reaction deliveries do not |
| `Server.StepHandsOver` | src/server/mod.rs:494-543 | a message that reaches the limiter and is not rejected, limiting being enabled or not, is confirmed as received and as read and handed to the bot with its own context, once and in this order |
| `Server.StepTurnsAway` | src/server/mod.rs:494-517 | a rejected message is confirmed twice as well, and its sender told the wait unless told within ten seconds |
| `Server.StepHandsOverOnce` | src/server/mod.rs:519-543 | of every delivery, the number of texts and locations of a sender handed to the bot is one if it reaches the limiter and is not rejected, and otherwise zero |
| `Server.StepUnreadable` | src/server/mod.rs:346-366 | a new message without a key or that cannot be decrypted is answered so, starts nothing, leaves limiter and notifications alone, and is recorded as seen all the same |
| `Server.StepDenies` | src/server/mod.rs:483-493 | what is unauthorized has its sender told so, and nothing else |
| `Server.StepReacts` | src/server/mod.rs:373-440 | an acknowledgement is handled as thumbs up and a decline as thumbs down, of listed senders only, about each message id of the receipt in order; other receipts start nothing |
| `Server.StepStartsNothing` | src/server/mod.rs:303-543 | whatever is neither put to the limiter nor denied nor a receipt starts nothing |
| `Server.StepNotifies` | src/server/mod.rs:105-123 | of every delivery, the number of notices to a sender is one if that sender is rate limited and was not told within ten seconds, and otherwise zero |
| `Server.StepRemembersNotice` | src/server/mod.rs:105-115 | the cache of a sender is renewed exactly then |
| `ServerRuns.Erasure` | src/server/mod.rs:303-344 | erasing any of the deliveries turned away by signature, parsing, timestamp or deduplication changes neither the state nor the outcome of any other delivery |
| `ServerRuns.LimiterStateIsItsHistory` | src/server/mod.rs:346-517 | after any run the limiter is in the state its own checks put it in |
| `ServerRuns.DispatchedIffAllowed` | src/server/mod.rs:514-543 | in any run a message of a sender is handed over once if it reaches the limiter and limiting is disabled or the greedy reference allows it, and otherwise never |
| `ServerRuns.DispatchBounds` | src/server/mod.rs:514-543 | messages of one sender are handed over at most k + 1 times the minute limit often in any k minutes, and k + 1 times the hour limit often in any k hours |
| `ServerRuns.ShortDispatchBound` | src/server/mod.rs:514-543 | fewer than k + 1 times the hour limit of one sender's messages are dispatched in less than k hours, and in exactly k hours if the minute limit is below the hour limit |
| `ServerRuns.RepeatBound` | src/server/mod.rs:324-344 | one webhook (sender, id, creation time) gets past timestamp and deduplication at most floor(R/T) + 1 times, where its reach R is twice the maximum age as long as that fits 32 bits |
| `ServerRuns.DuplicateIffRecent` | src/server/mod.rs:336-344 | in any run, a delivery that passes the timestamp gate gets past deduplication exactly if no delivery of that message did within the time to live, whatever came of it; otherwise it is answered as duplicate and changes nothing |
| `ServerRuns.RateLimitedRedelivery` | src/server/mod.rs:324-344 | a webhook answered 429 and delivered again, in any run, is a duplicate until the time to live is over, has an invalid timestamp once its acceptance has ended, and gets past both gates exactly in between, unless it did so again within the time to live |
| `ServerRuns.RateLimitedReturnsIff` | src/server/mod.rs:514-517 | after a 429 some continuation of the run lets the same webhook past both gates again if and only if its time to live, and the handling of it, are over before its acceptance ends |
| `ServerRuns.RateLimitedIsLostAtDefaults` | src/server/mod.rs:210 | with the default maximum age and the fixed time to live, that is so exactly for messages vetted in or before the second of their creation, and handled within the maximum age |
| `ServerRuns.NoticesSpaced` | src/server/mod.rs:222-226 | rate-limit notices to one sender are at least ten seconds apart |
| `ServerRuns.LimitedSenderIsNotified` | src/server/mod.rs:105-123 | whenever a sender is rate limited, a notice to that sender was started then or less than ten seconds before |
| `ServerWitnesses.MinuteMaximum` | src/server/mod.rs:514-543 | for every k from 1 to 59, min((k + 1) M, 2 H - 1) bounds the messages of one sender dispatched within k minutes in any run, and a run attains it |
| `ServerWitnesses.HourMaximum` | src/server/mod.rs:514-543 | 2 H if H <= M, and min(61 M, 2 H - 1) otherwise, bounds the messages of one sender dispatched within a closed hour in any run, and a run attains it |
| `ServerWitnesses.MinutePromiseIff` | src/config.rs:257-260 | in no run and no minute more than the minute limit is dispatched, if and only if 2 H <= M + 1 or nothing is accepted at all |
| `ServerWitnesses.HourPromiseIff` | src/config.rs:262-265 | in no run and no hour more than the hour limit is dispatched, if and only if 61 M <= H or nothing is accepted at all |
| `ServerWitnesses.MinuteBoundAttainedIff` | src/rate_limit.rs:80-82 | for every k from 1 to 60, some run dispatches k + 1 times the minute limit within k minutes if and only if that is less than 2 H |
| `ServerWitnesses.MinuteBoundAttained` | src/rate_limit.rs:80-82 | for every k beyond, a run that dispatches k + 1 times the minute limit within k minutes if 60 M <= H |
| `ServerWitnesses.HourBoundAttainedIff` | src/rate_limit.rs:80-82 | for every k, some run dispatches k + 1 times the hour limit within k hours if and only if H <= M |
| `ServerWitnesses.RepeatBoundAttained` | src/server/mod.rs:324-344 | for every maximum age that is not negative, a run in which one webhook passes both gates floor(R/T) + 1 times |
| `ServerWitnesses.AtMostOnceIff` | src/server/mod.rs:324-344 | for every maximum age and time to live, no webhook passes both gates twice in any run if and only if R < T or the maximum age is negative |
| `ServerWitnesses.DefaultsAdmitThree` | src/server/mod.rs:324-344 | with the default maximum age and the fixed time to live the bound is three, and it is attained |
| `Commands.Knows` | src/commands.rs:436-448 | true exactly if some section holds a command of that name |
| `Commands.CheckSection` | src/commands.rs:456-473 | succeeds exactly if no name is `help` and none occurs twice, and otherwise reports the first fault |
| `Commands.Validate` | src/commands.rs:455-487 | succeeds exactly if every section is in order and group identifiers are unique, and otherwise reports the first fault in the order of checking |
| `Text.WhiteCharacters` | src/commands.rs:514-531 | the characters that trimming takes away and words are set off by, one by one |
| `Parsing.ResultShape` | src/commands.rs:523-563 | names in results are non-empty words other than `help`, registered or not as the result says; arguments and plain text are trimmed |
| `Parsing.Canonical` | src/commands.rs:513-563 | rendering a parsed command and parsing the text gives the same result, for every text, registry and style |
| `Parsing.ParsesDivided` | src/commands.rs:513-563 | what every text parses to that holds a word behind the prefix, in both styles, however it is divided around that word: help, a registered command, an unknown one or plain text, with its arguments |
| `Parsing.HoldsWord` | src/commands.rs:513-563 | every text can be divided so, except those without a slash, a bare slash, and in word style the empty text |
| `Parsing.HoldsNoCommand` | src/commands.rs:517-545 | and those are no command |
| `Parsing.NameIsInText` | src/commands.rs:526-561 | the name of a parsed command stands in the trimmed text behind the prefix, at most whitespace apart from it, and set off from the rest |
| `Parsing.ArgsAreTheRestIff` | src/server/handler.rs:265-267 | the arguments are the trimmed text behind the name always in word style, and in slash style if and only if no whitespace follows the slash or only whitespace follows the name; otherwise they are empty |
| `Parsing.SpaceBehindSlashDropsArgs` | src/commands.rs:531-535 | a space behind the slash leaves the name and drops the arguments, for every name and arguments |
| `Parsing.Reaches` | src/commands.rs:523-563 | the formatted name of a registered word followed by any arguments parses to that command with the arguments trimmed, and `help` always to help |
| `Parsing.ReachableIff` | src/commands.rs:455-563 | in a validated registry a registered name is returned for some text exactly if it is non-empty and free of whitespace |
| `Parsing.StylesCorrespond` | src/commands.rs:526-561 | a text means in word style what it means behind a slash in slash style, except that unknown commands become plain text |
| `Visibility.HelpVisibility.ShowGroup` | src/commands.rs:363-366 | the whole visibility after the call |
| `Visibility.HelpVisibility.HideGroup` | src/commands.rs:370-373 | the whole visibility after the call |
| `Visibility.HelpVisibility.ShowCommand` | src/commands.rs:377-380 | the whole visibility after the call |
| `Visibility.HelpVisibility.HideCommand` | src/commands.rs:384-387 | the whole visibility after the call |
| `Visibility.ResolvedByLastCall` | src/commands.rs:302-402 | visibility is what a backwards scan of the builder calls finds: the last call for the command, else the last for its group, else the base |
| `Visibility.CallIsMonotone` | src/commands.rs:361-401 | in every section show calls only add lines and hide calls only remove lines, in order, and a group call leaves all other sections as they were |
| `Help.WriteVisible` | src/commands.rs:598-603 | the loop appends exactly the lines of the visible ungrouped commands |
| `Help.WriteGroups` | src/commands.rs:605-620 | the loop appends header and visible commands of every group that has a visible command, and nothing for the others |
| `Help.HelpText` | src/commands.rs:579-624 | the buffer is the lines of description, header, help entry and visible sections, and the final trim takes away exactly one newline |
| `Help.HelpReads` | src/commands.rs:579-624 | the help text letter by letter: the description and an empty line exactly if there is one, the header, the help command, every visible ungrouped command, and every group that has a visible command with its title and visible commands |
| `HelpDecoding.HelpIsDecodable` | src/commands.rs:579-624 | a decoder recovers from the text exactly the visible sections with names and descriptions, in registration order |
| `HelpDecoding.HelpTellsVisibilitiesApart` | src/commands.rs:579-624 | two visibilities give the same text exactly if they show the same |
| `Responses.Bot.SendResponses` | src/server/mod.rs:550-598 | the acts done and the result for every pattern of failing sends and callbacks |
| `Responses.Bot.HandleAction` | src/server/mod.rs:723-754 | the acts done for each action, and the error if a send or callback fails |
| `Responses.Bot.HandleReactions` | src/server/mod.rs:420-437 | the acts done for all reactions of a receipt |
| `Responses.Bot.ProcessTextMessage` | src/server/mod.rs:601-667 | which handler call or help a text leads to, what is sent, and the error returned if a send or callback fails |
| `Responses.Bot.ProcessLocationMessage` | src/server/mod.rs:676-720 | the same for a location, which is always put to the handler |
| `Responses.StopsAtFirstFailure` | src/server/mod.rs:546-598 | send and callback alternate in order for a prefix of the responses, the first failure ends it, and the call succeeds with all identifiers exactly if nothing fails |
| `Responses.ResponsesAreSent` | src/server/mod.rs:749-751 | whenever the handler answers a call with responses, they are sent to the sender and reported pair by pair up to the first failure, and its error is returned |
| `Responses.HelpIsSent` | src/server/mod.rs:730-748 | whenever help is called for, with or without the handler, the visibility is asked for and one text sent: the prelude set off from the help this visibility shows, or the error message if there is none |
| `Responses.IgnoredOrFailed` | src/server/mod.rs:640-664 | an ignored message leads to nothing, and a failing handler to one error message |
| `Responses.ErrorIff` | src/server/mod.rs:550-754 | an error is returned exactly if a send or a report failed, for every decision |
| `Responses.ReactionIsACall` | src/server/mod.rs:420-437 | a reaction leads to what a call leads to, except that a failing handler goes unmentioned |
| `Responses.ReactionInItsPlace` | src/server/mod.rs:420-437 | what is done about each message id follows from its own answer, in its place behind the earlier ones |
| `Responses.EveryReactionIsHandled` | src/server/mod.rs:420-437 | the handler is asked about this reaction to every message id exactly once, in order, whatever failed before |
| `Responses.TypedCommandIsRouted` | src/server/mod.rs:607-639 | a typed registered word calls the handler with that name and the trimmed arguments; an unknown slash command does so only if unknown commands are handled, and otherwise calls for help that names it |
| `Responses.PlainTextIff` | src/commands.rs:526-561 | a text reaches the handler as text, trimmed, exactly if it has no slash or is a bare one, or in word style does not begin with `help` or a registered name |
| `Responses.HandlerIsAskedOnce` | src/server/mod.rs:615-664 | a handler call is made first and once, and help is answered without one |
| `Responses.HelpFailsClosed` | src/server/mod.rs:732-747 | whatever a call leads to, all that is sent goes to the sender and is a response the handler gave, the generic error, or help with the visibility the handler gave, and no help if there is none |

## Left out

- Capacity limits of the caches: evictions are covered only where a property survives them (`DuplicateIsNeverFalse`, `NoFalseRejection`).
- Deliveries handled concurrently: the runs of `ServerRuns` take one delivery at a time.
- Server.AppState.WebhookHandler: reads the clock once for timestamp and deduplication and once for limiter and notification cache, because within each pair the handler waits for nothing but a cache.
- LimiterBounds.MinuteBoundAttained: for k > 60 and 60 M > H it does not say which k attain the bound; `MostIsAllowed` gives those below 118 with (k + 1) M < 2 H, and up to 60 `MinuteBoundAttainedIff` decides every configuration.
- ServerWitnesses.MinuteBoundAttained: the same, and stated for intervals that end before creation times run out of 32 bits.
- ServerWitnesses.HourBoundAttainedIff: stated for intervals that end before creation times run out of 32 bits.
- HelpDecoding.HelpIsDecodable: names, titles and command descriptions must be single lines, names free of `*`, and no line of the bot's description may equal the header line; other texts are ambiguous.
- The builders of `Commands`: they append to lists.
- Warnings about unknown visibility identifiers, and all other logging.
- Typing indicators: their one interesting promise depends on how the async runtime aborts.
- HTTP routing, the health endpoint, configuration loading, and the client's network, encryption and image code.
- The texts of errors, beyond which error is reported.
- Several clock readings within one serial check.
