# Telegram hybrid forwarder — routing model

A Dafny model of the decision logic of `hybrid.js`, a personal script that joins
a Telegram user account (the account client) and a bot (the Bot API):

- messages posted in a configured set of monitored chats are forwarded to the bot
  when they pass a keyword filter (the client flow);
- messages the operator sends to the bot are mirrored: forwarded back into the
  same chat and the original deleted, with a set of processed message ids
  guarding against acting twice (the bot flow), emptied by an hourly cleanup once
  it holds more than 1000 ids.

Everything is pure functions over immutable data. The two Telegram libraries are
not modelled. `getEntity` is a lookup function passed as a parameter
(`ChatRegistry.Lookup`). Whether the Bot API's forward and delete succeed is
an input of `BotMirror.HandleBotMessage`. The client's forward appears as the
`Forward` decision of `ClientForward.Decide`, and its success or failure is an
input of `ClientForward.HandleClientEvent`.

Modules, one per component of the script:

- `Text`: `trim` (the ECMAScript whitespace set), ASCII `toLowerCase`,
  `split(',')` with its inverse `Join`, and `includes`.
- `Config`: parsing MONITORED_CHAT_USERNAMES and FILTER_KEYWORDS.
- `KeywordFilter`: `applyFilters` and the `find` that picks the logged keyword.
- `ChatRegistry`: resolving configured chat names to ids and display names.
- `BotMirror`: the bot `message` handler, its dedup set and the cleanup step.
- `ClientForward`: the account-client event handler.
- `Scenarios`: worked examples (mirroring "hello" once, "urgent" matching,
  "routine update" dropped, one unresolvable chat).
- `Wrappers`: `Option`, for JavaScript's absent values.

A consequence the model makes explicit: a blank piece in FILTER_KEYWORDS, for
example from a trailing comma, becomes the empty keyword. The empty keyword
occurs in every text, so filtering is then off (`KeywordFilter.TrailingCommaPassesEverything`).

## Model

| member | source | states |
|---|---|---|
| Text.Trim | hybrid.js:16 | `trim` leaves no whitespace margin and keeps only characters of its input |
| Text.TrimIsSlice | hybrid.js:16 | the trimmed string is the slice of the input between an all-whitespace prefix and an all-whitespace suffix |
| Text.ToLower | hybrid.js:18 | lower-casing keeps the length, leaves no upper-case letter, shifts exactly the upper-case letters and keeps every other character |
| Text.ToLowerFixedPoints | hybrid.js:18 | lower-casing is the identity exactly on strings with no upper-case letter |
| Text.ToLowerIdempotent | hybrid.js:18 | lower-casing an already lower-cased string changes nothing |
| Text.Split | hybrid.js:16-18 | `split(',')`: at least one piece; with `JoinSplit` and `SplitSeparatorFree`, the comma-free pieces, in order, that join back to the string |
| Text.JoinSplit | hybrid.js:16 | joining the pieces of `split(',')` with commas gives back the original string |
| Text.SplitJoin | hybrid.js:18 | splitting comma-free pieces joined with commas gives back those pieces, in order |
| Text.SplitSeparatorFree | hybrid.js:18 | no piece of `split(',')` contains a comma |
| Text.TrailingSeparatorGivesEmptyPiece | hybrid.js:18 | a string ending in a comma splits with an empty last piece |
| Text.Includes | hybrid.js:29 | `includes(k)` holds iff `k` occurs at some position; the empty keyword occurs everywhere |
| Config.NormalizeAll | hybrid.js:16-18 | the `.map` of the pieces: one entry per piece, entry i being piece i trimmed (then lower-cased for keywords) |
| Config.ParseList | hybrid.js:15-18 | an absent or empty variable gives `[]`; otherwise one cleaned entry per comma-separated piece, in order |
| Config.ParsedEntriesAreClean | hybrid.js:15-18 | every parsed entry is trimmed and comma-free, and lower case for keywords |
| Config.MonitoredChatUsernames | hybrid.js:15-16 | one trimmed, comma-free chat name per piece |
| Config.FilterKeywords | hybrid.js:17-18 | one trimmed, lower-case, comma-free keyword per piece |
| Config.KeywordsRoundTrip | hybrid.js:17-18 | writing canonical keywords comma-separated and parsing them back gives the same list |
| Config.TrailingCommaAddsEmptyKeyword | hybrid.js:17-18 | a trailing comma puts the empty keyword in the list |
| KeywordFilter.AnyKeywordIn | hybrid.js:29 | `some` holds iff some configured keyword is included in the text |
| KeywordFilter.ApplyFilters | hybrid.js:27-30 | an empty list passes every text; otherwise the filter passes iff some keyword occurs in the text |
| KeywordFilter.MatchedKeyword | hybrid.js:157 | the keyword `find` returns is the first keyword in configured order that the text includes, absent iff none is included |
| KeywordFilter.MatchAgreesWithFilter | hybrid.js:154-157 | with keywords configured the filter passes iff `find` returns a keyword; with none, `find` returns nothing |
| KeywordFilter.EmptyKeywordPassesEverything | hybrid.js:28-29 | an empty keyword in the list makes the filter pass every text |
| KeywordFilter.TrailingCommaPassesEverything | hybrid.js:17-18 | a FILTER_KEYWORDS value ending in a comma lets every text through |
| KeywordFilter.IncludesIgnoringCase | hybrid.js:154 | searching the lower-cased text finds `k` iff `k` occurs in the original text letter-by-letter after case folding |
| KeywordFilter.FilterIsCaseInsensitive | hybrid.js:154-155 | filtering the lower-cased text is a case-insensitive substring test of the original text |
| ChatRegistry.DisplayName | hybrid.js:73 | the display name is the title if non-empty, else the username if non-empty, else the configured name, and is empty only when all three are |
| ChatRegistry.Resolve | hybrid.js:66-78 | every configured name yields exactly one id or one warning, and the name map covers exactly the resolved ids |
| ChatRegistry.ResolveConcat | hybrid.js:68-78 | resolving `a + b` is resolving `a` then `b`: ids and warnings concatenate in order, later display names win |
| ChatRegistry.ResolveSingle | hybrid.js:69-77 | one name gives its entity's id and display name, or one warning |
| ChatRegistry.FailingNameSkipped | hybrid.js:69-77 | a name whose lookup fails only adds its warning; ids and names are those of the remaining names |
| ChatRegistry.MonitoredIds | hybrid.js:70-72 | an id is monitored iff some configured name resolves to it |
| ChatRegistry.DisplayNameOfLastResolution | hybrid.js:73 | the name kept for an id is that of the last configured name resolving to it |
| ChatRegistry.ResolveChats | hybrid.js:66-78 | the loop over configured names builds exactly the registry `Resolve` describes |
| BotMirror.MirrorStep | hybrid.js:106-121 | mirrors iff chat and sender are the operator, sender is not the bot, and the id is new; then the id is added, otherwise the set is unchanged |
| BotMirror.RedeliveryIsNoOp | hybrid.js:117-121 | handling the same update again changes nothing and acts on nothing |
| BotMirror.BotIdCheckMattersOnlyWhenIdsCoincide | hybrid.js:108-115 | the bot-id check changes the decision only when the bot's id equals the operator's, and then nothing is mirrored |
| BotMirror.HandleBotMessage | hybrid.js:106-131 | the new set does not depend on whether forward or delete fail; an accepted update issues exactly forward then delete when the forward succeeds and the forward alone when it fails; failures are logged |
| BotMirror.MirrorOncePerEpoch | hybrid.js:117-121 | between cleanups every id is mirrored at most once, never one already processed, only for own messages; the final set is the old set plus the mirrored ids |
| BotMirror.Cleanup | hybrid.js:182-186 | the cleanup only ever empties the set, leaves at most 1000 ids, and keeps a set of at most 1000 unchanged |
| BotMirror.CleanupClearsExactlyAboveThreshold | hybrid.js:183-185 | the set becomes empty exactly when it held more than 1000 ids (or was empty) |
| BotMirror.ReprocessedAfterClear | hybrid.js:183-184 | after a cleanup that emptied the set, a redelivered own message is mirrored again |
| ClientForward.SourceChat | hybrid.js:139-146 | the origin chat is the channel id if present, else the group id, else none |
| ClientForward.FilterText | hybrid.js:154 | the filtered text is the lower-cased message text, or empty when the text is missing |
| ClientForward.Decide | hybrid.js:134-158 | forwards iff the origin chat exists, is monitored and the filter passes; the forward carries that chat, the message id and peer, the keyword `find` returns and the keyword the log line names; the drop reason says which check failed |
| ClientForward.LoggedKeyword | hybrid.js:158 | the log line names the matched keyword only when it is non-empty; an empty or absent match logs plain "Forwarding" |
| ClientForward.LoggedKeywordOfForward | hybrid.js:154-158 | a forward's log line names a keyword iff keywords are configured and the first one found is non-empty; a leading blank keyword makes every forward log "Forwarding" |
| ClientForward.HandleClientEvent | hybrid.js:160-168 | a forwarded message issues exactly one forward request by origin peer and message id, a dropped one none; a failed request is logged and swallowed |
| ClientForward.ForwardSafety | hybrid.js:148-158 | nothing outside the monitored chats is forwarded; without keywords every monitored message is forwarded and no keyword is found or logged; with keywords `find` always returns one of them for a forward |
| ClientForward.ForwardedIffKeywordOccurs | hybrid.js:153-155 | with keywords, a monitored message is forwarded iff one of them occurs in its text ignoring case |
| ClientForward.MissingTextIsEmpty | hybrid.js:154 | a message without text is decided like one with empty text |
| ClientForward.CaseDoesNotMatter | hybrid.js:154 | texts that differ only in letter case are decided alike |
| Scenarios.MirrorHelloOnce | hybrid.js:106-131 | the operator's message is forwarded then deleted once; its redelivery issues no request |
| Scenarios.UrgentNewsForwarded | hybrid.js:153-158 | with FILTER_KEYWORDS "urgent", "this is urgent news" is forwarded and logged as matching "urgent" |
| Scenarios.RoutineUpdateDropped | hybrid.js:153-155 | with FILTER_KEYWORDS "urgent", "routine update" is dropped by the filter |
| Scenarios.OneChatMissing | hybrid.js:68-78 | with one of two chats unresolvable, the other is still monitored and the first is reported missing |

## Left out

- Account-client start-up, login prompts and the connection (hybrid.js:32-52): foreign library and interactive I/O.
- Writing the new session string into `.env` (hybrid.js:54-63): a regex replacement and file I/O.
- Fetching the bot's identity and the bot's entity, and the exit with code 1 when either fails (hybrid.js:80-99): calls into the Bot API and the client. The model takes the resolved ids as the `Identities` input.
- The Bot API `forwardMessage`/`deleteMessage` and the client `forwardMessages` calls themselves (hybrid.js:125-126, 161-164): only the requests issued are modelled, with the success or failure of each as an input of `BotMirror.HandleBotMessage` and `ClientForward.HandleClientEvent`. A failure is only logged (hybrid.js:128-129, 166-167); its error text is not modelled.
- The subscription pre-filter `new NewMessage({ chats: chatIds })` (hybrid.js:169): the handler re-checks membership itself, and that check is modelled.
- Log and console output (hybrid.js:74, 76, 101-103, 158, 167): the text of the lines is not modelled. The keyword the line at 158 names is returned as `Forward.logged`. Failed chat names are returned as `Registry.missing`. A failed mirror request is returned as `Handled.errorLogged`.
- SIGINT handling and `process.exit` (hybrid.js:174-179): process lifecycle.
- The hourly scheduling of the cleanup (hybrid.js:182, 186): only the timer body is modelled. The period is the constant `CleanupIntervalMs`.
- Interleaving of the asynchronous handlers: each handler's check-and-insert on the processed set runs without a suspension point, so handling updates one after another is faithful.
- The BigInt/number representation of ids (`entity.id.value || entity.id`, `.value` at hybrid.js:71, 141, 143; the client's `me.id` at hybrid.js:51 compared with `!==` against the Bot API's `msg.chat.id`, `msg.from.id` and `botId` at hybrid.js:108 and 113): ids are unbounded integers and equal ids compare equal. If the client library returned a non-number `me.id`, the check at line 108 would reject every update; that library is not part of this model.
- A bot update without `from`: when its chat is the operator's, reading `msg.from.id` at hybrid.js:108 throws a TypeError outside the `try` (not logged as "Bot error"), otherwise line 108 returns first; in both cases nothing is mirrored. The model's `BotMessage` always carries a sender.
- Text.ToLower: folds ASCII letters only. JavaScript's `toLowerCase` also folds non-ASCII letters, whose Unicode case mapping is not modelled.
- Strings are sequences of Unicode scalar values, not UTF-16 code units: the model does not represent lone surrogates.
