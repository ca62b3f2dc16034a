# changelogger in Dafny

changelogger is a Telegram bot. It records every message of the chats it
serves. On `/s` it picks one or more forwarded messages and asks a language
model to comment on them. Each answer is then post-processed:

- markdown links are pointed at the forwarded message's origin;
- underscores are escaped.

This project models the bot's handlers and the helpers they use, and proves
properties of them.

The modules follow the structure of the program:

- `Wrappers`: `Option` and `Result`.
- `JsStrings`: the JavaScript string built-ins the handlers depend on:
  - the white-space class shared by `\s`, `trim` and `parseInt`;
  - literal `replaceAll` and `split`;
  - `parseInt` without a radix, including the `0x` prefix, with `NaN` as `None`;
  - `String(n)`.
- `Helpers` (helpers.ts):
  - the conversation-memory shapes;
  - `getEnv` over an environment map;
  - `loadMemory` over abstract read and parse outcomes.
- `Reply` (`getReply`):
  - the completion adapter's checks;
  - the two global regular-expression link rewrites, modelled as explicit
    matchers. The `https` one is greedy up to the last `)` on the line; the
    `(source)` one ignores ASCII case;
  - underscore escaping.
- `Selection` (`/s`):
  - Mode A, the backward scan. It is a method run against the scan function
    `ScanFrom`, which reproduces the lagging fetch: id `n-1` is inspected
    twice, so a miss there counts double.
  - Mode B, the forward scan. It is a method whose window grows past stored
    entries without text, run against `ScanForward`. Its termination rests
    on the finitely many stored ids.
  - Collapsing `\n\n`, the 677-character truncation in a batch, and the
    `response +=` aggregation loop.
- `Bot`:
  - the start-up configuration;
  - the allow-list gate;
  - the forward deep link;
  - recording into the memory;
  - the effective prompt;
  - the class `ConversationMemory`, whose `chats` map is updated in place by
    the recording handler, `/sp` and `/rp`, and read by `/s`.

Quirks of the code that are modelled as they are:

- **After the Mode A loop runs out.** When all 999 iterations finish, the loop
  variable holds the entry of `n - 999`. That entry was never inspected. If it
  has text it is used even though it was not forwarded; if it is absent, the
  handler crashes with a `TypeError` (`ModeAFallback`).
- **Mode A when the previous message qualifies.** The entry right before the
  command is always inspected first. If it qualifies it is chosen, whatever
  lies further back, even when the ids below it are absent
  (`SummaryOfPrevious`).
- **Forward link chat part.** The chat part of a forward link is
  `|id + 10^12|`. For `-1001234567890` that is `1234567890`
  (`ForwardUrlExample`).
- **A single Mode B source.** It is not truncated, but its `\n\n` runs are
  still collapsed (`PrepareSources`).
- **A failed save.** The memory is changed before `saveMemory` runs. When the
  save fails, the change stays in memory. The command in the message is then
  not dispatched, and `/sp` and `/rp` send no confirmation (`Receive`,
  `SetPrompt`, `RemovePrompt`).
- **`BOT_WHITELIST`.** Its default is the empty string, which `getEnv` treats
  as no default. An unset whitelist therefore aborts start-up (`Configure`).

## Model

| member | source | states |
|---|---|---|
| JsStrings.Trim | main.ts:58 | the result is a contiguous part of the input: only white space is removed before and after it, and it neither starts nor ends with white space |
| JsStrings.Split | main.ts:201 | one more field than separators, and no field contains the separator |
| JsStrings.ParseInt | main.ts:202 | definition of `parseInt` without a radix: leading white space skipped, an optional sign, a `0x` prefix or decimal digits, `NaN` as `None`; `ParseIntNumberToString` proves it reads back every `String(n)` |
| JsStrings.ReplaceAll | main.ts:141 | definition of literal global `replaceAll`: matches found left to right without overlap; `EscapeAppend`, `CollapseKeepsText` and `CollapseThreeLineFeeds` state what it does for the two patterns used |
| JsStrings.JoinSplit | main.ts:22 | joining the fields of a split with the same separator gives back the text |
| JsStrings.SplitJoin | main.ts:22 | splitting the join of separator-free fields gives back exactly those fields |
| JsStrings.Field | main.ts:202 | field `k` exists exactly when there are at least `k` separators, and it contains no separator |
| JsStrings.NumberToString | main.ts:107 | the decimal text of an integer is non-empty and contains no space, comma or slash |
| JsStrings.ParseIntNumberToString | main.ts:202 | `parseInt` reads back exactly the integer `String` printed, negative ones included |
| Helpers.GetEnv | helpers.ts:1-8 | a present non-empty value wins over the default; otherwise a non-empty default is returned; otherwise (also for an empty default) an error naming the key |
| Helpers.LoadMemory | helpers.ts:30-51 | a missing file is parsed as `{}` and yields the empty memory; any other read failure is an "Error reading memory file" error; file contents go to the parser |
| Helpers.Eligible | main.ts:169-178 | definition: a stored message is a source when it has truthy text and was forwarded, the tests of the Mode A loop and of main.ts:210; `StoredEligibility` states what it means for a recorded message |
| Helpers.Parse | helpers.ts:43-48 | parsed data is the memory; parser rejection is an "Invalid memory file" error with the parser's message |
| Reply.Complete | main.ts:50-58 | no choices and a null first content give their two fixed errors, a request failure keeps its message, otherwise the first content trimmed |
| Reply.HttpsLinkAt | main.ts:137 | a reported match is in the language of `\]\s*\(https:\/\/.+\)`: maximal white space, no line terminator inside `.+`, closing `)` |
| Reply.HttpsLinkAtComplete | main.ts:137 | every match at a position is found, and the one found is at least as long as any match (the greedy `.+`) |
| Reply.SourceLinkAt | main.ts:138 | a reported match is `]`, white space, then `(source)` up to ASCII case |
| Reply.SourceLinkAtComplete | main.ts:138 | every `(source)` match, in any case, is found with its exact length |
| Reply.ReplaceMatches | main.ts:137-138 | definition of a global regular-expression `replaceAll`: at each position the pattern's match is replaced and scanning resumes after it; `ReplaceWithoutBracket`, `ReplaceWholeMatch` and `SourceKeepsTarget` state its behaviour |
| Reply.SourceAnyCase | main.ts:138 | `](SoUrCe)` is replaced as a whole by the link target |
| Reply.ReplaceWithoutBracket | main.ts:136-138 | text without `]` is left unchanged by either rewrite |
| Reply.LinkTarget | main.ts:137-138 | definition of the replacement text `](${source})`; `SourceKeepsTarget` states that the second rewrite leaves it alone and goes on after it, and `ForwardUrlFitsTarget` that every deep link meets its condition |
| Reply.RewriteLinks | main.ts:136-138 | definition: the `https` rewrite, then the `(source)` rewrite, both to the link target; `GetReply`, `WrongLinkRewritten` and `ReplaceWithoutBracket` state its meaning |
| Reply.SourceKeepsTarget | main.ts:136-139 | a target `](url)` inserted by the first rewrite, for a `url` starting with `h` and holding no `]`, is not rewritten again by the second, and the text after it is rewritten as on its own |
| Reply.EscapeUnderscores | main.ts:141 | definition of `replaceAll('_', '\\_')`; `EscapeShape`, `UnescapeEscape` and `EscapeNotIdempotent` state its meaning |
| Reply.EscapeAppend | main.ts:141 | escaping distributes over concatenation |
| Reply.EscapeShape | main.ts:141 | the text grows by exactly its number of underscores, and every underscore of the result is preceded by a backslash |
| Reply.UnescapeEscape | main.ts:141 | unescaping undoes escaping: no text is lost |
| Reply.EscapeNotIdempotent | main.ts:141 | escaping twice differs from escaping once |
| Reply.RawReply | main.ts:127-132 | definition: the completion text, or "Error generating reply:\n\n" followed by the error message when the request threw; `GetReply` states it through unescaping |
| Reply.GetReply | main.ts:125-144 | no unescaped `_`; after unescaping it is the raw text (no truthy source) or the raw text with both link rewrites (truthy source); a failed completion starts with "Error generating reply:\n\n" |
| Reply.WrongLinkRewritten | main.ts:135-141 | a link to another URL is pointed at the deep link and nothing else changes |
| Reply.BoldEscaped | main.ts:141 | `_bold_` is sent as `\_bold\_` even without a source |
| Selection.ScanFrom | main.ts:155-181 | a hit lies within the 999 steps, inspects an eligible entry and happens with the absent counter at most 2 |
| Selection.InspectedId | main.ts:152-176 | definition of the lagging fetch: step 0 and step 1 both inspect `n-1`, step `j > 0` inspects `n-j`; `ModeAGiveUpAfterTwoIds` shows the consequence |
| Selection.MissRun | main.ts:154-167 | the absent counter at step `j` is at most `j`; it counts the absent inspections since the last stored one, as `MissRunCounts` states |
| Selection.ModeA | main.ts:150-188 | a chosen source always has text |
| Selection.SelectPrevious | main.ts:151-188 | the loop with `previousMessage` and `noMessageCount` ends the way `ModeA` says |
| Selection.HitIsFirst | main.ts:155-180 | no step before the hit inspects an eligible entry |
| Selection.ModeANearest | main.ts:152-180 | after a `break`, the source lies 1 to 998 ids below the command, has text, was forwarded, and no id between it and the command holds an eligible message |
| Selection.MissRunCounts | main.ts:154-167 | the absent counter is above 2 exactly when the last three inspections found no entry |
| Selection.ModeAGiveUp | main.ts:154-165 | "silly" is answered exactly when three consecutive inspections find no entry before any inspection finds an eligible one |
| Selection.ModeAGiveUpAfterTwoIds | main.ts:152-165 | because `n-1` is inspected twice, absent `n-1` and `n-2` already give up |
| Selection.ModeAAfterOneMissingId | main.ts:152-180 | with `n-1` absent, an eligible `n-2` is still chosen |
| Selection.ModeAGapOfTwo | main.ts:154-180 | below a stored entry, two absent ids in a row are crossed and an eligible entry under them is chosen |
| Selection.ModeAGapOfThree | main.ts:154-167 | below a stored entry, three absent ids in a row give up |
| Selection.ModeARunsOut | main.ts:155-181 | the loop runs all 999 iterations exactly when no step inspects an eligible entry and no step follows three absent inspections |
| Selection.ModeAFallback | main.ts:181-186 | whenever the loop runs out, `n-999` decides without its forward flag being checked: crash if absent, the dummy apology without text, else that entry |
| Selection.ModeAAllStoredFallback | main.ts:152-186 | one such case: the 998 ids below the command all hold messages that are not eligible |
| Selection.Limit | main.ts:201-202 | a second token parsing to a non-zero integer gives that integer; a missing token, a `NaN` token and a token parsing to 0 give 1 |
| Selection.LimitOfZero | main.ts:202 | `/s 0` gives limit 1 |
| Selection.LimitOfNumber | main.ts:201-202 | `/s k` with a non-zero integer `k` gives limit `k` |
| Selection.ScanForward | main.ts:208-215 | the collected ids are stored, eligible, not below the start, and strictly ascending |
| Selection.Textless | main.ts:212 | definition of `msg && !msg.text`: a stored entry without text, the only kind that widens the window (`StopIndexIsWindowEnd`, `ModeBWindow`) |
| Selection.EligibleIn | main.ts:208-215 | reference definition: exactly the eligible ids of a range, ascending |
| Selection.ScanForwardIsEligibleIn | main.ts:208-215 | what the loop collects from any point is the eligible ids up to where it stops |
| Selection.StopIndexIsWindowEnd | main.ts:208-215 | while the loop runs, the window end is the limit plus the textless entries seen, and the loop stops at the first index reaching it |
| Selection.ModeBWindow | main.ts:204-215 | with a positive limit the result is every eligible id in `[original, stop)`; `stop - original` is the limit plus the stored entries without text before `stop` (absent ids and non-forwarded texts add nothing); `stop` is the first index where this holds |
| Selection.ModeBNegativeLimit | main.ts:208 | a negative limit selects nothing |
| Selection.ModeBExample | main.ts:208-215 | limit 2 from a textless id 5 scans through id 7 and selects 6 and 7 |
| Selection.ModeBIds | main.ts:204-215 | definition: the ids the Mode B loop collects, from the replied-to id with the parsed limit; `ModeBWindow` characterises them without the loop |
| Selection.SelectForward | main.ts:204-215 | the loop that increments `limit` and pushes returns the entries of `ModeBIds`, in order |
| Selection.Collapse | main.ts:220 | definition of `replaceAll('\n\n', '\n')`; `CollapseKeepsText`, `CollapseNoDouble` and `CollapseThreeLineFeeds` state its meaning |
| Selection.CollapseKeepsText | main.ts:217-222 | collapsing removes only line feeds: all other characters stay in order, and the text does not grow |
| Selection.CollapseNoDouble | main.ts:220 | text without two consecutive line feeds is unchanged |
| Selection.CollapseThreeLineFeeds | main.ts:220 | replacement is left to right without overlap: three line feeds become two |
| Selection.Truncate | main.ts:229 | short texts keep everything and get `...`; longer ones keep their first 677 characters; the result always ends with `...` |
| Selection.PrepareSources | main.ts:217-232 | same number of sources, same flags, link and sender; one source is only collapsed; in a batch every text is collapsed then truncated |
| Selection.CollapseText | main.ts:217-222 | definition of the first map: the text collapsed, every other field kept; `PrepareSources` and `CollapseKeepsText` state its meaning |
| Selection.TruncateText | main.ts:226-231 | definition of the second map: the text truncated, a missing text turned into `undefined...`; `PrepareSources` and `BatchTruncates` state its meaning |
| Selection.BatchTruncates | main.ts:224-232 | in a batch a text 700 characters long after collapsing becomes its first 677 characters plus `...` (680 characters) |
| Selection.Replies | main.ts:234-244 | definition: the reply of each source with text followed by a blank line, in order; `Aggregate`, `RepliesAppend`, `FailureDoesNotStopBatch` and `RepliesEscaped` state its meaning |
| Selection.ReplyPiece | main.ts:238-243 | definition of the loop body: nothing for a source without text, else its reply followed by a blank line; `FailureDoesNotStopBatch` and `RepliesEscaped` state its meaning |
| Selection.RepliesAppend | main.ts:234-244 | the batch reply of two runs of sources is the two batch replies concatenated |
| Selection.FailureDoesNotStopBatch | main.ts:234-244 | a failed completion (the request threw, no choices, or null content) appears inline as the error text and the replies for the later sources follow |
| Selection.RepliesEscaped | main.ts:234-244 | the batch reply has no unescaped underscore, whatever the completions said |
| Selection.Aggregate | main.ts:234-244 | the `response +=` loop yields `Replies`: each source's reply plus a blank line, in scan order, skipping sources without text |
| Bot.Whitelist | main.ts:22 | one more entry than there are commas; for decimal ids joined by commas the entries are exactly those ids (`WhitelistOfIds`), so a chat passes iff it was listed (`WhitelistAdmitsListed`) |
| Bot.WhitelistOfIds | main.ts:22 | ids listed with commas are read back exactly, one entry per id |
| Bot.WhitelistAdmitsListed | main.ts:22 | a chat id is in the parsed list iff it was listed |
| Bot.Configure | main.ts:15-23 | the first missing required variable (`BOT_WHITELIST` included, whose empty default counts as none) aborts with its error; otherwise the token, the trimmed prompt and the parsed whitelist are taken |
| Bot.Admit | main.ts:67-80 | the exact text `/json` always passes; otherwise it passes iff the chat id is listed; a refusal carries the two fixed replies |
| Bot.ForwardUrl | main.ts:104-108 | a link exists exactly when the origin chat is known and negative |
| Bot.ForwardUrlNamesOrigin | main.ts:105-107 | the link reads back as chat `abs(id + 10^12)` and the origin message id |
| Bot.ForwardUrlFitsTarget | main.ts:105-107 | every deep link starts with `h` and holds no `]`, the condition of `SourceKeepsTarget` |
| Bot.ForwardUrlExample | main.ts:106 | `-1001234567890` links as chat `1234567890` |
| Bot.ToStored | main.ts:110-118 | definition of the stored entry: the text or else the caption, the forward flag, the deep link and the sender; `StoredEligibility` states what it means for later selection |
| Bot.StoredEligibility | main.ts:110-118 | a recorded message can later be a source iff it was forwarded and has text or a caption; a forward without origin chat has no link |
| Bot.Record | main.ts:98-118 | the chat is created empty with no prompt on first sight; the entry for the id is the stored form of the message; every other entry, every other chat and the prompt are unchanged |
| Bot.IsRecorded | main.ts:88-97 | definition: every admitted message except `/start` and `/help`, whose handlers are registered before recording and do not call `next` |
| Bot.RecordIdempotent | main.ts:110-118 | recording the same message twice equals recording it once |
| Bot.RecordCommutes | main.ts:110-118 | messages with different ids or chats can be recorded in either order |
| Bot.EffectivePrompt | main.ts:148 | the chat's prompt when it is non-empty, the default otherwise |
| Bot.UsesModeA | main.ts:150 | definition: Mode A when there is no replied-to message or its id is 0 |
| Bot.SingleReply | main.ts:188 | definition: the reply for the Mode A source, with its deep link; `SummaryOfPrevious` and `SummaryEscaped` state its meaning |
| Bot.Summary | main.ts:146-244 | definition of what `/s` answers: Mode A's outcome, or Mode B's prepared sources aggregated, with the effective prompt; `Summarize` is proved to compute it, and `SummaryOfPrevious` and `SummaryEscaped` state its properties |
| Bot.SummaryOfPrevious | main.ts:150-198 | without a reply target, an eligible message right before `/s` is what is answered, with the effective prompt |
| Bot.SummaryEscaped | main.ts:146-244 | a reply `/s` sends, in Mode A or Mode B, has no unescaped underscore |
| Bot.ConversationMemory.constructor | main.ts:61 | the memory starts as loaded |
| Bot.ConversationMemory.Receive | main.ts:67-123 | a refused message gets the two replies and changes nothing; an admitted one is recorded as `Record` says, except `/start` and `/help`; it reaches the handlers registered after recording (`/s`, `/sp` and `/rp`, plus `/json`, which is not modelled) iff it was admitted, recorded and saved |
| Bot.ConversationMemory.SetPrompt | main.ts:256-272 | no reply target or a target without text leaves the memory alone with the matching explanation; otherwise only the chat's prompt changes, to the replied text, which then is the effective prompt; "Prompt set" is sent iff the save succeeds |
| Bot.ConversationMemory.RemovePrompt | main.ts:274-279 | only the chat's prompt changes, to none, so the default applies; "Prompt removed" is sent iff the save succeeds |
| Bot.ConversationMemory.Summarize | main.ts:146-244 | `/s` answers what `Summary` says, running the Mode A or Mode B loop and the aggregation loop |

## Left out

- The Telegram client. Sending replies and chat actions, the Markdown-then-plain retry (main.ts:189-196, 246-253), `bot.catch` and logging are transport concerns. `/s` outcomes are values; `Crashed` stands for a `TypeError` that ends the handler.
- The completion request (main.ts:28-48) is a parameter `api` from message and prompt to an answer. The call is treated as deterministic; the model name, temperature, token limit and system message are not modelled.
- `parseFloat` and `parseInt` of `OPENAI_TEMPERATURE` and `OPENAI_MAX_TOKENS` (main.ts:20-21) are not modelled.
- File reading and `JSON.parse` in `loadMemory` (helpers.ts:30-51) are outcome datatypes. Memory keys are integers, not the JSON object's string keys.
- `saveMemory` (helpers.ts:53-56) is not modelled: the written JSON and the file are left out. Only whether it succeeds is kept, as the `saved` parameter of `Receive`, `SetPrompt` and `RemovePrompt`. A failed save leaves the changed memory in place; the error then goes to `bot.catch`.
- `/start`, `/help` and `/json` (main.ts:82-95, 281-294) only produce fixed or diagnostic text and are not modelled. That `/start` and `/help` are registered before the recording handler, and so are not recorded, is kept (`IsRecorded`).
- Command matching and middleware order are not modelled. The inbound message carries the command the platform marked. The caller runs `Receive` first and then, when it proceeds, the command's method.
- `SetPrompt`, `RemovePrompt` and `Summarize` require the chat to be in the memory. Every command that reaches them has just been recorded.
- Handlers run one at a time. Interleaving at `await` points is not modelled.
- JavaScript numbers are unbounded integers here. Precision loss above 2^53 in ids and in `parseInt` is not modelled.
- Truncate: a Dafny `char` is a Unicode scalar value, not a UTF-16 code unit. `Truncate` keeps 677 characters where `substring(0, 677)` (main.ts:229) keeps 677 code units. So text outside the Basic Multilingual Plane is cut at a different place, and the original may split a surrogate pair, which the model cannot.
- LinkTarget: the replacement `](${source})` (main.ts:137-138) is inserted literally. JavaScript would interpret `$&`, `$1` and `$$` in it. The links `ForwardUrl` builds contain no `$`, so this only matters for other link texts.
- A message without a sender (`ctx.from` undefined) is not modelled; the recording handler would throw at main.ts:115.
- An empty `Sent` text: a Mode B `/s` whose window holds no eligible entry produces `Sent("")`, and so does a Mode A `/s` whose completion trims to the empty text (for instance `Choices([Some(" ")])`). `ctx.reply('')` (main.ts:246-253) is rejected by the platform on both attempts, so in the original no reply arrives; the model does not capture that.
- The branch of `TruncateText` for a message without text (`undefined...`) is kept but unreachable, because Mode B selects only messages with text.
