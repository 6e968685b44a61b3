# A Dafny model of the LeaF Discord bot's reply logic

The bot answers Discord messages through the OpenAI Chat Completions API. This
project models, as immutable values and pure functions, the deterministic logic
around those calls. Each part has a module:

- **TokenBudget** (`token_budget.py`) fits a prompt into a token budget:
  - it estimates the cost as `ceil(len/4)` per content, at least 1, plus 4 per message;
  - it keeps up to two system messages at the front;
  - it deletes the oldest non-system messages, never the last one;
  - as a last resort, it cuts the last message down to its trailing 80%.
- **History** (`history.py`) is the per-channel history store, a map from channel id to a FIFO capped at `2 * max_turns`. It covers:
  - the image-count note and the `"…"` placeholder;
  - the `build_messages` layout;
  - `reset`;
  - a theorem about any run of operations.
- **NonstreamReply** (`nonstream_reply.py`) is the reply pipeline:
  - the `gpt-5` rule for sampling parameters;
  - image detection and the forced switch to the vision model;
  - the retry / truncation-extension / fallback control flow over a scripted list of upstream outcomes;
  - the post-processing guard;
  - the 1900-character chunking.
- **Bot** (`bot.py`) holds the simple bot's helpers:
  - chunked sending;
  - image-attachment picking;
  - model choice;
  - multimodal user content;
  - the keyword-priority local fallback.
- **Shortcuts** (`shortcuts.py`) gives canned replies. The four anchored regexes are written out as the sets of strings they match.
- **ReplyModes** (`reply_modes.py`) is the keyword classifier that picks one of two completion ceilings.
- **Shared modules:**
  - Wrappers: `Option` and `Result`.
  - Strings: Python's `strip()` with its exact whitespace set, `in` on strings, `startswith`/`endswith`, ASCII `lower()`, and decimal rendering.
  - Chat: roles, content, messages, request, response and upstream outcome.
  - Chunking: fixed-size splitting and joining.

Things the model takes as parameters:

- **Upstream calls.** Each call is one `Outcome`, either an answer or the kind of exception it raised. The pipeline's calls consume a scripted `seq<Outcome>` in order. A call past the end of the script counts as hitting its per-try deadline.
- **Clocks.** Whether the full call beat its hard deadline is a boolean parameter.
- **Environment.** Values read from the environment (model names, ceilings, the shortcut switch) are parameters. Their defaults are constants.

Behaviour worth noting:

- The retry sleeps `1.0 + jitter` seconds between tries.
- The retry loop catches every `openai.APIError`, plus timeouts, `httpx.ReadTimeout` and `RuntimeError`.
- The extension ceiling is `min(2 * base, 2048)`. With the default ceilings this is lower than the normal try's 6000 (`NonstreamReply.ExtensionShrinksAtDefaults`).
- The fallback asks for `max(64, preview_tokens)` tokens.
- The preview call's text is never used.
- An exception outside the caught set escapes to the caller.

## Model

| member | source | states |
|---|---|---|
| `TokenBudget.CountTokens` | token_budget.py:13-14 | the estimate is the least r ≥ 1 with 4·r ≥ len(content), i.e. `max(1, ceil(len/4))` |
| `TokenBudget.CountTokensMonotone` | token_budget.py:13-14 | a longer content never gets a smaller estimate |
| `TokenBudget.MessagesTokenLen` | token_budget.py:16-20 | the prompt estimate is at least 5 per message (estimate ≥ 1 plus 4 overhead) |
| `TokenBudget.MessagesTokenLenAppend` | token_budget.py:16-20 | the estimate is a sum over messages: it is additive over concatenation |
| `TokenBudget.Partition` | token_budget.py:25-31 | head and rest together have as many messages as the input, and the head never holds more than its room |
| `TokenBudget.PartitionHead` | token_budget.py:25-31 | the head is exactly the first min(2, #system) system messages, in input order |
| `TokenBudget.PartitionRest` | token_budget.py:25-32 | the rest is a subsequence of the input, with no system message when the head has room left; there is a cut point k (where the head filled up, or the end) such that the head is the system messages before k and the rest is the other messages before k followed by the input from k on, in input order |
| `TokenBudget.PartitionRestSystems` | token_budget.py:25-31 | the system messages in the rest are exactly the input's system messages after the first len(head), in input order |
| `TokenBudget.PartitionPermutes` | token_budget.py:27-31 | head and rest hold exactly the input's messages, counted with multiplicity: every message goes to exactly one of them |
| `TokenBudget.ArrangePermutes` | token_budget.py:32 | `head + rest` holds exactly the input's messages, counted with multiplicity |
| `TokenBudget.ArrangeKeepsSystems` | token_budget.py:25-32 | `head + rest` has the input's length, and its system messages are the input's, in the same order |
| `TokenBudget.DropOldest` | token_budget.py:33-38 | deletion never goes below the start index and never empties the part from it on, so the last message survives |
| `TokenBudget.DropOldestKeepsEnds` | token_budget.py:33-38 | the messages before the start index (the head) and the last message are unchanged |
| `TokenBudget.DropOldestDeletesOldest` | token_budget.py:33-38 | the result is the part before the start index, then only the system messages of a stretch that starts there and stops before the last message, then everything after the stretch unchanged: exactly the oldest non-system messages are deleted; every shorter stretch left the prompt over budget, and the stretch ends where the prompt fits or just before the last message, so deletion stops as soon as the prompt fits |
| `TokenBudget.DropOldestKeepsSystems` | token_budget.py:34-38 | no system message is ever deleted: the system messages are identical, in order |
| `TokenBudget.DropOldestKeepsOrder` | token_budget.py:34-38 | the surviving messages before the last are a subsequence of the original ones |
| `TokenBudget.DropOldestStops` | token_budget.py:34-38 | deletion stops only within budget or when everything left between the head and the last message is a system message |
| `TokenBudget.ShortenLast` | token_budget.py:39-44 | only the last message's content changes, its role is kept, and the new content is a tail of the old |
| `TokenBudget.ShortenLastStops` | token_budget.py:39-45 | truncation ends within budget or with a last content shorter than 200 |
| `TokenBudget.ShortenLastSteps` | token_budget.py:39-44 | the last content is cut to its trailing `Shrink(len, k)` elements, the k-fold iterate of `n ↦ int(n * 0.8)`; before every one of the k steps the prompt was over budget and the content at least 200 long, and it stops once the prompt fits or the content is under 200 |
| `TokenBudget.ShortenLastKeepsSystems` | token_budget.py:39-44 | truncation keeps the system messages: all but the last unchanged, and the last keeps its role with its content cut to a tail |
| `TokenBudget.FitToBudget` | token_budget.py:22-45 | a prompt that fits comes back unchanged, and the result is empty exactly when the input is |
| `TokenBudget.FitToBudgetDeletesOldest` | token_budget.py:22-45 | over budget, the result is the arranged prompt with the non-system messages of a stretch right after the head deleted (never the last message), then the last message shortened; every shorter stretch left the prompt over budget, and the stretch ends where the prompt fits or just before the last message |
| `TokenBudget.FitToBudgetFits` | token_budget.py:22-45 | on return the prompt is within budget or its last content is shorter than 200 |
| `TokenBudget.FitToBudgetKeepsSystems` | token_budget.py:22-45 | fitting keeps every system message, in order; only the last of them can change, keeping its role, and only to a tail of its content |
| `TokenBudget.FitToBudgetKeepsHead` | token_budget.py:25-38 | when trimming happens the retained system head comes first, untouched |
| `TokenBudget.FitToBudgetKeepsOrder` | token_budget.py:25-44 | when trimming happens the surviving messages keep their arranged order and the last is the arranged last one, possibly cut to a tail |
| `Chat.KeepLast` | token_budget.py:44 | `content[-k:]` has length k and is a tail of the content, for strings and part lists alike |
| `History.Touch` | history.py:17-20 | reading a channel creates its record, empty, without changing any record that exists |
| `History.EvictOldest` | history.py:37-38 | the eviction loop leaves the newest min(len, cap) turns, in order |
| `History.Append` | history.py:32-38 | after an append the channel holds the newest 2·max_turns of its old turns plus the new one, and no other channel changes |
| `History.AppendValid` | history.py:36-38 | appending keeps every channel within 2·max_turns |
| `History.UserText` | history.py:22-27 | user text is stripped, with `" [画像xN]"` appended for N > 0 images (the note alone when the text is empty), and `"…"` when nothing is left |
| `History.ImageNoteRoundTrip` | history.py:25 | the note `" [画像xN]"` holds only digits between its prefix and `]`, and they parse back to N |
| `History.AssistantText` | history.py:29-30 | assistant text is stripped, and stored as `"…"` when empty |
| `History.AppendUser` | history.py:22-27 | the normalised user text becomes the channel's newest turn, only the newest 2·max_turns turns remain, and no other channel changes |
| `History.AppendAssistant` | history.py:29-30 | the normalised reply becomes the channel's newest turn, only the newest 2·max_turns turns remain, and no other channel changes |
| `History.BuildMessages` | history.py:40-50 | the payload is the system prompt, the stored turns in order, then the current user content; its length is the stored count plus 2 |
| `History.Reset` | history.py:52-54 | reset removes the channel's record and leaves every other channel alone |
| `History.ResetIdempotent` | history.py:52-54 | a second reset changes nothing |
| `History.StepKeepsNewest` | history.py:22-54 | each operation keeps "every channel holds the newest 2·max_turns turns of its log": appends add to the log, reads change nothing, reset empties it |
| `History.RunKeepsNewest` | history.py:32-38 | after any sequence of operations from an empty store, each channel holds exactly the newest 2·max_turns turns appended since its last reset, in order (FIFO eviction) |
| `Strings.Trim` | history.py:23 | `strip()` leaves a string with no whitespace at either end, no longer than the input, and empty exactly when the input is all whitespace |
| `Strings.TrimSlice` | history.py:23 | the stripped text is a contiguous slice of the input, and everything dropped on either side is whitespace |
| `Strings.TrimIdempotent` | history.py:30 | stripping twice is stripping once |
| `Strings.NatToStringRoundTrip` | history.py:25 | the decimal rendering of an image count parses back to the count |
| `ReplyModes.DetectHeavy` | reply_modes.py:6-7 | the regex search finds a match exactly when some keyword is a substring of the text |
| `ReplyModes.EmptyNotHeavy` | reply_modes.py:7 | an empty (or missing) text is not heavy |
| `ReplyModes.HeavyStaysHeavy` | reply_modes.py:7 | adding text on either side keeps a heavy text heavy |
| `Strings.ContainsExtended` | reply_modes.py:7 | substring containment survives adding text on either side |
| `ReplyModes.ChooseMaxOut` | reply_modes.py:9-10 | the ceiling is always one of the two configured values |
| `ReplyModes.ChooseMaxOutDecides` | reply_modes.py:9-10 | with distinct ceilings, the heavy ceiling is chosen exactly for heavy text |
| `ReplyModes.StacktraceIsHeavy` | reply_modes.py:3-10 | any text containing "stacktrace" gets 896 tokens by default |
| `Shortcuts.FirstMatch` | shortcuts.py:20-23 | the result is a reply exactly when some pattern matches, and then it is the reply of the first matching pattern |
| `Shortcuts.ShortcutReply` | shortcuts.py:12-23 | disabled, over 16 characters after stripping, or containing `?`/`？` gives None |
| `Shortcuts.ShortcutReplyCanned` | shortcuts.py:5-23 | whatever the text, a reply is one of the four canned ones |
| `Shortcuts.PatternsDisjoint` | shortcuts.py:5-10 | no text matches two of the patterns, so their order never changes a reply |
| `Shortcuts.ShortcutReplyMatches` | shortcuts.py:5-23 | a short, question-free text matching a pattern gets exactly that pattern's reply |
| `Shortcuts.ShortcutReplyNoMatch` | shortcuts.py:20-23 | a text matching no pattern gets None |
| `Shortcuts.ThanksAnyCase` | shortcuts.py:6 | "thanks" in any capitalisation, followed by up to ten half- or full-width `!`, gets "どういたしまして。" |
| `NonstreamReply.BuildRequest` | nonstream_reply.py:59-75 | sampling parameters are sent only when the model name does not start with "gpt-5"; model, messages, ceiling and forced text format are passed through |
| `NonstreamReply.SupportsTuningFamilies` | nonstream_reply.py:22-24 | every "gpt-5…" model name goes without sampling parameters, and every "gpt-4…" one (gpt-4, gpt-4o, …) takes them |
| `NonstreamReply.MessageHasImage` | nonstream_reply.py:27-40 | true exactly when some message has list content with a dict part of type image_url/input_image or with an image_url key |
| `NonstreamReply.MakePlan` | nonstream_reply.py:141-167 | with an image both models become the vision model; tries = max(1, retries + 1); the base ceiling is the heavy one exactly for "gpt-5*" full models |
| `NonstreamReply.DefaultPlan` | nonstream_reply.py:104-118 | the defaults give gpt-5 / gpt-5-mini, two tries, 6000 base tokens and 1500 preview tokens |
| `NonstreamReply.Interpret` | nonstream_reply.py:79-96 | the text is the stripped first-choice content ("" with no choices or no content), with its finish reason |
| `NonstreamReply.ExtensionCeiling` | nonstream_reply.py:189-203 | the extension asks for min(2·base, 2048) tokens without forcing the text format |
| `NonstreamReply.ExtensionShrinksAtDefaults` | nonstream_reply.py:116-118 | with the defaults the extension asks for 2048 tokens, fewer than the normal try's 6000 |
| `NonstreamReply.FallbackStep` | nonstream_reply.py:214-238 | one fallback call with the short-answer instruction appended; its non-empty text, otherwise (empty or any exception) the fixed text |
| `NonstreamReply.Attempts` | nonstream_reply.py:164-238 | every call carries the request its kind prescribes, and a returned text is non-empty and stripped |
| `NonstreamReply.Extend` | nonstream_reply.py:188-208 | the extension and what follows it carry prescribed requests, and a returned text is non-empty |
| `NonstreamReply.AttemptsTraced` | nonstream_reply.py:171-238 | call by call from any try: every call but the last gave no text and raised nothing uncaught; the last decides the result (a normal or extension call's stripped text or its uncaught exception, the fallback's text or the fixed text); an extension comes exactly after a normal call whose answer was empty and cut by the length limit, with auto_extend on; every other call is a normal try while fewer than `tries - attempt` normal calls came before it, and the fallback once they all have, and the fallback is the last call |
| `NonstreamReply.ExtendTraced` | nonstream_reply.py:188-213 | the same call-by-call description from an extension call on, with the tries after the extension's own try still available |
| `NonstreamReply.FullCall` | nonstream_reply.py:164-238 | the full call from the first try and the first outcome follows the call-by-call description, with all `tries` normal tries available |
| `NonstreamReply.FallbackOnlyAfterAllTries` | nonstream_reply.py:171-238 | the fallback is called only after all `tries` normal calls, and it is the last call |
| `NonstreamReply.ExtensionOnlyAfterCut` | nonstream_reply.py:185-205 | an extension call is always right after a normal call whose answer was empty and cut by the length limit, with auto_extend on |
| `NonstreamReply.FirstAnswerReturned` | nonstream_reply.py:171-186 | a first try with text returns it at once, after exactly one call |
| `NonstreamReply.UncaughtEscapes` | nonstream_reply.py:171-209 | at any try, an exception outside the caught set escapes after exactly that one normal call |
| `NonstreamReply.UncaughtEscapesExtension` | nonstream_reply.py:188-209 | an exception outside the caught set escapes from the extension call too |
| `NonstreamReply.TruncationExtended` | nonstream_reply.py:185-208 | at any try, an empty answer cut by the length limit, with auto_extend on, is followed by the extension and what follows it; when the extension has text, that text is returned after exactly these two calls |
| `NonstreamReply.AllFailuresExhaust` | nonstream_reply.py:164-238 | when every call fails with a caught exception, all tries run, then the fallback, and the fixed text is returned |
| `NonstreamReply.AttemptsShaped` | nonstream_reply.py:171-238 | at most one normal call and one extension per try, and at most one fallback, as the last call |
| `NonstreamReply.ExtendShaped` | nonstream_reply.py:188-209 | after an extension, at most the remaining tries' calls and one fallback, last |
| `NonstreamReply.EscapedUncaught` | nonstream_reply.py:209 | the only exceptions that escape the full call are ones outside the caught set |
| `NonstreamReply.PreviewCall` | nonstream_reply.py:146-162 | the preview uses the preview model and ceiling; an answered preview's text is the stripped first-choice content (`Interpret`), and "" on any exception |
| `NonstreamReply.Postprocess` | nonstream_reply.py:250-256 | the hook's result replaces the stripped text only when it is a non-empty string; a hook that throws leaves the text; a non-empty text stays non-empty |
| `NonstreamReply.Chunks` | nonstream_reply.py:259 | the chunks join back to the text and are at most 1900 long; an empty text is exactly one empty chunk |
| `NonstreamReply.Reply` | nonstream_reply.py:240-274 | a missed deadline sends the timeout text; in time, the reply fails exactly when the full call does, and otherwise sends the post-processed text of the full call; the sent text is non-empty and is the join of its chunks |
| `NonstreamReply.ReplyFailureEscaped` | nonstream_reply.py:209-246 | a reply in time fails only with the exception of the full call's last call, which is outside the caught set |
| `Chunking.Split` | nonstream_reply.py:259 | the pieces join back to the text and each is non-empty and at most n long |
| `Chunking.SplitFullPieces` | nonstream_reply.py:259 | every piece but the last is exactly n long |
| `Chunking.SplitShort` | bot.py:45-46 | a non-empty text of at most n characters is sent as one piece |
| `Bot.ChunkedSend` | bot.py:44-46 | the pieces sent join back to the text, are at most 1900 long, and none is sent for empty text |
| `Bot.ImageUrlsSound` | bot.py:52-56 | every listed URL belongs to an attachment that is an image by content type or extension |
| `Bot.ImageUrlsComplete` | bot.py:52-56 | every image attachment's URL is listed |
| `Bot.PickImageUrls` | bot.py:48-59 | the result is the first max(1, limit) image URLs in attachment order, so at most limit for a positive limit, and empty without attachments |
| `Bot.ChatModel` | bot.py:63 | with distinct model names, the vision model is chosen exactly when there are image URLs |
| `Bot.UserContent` | bot.py:66-78 | the user content is never empty; with no text and no images it is the persona text alone |
| `Bot.UserContentRoundTrip` | bot.py:66-78 | the text and the URLs, in order, can be read back from the user content, which holds one part per URL plus one for a non-empty text |
| `Bot.LocalFallback` | bot.py:105-113 | the reply is decided by the first keyword group present ("なにしてる"/"何してる", then 犬, then 猫), otherwise the default; it is never empty |
| `Bot.DogBeforeCat` | bot.py:107-112 | "猫と犬" gets the dog reply: the keyword priority, not the position in the text, decides |
| `Bot.ChatComplete` | bot.py:61-103 | the request carries persona and user content with 2896 tokens; the reply is the stripped first-choice answer whenever that is non-empty, and the local fallback otherwise (no choice, an empty answer, any exception) |

## Left out

- `concurrency.py`: a global semaphore and per-key locks; their only role is scheduling concurrent work.
- The asyncio lock in the history store only serialises access. Each store operation is modelled as one atomic transition.
- Timing: `asyncio.timeout`, `wait_for` and the jitter sleep between tries. A per-try timeout is one more outcome (`DeadlineExceeded`), and the hard deadline is a boolean parameter.
- The exact `tiktoken` tokenizer: it is an optional library. Only the character-based fallback estimate is modelled.
- The OpenAI and httpx clients are replaced by scripted outcomes. Logging, Discord I/O, the event handlers, start-up checks and the `my_msgs` bookkeeping are not modelled. The `BASE_PERSONA` text is a parameter.
- In the reply pipeline, the preview task runs concurrently and its text is never read. It is modelled on its own (`NonstreamReply.PreviewCall`), with its own outcome.
- In the simple bot, `on_message` is an event handler around `_chat_complete` and `_chunked_send`, with a 60-second deadline. Its sends are Discord I/O.
- `fit_to_budget` mutates the caller's message dicts in place. The model returns a new sequence, and aliasing is not modelled.
- `TokenBudget.ShortenLast`: `int(len(c) * 0.8)` is modelled as `len * 4 / 5`. The double 0.8 exceeds 4/5 by less than 4.5·10^-17. For a length n below 2^49 the computed product therefore differs from the exact 4n/5 by less than 0.025 plus half an ulp (at most 2^-5), and it never drops below 4n/5 when 4n/5 is an integer. A non-integral 4n/5 is at least 1/5 away from the integers on either side, so the floor is the same. The two agree for every length below 2^49.
- `History.Append`: `max_turns` is a natural number. A negative value makes `popleft` on an empty deque raise in the source.
- Text may be `None` in the source (`text or ""`). Here strings are always present, so a missing text is the empty string.
- Strings are sequences of code points. `lower()` is modelled for ASCII letters only. The `re.I` match of "thx|thanks" covers ASCII case plus the two non-ASCII letters that case-fold onto its letters (U+017F, U+212A).
- A `postprocess` hook that returns a truthy non-string is not modelled. Hooks return a string or throw.
- `Strings.TrimIdempotent` and `Strings.Trim` model Python's `strip()` over its whitespace set as code points. Unicode normalisation is not modelled.
