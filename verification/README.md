# chat-cast-studio core, modelled in Dafny

chat-cast-studio turns an exported chat transcript into a podcast script. It also reads a script back through the browser's speech engine. The repository holds two generations of its services: the older one under `services/` and the newer one under `src/services/`. Their rules differ, so this project models both. It covers the pure, sequential logic of both generations:

- **Playback controller** (`src/services/audioService.ts`, module `Playback`).
  - A controller with three states, a segment cursor and a stop request. It walks the script segments in order and asks the speech adapter to read each one.
  - Every public operation is a function from the controller to the controller after it, plus a trace of what it did: state and segment callbacks, engine cancels, speech requests and the timer `seek` sets.
  - The `play` loop is cut at its only suspension point, the awaited speech request. Whatever the environment does while the loop waits is applied to the controller before `Resume` continues the loop with the request's outcome.
  - Nothing in the code stops two loops from waiting at once, and nothing in the model claims otherwise.
- **Chat-log parsers.**
  - `parseTxt` and `processCodeBlocks` are character-for-character the same in both generations. Each is modelled once, in modules `ChatText` and `CodeBlocks`.
  - The newer `parseJson`/`parseTextContent` is modelled in `Parser`: project files, legacy scripts and chat arrays. So are the project file that `saveProjectToFile` writes and its file name.
  - The older array-only versions are in `LegacyParser`.
  - `JSON.parse` is not modelled. Its outcome is a parameter over the `Json` datatype of module `JsonValue`, and `None` stands for a syntax error.
  - The voice mapping's `Map` is saved as `Array.from(map.entries())` and loaded with `new Map(entries)`. Module `JsMap` models both directions.
- **Chat statistics** (`ChatAnalysis`, `LegacyAnalysis`).
  - Speakers are the distinct roles in order of first appearance.
  - The statistics also count messages, words, code blocks and code words.
  - The duration estimate is `max(1, round(prose words / 150))`, computed exactly on integers.
  - The prose-to-code ratio is given as text.
- **Serialisers.**
  - The WebVTT subtitles of `exportProject`, with the timestamp shape of section 4.1 of the W3C WebVTT specification, plus the package's file list and name (`Subtitles`).
  - The plain-text script download and its file name (`ScriptDownload`).
  - `stitchAudio` and the 44-byte RIFF/WAVE PCM header with interleaved 16-bit samples of `audioBufferToWav` (`Wav`).
- **Speech adapters** (`Speech`, `BrowserTts`, `LegacyBrowserTts`).
  - `getBrowserVoices` with its voice cache.
  - `browserTextToSpeech` as a pure function. It takes the text, the engine's `speaking`/`pending`/`paused` flags and the voice list. It returns the engine commands issued (`cancel`, `resume`, `speak`) and how the request settles.
- **Logging services** (`LogBuffer`, `Logging`, `LegacyLogging`).
  - An append-only buffer with a cap, which drops its oldest entry on overflow.
  - A listener set that keeps insertion order.
  - The newer service hands out copies of the buffer; the older one hands out the buffer itself.

Shared helpers:
- `Outcomes`: `Option`/`Result`.
- `JsText`: JavaScript white space, `trim`, `split`, `join`, word splitting and ASCII case mapping.
- `Numerals`: `toString` and `padStart` on integers.

Some of the code's behaviour is easy to expect otherwise. The model follows the code:
- Inline backticks are not stripped from spoken text. `play` hands `editedLine ?? line` to the adapter unchanged (`src/services/audioService.ts:84-91`).
- Not every segment start is published. `setCurrentSegment` fires only when the cursor changes. A `play()` that resumes at the segment the cursor already marks therefore reports no callback for it (`Playback.Moves`).
- A second `play()` does not end the running session. `play()` while playing is ignored (`src/services/audioService.ts:44-47`).
- `analyzeScript` reads a `sections` field (`src/services/analysisService.ts:59`). The legacy-script branch of `parseJson` builds a script with `segments` only. So a legacy script's analysis is always the empty one, and the model takes `sections` as a parameter.

## Model

| member | source | states |
|---|---|---|
| Numerals.NatToString | services/exportService.ts:63-66 | `n.toString()` of a non-negative integer is a non-empty string of digits, with no leading zero unless it is `0`, and its digits denote `n` |
| Numerals.NatToStringLength | services/exportService.ts:63-66 | a number below 10^k prints with at most k digits, so the minute, second and millisecond fields never need more than their padded width |
| Numerals.PadStart | services/exportService.ts:63-66 | `padStart(w, '0')` keeps the text as a suffix, fills only `'0'` before it, and is exactly `max(|s|, w)` long |
| Numerals.LeadingZerosValue | services/exportService.ts:63-66 | zeros put in front of a numeral do not change the number it denotes |
| Numerals.Padded | services/exportService.ts:63-66 | the padded numeral is all digits, denotes `n`, is at least `w` long, and exactly `w` long when `n < 10^w` (so the hour field grows instead of being cut) |
| JsonValue.Field | src/services/parserService.ts:49 | a property read on a parsed value finds something exactly when the value is an object holding that key |
| JsonValue.ToJsString | src/services/parserService.ts:170 | `String(v)` throws exactly when the value is an object with its own `toString`, or an array holding one at any depth; text prints as itself, any other object as `[object Object]`, an empty array as `""` |
| JsonValue.Spread | src/services/parserService.ts:51-54 | `{...v}` copies an object's own fields; for an array or a string, exactly the index numerals, each naming its element or one-character string; for any other value, nothing |
| JsMap.Set | src/services/parserService.ts:53 | `Map.set`: an existing key keeps its position and takes the new value, a new key goes last, other entries are untouched, and keys stay distinct |
| JsMap.FromEntryList | src/services/parserService.ts:53 | `new Map(entries)` yields distinct keys, never more entries than pairs given, or throws |
| JsMap.FromIterable | src/services/parserService.ts:53 | `new Map(x)` on `undefined`, `null`, an array or a string always has distinct keys when it succeeds |
| JsMap.ToEntries | src/services/parserService.ts:206 | `Array.from(map.entries())` is one `[key, value]` pair per entry, in insertion order |
| JsMap.EntriesRoundTrip | src/services/parserService.ts:206-210 | saving a Map as entry pairs and loading them with `new Map(...)` (line 53) gives back the same Map |
| JsMap.RepeatedKeyKeepsLast | src/services/parserService.ts:53 | when a key repeats among the saved pairs, the loaded Map has one entry for it, holding the last value |
| JsText.Trim | src/services/parserService.ts:125 | `trim()` leaves no white space at either end, never grows, and is empty exactly for a blank text |
| JsText.JoinSplit | src/services/parserService.ts:100 | the pieces of `split('\n')` joined with `'\n'` give back the text: no character is lost or invented |
| JsText.SplitPiecesFree | src/services/parserService.ts:174 | no piece of `split(CODE_FENCE)` contains the fence |
| JsText.SplitJoinChar | src/services/parserService.ts:100 | splitting on a one-character separator undoes joining with it when no piece contains that character |
| JsText.WordsEmptyIffBlank | src/services/analysisService.ts:22 | `split(/\s+/).filter(Boolean)` is empty exactly when the text is all white space |
| JsText.WordsCoverText | src/services/analysisService.ts:22 | the words, glued back together, are exactly the text's non-white-space characters in order |
| JsText.ToLower | src/services/parserService.ts:110 | `toLowerCase()` keeps the length and maps each character on its own |
| JsText.ToUpper | components/ScriptPreview.tsx:17 | `toUpperCase()` keeps the length and maps each character on its own |
| ChatText.LowerRole | src/services/parserService.ts:110 | the lower-cased word of a matching line is a role name: non-empty, all `\w`, no upper-case letter |
| ChatText.MatchRole | src/services/parserService.ts:105 | a match of `^(\w+):\s*(.*)` has the lower-cased leading word run, a colon right after it, and content that starts with no white space and holds no line terminator |
| ChatText.MatchRoleExact | src/services/parserService.ts:105-110 | every line `word:` + white space + text (+ a line terminator and anything) matches, with that word lower-cased as role and that text as content |
| ChatText.BlankLineUnmatched | src/services/parserService.ts:105 | a blank line never opens a message |
| ChatText.Step | src/services/parserService.ts:105-113 | one line of the loop: a match closes the open message and opens a new one; otherwise the line is appended to the open message after `'\n'`, or dropped when none is open |
| ChatText.Continue | src/services/parserService.ts:104-118 | with a message open, the rest of the lines give one message per matching line plus the open one, which keeps its role |
| ChatText.Collect | src/services/parserService.ts:104-118 | with no message open, the lines give exactly one message per matching line, each with a role name |
| ChatText.SkipUnmatched | src/services/parserService.ts:104-113 | lines that do not match before the first matching line are dropped |
| ChatText.ContinueUnmatched | src/services/parserService.ts:111-113 | when no later line matches, the open message takes every remaining line, each after a `'\n'` |
| ChatText.ContinueAllMatch | src/services/parserService.ts:106-110 | when every line matches, every line becomes its own message |
| ChatText.Drafts | src/services/parserService.ts:99-123 | the collected messages are empty exactly when no line matches and the text is blank; otherwise every role is a role name |
| ChatText.Trimmed | src/services/parserService.ts:125 | the messages handed to `processCodeBlocks` keep count, order and roles, and hold string contents |
| ChatText.ParseTxtFallback | src/services/parserService.ts:120-125 | with no `role:` line, a text that is not blank becomes one `user` message holding the whole trimmed text, cut at its fences |
| ChatText.ParseTxtBlank | services/parserService.ts:83-88 | a blank text gives no messages at all |
| ChatText.ParseTxtClean | src/services/parserService.ts:125 | every message `parseTxt` returns has non-empty, trimmed content |
| ChatText.ParseTxtRoles | services/parserService.ts:67-88 | every role `parseTxt` returns is `user` or the lower-cased word of a `role:` line |
| ChatText.ProcessedRoles | src/services/parserService.ts:179-190 | fence splitting keeps role names: every part carries its message's role |
| ChatText.RenderedLine | src/services/parserService.ts:105 | a message written as one `role: content` line matches back to the same role and content |
| ChatText.RenderRoundTrip | src/services/parserService.ts:99-118 | messages written as `role: content` lines, one per line, are collected back unchanged |
| ChatText.CollectLoop | services/parserService.ts:67-81 | the line loop as written, closing the last open message after it, collects exactly the messages of the recursive definition |
| ChatText.ParseTxtLoop | src/services/parserService.ts:99-126 | `parseTxt` as written (loop, fallback, trim, fence split) agrees with the functional definition on every text |
| CodeBlocks.CleanIsTrimmed | src/services/parserService.ts:178-179 | a non-empty text with no white space at either end is its own `trim()` |
| CodeBlocks.FirstLine | src/services/parserService.ts:187 | `part.split('\n')[0]` is a prefix of the part |
| CodeBlocks.CodeOf | src/services/parserService.ts:187-188 | the code of a part after an opening fence is empty or non-empty and trimmed |
| CodeBlocks.PartMessages | src/services/parserService.ts:177-193 | the part at an even index yields a prose message, one at an odd index a code message; an even part yields nothing exactly when it is blank; every output has the source role and clean content |
| CodeBlocks.PartsFrom | src/services/parserService.ts:176-195 | the parts give at most one message each, with the source role and clean content |
| CodeBlocks.ProcessMessage | src/services/parserService.ts:166-195 | for a message on which `String` does not throw: the output keeps its role; for string content every content is clean; for other content it is one message with `String(content)`, or none for a falsy one |
| CodeBlocks.ProcessCodeBlocksChecked | src/services/parserService.ts:164-172 | `processCodeBlocks` throws the `TypeError` exactly when some message has truthy non-string content on which `String` throws; otherwise it gives the throw-free output, message by message |
| CodeBlocks.ProcessedMessagesClean | src/services/parserService.ts:164-198 | when every input holds text, every output content is non-empty and trimmed |
| CodeBlocks.ProcessAppend | src/services/parserService.ts:165-197 | messages are processed independently and their outputs appear in input order |
| CodeBlocks.ProcessSingle | src/services/parserService.ts:166-196 | one message in gives exactly that message's parts out |
| CodeBlocks.Prose | src/services/parserService.ts:177-180 | a text without a fence gives one trimmed prose message, or none exactly when it is blank |
| CodeBlocks.NoFence | src/services/parserService.ts:174-180 | a content with no backtick stays one piece: one trimmed prose message, or none if blank |
| CodeBlocks.SplitThree | src/services/parserService.ts:174 | three backtick-free pieces joined by two fences split back into those three pieces |
| CodeBlocks.CodeAfterTag | src/services/parserService.ts:187-188 | a trimmed language tag on its own first line is cut away exactly, leaving the trimmed code |
| CodeBlocks.SpacedLanguageTag | src/services/parserService.ts:187-188 | with a space before the tag, the cut counts from the start of the part, so the tag's last character stays with the code |
| CodeBlocks.PartsOfThree | src/services/parserService.ts:176-195 | a three-part content gives the prose before, the code between, the prose after, in that order |
| CodeBlocks.TextParts | src/services/parserService.ts:174-176 | a text content is handled part by part, in split order |
| CodeBlocks.TaggedCodePart | src/services/parserService.ts:186-191 | a code part with a trimmed tag line yields the trimmed code after that line as a code message, or nothing if it is blank |
| CodeBlocks.FencedBlock | src/services/parserService.ts:174-193 | ``before ```lang\ncode``` after`` gives the prose before, then the code without its tag, then the prose after |
| CodeBlocks.EmptyArrayContent | src/services/parserService.ts:167-172 | an empty-array content is truthy yet prints as `""`, so it yields a message with empty content |
| CodeBlocks.EmitPart | src/services/parserService.ts:177-192 | the inner loop body with its `inCodeBlock` flag emits what the part's index prescribes |
| CodeBlocks.Toggle | src/services/parserService.ts:193 | flipping `inCodeBlock` after every part past the first keeps it true exactly at even indices above zero |
| CodeBlocks.SplitContentLoop | src/services/parserService.ts:174-195 | the inner loop as written gives the same messages as the part-by-part definition |
| CodeBlocks.ProcessOne | src/services/parserService.ts:166-195 | the outer loop body for one message throws exactly when `String` throws on its content, and otherwise gives that message's parts |
| CodeBlocks.ProcessCodeBlocksLoop | services/parserService.ts:125-159 | `processCodeBlocks` as written, pushing as it goes and leaving at the first throw, gives the same messages or the same error as the recursive definition |
| Parser.ContentOf | src/services/parserService.ts:83 | `item.content \|\| ''` is truthy or the empty string |
| Parser.Items | src/services/parserService.ts:81-84 | the array map succeeds exactly when no item is `null`; it then keeps count and order, with role defaulting to `unknown` and content to `''`; a failure is the one parse error |
| Parser.LoadProject | src/services/parserService.ts:49-60 | a project file loads exactly when `new Map(voiceMapping)` succeeds; the script and analysis are then the file's, the configuration keeps every other own field of `podcastConfig` and holds the voice mapping as a Map with distinct keys; otherwise it is the one parse error |
| Parser.ParseJson | src/services/parserService.ts:44-94 | a syntax error or `null` is the one parse error; a project file loads as a project before anything else; otherwise a legacy script is read with its id, title, hook, segments and analysis; an array succeeds exactly when no item is `null` and `String` throws on no content, as the fence-split messages of its items; anything else is the one parse error |
| Parser.LegacyRecord | src/services/parserService.ts:64-70 | a legacy script keeps its title, hook and segments, and its id when truthy, else the current time |
| Parser.NoJsonWithoutCue | src/services/parserService.ts:29-38 | without the hint, and with no leading `{` or `[` after trimming, the JSON result is never consulted and the text parser decides |
| Parser.SyntaxErrorFallsBack | src/services/parserService.ts:29-36 | a JSON syntax error falls back to `parseTxt` |
| Parser.NullItemFails | src/services/parserService.ts:81-93 | a `null` item anywhere in a chat array makes the whole file fail with the one parse error |
| Parser.EmptyItemVanishes | src/services/parserService.ts:81-85 | an item with neither role nor content becomes `unknown` with content `''` and yields no message |
| Parser.ChatArray | src/services/parserService.ts:79-86 | an array of objects is read as a chat, each item through the defaults and fence splitting, unless `String` throws on a content, which fails the file |
| Parser.ToStringContentFails | src/services/parserService.ts:29-36 | a content object with its own `toString` (line 170) makes the chat array fail with the one parse error, and `parseTextContent` falls back to `parseTxt` |
| Parser.ProjectBeforeLegacy | src/services/parserService.ts:48-64 | a value recognised as a project file is never read as a legacy script |
| Parser.SaveProject | src/services/parserService.ts:203-214 | the saved file has version `1.1` and holds the script and analysis unchanged |
| Parser.ProjectRoundTrip | src/services/parserService.ts:204-214 | a saved project loads back (lines 49-60) as the same script, configuration, voice mapping and analysis |
| Parser.Sanitize | src/services/parserService.ts:221 | each of `/ \ ? % * : \| " < >` becomes `-`, every other character and the length are kept |
| Parser.SanitizeClean | src/services/parserService.ts:221 | a name with no forbidden character is left alone |
| Parser.SanitizeIdempotent | src/services/parserService.ts:221 | sanitising twice is sanitising once |
| Parser.ProjectFilename | src/services/parserService.ts:221-222 | the download name is the sanitised title plus `.json`, or `podcast_project.json` for an empty title |
| LegacyParser.LegacyParseJson | services/parserService.ts:42-57 | only an array of non-null items, none with a content `String` throws on, succeeds, as the fence-split messages of its items; every failure is the one older parse error |
| LegacyParser.LegacyParseTextContent | services/parserService.ts:27-37 | JSON is used only when hinted or when the trimmed text both opens and closes a bracket; any JSON failure falls back to `parseTxt` |
| LegacyParser.LegacyCueImpliesNew | services/parserService.ts:28 | whatever the older parser reads as JSON unprompted, the newer one does too |
| LegacyParser.ObjectCueOnlyNew | services/parserService.ts:28 | an object is read as JSON unprompted only by the newer parser |
| LegacyParser.ArraysAgree | services/parserService.ts:44-52 | on an array both generations succeed or fail together, with the same messages |
| LegacyParser.NonArrayFails | services/parserService.ts:45-56 | anything but an array, and a syntax error, is the older parser's one error |
| LegacyParser.ProjectIsTextToLegacy | services/parserService.ts:27-37 | an object, such as a project file, is read as plain text by the older parser |
| ChatAnalysis.Distinct | src/services/analysisService.ts:14 | `[...new Set(xs)]` has no duplicates, the same members as `xs`, and is no longer |
| ChatAnalysis.DistinctInOrder | src/services/analysisService.ts:14 | the distinct values come in the order of their first appearance |
| ChatAnalysis.Speakers | src/services/analysisService.ts:14 | every message's role (`User` for an empty one) is listed once, and nothing else is |
| ChatAnalysis.MessageTally | src/services/analysisService.ts:21-28 | a message adds its word count, one code block exactly when it is a code block, and code words only then |
| ChatAnalysis.Count | src/services/analysisService.ts:21-28 | code words never exceed words, and code blocks never exceed messages |
| ChatAnalysis.CountAppend | src/services/analysisService.ts:21-28 | the counts of two message lists joined are the sums of their counts |
| ChatAnalysis.CountNoCode | src/services/analysisService.ts:24-27 | without code-block messages there are no code blocks and no code words |
| ChatAnalysis.RoundDiv | src/services/analysisService.ts:33 | `(2n + d) div 2d` is `Math.round(n / d)`: within half of the exact quotient, halves rounding up |
| ChatAnalysis.RoundedUnique | src/services/analysisService.ts:33 | at most one integer is the rounding of `n / d` |
| ChatAnalysis.DurationMinutes | src/services/analysisService.ts:31-34 | the estimate is at least one minute, and the rounding of words / 150 from 75 words on |
| ChatAnalysis.Percent | src/services/analysisService.ts:38-42 | a share of a whole, as a rounded percentage, is at most 100 |
| ChatAnalysis.PercentagesSum | src/services/analysisService.ts:36-43 | the prose and code percentages add to 100, or to 101 when both fall on a half |
| ChatAnalysis.PercentagesOnHalves | src/services/analysisService.ts:38-42 | one code word in eight gives 88% and 13%: both round up |
| ChatAnalysis.AnalyzeChat | src/services/analysisService.ts:13-53 | message count is the list length, code blocks never exceed it, duration is at least one, speakers are distinct and never more than the messages |
| ChatAnalysis.RatioWithoutCode | src/services/analysisService.ts:36-43 | without code blocks the ratio is `100% prose / 0% code` and the duration uses all words |
| ChatAnalysis.AnalyzeAppend | src/services/analysisService.ts:17-28 | analysing two chats joined adds their word and code-block counts |
| ChatAnalysis.AnalyzeScript | src/services/analysisService.ts:58-80 | absent or empty sections give the empty analysis with duration one; otherwise one message per section and the words of their texts; the speakers are each section's speaker once, `Narrator` for an empty one, and nothing else; never code blocks, ratio `N/A`, duration at least one |
| ChatAnalysis.AnalyzeScriptAppend | src/services/analysisService.ts:59-74 | analysing two runs of sections joined adds their message and word counts, and the speakers are those of either run |
| LegacyAnalysis.ListedRoles | services/analysisService.ts:10 | a role is listed exactly when some message has it and it is neither `unknown` nor empty |
| LegacyAnalysis.LegacyAnalyzeChat | services/analysisService.ts:9-41 | message count, code blocks and duration as in the newer version; speakers distinct, and exactly the listed roles spoken |
| LegacyAnalysis.SameCounts | services/analysisService.ts:11-27 | both generations agree on word count, code-block count and duration |
| LegacyAnalysis.LegacyRatioWithoutCode | services/analysisService.ts:29-31 | without code blocks the older ratio is `100% / 0%` |
| LegacyAnalysis.UnlistedNeverSpeak | services/analysisService.ts:10 | `unknown` and the empty role never appear among the speakers |
| Speech.CopyAll | src/services/browserTtsService.ts:42-46 | the cached voices are the engine voices in order, cut to name, language and URI |
| Speech.FindVoice | src/services/browserTtsService.ts:110 | `find` returns a voice exactly when one has the URI, and then the first such voice |
| Speech.ChooseVoice | src/services/browserTtsService.ts:109-121 | the voice is the one with the URI if any, else the first voice, and there is none exactly when the list is empty |
| Speech.MakeUtterance | src/services/browserTtsService.ts:124-128 | the utterance carries the text and voice; rate, pitch and volume are the options, each defaulting to 1 |
| Speech.CancelIfBusy | src/services/browserTtsService.ts:146-149 | `cancel` is issued exactly when the engine is speaking or has queued items |
| Speech.Settle | src/services/browserTtsService.ts:134-143 | an utterance that ends resolves the request; an earlier outcome stands |
| Speech.ErrorSettlesLikeEnd | src/services/browserTtsService.ts:138-143 | an engine error resolves the request just as a normal end does, and never rejects it |
| Speech.ChooseByIndex | services/browserTtsService.ts:92-104 | the older lookup picks the voice at the first matching index, else index 0, else nothing |
| Speech.FindByIndex | services/browserTtsService.ts:93 | `find` by URI returns the voice at the first matching index, or nothing |
| BrowserTts.LoadVoices | src/services/browserTtsService.ts:35-52 | an empty engine list changes nothing and keeps waiting; a non-empty one is copied into the cache, marks it loaded and resolves with it |
| BrowserTts.GetBrowserVoices | src/services/browserTtsService.ts:17-72 | no API rejects; a loaded non-empty cache is returned; any resolution is a non-empty loaded cache |
| BrowserTts.OnVoicesChanged | src/services/browserTtsService.ts:55-58 | the voices-changed event loads only while the cache is not loaded |
| BrowserTts.OnLoadTimeout | src/services/browserTtsService.ts:61-69 | the timer rejects exactly when the cache is still not loaded and the engine still has no voices |
| BrowserTts.CacheStaysConsistent | src/services/browserTtsService.ts:27-69 | every step keeps "loaded" equivalent to "holds voices" |
| BrowserTts.InitialConsistent | src/services/browserTtsService.ts:27 | the empty, unloaded cache the module starts with is consistent |
| BrowserTts.CachedIgnoresEngine | src/services/browserTtsService.ts:27-30 | a loaded cache answers without consulting the engine |
| BrowserTts.CachedCopies | src/services/browserTtsService.ts:42-46 | each cached voice is the engine voice at the same position, cut to name, language and URI |
| BrowserTts.TextToSpeech | src/services/browserTtsService.ts:81-153 | no API rejects; blank text resolves untouched; unloaded voices first load; with no voices it rejects; otherwise it speaks the trimmed text with the chosen voice, after `cancel` only when busy |
| BrowserTts.RetryAfterLoad | src/services/browserTtsService.ts:101-107 | a failed voice load is passed on; a successful one re-decides the same request with the cache loaded |
| BrowserTts.RetryLoadsOnce | src/services/browserTtsService.ts:101-107 | the re-issued request never asks for the voices again |
| BrowserTts.CancelBeforeSpeak | src/services/browserTtsService.ts:146-151 | `cancel` comes only from a busy engine, only in a request that speaks, and before `speak` |
| BrowserTts.SurroundingSpaceIgnored | src/services/browserTtsService.ts:94-124 | white space around the text changes nothing, since the engine is given the trimmed text |
| BrowserTts.TextToSpeechAsWritten | src/services/browserTtsService.ts:94-149 | as written, blank text rejects with the `logger.debug` TypeError, and a request speaks only on an idle engine and never cancels |
| BrowserTts.DebugCallsReject | src/services/browserTtsService.ts:94-149 | where the written request parts from the intended one: blank text, and a busy engine with voices |
| BrowserTts.AsWrittenAgreesWhenIdle | src/services/browserTtsService.ts:99-151 | with text that is not blank and an idle engine, the written and the intended request agree |
| LegacyBrowserTts.LoadVoices | services/browserTtsService.ts:19-28 | a non-empty engine list replaces the cache and resolves with it; an empty one waits |
| LegacyBrowserTts.GetBrowserVoices | services/browserTtsService.ts:12-54 | no API rejects; a non-empty cache is returned as it is; any resolution is the non-empty cache |
| LegacyBrowserTts.OnVoicesChanged | services/browserTtsService.ts:40-42 | a non-empty engine list replaces the cache, whatever it held, and settles the request with the new voices; an empty one leaves the cache and the request as they were |
| LegacyBrowserTts.OnLoadTimeout | services/browserTtsService.ts:44-52 | the timer rejects exactly when the cache and the engine list are both still empty |
| LegacyBrowserTts.ChangedEventReloads | services/browserTtsService.ts:40-42 | a non-empty cache is replaced on a voices-changed event, where the newer adapter keeps its loaded cache |
| LegacyBrowserTts.Prepare | services/browserTtsService.ts:82-90 | `cancel` exactly when busy, `resume` exactly when paused, `cancel` first, never `speak` |
| LegacyBrowserTts.TextToSpeech | services/browserTtsService.ts:64-133 | no API rejects; blank text resolves untouched; no voices rejects after preparing; otherwise it speaks the text as given, after preparing |
| LegacyBrowserTts.SameChoiceAsNewer | services/browserTtsService.ts:83-110 | on an engine that is not paused, the older adapter issues the same commands and voice as the newer one, with the text untrimmed |
| LegacyBrowserTts.RejectsAfterPreparing | services/browserTtsService.ts:83-104 | with no voices, the engine is still cancelled and resumed before the rejection |
| LegacyBrowserTts.ResumeBeforeSpeak | services/browserTtsService.ts:83-131 | a paused engine is resumed after any cancel and before the new utterance |
| LogBuffer.Push | src/services/loggingService.ts:15-20 | a push puts the entry last, grows the buffer below the cap, and otherwise drops exactly the oldest entry |
| LogBuffer.PushAllKeepsLast | src/services/loggingService.ts:15-20 | pushing entries one by one leaves exactly the last `cap` entries of everything pushed, oldest first |
| LogBuffer.AddListener | src/services/loggingService.ts:46 | `Set.add` puts a new listener last, leaves a present one in place, and never registers one twice |
| LogBuffer.RemoveListener | src/services/loggingService.ts:50 | `Set.delete` removes that listener and keeps every other one, in order |
| LogBuffer.AddThenRemove | src/services/loggingService.ts:46-51 | adding a new listener and deleting it again leaves the set as it was |
| Logging.Broadcast | src/services/loggingService.ts:30 | every listener, in subscription order, is handed the same logs |
| Logging.AddLog | src/services/loggingService.ts:13-31 | the new entry with its level and message goes last; the buffer stays within 200 entries; each listener receives a copy of the new buffer |
| Logging.LogInfo | src/services/loggingService.ts:33-35 | `info` appends one entry at level `info` with the message, time and data, drops the oldest beyond 200, keeps the listeners and hands each of them the new buffer |
| Logging.LogWarn | src/services/loggingService.ts:37-39 | `warn` appends one entry at level `warn` with the message, time and data, drops the oldest beyond 200, keeps the listeners and hands each of them the new buffer |
| Logging.LogError | src/services/loggingService.ts:41-43 | `error` appends one entry at level `error` with the message, time and data, drops the oldest beyond 200, keeps the listeners and hands each of them the new buffer |
| Logging.Subscribe | src/services/loggingService.ts:45-48 | the listener is registered once and handed the current buffer straight away; the buffer is untouched |
| Logging.Unsubscribe | src/services/loggingService.ts:49-51 | the returned function removes that listener and no other |
| Logging.GetLogs | src/services/loggingService.ts:54-56 | `getLogs` hands out a copy equal to the buffer |
| Logging.ReadLogsAreCopies | src/services/loggingService.ts:54-56 | logs read earlier do not change when later entries arrive |
| Logging.LogAllIsPushAll | src/services/loggingService.ts:13-20 | a stream of appends acts on the buffer as pushes with a cap of 200 |
| Logging.KeepsLatest | src/services/loggingService.ts:15-20 | from the empty logger, the buffer holds the last 200 entries logged, oldest first |
| Logging.SubscribeUndone | src/services/loggingService.ts:45-51 | subscribing a new listener and calling the returned function restores the logger |
| Logging.Recipients | src/services/loggingService.ts:30 | the listeners reached are read off the deliveries in call order |
| Logging.UnsubscribedHearsNothing | src/services/loggingService.ts:30-51 | after unsubscribing, an append reaches every other listener and not that one |
| LegacyLogging.AddLog | services/loggingService.ts:17-24 | the new entry goes last; the buffer stays within 100 entries; every subscribed listener is called once |
| LegacyLogging.Subscribe | services/loggingService.ts:42-44 | subscribing registers the listener, once, and calls nobody |
| LegacyLogging.Unsubscribe | services/loggingService.ts:46-48 | unsubscribing removes that listener and no other |
| LegacyLogging.GetLogs | services/loggingService.ts:38-40 | `getLogs` hands out the buffer itself, so later appends show through it |
| LegacyLogging.SubscribeTwiceIsOnce | services/loggingService.ts:42-52 | subscribing twice registers once, so one append calls that listener once |
| LegacyLogging.SubscribeUndone | services/loggingService.ts:42-48 | subscribing a new listener and unsubscribing it restores the logger |
| LegacyLogging.LiveBuffer | services/loggingService.ts:38-40 | a buffer read before an append shows the new entry; the newer logger's copy does not |
| LegacyLogging.LogAllIsPushAll | services/loggingService.ts:17-22 | a stream of appends acts on the buffer as pushes with a cap of 100 |
| LegacyLogging.KeepsLatest | services/loggingService.ts:19-22 | from the empty logger, the buffer holds the last 100 entries logged, oldest first |
| Script.SpokenText | services/exportService.ts:77 | `editedLine ?? line`: an edit, even an empty one, replaces the line |
| ScriptDownload.SegmentBlock | components/ScriptPreview.tsx:17-22 | a block starts with the upper-cased speaker, `:`, the line, and ends with a blank line; with no sound-effect note it is exactly that |
| ScriptDownload.FormatScript | components/ScriptPreview.tsx:12-25 | the download starts with the title, hook and script marker lines |
| ScriptDownload.SegmentsInOrder | components/ScriptPreview.tsx:16-23 | more segments only add their blocks at the end |
| ScriptDownload.EditsNotDownloaded | components/ScriptPreview.tsx:18 | a segment's edit never shows in the download; the original line does |
| ScriptDownload.FormatScriptLoop | components/ScriptPreview.tsx:12-25 | the loop as written builds exactly the preamble followed by each segment's block |
| ScriptDownload.CollapseFrom | components/ScriptPreview.tsx:33 | `replace(/\s+/g, '_')` leaves no white space and never grows the text |
| ScriptDownload.CollapseIdempotent | components/ScriptPreview.tsx:33 | collapsing twice is collapsing once |
| ScriptDownload.CollapseWords | components/ScriptPreview.tsx:33 | on a text with no white space at either end, collapsing the runs joins the words with `_` |
| ScriptDownload.DownloadFilename | components/ScriptPreview.tsx:33 | the name ends in `_script.txt` and holds no white space before it |
| ScriptDownload.FilenameFromWords | components/ScriptPreview.tsx:33 | for a title with no white space at either end, the name joins its lower-cased words with `_` |
| Subtitles.ClockOf | services/exportService.ts:62-66 | the hour, minute, second and millisecond fields add back up to the time, with minutes and seconds below 60 and the hours uncut |
| Subtitles.FormatTimestamp | services/exportService.ts:62-68 | a timestamp is at least `hh:mm:ss.mmm` long |
| Subtitles.TimestampRoundTrip | services/exportService.ts:62-68 | reading back a formatted timestamp gives the time it was made from |
| Subtitles.TimestampInjective | services/exportService.ts:62-68 | two different times never print alike |
| Subtitles.RoundReal | services/exportService.ts:66 | `Math.round(x)` is the integer within half of `x`, halves rounding up |
| Subtitles.FieldsAsWritten | services/exportService.ts:62-66 | the fields as written from a time in seconds: minutes and seconds below 60, and a millisecond field of 1000 exactly when the fraction of a second is 0.9995 or more |
| Subtitles.FormatSecondsAsWritten | services/exportService.ts:62-68 | as written, the millisecond field has three digits when the fraction of a second is below 0.9995 |
| Subtitles.RoundMs | services/exportService.ts:66 | the whole milliseconds within half a millisecond of the time |
| Subtitles.FormatSeconds | services/exportService.ts:62-68 | corrected: rounding to whole milliseconds before cutting into fields always gives a three-digit millisecond field, and the text reads back as the rounded time |
| Subtitles.MillisOverflow | services/exportService.ts:62-68 | the time 10.999999999999998 s prints as `00:00:10.1000` as written and as `00:00:11.000` corrected; it is the end of the third cue for segments of 7, 14 and 4 words under double addition (lines 79-88) |
| Subtitles.AsWrittenAgreesBelowOverflow | services/exportService.ts:62-68 | below a fraction of 0.9995 the written and the corrected formatter give the same fields and the same text |
| Subtitles.WholeMsFormat | services/exportService.ts:62-68 | on a time of whole milliseconds the corrected formatter prints exactly the timestamp the cues use |
| Subtitles.DurationMs | services/exportService.ts:78-79 | a cue lasts at least a second, and 400 ms a word from three words on |
| Subtitles.CuesFrom | services/exportService.ts:76-89 | there is one cue per segment |
| Subtitles.CuesWellTimed | services/exportService.ts:76-89 | cues are numbered on from 1, each lasts its duration, the next starts 500 ms after, and each carries `speaker: text` |
| Subtitles.CuesDisjoint | services/exportService.ts:81-88 | every cue ends before any later cue begins |
| Subtitles.CuesPrefix | services/exportService.ts:76-89 | a cue depends only on the segments before it |
| Subtitles.GenerateVtt | services/exportService.ts:71-92 | the subtitle text starts with `WEBVTT` and a blank line |
| Subtitles.RenderCuesAppend | services/exportService.ts:84-86 | one more cue adds its block at the end of the text |
| Subtitles.VttStep | services/exportService.ts:84-86 | one more segment adds its cue block to the text |
| Subtitles.CueAt | services/exportService.ts:81-88 | the cue of segment k starts where the clock stands, and the next one starts after its duration and the gap |
| Subtitles.AppendCue | services/exportService.ts:84-88 | one pass of the loop yields cue k's block, which extends the text by that cue, and moves the clock to the next cue's start |
| Subtitles.GenerateVttLoop | services/exportService.ts:71-92 | the loop with a running clock builds exactly the header and the cue blocks |
| Subtitles.PackageFiles | services/exportService.ts:28-51 | `README.txt` always; `subtitles.vtt` when asked; the image for an mp4 with one; nothing else; and no name twice unless the image is itself named `README.txt` or `subtitles.vtt` |
| Subtitles.PackageFilename | services/exportService.ts:56 | each white-space character of the title becomes `_`, `podcast` stands in for an empty title, and `_render.zip` follows |
| Wav.LE16 | services/audioService.ts:66-69 | a 16-bit field is two bytes |
| Wav.LE32 | services/audioService.ts:71-74 | a 32-bit field is four bytes |
| Wav.LE16RoundTrip | services/audioService.ts:66-69 | reading a written 16-bit field gives the value modulo 2^16, low byte first |
| Wav.LE32RoundTrip | services/audioService.ts:71-74 | reading a written 32-bit field gives the value modulo 2^32, low byte first |
| Wav.RiffChunk | services/audioService.ts:77-79 | `RIFF`, the file length less eight, `WAVE` |
| Wav.FmtChunk | services/audioService.ts:82-89 | `fmt `, size 16, PCM format 1, the channels, the rate, the byte rate, the block size and 16 bits |
| Wav.DataHead | services/audioService.ts:92-93 | `data` and the number of sample bytes |
| Wav.Header | services/audioService.ts:76-93 | the header is 44 bytes |
| Wav.HeaderTags | services/audioService.ts:77-92 | offsets 0, 8, 12 and 36 spell `RIFF`, `WAVE`, `fmt ` and `data` |
| Wav.HeaderSizes | services/audioService.ts:78-93 | the RIFF size is the file length less eight and the data size is frames × channels × 2 |
| Wav.HeaderFormat | services/audioService.ts:82-89 | the format fields at offsets 16 to 36 hold size 16, PCM, the channels, the rate, rate × 2 × channels, 2 × channels and 16 |
| Wav.Interleave | services/audioService.ts:99-108 | the samples take two bytes per channel per frame |
| Wav.InterleavePrefix | services/audioService.ts:99-108 | later frames only add bytes after earlier ones |
| Wav.SampleAt | services/audioService.ts:99-108 | sample `pos` of channel `c` sits at byte `2 × (pos × channels + c)`, channel 0 first |
| Wav.ToWav | services/audioService.ts:56-111 | the file is 44 + frames × channels × 2 bytes |
| Wav.WavHeader | services/audioService.ts:76-93 | the file starts with the header for the buffer's channels, rate and length |
| Wav.WavData | services/audioService.ts:95-108 | after the header come the interleaved samples and nothing else |
| Wav.ToWavLoop | services/audioService.ts:56-111 | the written loops produce exactly the header and the interleaved samples |
| Wav.Column | services/audioService.ts:42-48 | each output channel is as long as all inputs together |
| Wav.Stitch | services/audioService.ts:31-48 | no inputs is an error; otherwise it succeeds exactly when no input has more channels than the first, with the summed length and the first's rate and channel count |
| Wav.StitchAudio | services/audioService.ts:27-51 | the stitched WAV has 44 + total frames × channels × 2 bytes, or the stitch error |
| Wav.ColumnPrefix | services/audioService.ts:42-48 | the inputs before `j` fill the start of each output channel |
| Wav.CopiedAtOffset | services/audioService.ts:42-48 | each input's channel is copied whole at its running offset |
| Wav.StitchOne | services/audioService.ts:35-48 | stitching one buffer gives it back |
| Playback.Stop | src/services/audioService.ts:116-121 | requests a stop, cancels the engine, clears the cursor and enters `stopped` |
| Playback.Init | src/services/audioService.ts:19-22 | callbacks are registered, and the controller is stopped with no cursor, script and voices kept |
| Playback.LoadScript | src/services/audioService.ts:24-28 | the new script and voices are taken, and the controller is stopped with no cursor |
| Playback.Pause | src/services/audioService.ts:109-114 | only while playing: requests a stop, cancels the engine and enters `paused`, keeping the cursor |
| Playback.Seek | src/services/audioService.ts:123-135 | always stops first; an index outside the script leaves it stopped; inside, a playing controller schedules `play(index)` and any other one pauses at the index with no speech |
| Playback.VoiceFor | src/services/audioService.ts:77-82 | a speaker has a voice exactly when the mapping has it with a non-empty id |
| Playback.Run | src/services/audioService.ts:66-106 | the loop never changes the script, the voices or the registration |
| Playback.Play | src/services/audioService.ts:43-107 | ignored while playing or with an empty script; from a start index inside the script, `playing` with the stop request cleared, waiting on one request for the first segment from the start with a voice and non-blank text, the cursor there; or, with no such segment, stopped with no request; script, voices and registration never change |
| Playback.Resume | src/services/audioService.ts:66-106 | a failed request stops the controller with no cursor and ends the loop with no speech; after a spoken one, a stop request ends the loop quietly (clearing the cursor unless paused), the end of the script stops the controller, and otherwise the loop waits on the next segment it can read, or ends stopped |
| Playback.RunSkips | src/services/audioService.ts:75-88 | a loop with no stop request skips exactly the segments with no voice or a blank text, and waits at the first other one or finishes |
| Playback.RunPlayer | src/services/audioService.ts:66-106 | a loop with no stop request leaves the cursor at the segment it waits on, or the controller stopped when it runs off the end |
| Playback.RunSpeech | src/services/audioService.ts:84-95 | a loop with no stop request makes at most one speech request, as its last event, for the segment it waits on |
| Playback.RunCursors | src/services/audioService.ts:66-75 | the segment callbacks of a loop are the indices from the start in increasing order, up to the segment it waits on or the end |
| Playback.PlayBeforeStart | src/services/audioService.ts:56-76 | a negative start index moves the cursor there and throws on the missing segment, leaving the controller `playing` |
| Playback.PauseKeepsPlace | src/services/audioService.ts:109-114 | a pause while the loop waits at j ends the loop (lines 67-72) without touching the paused controller, and a later `play()` restarts at j (lines 60-61) |
| Playback.StopIdempotent | src/services/audioService.ts:116-121 | stopping twice does what stopping once does; the second stop only cancels the engine, with no callbacks |
| Playback.SeekThenPlay | src/services/audioService.ts:123-135 | after a seek while not playing, `play()` starts at the sought index |

## Left out

- The HTTP and AI clients (Gemini, ElevenLabs, NotebookLM and the server TTS services) are not part of this model: they are network I/O.
- The Node servers and scripts are not part of this model: they are process, filesystem and shell I/O.
- `JSON.parse` is a parameter of the parsers, not a model of the parser. `parseFile` and `parseZip` (JSZip) are left out, and so is the DOM download code of `saveProjectToFile`, the script preview and `exportProject`.
- The voice-load timers (1000 ms and 1500 ms) are not modelled as time. What their callbacks do is a separate step (`OnLoadTimeout`).
- The 100 ms timer of `seek` appears as a `PlayScheduled` event in the trace.
- Overlapping `play` loops are not constrained. The model does not say how two waiting loops interleave; it applies each external operation to the controller between steps.
- Console output of both logging services, and the `logger` calls of every other service, are left out.
- The clock (`new Date()`) is a parameter `now` of the logging services and of the legacy-script branch of `parseJson`.
- The float clamping and quantisation of samples in `audioBufferToWav` (services/audioService.ts:102-103) is left out. Samples are integers that are already 16-bit values, written modulo 2^16.
- Audio decoding and the audio context are left out, and so are `createBuffer`'s own rejections. For example, it rejects a zero-length buffer.
- A missing channel in `stitchAudio` is kept: an input with more channels than the first makes `getChannelData` throw.
- Wav.Stitch: the error for an input with more channels than the first is named by its DOM exception kind, not by the browser's message.
- Subtitles.FormatTimestamp: cue times are whole milliseconds, which is what the durations of 400 ms a word and the 500 ms gaps give in exact arithmetic. The source adds binary doubles instead (services/exportService.ts:79, 82, 88), so its times drift off whole milliseconds. A time that drifts just below a whole second then prints a millisecond field of `1000` with the seconds one too low (see Findings). The double arithmetic is not modelled: `Subtitles.FormatSecondsAsWritten` takes the drifted time as an exact real, and the cues use the corrected rounding.
- Subtitles.FieldsAsWritten: it requires a time of at least zero. The export never computes a negative time.
- ChatAnalysis.Percent: percentages are rounded exactly on rationals. A share whose double product lands next to a half could round the other way in JavaScript.
- ChatAnalysis.AnalyzeScript: it takes the script's `sections` as a parameter. The modelled script type has no such field, since every script the code builds leaves it absent.
- JsText.ToLower: case mapping covers ASCII letters only. JavaScript maps all of Unicode.
- JsText.ToUpper: case mapping covers ASCII letters only. JavaScript maps all of Unicode.
- Characters are Unicode scalar values, not UTF-16 code units. The two differ only outside the Basic Multilingual Plane.
- JSON numbers are integers only (`JsonValue.JNumber`). A fraction or an exponent such as `1.5` or `1e21` cannot be represented, so what `String(v)` prints for such a value is not modelled. That affects a non-string content in `CodeBlocks.ProcessMessage` and a non-string role in `Parser.Items`. The digits `JSON.parse` loses above 2^53 are not modelled either.
- Subtitles.PackageFiles: a background image named `README.txt` or `subtitles.vtt` replaces that entry in the zip, so the zip holds one file where the list names two. The contract states the names are distinct only when the image is named otherwise.
- Parser.Items: a truthy role that is not a string is kept as its `String()` text, where the code keeps the value itself. A role on which `String` would throw is kept as `[object Object]`.
- A message copied by the non-string branch of `processCodeBlocks` has no `isCodeBlock` property. The model gives it `false`, which is how every reader treats the absence.
- The text of the README file put into the export package is left out. Only its presence is modelled.
- The wording of the `TypeError` a missing logger method throws is the JavaScript engine's. The model uses a fixed message.
- Browser speech voices keep only the fields the adapters read: name, language and URI.
- Utterance callbacks other than end and error (`onstart`) only log, so they are left out.

## Findings

| source | as written | input that shows it | evidently intended | confidence | as-written member | corrected member |
|---|---|---|---|---|---|---|
| src/services/browserTtsService.ts:96 | `browserTextToSpeech` calls `logger.debug` at lines 96 and 147, but the logger it imports (src/services/loggingService.ts:33-43) has only `info`, `warn` and `error`. The call throws a `TypeError` inside the promise executor, so the promise rejects before resolving or speaking | whitespace-only text, such as `"  "`; or voices loaded, an engine voice present, and the engine speaking or pending | blank text resolves without touching the engine; a busy engine is cancelled and the new utterance spoken | not executed; medium, since it relies on the bundler not type-checking the call | BrowserTts.TextToSpeechAsWritten | BrowserTts.TextToSpeech |
| services/exportService.ts:66 | `formatVttTimestamp` cuts whole seconds from the time and then rounds the fraction to milliseconds on its own, so a fraction of 0.9995 or more prints `1000` in a field meant for three digits, with the seconds one too low | segments of 7, 14 and 4 words: under double addition the third cue ends at 10.999999999999998 s, printed `00:00:10.1000` | round the time to whole milliseconds first, then cut it into fields: `00:00:11.000` | not executed; high for the formatter on that time, since the double sums follow IEEE 754 addition, which the model does not cover | Subtitles.FormatSecondsAsWritten | Subtitles.FormatSeconds |
