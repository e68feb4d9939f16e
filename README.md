# Enchanted Door riddle game — verified model of the dialogue and judging core

The game puts the player in front of an enchanted door, played by a
language model. At the start of a run the door poses a riddle, which is either
generated by the model or configured by hand. The player answers in free text
and the door replies in character. A second, strictly non-roleplaying "judge"
call then scores the same answer against the riddle's acceptance criteria. A
high enough accuracy wins the run. A wrong answer costs an attempt, and running
out of attempts loses the run. After the end screen the run resets.

The project models, module by module:

- **Text** — the string primitives the core relies on: `Trim` over the
  `char.IsWhiteSpace` set, `TrimEnd(c)`, ordinal `IndexOf` and decimal
  formatting. Every `IndexOf` is modelled as ordinal, including the one
  call that the code makes culture-sensitive (see "Left out").
- **ChatTypes / RiddleTypes / Wrappers** — chat messages, backend
  outcomes (for text or an error), riddle and judge records, and `Option`/`Result`.
- **ChatMessageSanitizer** — blank messages are dropped and unknown roles
  become `system`.
- **ContentPolicy** — the PG-13 input and output gates. The gates are pure
  functions of the policy's patterns and the text, so they are deterministic
  by construction. The regular expressions are abstract predicates (see
  "Left out").
- **VllmStreamDeltaParser** — the lenient JSON string unescaper and the
  streaming delta extractor.
- **ContentRegex** — the `"content"\s*:\s*"((?:\\.|[^"\\])*)"` pattern that
  both HTTP backends use to find reply text, written as a scanner. It is
  proved sound and complete against a declarative description of a match.
- **JsonEnvelopeExtractor** — finding the JSON payload in a model reply:
  `<JSON>` tags, then a code fence, then bracket-based sanitizing.
- **SseLineBuffer** — reassembling server-sent-event lines from chunks, as a
  class with a `string` buffer.
- **HttpExchange / VllmChatClient / VllmChatBackend / OpenAiChatBackend /
  ChatBackend** — the two HTTP backends. Each builds the POST it would send
  and turns the network's response, which is an input here, into reply text
  or a descriptive error. `IChatBackend` is a datatype over the two backends.
- **StructuredReply / RiddleGenerator / RiddleJudge** — the generate and
  evaluate calls, with the JSON decoder as a parameter.
- **DoorNpcConversation** — the door's dialogue session, as a class with
  the exchange history and the busy flag.
- **RiddleGameController** — the game's state machine and its scoring, as a
  class. Every coroutine is split at its waits: a method runs up to the
  backend call, and another method takes the backend's reply as input and runs
  on from there. While a call is outstanding, the `suspended` field records
  what the coroutine is waiting for.

## Behaviour worth knowing

- A door error leaves `Phase` at `DoorResponding`, so `IsBusy` stays true
  (`DoorReplied`). No reset follows: `ResetForNewRun` runs only at the end of
  `EndRun`, which only a judge verdict reaches, and `BeginConversation` does
  nothing once started. The game is stuck for the rest of the session, and
  every later player message is refused.
- A judge error leaves `Phase` at `Judging` and consumes no attempt
  (`JudgeReplied`). The game is stuck in the same way.
- Both backends' `ChatStream` always fail, and the door only calls
  `ChatOnce`.

## Model

| member | source | states |
|---|---|---|
| Text.TrimSpec | Assets/Scripts/LLM/JsonEnvelopeExtractor.cs:33 | `Trim` returns a substring that neither starts nor ends with white space, and it is empty exactly when the input is blank |
| Text.TrimIdempotent | Assets/Scripts/LLM/JsonEnvelopeExtractor.cs:61 | trimming twice is trimming once |
| Text.TrimEndCharSpec | Assets/Scripts/LLM/VllmChatClient.cs:18 | `TrimEnd(c)` removes exactly the maximal run of `c` at the end |
| Text.IndexOf | Assets/Scripts/LLM/JsonEnvelopeExtractor.cs:26 | ordinal `IndexOf` gives the first occurrence at or after `from`, or none when there is none |
| Text.IndexOfSpec | Assets/Scripts/LLM/JsonEnvelopeExtractor.cs:26-29 | `IndexOf` answers `k` if and only if `k` is the first occurrence at or after `from` |
| Text.IndexOfChar | Assets/Scripts/LLM/JsonEnvelopeExtractor.cs:44 | `IndexOf(char)` gives the first index at or after `from` that holds the character, or none |
| Text.IntToString | Assets/Scripts/LLM/VllmChatClient.cs:82 | the decimal text of an integer is never blank, so the status code is always visible |
| ChatMessageSanitizer.NormalizeRole | Assets/Scripts/ChatLogic/ChatMessageSanitizer.cs:21-33 | known roles are kept and any other role becomes `system` |
| ChatMessageSanitizer.Sanitized | Assets/Scripts/ChatLogic/ChatMessageSanitizer.cs:5-19 | the result is no longer than the input and every message in it is clean (non-blank content, known role) |
| ChatMessageSanitizer.Sanitize | Assets/Scripts/ChatLogic/ChatMessageSanitizer.cs:5-19 | the loop computes `Sanitized(input)` |
| ChatMessageSanitizer.KeptIndicesSpec | Assets/Scripts/ChatLogic/ChatMessageSanitizer.cs:11-12 | the kept positions are strictly increasing, and a position is kept if and only if its content is non-blank |
| ChatMessageSanitizer.SanitizedSelects | Assets/Scripts/ChatLogic/ChatMessageSanitizer.cs:9-16 | output message `k` is input message `KeptIndices[k]` with its role normalized and its content unchanged, so order is preserved |
| ChatMessageSanitizer.SanitizeClean | Assets/Scripts/ChatLogic/ChatMessageSanitizer.cs:9-16 | a list of clean messages comes back unchanged |
| ChatMessageSanitizer.SanitizeIdempotent | Assets/Scripts/ChatLogic/ChatMessageSanitizer.cs:5-19 | sanitizing twice is sanitizing once |
| ContentPolicy.FirstMatch | Assets/Scripts/LLM/ContentPolicy.cs:37-59 | a category found matches and no category before it in the check order matches; nothing found means none of the four matches (both directions in `FirstMatchSpec`) |
| ContentPolicy.FirstMatchSpec | Assets/Scripts/LLM/ContentPolicy.cs:37-59 | the first category found is the lowest-ranked category that matches, and none is found if and only if no category matches |
| ContentPolicy.IsUserInputAllowed | Assets/Scripts/LLM/ContentPolicy.cs:27-62 | blank input is refused as empty; the input is allowed exactly when it carries no reason; non-blank input is allowed if and only if no category matches |
| ContentPolicy.IsModelOutputAllowed | Assets/Scripts/LLM/ContentPolicy.cs:64-96 | blank output is allowed; the output is allowed exactly when it carries no reason; non-blank output is allowed if and only if no category matches |
| ContentPolicy.RefusalNamesFirstMatch | Assets/Scripts/LLM/ContentPolicy.cs:27-96 | each gate's refusal names the first category in the source's check order that matches |
| ContentPolicy.GatesAgree | Assets/Scripts/LLM/ContentPolicy.cs:27-96 | on non-blank text both gates reach the same verdict, and a refusal by one is a refusal by the other for the same category |
| ContentPolicy.GetPg13RefusalLine | Assets/Scripts/LLM/ContentPolicy.cs:98-101 | the refusal line is not blank |
| VllmStreamDeltaParser.HexDigitValue | Assets/Scripts/LLM/VllmStreamDeltaParser.cs:39 | a hex digit's value is below 16 |
| VllmStreamDeltaParser.HexScanBound | Assets/Scripts/LLM/VllmStreamDeltaParser.cs:39 | scanning `n` hex digits gives a value below 16^n |
| VllmStreamDeltaParser.ParseHex16 | Assets/Scripts/LLM/VllmStreamDeltaParser.cs:39 | `ushort.TryParse` in hex, including its leading and trailing white space, gives a value below 0x10000 |
| VllmStreamDeltaParser.ParseHexDigits | Assets/Scripts/LLM/VllmStreamDeltaParser.cs:39 | four hex digits parse to their positional value, in either case |
| VllmStreamDeltaParser.ParseHexPadded | Assets/Scripts/LLM/VllmStreamDeltaParser.cs:39 | padding with white space or trailing NULs is accepted; a non-digit, all blanks, or inner white space is rejected |
| VllmStreamDeltaParser.StepAt | Assets/Scripts/LLM/VllmStreamDeltaParser.cs:18-63 | one loop step consumes at least one character and emits no more characters than it consumes |
| VllmStreamDeltaParser.UnescapedFrom | Assets/Scripts/LLM/VllmStreamDeltaParser.cs:16-64 | unescaping from position `i` never produces more than the remaining characters |
| VllmStreamDeltaParser.Unescaped | Assets/Scripts/LLM/VllmStreamDeltaParser.cs:9-67 | the unescaped text is never longer than the input, so an empty input gives an empty output |
| VllmStreamDeltaParser.DecodeAt | Assets/Scripts/LLM/VllmStreamDeltaParser.cs:18-63 | the loop body emits `StepAt`'s piece and advances the index by its width |
| VllmStreamDeltaParser.JsonStringUnescape | Assets/Scripts/LLM/VllmStreamDeltaParser.cs:9-67 | the StringBuilder loop computes `Unescaped(input)` |
| VllmStreamDeltaParser.UnescapeWithoutBackslash | Assets/Scripts/LLM/VllmStreamDeltaParser.cs:60-63 | text without a backslash is returned unchanged |
| VllmStreamDeltaParser.UnescapePlain | Assets/Scripts/LLM/VllmStreamDeltaParser.cs:60-63 | a character other than a backslash is copied |
| VllmStreamDeltaParser.UnescapeSimple | Assets/Scripts/LLM/VllmStreamDeltaParser.cs:20-33 | `\n \r \t \b \f \\ \"` decode to their characters, and any other escaped character other than `u` passes through literally |
| VllmStreamDeltaParser.UnescapeUnicode | Assets/Scripts/LLM/VllmStreamDeltaParser.cs:35-43 | `\u` followed by four characters that parse as hex becomes that UTF-16 code unit |
| VllmStreamDeltaParser.UnescapeBadUnicode | Assets/Scripts/LLM/VllmStreamDeltaParser.cs:44-52 | `\u` with fewer than four following characters, or with ones that do not parse, is kept as `\u` and decoding goes on after it |
| VllmStreamDeltaParser.UnescapeTrailingBackslash | Assets/Scripts/LLM/VllmStreamDeltaParser.cs:20-21 | a trailing lone backslash is kept verbatim |
| VllmStreamDeltaParser.EscapeCharRoundTrip | Assets/Scripts/LLM/VllmStreamDeltaParser.cs:20-57 | every character, escaped as a JSON producer escapes it, decodes back to itself (for control characters, see `ControlEscapeRoundTrip`) |
| VllmStreamDeltaParser.ControlEscapeRoundTrip | Assets/Scripts/LLM/VllmStreamDeltaParser.cs:35-43 | a control character written as `\u00XX` decodes back to itself |
| VllmStreamDeltaParser.UnescapeJsonEscape | Assets/Scripts/LLM/VllmStreamDeltaParser.cs:9-67 | round trip: unescaping the JSON escape of any string gives the string back |
| VllmStreamDeltaParser.TryExtractDelta | Assets/Scripts/LLM/VllmStreamDeltaParser.cs:69-88 | a blank line or a line without the marker gives nothing, and a delta is shorter than the line after its marker; its exact value is stated by `DeltaOfSpan`, `DeltaSpanSpec` and `DeltaRoundTrip` |
| VllmStreamDeltaParser.DeltaSpan | Assets/Scripts/LLM/VllmStreamDeltaParser.cs:69-88 | a blank line, or a line without the `"content":"` marker, yields no delta |
| VllmStreamDeltaParser.DeltaFound | Assets/Scripts/LLM/VllmStreamDeltaParser.cs:76-87 | a non-blank line with the marker and a later quote always yields a delta |
| VllmStreamDeltaParser.DeltaSpanSpec | Assets/Scripts/LLM/VllmStreamDeltaParser.cs:76-83 | on a non-blank line, the raw delta runs from just after the first marker to the next quote — if and only if |
| VllmStreamDeltaParser.DeltaStopsAtEscapedQuote | Assets/Scripts/LLM/VllmStreamDeltaParser.cs:80-83 | the search for the closing quote does not skip an escaped quote, so `a\"b` yields `a\` |
| VllmStreamDeltaParser.DeltaOfSpan | Assets/Scripts/LLM/VllmStreamDeltaParser.cs:85-87 | the delta is the unescaped raw span |
| VllmStreamDeltaParser.DeltaRoundTrip | Assets/Scripts/LLM/VllmStreamDeltaParser.cs:69-88 | a line whose delta span holds the JSON escape of `x` yields `x` |
| VllmStreamDeltaParser.EncodedLineSpan | Assets/Scripts/LLM/VllmStreamDeltaParser.cs:76-83 | when neither the prefix nor `x` holds a quote, `prefix + "content":" + escape(x) + "` has its delta span around `escape(x)` |
| ContentRegex.Attempt | Assets/Scripts/LLM/VllmChatClient.cs:41-43 | a match attempt stays inside the text, and its group starts after the opening quote |
| ContentRegex.GroupSpec | Assets/Scripts/LLM/VllmChatClient.cs:41-43 | the group scanner ends at `e` if and only if the characters from the start to `e` are a sequence of escapes and non-quote, non-backslash characters, followed by a quote |
| ContentRegex.AfterColonSpec | Assets/Scripts/LLM/VllmChatClient.cs:41-43 | after the colon, the scanner matches if and only if white space, then a quote, then a group follow |
| ContentRegex.BeforeColonComplete | Assets/Scripts/LLM/VllmChatClient.cs:41-43 | white space and a colon after the key lead to the after-colon stage |
| ContentRegex.BeforeColonSound | Assets/Scripts/LLM/VllmChatClient.cs:41-43 | a before-colon match always went through white space and a colon |
| ContentRegex.MatchAt | Assets/Scripts/LLM/VllmChatClient.cs:41-43 | a match at `p` has its group strictly after `p` and inside the text |
| ContentRegex.MatchAtSound | Assets/Scripts/LLM/VllmChatClient.cs:41-43 | every match found is a match of the pattern |
| ContentRegex.MatchAtComplete | Assets/Scripts/LLM/VllmChatClient.cs:41-43 | every match of the pattern at `p` is found |
| ContentRegex.MatchAtSpec | Assets/Scripts/LLM/VllmChatClient.cs:41-43 | the matcher finds `m` at `p` if and only if the pattern matches there with group `m` |
| ContentRegex.MatchesFrom | Assets/Scripts/LLM/VllmChatClient.cs:100 | all successive non-overlapping matches lie strictly after the starting point |
| ContentRegex.MatchesStep | Assets/Scripts/LLM/VllmChatClient.cs:100 | after a match, the next search starts past its end |
| ContentRegex.LastGroupOfSingle | Assets/Scripts/LLM/VllmChatClient.cs:98-109 | with a single match, the last group is that match's text |
| ContentRegex.NoQuoteNoContent | Assets/Scripts/LLM/VllmChatClient.cs:98-109 | a body without a quote has no content |
| ContentRegex.JsonEscapeGroupBody | Assets/Scripts/LLM/VllmChatClient.cs:41-43 | the JSON escape of any string is matched whole by the group |
| ContentRegex.ContentAt | Assets/Scripts/LLM/VllmChatClient.cs:98-109 | a `"content": "<escape(x)>"` member that is the only quoted text gives content `x` |
| ContentRegex.ContentRoundTrip | Assets/Scripts/LLM/VllmChatClient.cs:98-109 | round trip: a body `pre + "content" : "escape(x)" + post` gives back `x` when `pre` and `post` hold no quote |
| VllmChatClient.NewClient | Assets/Scripts/LLM/VllmChatClient.cs:16-22 | the constructor keeps the key, model and temperature |
| VllmChatClient.NewClientUrl | Assets/Scripts/LLM/VllmChatClient.cs:18 | the URL is `baseUrl` with exactly its trailing slashes removed, then `chatPath` |
| VllmChatClient.DefaultClient | Assets/Scripts/LLM/VllmChatClient.cs:24-30 | the parameterless client has no key |
| VllmChatClient.Truncate | Assets/Scripts/LLM/VllmChatClient.cs:111-115 | text up to the limit is kept; longer text keeps its first `max` characters followed by `...` |
| VllmChatClient.ExtractLastContent | Assets/Scripts/LLM/VllmChatClient.cs:98-109 | the loop over the matches computes `LastContent(body)` |
| VllmChatClient.SendChatOnce | Assets/Scripts/LLM/VllmChatClient.cs:45-96 | the request sent is `RequestFor`, and the callback is `SendOutcome` of the response |
| VllmChatClient.NoMessagesNoRequest | Assets/Scripts/LLM/VllmChatClient.cs:50-54 | an empty list fails with "No messages provided." and sends nothing |
| VllmChatClient.RequestContents | Assets/Scripts/LLM/VllmChatClient.cs:55-74 | the POST goes to the client's URL with the sanitized messages, model and temperature, is not streamed, has the JSON content type, and carries a bearer header exactly when the key is non-blank |
| VllmChatClient.HttpErrorReported | Assets/Scripts/LLM/VllmChatClient.cs:78-84 | a transport error reports `vLLM HTTP <code>`, and ends with the body cut to at most 1200 characters plus `...` |
| VllmChatClient.ReplyIsContent | Assets/Scripts/LLM/VllmChatClient.cs:86-95 | reply text is non-empty and is the last content of a body that came back without a transport error |
| VllmChatClient.NoContentFails | Assets/Scripts/LLM/VllmChatClient.cs:86-95 | a body with no content, or with empty content, fails with the parse error |
| VllmChatClient.ReplyRoundTrip | Assets/Scripts/LLM/VllmChatClient.cs:86-109 | a body whose only quoted text is one `"content"` member holding non-empty `x` (JSON-escaped) delivers `x` |
| VllmChatBackend.ChatOnce | Assets/Scripts/LLM/VllmChatBackend.cs:14-17 | delegates to the client: the same request and the same outcome |
| VllmChatBackend.ChatStream | Assets/Scripts/LLM/VllmChatBackend.cs:19-23 | streaming fails at once with its fixed error, with no delta and no completion |
| OpenAiChatBackend.AsOpenAiMsgsSpec | Assets/Scripts/LLM/OpenAiChatBackend.cs:92-100 | the wire list has one element per message, in order, with the same role and content |
| OpenAiChatBackend.OpenAiMsgsRoundTrip | Assets/Scripts/LLM/OpenAiChatBackend.cs:92-100 | converting to the wire form and back changes nothing |
| OpenAiChatBackend.ToOpenAiMsgs | Assets/Scripts/LLM/OpenAiChatBackend.cs:92-100 | the fresh array holds the converted list |
| OpenAiChatBackend.ExtractLastContent | Assets/Scripts/LLM/OpenAiChatBackend.cs:102-111 | the loop over the matches computes `LastContent(body)` |
| OpenAiChatBackend.ChatOnce | Assets/Scripts/LLM/OpenAiChatBackend.cs:43-84 | the request sent is `RequestFor`, and the callback is `OutcomeOf` of the response |
| OpenAiChatBackend.ChatStream | Assets/Scripts/LLM/OpenAiChatBackend.cs:86-90 | streaming fails at once with "not implemented" |
| OpenAiChatBackend.RequestContents | Assets/Scripts/LLM/OpenAiChatBackend.cs:45-53 | the POST goes to the fixed OpenAI URL with the sanitized messages, model and temperature, not streamed; an empty list is still sent, as an empty list |
| OpenAiChatBackend.AuthorizationAlwaysSent | Assets/Scripts/LLM/OpenAiChatBackend.cs:62-63 | the bearer header is sent even with a blank key, together with the JSON content type |
| OpenAiChatBackend.HttpErrorReported | Assets/Scripts/LLM/OpenAiChatBackend.cs:67-72 | a transport error reports `OpenAI HTTP <code>` and ends with the whole, uncut body |
| OpenAiChatBackend.ReplyIsContent | Assets/Scripts/LLM/OpenAiChatBackend.cs:74-83 | reply text is non-empty and is the last content of a body that came back without a transport error |
| OpenAiChatBackend.NoContentFails | Assets/Scripts/LLM/OpenAiChatBackend.cs:74-81 | a body with no content, or with empty content, fails with the parse error |
| OpenAiChatBackend.ReplyRoundTrip | Assets/Scripts/LLM/OpenAiChatBackend.cs:74-111 | a body whose only quoted text is one `"content"` member holding non-empty `x` (JSON-escaped) delivers `x` |
| ChatBackend.CreateBackend | Assets/Scripts/RiddleLogic/RiddleGameController.cs:113-123 | the OpenAI backend is built from the config's key, model and temperature exactly when `useOpenAi` is set; otherwise the default vLLM client is used |
| ChatBackend.ChatOnce | Assets/Scripts/Interfaces/IChatBackend.cs:7-10 | dispatch to the chosen backend |
| ChatBackend.NoBackendStreams | Assets/Scripts/Interfaces/IChatBackend.cs:12-16 | neither backend streams: no delta, no completion and a non-empty error |
| ChatBackend.ChatOnceOutcome | Assets/Scripts/Interfaces/IChatBackend.cs:7-10 | what `ChatOnce` reports: vLLM refuses an empty list with "No messages provided.", and a reply is only ever the non-empty last `content` match of a body without a transport error |
| ChatBackend.OutcomeNonEmpty | Assets/Scripts/Interfaces/IChatBackend.cs:7-10 | whichever backend is chosen, reply text is non-empty and so is every error, so the callers' `IsNullOrEmpty` tests see them |
| JsonEnvelopeExtractor.TagSpan | Assets/Scripts/LLM/JsonEnvelopeExtractor.cs:22-35 | the span between the tags lies inside the text |
| JsonEnvelopeExtractor.TagSpanSpec | Assets/Scripts/LLM/JsonEnvelopeExtractor.cs:26-32 | the span runs from just after the first `<JSON>` to the first `</JSON>` after it — if and only if |
| JsonEnvelopeExtractor.TryExtractBetween | Assets/Scripts/LLM/JsonEnvelopeExtractor.cs:22-35 | no tags yield nothing, and whatever it yields is non-empty |
| JsonEnvelopeExtractor.BetweenSpec | Assets/Scripts/LLM/JsonEnvelopeExtractor.cs:32-34 | the result is the trimmed text between the tags, or nothing when that text is blank |
| JsonEnvelopeExtractor.FenceSpan | Assets/Scripts/LLM/JsonEnvelopeExtractor.cs:37-54 | the fenced span lies inside the text |
| JsonEnvelopeExtractor.FenceSpanSpec | Assets/Scripts/LLM/JsonEnvelopeExtractor.cs:41-49 | the content starts after the first fence's line and ends at the next fence — if and only if |
| JsonEnvelopeExtractor.TryExtractCodeFence | Assets/Scripts/LLM/JsonEnvelopeExtractor.cs:37-54 | no fence yields nothing, and whatever it yields is non-empty |
| JsonEnvelopeExtractor.FenceNeedsNewlineAndClose | Assets/Scripts/LLM/JsonEnvelopeExtractor.cs:44-50 | a fence with no newline after it, or with no closing fence, yields nothing |
| JsonEnvelopeExtractor.FirstBracket | Assets/Scripts/LLM/JsonEnvelopeExtractor.cs:65-71 | the earlier of the first `{` and the first `[`, or none when there is neither |
| JsonEnvelopeExtractor.Cleaned | Assets/Scripts/LLM/JsonEnvelopeExtractor.cs:61-63 | trimming and removing the byte-order mark never lengthens the text |
| JsonEnvelopeExtractor.CleanedSubstring | Assets/Scripts/LLM/JsonEnvelopeExtractor.cs:61-63 | the cleaned text is a substring of the input |
| JsonEnvelopeExtractor.CutAtBracket | Assets/Scripts/LLM/JsonEnvelopeExtractor.cs:73-74 | cutting at the bracket keeps a suffix |
| JsonEnvelopeExtractor.SanitizeJson | Assets/Scripts/LLM/JsonEnvelopeExtractor.cs:56-78 | empty input yields nothing, and whatever it yields is non-empty |
| JsonEnvelopeExtractor.SanitizeSpec | Assets/Scripts/LLM/JsonEnvelopeExtractor.cs:61-77 | on success the payload is non-empty, trimmed, and a substring of the input |
| JsonEnvelopeExtractor.SanitizeAtBracket | Assets/Scripts/LLM/JsonEnvelopeExtractor.cs:65-76 | everything before the first bracket is dropped, and the rest is trimmed at its end |
| JsonEnvelopeExtractor.SanitizeWithoutBracket | Assets/Scripts/LLM/JsonEnvelopeExtractor.cs:65-77 | without a bracket, the trimmed cleaned text is returned, or nothing when it is empty |
| JsonEnvelopeExtractor.SanitizeKeepsInnerBom | Assets/Scripts/LLM/JsonEnvelopeExtractor.cs:61-63 | a byte-order mark is removed only where it leads the trimmed text, so one behind white space survives the first trim |
| JsonEnvelopeExtractor.TryExtract | Assets/Scripts/LLM/JsonEnvelopeExtractor.cs:8-20 | empty text yields nothing, and whatever it yields is non-empty |
| JsonEnvelopeExtractor.TagsTakePrecedence | Assets/Scripts/LLM/JsonEnvelopeExtractor.cs:13-14 | non-blank tagged content is used whatever fence follows |
| JsonEnvelopeExtractor.FallThroughToFence | Assets/Scripts/LLM/JsonEnvelopeExtractor.cs:13-17 | without usable tags, the fenced content is used |
| JsonEnvelopeExtractor.NoEnvelope | Assets/Scripts/LLM/JsonEnvelopeExtractor.cs:13-19 | text with neither a tag nor a fence yields nothing |
| JsonEnvelopeExtractor.TryExtractSpec | Assets/Scripts/LLM/JsonEnvelopeExtractor.cs:8-20 | whatever is extracted is a non-empty, trimmed substring of the reply |
| JsonEnvelopeExtractor.SanitizeBracketed | Assets/Scripts/LLM/JsonEnvelopeExtractor.cs:56-78 | an already bracketed, trimmed payload comes back unchanged |
| JsonEnvelopeExtractor.TagRoundTrip | Assets/Scripts/LLM/JsonEnvelopeExtractor.cs:8-35 | round trip: `<JSON>j</JSON>` followed by anything gives back `j` |
| JsonEnvelopeExtractor.FenceRoundTrip | Assets/Scripts/LLM/JsonEnvelopeExtractor.cs:8-54 | round trip: a fenced block with a language tag gives back the bracketed payload `j` |
| SseLineBuffer.TrimCarriageReturns | Assets/Scripts/UI/SseLineBuffer.cs:20 | each line loses exactly its trailing `\r`s |
| SseLineBuffer.RawLinesReassemble | Assets/Scripts/UI/SseLineBuffer.cs:13-22 | the lines, each with its `\n`, followed by the pending rest, give the text back |
| SseLineBuffer.RawLinesCount | Assets/Scripts/UI/SseLineBuffer.cs:13-22 | one line per `\n` |
| SseLineBuffer.CompleteLinesShape | Assets/Scripts/UI/SseLineBuffer.cs:19-20 | no line handed out holds a `\n` or ends in `\r` |
| SseLineBuffer.NoNewlineNoLines | Assets/Scripts/UI/SseLineBuffer.cs:10-17 | a chunk without `\n` hands out nothing and stays buffered whole |
| SseLineBuffer.ChunkingPending | Assets/Scripts/UI/SseLineBuffer.cs:10-22 | the rest kept after two chunks is the rest kept after their concatenation |
| SseLineBuffer.ChunkingInvariant | Assets/Scripts/UI/SseLineBuffer.cs:10-22 | the lines handed out for two chunks are the lines handed out for their concatenation |
| SseLineBuffer.SseLineBuffer.constructor | Assets/Scripts/UI/SseLineBuffer.cs:6 | the buffer starts empty |
| SseLineBuffer.SseLineBuffer.AppendAndExtractLines | Assets/Scripts/UI/SseLineBuffer.cs:7-25 | hands out the complete lines of the old buffer followed by the chunk, and keeps the rest after the last `\n`, which holds no `\n` |
| StructuredReply.DecodeReplySpec | Assets/Scripts/RiddleLogic/RiddleGenerator.cs:51-65 | a transport error is passed on; no envelope and a failed decode each give their own error; success if and only if the reply has an envelope that decodes, with the decoded value |
| StructuredReply.DecoderInput | Assets/Scripts/RiddleLogic/RiddleGenerator.cs:57-64 | on success, the decoder was given the extracted envelope of a successful reply |
| StructuredReply.TaggedReplyDecodes | Assets/Scripts/RiddleLogic/RiddleGenerator.cs:57-65 | a tagged payload that decodes is delivered |
| RiddleGenerator.MessagesSent | Assets/Scripts/RiddleLogic/RiddleGenerator.cs:40-44 | the generator sends its system prompt and a user message made of the theme prefix and the extra theme text, which sanitizing leaves unchanged |
| RiddleGenerator.RiddleOf | Assets/Scripts/RiddleLogic/RiddleGenerator.cs:67-73 | a blank generated id is replaced by a fresh one; every other field is copied |
| RiddleGenerator.GenerateErrors | Assets/Scripts/RiddleLogic/RiddleGenerator.cs:51-65 | the transport error, the no-envelope error and the parse error in the source's order; every failure carries a non-empty error |
| RiddleGenerator.Generate | Assets/Scripts/RiddleLogic/RiddleGenerator.cs:35-76 | a failure is the backend's error, the no-envelope error or the parse error; a riddle comes only from a reply with an envelope, and with a non-blank fresh id its id is never blank (exact cases in `GenerateErrors` and `GenerateSuccess`) |
| RiddleGenerator.GenerateSuccess | Assets/Scripts/RiddleLogic/RiddleGenerator.cs:57-75 | success if and only if the reply's envelope decodes, and the riddle is built from the decoded response |
| RiddleGenerator.GeneratedIdNotBlank | Assets/Scripts/RiddleLogic/RiddleGenerator.cs:69 | with a non-blank fresh id, a generated riddle never has a blank id |
| RiddleGenerator.GenerateFromTaggedReply | Assets/Scripts/RiddleLogic/RiddleGenerator.cs:49-75 | a tagged reply that decodes gives its riddle |
| RiddleJudge.PreconditionsChecked | Assets/Scripts/RiddleLogic/RiddleJudge.cs:41-51 | a missing riddle, and a blank question or criteria, fail with their own messages before any request; a request is made if and only if both are present |
| RiddleJudge.PromptNotBlank | Assets/Scripts/RiddleLogic/RiddleJudge.cs:10-28 | the judge's system prompt is not blank |
| RiddleJudge.UserBlockShape | Assets/Scripts/RiddleLogic/RiddleJudge.cs:53-57 | the user block starts with the riddle's question and ends with the player's answer |
| RiddleJudge.JudgeRequest | Assets/Scripts/RiddleLogic/RiddleJudge.cs:41-63 | a request is built if and only if the riddle is present with non-blank question and criteria; otherwise the null-riddle or incomplete-riddle error; the request is a system and a user message |
| RiddleJudge.RequestSent | Assets/Scripts/RiddleLogic/RiddleJudge.cs:53-63 | the judge sends exactly its system prompt and the user block, which sanitizing leaves unchanged |
| RiddleJudge.HintNeverSent | Assets/Scripts/RiddleLogic/RiddleJudge.cs:53-63 | the request depends on neither the riddle's id nor its hint |
| RiddleJudge.Evaluate | Assets/Scripts/RiddleLogic/RiddleJudge.cs:35-87 | no riddle fails with the null-riddle error; a verdict comes only from a valid riddle and a reply with an envelope; every failure is one of the five errors (exact cases in `EvaluateOutcome`) |
| RiddleJudge.EvaluateOutcome | Assets/Scripts/RiddleLogic/RiddleJudge.cs:70-86 | for a valid riddle, the error cases and the if-and-only-if of success are the structured decode's |
| RiddleJudge.EvaluateTaggedReply | Assets/Scripts/RiddleLogic/RiddleJudge.cs:68-86 | a tagged verdict that decodes is delivered |
| RiddleJudge.EvaluateErrorNonEmpty | Assets/Scripts/RiddleLogic/RiddleJudge.cs:41-84 | every failed evaluation carries a non-empty error |
| DoorNpcConversation.BuildMessages | Assets/Scripts/ChatLogic/DoorNpcConversation.cs:79-85 | the request is one system message followed by the whole history, in order; the system prompt (`SystemPrompt`, lines 48-77) is never stored in the history |
| DoorNpcConversation.PromptStatesAttempts | Assets/Scripts/ChatLogic/DoorNpcConversation.cs:50-66 | the prompt starts with the trimmed base prompt, and it holds the attempts number right after the game-state label |
| DoorNpcConversation.SystemPromptRiddle | Assets/Scripts/ChatLogic/DoorNpcConversation.cs:68-77 | for `SystemPrompt`: without a non-blank question the riddle section is absent; with one, the prompt is the riddle-free prompt followed by the section, which holds the question; the prompt is longer than the riddle-free one if and only if a question is shown |
| DoorNpcConversation.CharDeltasAt | Assets/Scripts/ChatLogic/DoorNpcConversation.cs:141-146 | one delta per character, each being that character |
| DoorNpcConversation.CharDeltasJoin | Assets/Scripts/ChatLogic/DoorNpcConversation.cs:141-146 | the deltas joined give the full reply back |
| DoorNpcConversation.TurnOutcomeSpec | Assets/Scripts/ChatLogic/DoorNpcConversation.cs:124-139 | a backend error is passed on; a refused reply gives the output gate's reason; a reply is delivered if and only if the output gate allows it; every failure is non-empty |
| DoorNpcConversation.BlankReplyDelivered | Assets/Scripts/ChatLogic/DoorNpcConversation.cs:132-139 | a missing or blank reply passes the output gate and is delivered |
| DoorNpcConversation.DoorNpcConversation.constructor | Assets/Scripts/ChatLogic/DoorNpcConversation.cs:39-44 | the session starts with an empty history and not busy |
| DoorNpcConversation.DoorNpcConversation.BeginTurn | Assets/Scripts/ChatLogic/DoorNpcConversation.cs:98-113 | a busy session refuses; refused input changes nothing; accepted input is appended and the turn is busy; the request is the system prompt and the history |
| DoorNpcConversation.DoorNpcConversation.CompleteTurn | Assets/Scripts/ChatLogic/DoorNpcConversation.cs:124-151 | a failure hands out no delta and keeps the player's message in the history; a success hands out one delta per character and appends the reply; either way the session is no longer busy |
| DoorNpcConversation.DoorNpcConversation.ClearHistory | Assets/Scripts/ChatLogic/DoorNpcConversation.cs:154-157 | the history is empty |
| RiddleGameController.AttemptLimit | Assets/Scripts/RiddleLogic/RiddleGameController.cs:97 | a run has at least one attempt |
| RiddleGameController.Clamp | Assets/Scripts/RiddleLogic/RiddleGameController.cs:303 | the result lies within the bounds and equals the input when the input does |
| RiddleGameController.Clamp01 | Assets/Scripts/RiddleLogic/RiddleGameController.cs:300 | the result lies in [0, 1] |
| RiddleGameController.RoundHalfEven | Assets/Scripts/RiddleLogic/RiddleGameController.cs:303 | the nearest integer, and on a tie the even one |
| RiddleGameController.RoundHalfEvenNearest | Assets/Scripts/RiddleLogic/RiddleGameController.cs:303 | no integer is closer than the rounded value |
| RiddleGameController.RoundHalfEvenMirror | Assets/Scripts/RiddleLogic/RiddleGameController.cs:302-303 | rounding commutes with reflection about an even integer |
| RiddleGameController.DecisionConfidence | Assets/Scripts/RiddleLogic/RiddleGameController.cs:296-300 | a confidence in (0, 1] is used as given; any other value becomes 0.75 |
| RiddleGameController.Accuracy | Assets/Scripts/RiddleLogic/RiddleGameController.cs:293-304 | the accuracy lies within 0..100 |
| RiddleGameController.AccuracyValues | Assets/Scripts/RiddleLogic/RiddleGameController.cs:294-304 | an out-of-range confidence scores 75 when solved and 25 when not |
| RiddleGameController.AccuracyComplement | Assets/Scripts/RiddleLogic/RiddleGameController.cs:302-303 | the solved and unsolved accuracies for the same confidence add up to 100 |
| RiddleGameController.UnsolvedCanWin | Assets/Scripts/RiddleLogic/RiddleGameController.cs:302-320 | an unsolved verdict with a tiny confidence scores 100, which meets any threshold |
| RiddleGameController.RiddleGameController.IsBusy | Assets/Scripts/RiddleLogic/RiddleGameController.cs:54-57 | busy if and only if the run has ended or the phase is `DoorResponding` or `Judging`; `Boot`, `PresentRiddle` and `AwaitPlayerAnswer` of a running round are not busy |
| RiddleGameController.RiddleGameController.constructor | Assets/Scripts/RiddleLogic/RiddleGameController.cs:70-111 | the controller starts at Boot, not started, not ended, with no riddle, a full set of attempts and an idle door |
| RiddleGameController.RiddleGameController.BeginConversation | Assets/Scripts/RiddleLogic/RiddleGameController.cs:125-179 | it is ignored once started or ended; otherwise it either waits for the generator, reporting the request `RiddleGenerator.Messages(riddleThemeExtra)`, or poses the manual riddle |
| RiddleGameController.RiddleGameController.PoseRiddle | Assets/Scripts/RiddleLogic/RiddleGameController.cs:163-178 | a riddle with a question is presented and awaits the player's answer; otherwise the controller stays at Boot and reports that no riddle is defined |
| RiddleGameController.RiddleGameController.RiddleGenerated | Assets/Scripts/RiddleLogic/RiddleGameController.cs:145-170 | a generator error is reported, stays at `Boot` and leaves no riddle; a generated riddle becomes `CurrentRiddle` and is posed (phase `AwaitPlayerAnswer`) only when its question is non-blank; otherwise it is kept but the phase stays at `Boot` with "no riddle defined" |
| RiddleGameController.RiddleGameController.SubmitPlayerMessage | Assets/Scripts/RiddleLogic/RiddleGameController.cs:181-241 | the guards apply in the source's order (ended, not started, busy, policy, no riddle), and each guard changes nothing; otherwise the door is called with the player's text |
| RiddleGameController.RiddleGameController.DoorReplied | Assets/Scripts/RiddleLogic/RiddleGameController.cs:241-274 | a door failure stops in DoorResponding; a door reply moves on to Judging on the same player text |
| RiddleGameController.RiddleGameController.JudgeReplied | Assets/Scripts/RiddleLogic/RiddleGameController.cs:280-342 | a judge error stops in Judging and consumes nothing; accuracy at or above the threshold wins; an unsolved verdict consumes one attempt and loses at zero; a solved verdict below the threshold asks for a refinement |
| RiddleGameController.RiddleGameController.ConsumeAttempt | Assets/Scripts/RiddleLogic/RiddleGameController.cs:344-349 | one attempt fewer, never below zero |
| RiddleGameController.RiddleGameController.EndRun | Assets/Scripts/RiddleLogic/RiddleGameController.cs:357-360 | the run ends once; ending an ended run does nothing |
| RiddleGameController.RiddleGameController.FinishEndScreen | Assets/Scripts/RiddleLogic/RiddleGameController.cs:378-409 | after the end screen, the run resets to Boot with a full set of attempts, no riddle and a cleared, idle door |

## Left out

- HTTP transport (UnityWebRequest): the backends do not send anything. The
  network's response is an input (`HttpExchange.Response`), and a null body or
  error text is modelled as "".
- `DataProcessingError` is treated like success by both backends, as in the
  code. Only connection and protocol errors are reported as HTTP failures.
- Coroutine timing: the door's per-character pacing delay and the end
  screen's dwell time are not modelled. The deltas are returned in order.
- The state between the halves of a coroutine is modelled by the
  `suspended` field. Nothing runs concurrently.
- JSON serialization (`JsonUtility.ToJson`/`FromJson`): requests are the
  payload records before serialization. Decoding a reply is a function
  parameter `decode` that may fail.
- `FromJson` returning an object with default fields instead of failing is
  not modelled; neither is the `jr == null` branch of the scoring (accuracy
  0), which a successful decode never reaches.
- Floating point: confidence, temperature and accuracy are `real`. NaN,
  the rounding error of `1f - conf` and the float multiplication by 100 are
  not modelled. `Mathf.RoundToInt` is modelled as round-half-to-even on the
  exact value.
- RiddleGameController.Accuracy: states the range here; the exact values are
  stated separately by `AccuracyValues`, `AccuracyComplement` and
  `UnsolvedCanWin`.
- The regular expressions of the content policy: each category is an
  abstract predicate on the text (`Patterns`). The gates are modelled exactly
  on top of them, but which words match is not modelled.
- `char.IsWhiteSpace` is written out as a fixed set of characters in
  `Text.IsWhiteSpace`. The set is U+0009 to U+000D, U+0085, and the Unicode
  space, line and paragraph separators. It is not derived from a Unicode
  table.
- UTF-8 decoding of a chunk in `SseLineBuffer`: the method takes the
  chunk already decoded to text.
- Lone surrogates: a `\uXXXX` escape in the range D800 to DFFF decodes to
  U+FFFD, because a Dafny character cannot hold a lone UTF-16 surrogate. The
  code keeps the raw code unit. Surrogate pairs are therefore not recombined.
- Null elements in message lists: the model's lists hold no nulls. A null
  role is "", which normalizes to `system`. A null content is "", which is
  dropped.
- `Guid.NewGuid()`: the fresh id is the input `freshId`.
- VllmStreamDeltaParser.DeltaSpan and VllmStreamDeltaParser.DeltaSpanSpec:
  the search for the `"content":"` marker is modelled as ordinal. The code
  calls `IndexOf(string)` without a `StringComparison`, which compares by
  the current culture and can match a marker holding ignorable characters,
  such as a soft hyphen. The model then finds no marker, or a later one.
- VllmChatClient.Truncate: lengths and the cut count characters, where the
  code's `Length` and `Substring` count UTF-16 code units. A text with
  characters outside the Basic Multilingual Plane is therefore cut later in
  the model, and the code's cut can split a surrogate pair.
- DoorNpcConversation.CharDeltasAt: there is one delta per character, where
  the code's `full[i].ToString()` emits one per UTF-16 code unit. A
  character outside the Basic Multilingual Plane is one delta in the model
  and two lone surrogates in the code.
- DoorNpcConversation.DoorNpcConversation.CompleteTurn: its deltas are
  `CharDeltas`, so they count characters, not UTF-16 code units, as above.
- The `maxAttempts` argument of the door's `SendPlayerMessageFakeStream` and
  `BuildMessages` is unused there, and is not taken as a parameter.
- The door's `_backend` field: the backend's reply is the input of
  `CompleteTurn`.
- The vLLM fields of `AIBackendConfig` are not read by `CreateBackend`,
  which uses the parameterless vLLM client, so they are not in the model's
  `BackendConfig`.
- VllmChatClient.ReplyRoundTrip and OpenAiChatBackend.ReplyRoundTrip:
  proved only for a body whose only quoted text is the one `"content"`
  member, with no quote before or after it. A real chat-completions body has
  other quoted keys, which these lemmas do not cover. `ReplyIsContent`
  states the general case through `LastContent`.
- ContentRegex.ContentRoundTrip: proved for bodies whose text around the
  member holds no quote; in a body with other quoted members the last match
  wins, which `LastContent` models but this lemma does not cover.
- UI, logging and view calls (`view.*`, `AiDebugLog`, the session logger,
  the scroll controller, `JudgeDisplayMode`). The early returns of `Awake`
  when the view or config is missing are not modelled either.
- The `[Range(0, 100)]` inspector bound of `winAccuracyThreshold`: the
  threshold is any integer.
- `RiddleDefinition.ToString` and `SetUseOpenAi`, which are display and
  inspector helpers.
