# IceBreaker speech generator: a verified model of its core

IceBreaker turns a few facts about a person into a spoken self-introduction:
- a name;
- an identity or role;
- a background;
- what they do;
- why they do it.

The server validates the submitted fields and stores a speech request. It asks a language model for a speech: the prompt lists the five facts, or a placeholder for each missing fact. The server checks the reply, attaches the speech to the stored request and responds with the speech, its word count and a reading time. The client then shows a commentary on the speech. The commentary is built as follows:
- the text is normalised;
- the speaker's name, role, work and motivation are extracted with ordered lists of patterns;
- sentences and words are counted;
- the text is tested for transition words;
- fixed remarks are chosen from what was found.

This project models those three pieces in Dafny and proves their properties:

| file | module | what it models |
|---|---|---|
| `wrappers.dfy` | `Wrappers` | `Option` (`undefined`/`null`) and `Result` (a step that may throw) |
| `text.dfy` | `JsText` | the JavaScript string operations the core relies on: the `trim` white-space set, `trim`, `replace(/\s+/g, ' ')`, `split` on runs of a character class and on one character, `join`, `includes`, ASCII lower-casing |
| `schema.dfy` | `Schema` | the `users` and `speech_requests` record shapes, `Partial<SpeechRequest>`, and the object spread used for updates |
| `storage.dfy` | `Storage` | the `MemStorage` class: two keyed collections and two auto-increment counters, updated in place |
| `prompt.dfy` | `Prompt` | `buildPrompt`, plus a reader that recovers the five field lines from a prompt |
| `routes.dfy` | `Routes` | the `POST /api/speech/generate` handler: body validation, reply acceptance, the reading-time fallback, error classification, and the handler's effects on the store |
| `analysis.dfy` | `Analysis` | `SpeechAnalysisContent`: normalisation, the four first-match extraction loops, the metrics, and which remarks are chosen |

How the pieces are shaped:
- **`MemStorage`** is a `class`. Its `Map`s are `map` fields, plus a `seq` that records insertion order. Every method states the store's whole new state and keeps the invariant `Valid()`: the keys in use are exactly the ids below each counter.
- **The handler** is a method over a `MemStorage`. The language-model call (`complete`) and `JSON.parse` (`parse`) are parameters.
- **Pattern matching.** Each regular expression is an opaque matcher from a string to an optional capture. The extraction blocks are `while` loops that stop at the first match, proved against a first-match function.

## Model

| member | source | states |
|---|---|---|
| `Storage.MemStorage.constructor` | server/storage.ts:18-23 | both collections start empty and both counters start at 1 |
| `Storage.MemStorage.GetUser` | server/storage.ts:25-27 | returns the user stored under the id, and `None` exactly when the id is not a key |
| `Storage.MemStorage.GetUserByUsername` | server/storage.ts:29-33 | returns `None` exactly when no stored user has the name. Otherwise it returns a stored user with that name such that every user inserted before it has another name. |
| `Storage.MemStorage.CreateUser` | server/storage.ts:35-40 | the new user has the old counter as its id, and that id was not yet a key. The user is stored under it and appended to the insertion order. The user counter goes up by one. The speech-request collection and its counter are unchanged. |
| `Storage.MemStorage.CreateSpeechRequest` | server/storage.ts:42-52 | the new record copies the five insert fields, with the old counter as its id and both results unset. The id is fresh and larger than every existing key. The record is stored under its id and the counter goes up by one. The users and the user counter are unchanged. Records keep matching their keys. |
| `Storage.MemStorage.UpdateSpeechRequest` | server/storage.ts:54-61 | an absent id gives `None` and leaves the collection unchanged. A present id gives the existing record with exactly the supplied fields overwritten, stored under that id. Every other key, both counters and the users are unchanged. |
| `Storage.MemStorage.GetSpeechRequest` | server/storage.ts:63-65 | returns the record stored under the id, and `None` exactly when the id is not a key |
| `Storage.CreateThenUpdate` | server/storage.ts:42-65 | in a fresh store the first request gets id 1 and is retrievable unchanged. Attaching the generation results sets exactly its two result fields. |
| `Schema.Merge` | server/storage.ts:58 | `{ ...existing, ...updates }`: every field the patch supplies takes the supplied value, and every field it leaves out keeps its existing value |
| `Schema.MergeUnique` | server/storage.ts:58 | the merge is the only record in which the supplied fields win and the others are kept |
| `Schema.NewSpeechRequest` | server/storage.ts:44-49 | the new record carries the five validated fields unchanged and the given id, with both generation results unset |
| `Schema.GenerationResultAttaches` | server/routes.ts:134-137 | spreading `{generatedSpeech, wordCount}` over a record sets both result fields together and nothing else |
| `Schema.MergeTwice` | server/storage.ts:58 | spreading two patches one after the other is spreading their combination, with the later one winning |
| `Prompt.GivenLine` | server/routes.ts:32-36 | the line starts with the field's label and `": "`. What follows is the untrimmed value when its trim is non-empty, and the field's placeholder otherwise. |
| `Prompt.GivenLines` | server/routes.ts:31-36 | exactly five entries: Name, Identity/Role, Background, What they do, Motivation/Why, in that order, each the given line of its field. Each entry is a single prompt line only when its value has no line break (see `Prompt.GivenLineOneLine`). |
| `Prompt.Instructions` | server/routes.ts:37-104 | the fixed text after the field lines is exactly 68 lines, the same for every request |
| `Prompt.BuildPrompt` | server/routes.ts:22-105 | the prompt is the fixed opening, the five field lines, then the fixed instructions, joined by line breaks. Only the field lines depend on the request. |
| `Prompt.ReadGivenLine` | server/routes.ts:32-36 | from any field's line, the reader recovers the provided value. It gets "absent" for a blank field, and also for a provided value that spells the field's placeholder text, which the line cannot tell apart. |
| `Prompt.RecoveredIsGiven` | server/routes.ts:23-36 | what is read back equals what the prompt passes on exactly when no provided value spells its field's placeholder |
| `Prompt.GivenLineOneLine` | server/routes.ts:32-36 | a field line holds no line break exactly when its value, if provided, holds none. A multi-line value, as the form's text areas allow, spreads its line over several prompt lines. |
| `Prompt.PromptRoundTrip` | server/routes.ts:22-105 | when no provided value holds a line break, reading the five lines after the fixed opening of `BuildPrompt(data)` gives back each field's value when it is not blank, and "absent" otherwise, in field order. A value that spells its field's placeholder reads back as "absent". When no value does, what is read back is exactly what the prompt passes on. |
| `Routes.RequiredString` | shared/schema.ts:13-17 | a `notNull` text column accepts exactly a string under its key, copied unchanged; blank strings pass. It reports "required" when the key is absent and "expected string" otherwise. |
| `Routes.NullableString` | shared/schema.ts:15 | the nullable `background` column accepts absent, `null` (both as `None`) or a string. Anything else is an "expected string" issue. |
| `Routes.Validate` | server/routes.ts:16 | a non-object body fails with one issue about the body itself. A success copies the four required strings and the `background` string (or `None` for absent or `null`) from the body. |
| `Routes.ValidateIssues` | shared/schema.ts:13-17 | a failing object body reports exactly these issues: "required" for each missing required key, "expected string" for each required key holding another type, and "expected string" for a `background` that is neither `null` nor a string |
| `Routes.ValidateAccepts` | server/routes.ts:16 | validation succeeds exactly on an object body whose four required keys hold strings and whose `background` is absent, `null` or a string. A failure lists at least one issue. |
| `Routes.ValidateToBody` | server/routes.ts:16 | every request the form can send validates back to itself |
| `Routes.ParseContent` | server/routes.ts:127 | missing or empty message content parses as the empty object `{}`. Any other content goes to `JSON.parse`. |
| `Routes.CeilDiv` | server/routes.ts:142 | `Math.ceil(n / d)`: `d*(q-1) < n <= d*q` |
| `Routes.ReadTime` | server/routes.ts:142 | the reply's `readTime` when it is truthy, otherwise the fewest whole minutes that hold `wordCount` words at 150 words per minute |
| `Routes.ReadTimePositive` | server/routes.ts:142 | for a positive word count, the fallback reading time is at least one minute |
| `Routes.AcceptReply` | server/routes.ts:129-131 | a reply is accepted exactly when `speech` is a non-empty string and `wordCount` is a non-zero number. The accepted values are copied, with the reading time above. Otherwise the error is "Invalid response from OpenAI". |
| `Routes.EmptyContentRejected` | server/routes.ts:127-131 | missing content gives `{}`, which is rejected, and a `wordCount` of 0 is rejected |
| `Routes.ReplyOutcome` | server/routes.ts:110-157 | the outcome succeeds exactly when the call returns content that parses to a reply with a non-empty `speech` and a non-zero `wordCount`; it then carries those and the reading time. A parsed reply is judged by `AcceptReply`, so any other parsed reply gives "Invalid response from OpenAI", as missing or empty content does. A failed call and a `JSON.parse` exception each pass their own message on. |
| `Routes.ErrorResponse` | server/routes.ts:145-157 | status 400 exactly for a validation error, carrying "Invalid input data" and the issues. Anything else is 500 with the error's message, or the default text when that message is empty. |
| `Routes.GenerateSpeech` | server/routes.ts:13-158 | see below the table |
| `Analysis.FirstMatchIndex` | client/src/components/generated-speech.tsx:20-26 | the position of a pattern that matches, with no pattern before it matching, or the list length when none matches |
| `Analysis.FirstMatch` | client/src/components/generated-speech.tsx:19-26 | nothing is found exactly when no pattern matches. Otherwise the result is the capture (trimmed where asked) of a pattern that matches with no pattern before it matching. |
| `Analysis.FirstCapture` | client/src/components/generated-speech.tsx:19-26 | the loop finds nothing exactly when no pattern matches. Otherwise it yields the capture (trimmed where asked) of the first pattern in list order that matches. |
| `Analysis.FirstMatchIgnoresLater` | client/src/components/generated-speech.tsx:20-26 | once a pattern matches, patterns listed after it are never consulted: appending more leaves the result unchanged |
| `Analysis.FindingsOf` | client/src/components/generated-speech.tsx:14-69 | the name is the untrimmed capture of the first matching name pattern. Role, work and motivation are the trimmed captures of the first matching pattern of their lists, so none starts or ends with white space. |
| `Analysis.CaptureTrimmed` | client/src/components/generated-speech.tsx:37-66 | a trimmed extraction is the trim of the first matching pattern's capture, and trimming it again changes nothing |
| `Analysis.ExtractFindings` | client/src/components/generated-speech.tsx:14-69 | the four blocks yield the first-match captures of their lists. Role, work and motivation are trimmed; the name is not. |
| `Analysis.NonBlankPieces` | client/src/components/generated-speech.tsx:72 | the filter keeps every piece that is non-blank after trimming, as often as it occurs, and drops every blank one |
| `Analysis.Sentences` | client/src/components/generated-speech.tsx:72 | the sentences are the fragments between runs of `.`, `!`, `?` that are non-blank, each as often as it occurs among the fragments, and nothing else. Each holds none of those characters. |
| `Analysis.WordCount` | client/src/components/generated-speech.tsx:73 | the number of pieces between white-space runs is at least 1 |
| `Analysis.WordCountCountsWords` | client/src/components/generated-speech.tsx:73 | on normalised text, the empty text counts 1, and otherwise every counted piece is a non-empty word with no white space |
| `Analysis.AnyOccurs` | client/src/components/generated-speech.tsx:74 | true exactly when some listed word occurs in the text |
| `Analysis.HasTransitions` | client/src/components/generated-speech.tsx:74 | true exactly when one of the nine transition words occurs in the lower-cased text |
| `Analysis.MentionsYou` | client/src/components/generated-speech.tsx:103 | true exactly when the speech as received holds "you" in any mix of upper and lower case |
| `Analysis.TransitionInsideWord` | client/src/components/generated-speech.tsx:74 | there are no word boundaries: "and" inside any text, such as "understand", counts as a transition |
| `Analysis.Who` | client/src/components/generated-speech.tsx:83-85 | the name remark when a name was found, else the missing-name remark; likewise for the role. The strong-WHO remark appears exactly when both were found. |
| `Analysis.Suggestions` | client/src/components/generated-speech.tsx:99-104 | each suggestion appears exactly when its condition holds: more than 15 sentences, no transitions, more than 320 words, no "you". The closing advice ends the list exactly once. |
| `Analysis.SuggestionsInOrder` | client/src/components/generated-speech.tsx:100-104 | the suggestions keep the source's order, so none is repeated |
| `Analysis.CommentaryFor` | client/src/components/generated-speech.tsx:83-104 | the WHO paragraph is `Who`'s. The WHAT and WHY paragraphs each hold two remarks. The first quotes the extraction exactly when it is present, and is the fixed hint otherwise. The second follows the same branch as the first. The suggestions are `Suggestions`'s. |
| `Analysis.AnalyzeSpeech` | client/src/components/generated-speech.tsx:10-104 | the commentary is taken from the findings and metrics of the normalised speech, except the "you" test, which reads the speech as received. The strong-WHO remark appears exactly when the first name match and the first role match are both present. Each suggestion appears exactly when its threshold on the normalised speech is crossed, or for "you" when the received speech lacks it. The closing advice comes last. |
| `Analysis.WhoParagraph` | client/src/components/generated-speech.tsx:83 | when the first WHO remark states a name, the WHO paragraph opens with its heading and then the name |
| `Analysis.WhatParagraph` | client/src/components/generated-speech.tsx:89 | when the first WHAT remark quotes the work description, the WHAT paragraph opens with its heading, the quote's lead-in and the description |
| `Analysis.WhyParagraph` | client/src/components/generated-speech.tsx:94 | when the first WHY remark quotes the motivation, the WHY paragraph opens with its heading, the quote's lead-in and the motivation |
| `Analysis.SuggestionsParagraph` | client/src/components/generated-speech.tsx:99-104 | when the suggestions end with the closing advice, the suggestions paragraph ends with that advice's text |
| `Analysis.NameRemarkStarts` | client/src/components/generated-speech.tsx:83 | the name remark's text starts with the name |
| `Analysis.WorkRemarkStarts` | client/src/components/generated-speech.tsx:89 | the work remark's text starts with the lead-in and the work description |
| `Analysis.MotivationRemarkStarts` | client/src/components/generated-speech.tsx:94 | the motivation remark's text starts with the lead-in and the motivation |
| `JsText.Trim` | client/src/components/generated-speech.tsx:12 | the result neither starts nor ends with white space, and it is empty exactly for all-white-space input |
| `JsText.TrimSlice` | client/src/components/generated-speech.tsx:12 | `trim` removes only white space, from both ends, and keeps a contiguous slice of the input |
| `JsText.CollapseWhitespace` | client/src/components/generated-speech.tsx:12 | `replace(/\s+/g, ' ')` leaves single spaces only, never two in a row. It starts with white space only when its input does and keeps every other character in order. |
| `JsText.CollapseIsJoinOfWords` | client/src/components/generated-speech.tsx:12 | `replace(/\s+/g, ' ')` is the pieces between white-space runs joined by single spaces: each maximal run becomes exactly one space |
| `JsText.Normalize` | client/src/components/generated-speech.tsx:12 | the cleaned speech is the trimmed join, with single spaces, of the pieces between white-space runs |
| `JsText.NormalizeIsNormalized` | client/src/components/generated-speech.tsx:12 | the cleaned speech has no leading or trailing white space and no two white-space characters in a row |
| `JsText.NormalizeKeepsText` | client/src/components/generated-speech.tsx:12 | cleaning removes white space only: every other character survives in order |
| `JsText.NormalizeIdempotent` | client/src/components/generated-speech.tsx:12 | cleaning a cleaned speech changes nothing |
| `JsText.SplitRuns` | client/src/components/generated-speech.tsx:72-73 | `split` on a character-class run gives at least one piece, and no piece holds a separator |
| `JsText.SplitRunsKeepsText` | client/src/components/generated-speech.tsx:72-73 | the pieces, put back together, are the input without its separators |
| `JsText.SplitJoinRoundTrip` | client/src/components/generated-speech.tsx:73 | joining non-empty, separator-free pieces with one separator and splitting again gives the pieces back |
| `JsText.SplitOn` | server/routes.ts:29-36 | `split` on one character: no piece holds it, and joining the pieces with it restores the input |
| `JsText.SplitOnJoinPrefix` | server/routes.ts:29-36 | splitting joined lines recovers the leading lines that hold no separator |
| `JsText.LowerAscii` | client/src/components/generated-speech.tsx:103 | same length, with each upper-case ASCII letter folded to lower case and every other character kept |

What `Routes.GenerateSpeech` states, in order:
- An invalid body gives the 400 response and creates no record; the counter is unchanged.
- A valid body consumes exactly one fresh id.
- When the model's reply is accepted, the record carries the speech and the word count together, and the response is the 200 body.
- On any later failure the record keeps both results unset, and the response comes from the error classification.
- Users stay untouched.
- If every stored record had both results or neither, that still holds afterwards, and records still match their keys.

## Left out

- The language-model call (server/routes.ts:7-9, 110-125) is network I/O through a foreign client. It is the parameter `complete`, which returns content or a failure. The API-key lookup, the model name, `max_tokens` and the 0.7 temperature have no behaviour to verify.
- `JSON.parse` is the parameter `parse`. The reply object is read as three typed keys:
  - `speech` as an optional string;
  - `wordCount` and `readTime` as optional integers.

  Other JSON types in those keys, and fractional numbers, are not modelled.
- `Routes.AcceptReply`: because `wordCount` is an integer here, a fractional word count, and the fractional reading time it would give, are not modelled.
- Express wiring, `createServer`, `console.error` and the `res.status(...).json(...)` plumbing are HTTP I/O. The model keeps only the status and body chosen.
- The zod schema is declarative library code. `Routes.Validate` models only what it accepts and the issues it reports: the key and the kind. zod's own messages and issue order are not modelled.
- The regular expressions of the four pattern lists and of the transition test are not modelled. Each extraction pattern is an opaque matcher; the transition test is the substring test its alternation amounts to.
- `JsText.LowerAscii`: `toLowerCase` and the `/i` flag fold only ASCII letters here. Unicode case mapping, which can also change a string's length, is not modelled.
- Async and Promise wrapping: `MemStorage` has no real concurrency, so its methods are synchronous.
- JSX rendering is not modelled: markup, class names, toasts, clipboard, `setTimeout` and the other React components. `Analysis.Paragraphs` gives only the text of the five paragraphs.
- `Prompt.PromptRoundTrip`: a value with a line break is not covered. Background, What they do and Motivation/Why come from text areas, so such values occur. They make the GIVEN INFORMATION block span more than five lines, and the five-line reader then misreads the block. `Prompt.GivenLineOneLine` states when this happens.
- `Analysis.RemarkText`, `Analysis.Paragraphs`: the fixed wording of the remarks and headings is transcribed, not verified. What is proved about the rendered text is where the quotes appear (`Analysis.WhoParagraph`, `Analysis.WhatParagraph`, `Analysis.WhyParagraph`) and that the closing advice comes last (`Analysis.SuggestionsParagraph`).
- `Prompt.GivenLine`: the result is stated as the label, `": "`, and the value or placeholder. It does not state that the value part is non-empty.

Facts about the code that the model follows:
- The request fields are `text().notNull()` columns. Validation requires a string and accepts an empty or blank one. Blank fields reach `buildPrompt`, which gives them the placeholder.
- Presence in the commentary is JavaScript truthiness. An extraction that is the empty string counts as absent, like `null`.
- The suggestions paragraph holds at most four suggestions, those listed above, and then the closing advice.
- JSX drops the line break after the "Framework Enhancement Suggestions:" heading, so no space follows it. The other three headings are followed by one space.
- `updateSpeechRequest` accepts any `Partial<SpeechRequest>`, `id` included. A patch with a different `id` stores a record under a key other than its own id. `Storage.MemStorage.UpdateSpeechRequest` therefore keeps the id/key match only for patches that leave `id` alone or repeat it. The handler's patch never supplies `id`.
