# Cryenx chat widget: the chat route and the transcript state machine

This project models the two pieces of logic in the Cryenx Labs chat widget:

- **`POST /api/chat`** (`app/api/chat/route.ts`). The handler first checks the
  Gemini API key. It then builds the prompt parts: the fixed knowledge base of
  example `input:`/`output:` pairs, followed by one `input: <newest message>`
  part. It calls the model and cleans the answer, deleting every `input:` and
  then every `output:`, each with the whitespace after it. Every error becomes
  a 500 payload: a "try again" text when the error message mentions
  `rate limit` or `500`, and `Error in API route: …` otherwise.
- **The chat page** (`app/page.tsx`). `handleSendMessage` guards against blank
  text and against a send while one is in flight. It appends the user's
  message and a `thinking...` placeholder with positional ids, posts the
  transcript, and then either replaces the placeholder with the reply or
  removes it and records the error. `onSubmit` sends the input box and empties
  it. The help view filters the FAQ list case-insensitively and toggles one
  expanded entry.

Layout:

- `text.dfy` (`Text`): string operations with their JavaScript meanings.
  - Whitespace is the `\s`/`trim` set: WhiteSpace and LineTerminator.
  - `trim`, `includes` (as `Contains`) and ASCII `toLowerCase`.
  - `StartsWith` and `OccursAt`, which the model uses to anchor a regex match
    at a position.
- `messages.dfy` (`Messages`): the `{ id, text, sender }` record.
- `wrappers.dfy` (`Wrappers`): `Option`.
- `cleanup.dfy` (`LabelCleanup`): the response cleanup. `RemoveLabel` is one
  global pass of `label\s*` replaced by the empty string.
- `route.dfy` (`ChatRoute`): the handler, with these inputs:
  - the key;
  - the request's messages;
  - the knowledge base;
  - the outcome of the model call.
- `page.dfy` (`ChatPage`):
  - the widget state is a class;
  - the list updates, the FAQ filter and the toggle are functions.

Modelling choices:

- **The handler builds and mutates a local array.** `Post` is a method that
  builds `parts` and then appends to it. The cleanup and the error
  classification are pure string functions.
- **The upstream call is an input.** `Upstream` is one of:
  - `Answered(candidates)`: a 2xx response whose body was parsed;
  - `Refused(status, statusText)`: `!response.ok`;
  - `Failed(message)`: the fetch or the body parse threw an Error with that
    message.
- **Shape errors use V8's TypeError texts.** The handler reads `.text` of the
  last message of an empty list, `.content` of the first candidate of an empty
  list, or `.text` of the first part of an empty list. Each of these reads
  `undefined`. The model uses V8's texts for the errors they throw:
  - `Cannot read properties of undefined (reading 'text')`;
  - `Cannot read properties of undefined (reading 'content')`.
  These texts contain neither marker, so these cases end in the generic
  payload.
- **A send has two phases.** `ChatWidget.Send` runs up to the awaited fetch.
  `ChatWidget.Receive` applies the outcome. `pendingId` holds the placeholder
  id that the closure captured. This makes sends strictly sequential, and it
  leaves the in-flight guard reachable.

## Model

| member | source | states |
|---|---|---|
| Text.IsSpace | app/api/chat/route.ts:499 | The `\s` and `trim` character set: TAB, VT, FF, ZWNBSP, the Zs category, LF, CR, LS and PS. |
| Text.Contains | app/page.tsx:445-446 | `includes`: `w` occurs in `s` at some index. `ChatPage.ContainsEmpty` adds that the empty string occurs in every string. |
| Text.Trim | app/page.tsx:179 | The result is the input with its leading and trailing whitespace removed: a slice of the input with only whitespace before and after it (`Padded`). It is empty exactly when the input is all whitespace, and a non-empty result starts and ends with a non-whitespace character. |
| Text.SpaceRun | app/api/chat/route.ts:499 | What greedy `\s*` consumes: a prefix made only of whitespace, followed by a non-whitespace character or the end of the text. |
| Text.Lower | app/page.tsx:445-446 | Lowercasing keeps the length and lowercases each ASCII letter in place. |
| Text.LowerIdempotent | app/page.tsx:445-446 | Lowercasing an already lowercased string changes nothing. |
| LabelCleanup.RemoveLabel | app/api/chat/route.ts:499 | One global `label\s*` replacement pass never lengthens the text. |
| LabelCleanup.LabelFreeUnchanged | app/api/chat/route.ts:499 | A pass leaves text that does not contain the label exactly as it was. |
| LabelCleanup.OccurrenceRemoved | app/api/chat/route.ts:499 | Every occurrence of a label in the input is deleted together with its whole whitespace run. The result is the cleaned text before the occurrence followed by the cleaned text after it. |
| LabelCleanup.SplitAround | app/api/chat/route.ts:499 | A label between two texts is deleted together with a whitespace run that ends before text not starting with whitespace, and each side is cleaned on its own. |
| LabelCleanup.KeepAcross | app/api/chat/route.ts:499 | A character that is neither whitespace nor in the label splits a pass: no match or whitespace run reaches over it. |
| LabelCleanup.LeadKept | app/api/chat/route.ts:499 | A pass over text that does not start with whitespace gives text that does not start with whitespace. |
| LabelCleanup.InputPassKeepsOutput | app/api/chat/route.ts:499 | The `input:` pass leaves an `output:` and its whitespace run intact, and cleans the text on either side of it on its own. |
| LabelCleanup.Cleanup | app/api/chat/route.ts:499 | The two chained replacements, `input:` first and then `output:`. The result is never longer than the model's text. |
| LabelCleanup.OutputOccurrenceRemoved | app/api/chat/route.ts:499 | Every `output:` in the model's text is deleted by the cleanup with its whitespace run, and the text on either side is cleaned as if the other side were not there. |
| LabelCleanup.CleanupLabelFree | app/api/chat/route.ts:499 | Text with neither `input:` nor `output:` comes back unchanged. |
| LabelCleanup.CapitalisedLabelsSurvive | app/api/chat/route.ts:499 | Matching is case-sensitive: `Input: Output: OK` is left as it is. |
| LabelCleanup.PassCanSpliceLabel | app/api/chat/route.ts:498-499 | One `input:` pass over `inpinput:ut:` leaves `input:`. Deleting a label can join a new one together, so a single pass does not leave label-free text. |
| LabelCleanup.CleanupNotIdempotent | app/api/chat/route.ts:498-499 | The cleanup of `inpoutput:ut:` is `input:`. That result still contains a label, and cleaning it again gives the empty string. Labels present in the input are removed (`OccurrenceRemoved`, `OutputOccurrenceRemoved`), but a deletion can splice a new one together. |
| LabelCleanup.LabelsWellFormed | app/api/chat/route.ts:499 | Both labels start with a non-whitespace character that does not recur inside them, so two matches never overlap. |
| ChatRoute.ExampleParts | app/api/chat/route.ts:19-474 | The knowledge base becomes two parts per example. |
| ChatRoute.ExamplePartsLayout | app/api/chat/route.ts:19-474 | Example `k` is the `input: …` part at index `2k` and the `output: …` part at index `2k+1`, unchanged and in order. |
| ChatRoute.KeyMissing | app/api/chat/route.ts:8-9 | `!apiKey`: the key is undefined or the empty string. |
| ChatRoute.IsRetryable | app/api/chat/route.ts:506 | The message contains `rate limit` or `500`. |
| ChatRoute.ErrorResponse | app/api/chat/route.ts:502-515 | Every error is answered with status 500 and an `error` payload. The payload is the "try again" text exactly when the message contains `rate limit` or `500`. Otherwise it is `Error in API route: ` followed by the message, or by `Unknown error` when the message is empty. |
| ChatRoute.UpstreamErrorClassifiedByStatusText | app/api/chat/route.ts:489-490 | The `Gemini API error: ` prefix adds no marker. A refused call is classified by its status text alone; the numeric status plays no part. |
| ChatRoute.Http500WithoutCodeIsGeneric | app/api/chat/route.ts:506-515 | An HTTP 500 whose status text is `Internal Server Error` gets the generic payload, not the "try again" one. |
| ChatRoute.GenericWithout | app/api/chat/route.ts:512-515 | A non-empty message without a `5` or an `m` gets `Error in API route: <message>`. |
| ChatRoute.UndefinedReadsAreGeneric | app/api/chat/route.ts:16 | Reading through `undefined` gives a generic 500. This covers an empty message list here, and an empty candidate or part list at line 496. |
| ChatRoute.FirstText | app/api/chat/route.ts:496 | The text is present exactly when there is a first candidate with a first part, and it is that part. |
| ChatRoute.Post | app/api/chat/route.ts:5-516 | The handler's whole contract, listed below this table. |
| ChatPage.IdsUnique | app/page.tsx:186-196 | Under positional ids no two messages share an id. |
| ChatPage.ReplaceById | app/page.tsx:231-235 | The map keeps the length. It replaces every message carrying the id and keeps every other message. |
| ChatPage.RemoveById | app/page.tsx:243-245 | The filter never lengthens the transcript. |
| ChatPage.RemoveKeepsOthers | app/page.tsx:243-245 | The filter drops every message with the id and keeps each other message as often as it occurs. |
| ChatPage.ReplaceAtPosition | app/page.tsx:231-235 | Under positional ids, replacing id `base+k` rewrites exactly position `k` and nothing else. |
| ChatPage.RemoveAbsent | app/page.tsx:243-245 | Filtering out an id that no message carries changes nothing. |
| ChatPage.RemoveAtPosition | app/page.tsx:243-245 | Under positional ids, removing id `base+k` drops exactly position `k` and keeps the rest in order. |
| ChatPage.ReplaceLast | app/page.tsx:224-235 | Replacing the placeholder (the last message) by the reply with the same id keeps the other messages and keeps the ids positional. |
| ChatPage.RemoveLast | app/page.tsx:243-245 | Removing the placeholder leaves exactly the earlier messages, which keep positional ids. |
| ChatPage.UserMessage | app/page.tsx:185-189 | The user message of a send: id one past the transcript length, the trimmed text, sender user. |
| ChatPage.Placeholder | app/page.tsx:195-199 | The bot placeholder of a send: id two past the transcript length, text `thinking...`, sender bot. |
| ChatPage.SendKeepsIds | app/page.tsx:185-201 | Appending the user message (id `len+1`) and the placeholder (id `len+2`) keeps the ids positional. |
| ChatPage.ChatWidget.constructor | app/page.tsx:116-120 | The initial state: an empty transcript, both flags false, no error, an empty input box. |
| ChatPage.ChatWidget.Send | app/page.tsx:178-212 | The send phase, listed below this table. |
| ChatPage.ChatWidget.Receive | app/page.tsx:214-249 | The outcome phase, listed below this table. |
| ChatPage.ChatWidget.Submit | app/page.tsx:606-610 | The input box is empty afterwards, whether or not the send went ahead. The transcript, flags and request are those of a send of the old box contents. |
| ChatPage.Matches | app/page.tsx:444-446 | An entry matches when its lowercased question or lowercased answer contains the lowercased query. |
| ChatPage.FilterFaqs | app/page.tsx:443-447 | The filtered list is never longer than the FAQ list. |
| ChatPage.FilterKeepsMatching | app/page.tsx:443-447 | Each entry whose lowercased question or answer contains the lowercased query is kept as often as it occurs. Every other entry is dropped. |
| ChatPage.FilterAppend | app/page.tsx:443-447 | The filter distributes over concatenation, so the kept entries stay in their original order. |
| ChatPage.EmptyQueryKeepsAll | app/page.tsx:443-447 | An empty search box lists every entry. |
| ChatPage.QueryCaseIgnored | app/page.tsx:445-446 | Lowercasing the query first gives the same list: the letter case of the query plays no part. |
| ChatPage.Toggle | app/page.tsx:477-481 | Clicking entry `i` collapses it when it is the expanded one. Otherwise `i` becomes the only expanded entry. |

`ChatRoute.Post` states:

- A missing or empty key gives `500 {error: "Gemini API key not configured"}`
  and no upstream call.
- An empty message list gives the generic 500.
- The parts sent are the example parts followed by
  `input: <text of the last message>`. They are sent exactly when the key is
  set and there is a message.
- A refused call gives `ErrorResponse("Gemini API error: " + statusText)`.
- A thrown Error gives `ErrorResponse(message)`.
- A missing candidate or part gives the generic 500.
- The status is 200 exactly on the success path. The result is then the
  cleanup of the first candidate's first part.
- Every other status is 500.

`ChatPage.ChatWidget.Send` states:

- It is a no-op, with no request, exactly when the text is blank after trimming
  or a send is in flight.
- Otherwise it appends exactly two messages: the user message (trimmed text,
  id `len+1`) and the `thinking...` placeholder (id `len+2`).
- It clears `error` and sets both flags.
- The posted transcript is the old one plus the user message, without the
  placeholder.
- The ids stay positional.

`ChatPage.ChatWidget.Receive` states:

- On a reply, the placeholder is replaced by id with the bot's reply. The
  result is the old transcript with only its last message rewritten.
- On a failure, the placeholder is filtered out by id, which leaves the old
  transcript minus its last message.
- On a failure, `error` becomes one of:
  - `API error: <statusText>`;
  - the thrown message;
  - `An unexpected error occurred`.
- Both flags end false.
- The ids stay positional.

## Left out

- The handler has no history short-circuit, no URL-to-link rewriting, no
  `[User]:`/`[Chatbot]:` stripping, no empty-output fallback and no markdown
  rendering, so the model has none. An empty message list throws
  (`UndefinedReadsAreGeneric`). The cleanup is neither label-free nor
  idempotent (`CleanupNotIdempotent`).
- The fetch to the Gemini endpoint, `req.json()`, `response.json()` and
  `NextResponse` are I/O. The key, the request's messages, the knowledge base
  and the outcome of the model call are parameters instead.
- A request body that is not JSON, or whose `messages` is not an array, is not
  modelled, because the upstream body shape is an input. The same goes for a
  response body that lacks `candidates` or `content`, or whose text is not a
  string. Only empty candidate and part lists are modelled.
- The 176 example pairs at app/api/chat/route.ts:20-473 are not transcribed.
  The knowledge base is the parameter `kb`, and `ExampleParts` flattens it in
  order.
- ChatRoute.Post: errors thrown by something other than an `Error` (no
  `message` property) are not modelled. Such an error would make the catch
  block itself throw.
- All `console.log`/`console.error` logging is left out.
- React rendering, animation, icons and styling are left out.
- The 5-second auto-open timer, scrolling and the wheel handler are left out.
- The artificial 500 ms delay before the reply is shown is left out.
- Overlapping sends through the stale `messages`/`isLoading` closure are left
  out: sends are strictly sequential (Send, then Receive). React's batching of
  `set*` calls is not modelled either.
- ChatPage.ChatWidget.Receive: the reply text is taken as a string. A 2xx body
  without `result` (an `undefined` text) is not modelled.
- `toLowerCase` is modelled on ASCII letters only. Unicode case mapping is
  left out.
- Whitespace is the fixed set listed in `Text.IsSpace`. No Unicode database
  lookup is modelled.
- The suggestions, news items and FAQ texts are static content and are not
  modelled. The FAQ list is a parameter.
- The message's optional `file` field is never set by the page and is not
  modelled.
