# agno-parse: a verified model of the event viewers' core

agno-parse is a pair of React pages for reading the event stream of an Agno
agent team. A user pastes (or watches stream in) a run of concatenated JSON
objects. The page cuts that text into values with a small brace-counting
scanner, turns each value into an event, and shows the events with a
type filter, per-type counts and the first and last timestamps.

This project models that core in Dafny and proves properties of it:

- `JsonValue` (json.dfy): decoded JSON values, property access (`obj.key`,
  the last duplicate key wins) and JavaScript truthiness, which the pages use in
  `obj.key || fallback`.
- `Scanner` (scanner.dfy): `parseJSONObjects`, which both components carry
  word for word. It is stated twice:
  - as a left fold `Scan` of a one-character step `Step` over the input;
  - as the imperative method `ParseJSONObjects`, whose loop mirrors the
    source and is proved to return `Scan(text).objects`.

  `JSON.parse` is a parameter `decode: string -> Option<Json>`. Every property
  holds for any decoder.
- `EventStore` (event_store.dfy): the `AIAgentParser` page. It is a class
  with the page's four state fields and its handlers (parse, clear, toggle a
  type, clear the filter). Beside it are the derived views as functions:
  the distinct types, the filtered list, the per-type counts, and the minimum
  and maximum `created_at`.
- `StreamSession` (stream_session.dfy): the `AIAgentStreamParser` page. A
  class holds the React state, the id counter and the timer's position. The
  timer tick is a method that takes the step as a parameter. It is proved equal
  to a state-transition function `TickNext` over a value-level `Session`, and
  every tick is proved to keep the shown events an exact, in-order,
  uniquely numbered prefix of the values in the revealed text.
  The model corrects two faults of the tick, which "## Findings" describes in
  their as-written form: a stale event count, and a step that can jump past the
  last character.

Two behaviours of the code are easy to miss, and the model follows them:

- At brace depth zero the scanner emits anything the decoder accepts, not only
  objects. The input `1` yields the number 1 (`ScalarAtDepthZeroIsEmitted`).
- A `null` value found by the scanner makes the property read that follows
  throw a `TypeError`:
  - `handleParse` turns it into a "Parse error: …" message;
  - in the stream tick it escapes the timer callback after the counter has
    already moved.

## Model

| member | source | states |
|---|---|---|
| Scanner.ParseJSONObjects | ai-agent-parser.tsx:192-240 | The loop returns exactly the values of the fold `Scan` over the whole input: same escape, quote, brace and decode branches, character by character. The copy at ai-agent-stream-parser.tsx:192-240 is the same code and is modelled by this same member. |
| Scanner.Step | ai-agent-parser.tsx:202-236 | One iteration of the loop: an escaped character or a backslash is only appended; any other character is counted and then offered to the decoder. `QuoteBraceEscapeRules` and `DecodeRule` state what it does. |
| Scanner.Count | ai-agent-parser.tsx:214-226 | The quote toggle, the brace counter outside strings and the append, for a character that is not escaped. |
| Scanner.TryDecode | ai-agent-parser.tsx:228-236 | The decode attempt at counter zero on the trimmed, non-empty accumulator. |
| Scanner.ScanFrom | ai-agent-parser.tsx:199-237 | The loop over the input from a given state, as a fold of `Step`. |
| Scanner.Scan | ai-agent-parser.tsx:192-240 | The fold from the initial state (empty output, empty accumulator, counter 0, both flags clear); its `objects` are the result. `ParseJSONObjects` is proved to return them. |
| Scanner.Trim | ai-agent-parser.tsx:228 | `currentObject.trim()`: the text without leading and trailing ECMAScript white space. Its properties are the three lemmas below. |
| Scanner.TrimStartSpec | ai-agent-parser.tsx:228 | `trim`'s leading part drops exactly the longest blank prefix: the rest is a suffix that is empty or starts with a non-blank character. |
| Scanner.TrimEndSpec | ai-agent-parser.tsx:228 | The same for the trailing part: the longest blank suffix is dropped. |
| Scanner.TrimEmptyIffBlank | ai-agent-parser.tsx:228 | `currentObject.trim()` is falsy exactly when the accumulator is all white space, and otherwise it starts and ends with a non-blank character. |
| Scanner.QuoteBraceEscapeRules | ai-agent-parser.tsx:202-224 | Only an unescaped `"` toggles `inString`. Only an unescaped `{` or `}` outside a string moves the counter, by one. Inside a string the counter never moves. Only an unescaped backslash raises `escapeNext`. Each rule is stated both ways. |
| Scanner.BackslashPairIsLiteral | ai-agent-parser.tsx:202-212 | Anywhere in the input, a backslash and the character after it are appended verbatim. Flags, counter and emitted values are left exactly as before. |
| Scanner.PlainCharInStringIsInert | ai-agent-parser.tsx:214-226 | Inside a string and inside braces, a character other than a quote or backslash is only appended. |
| Scanner.DecodeRule | ai-agent-parser.tsx:228-236 | A value is emitted exactly when the character is neither escaped nor a backslash, the counter is zero and the trimmed accumulator is non-empty and decodes. The decoded value is appended and the accumulator empties. In every other case nothing is emitted and the accumulator only gains the character. |
| Scanner.ScanFromAppend | ai-agent-parser.tsx:199-237 | Scanning `a + b` is scanning `a` and then continuing from the state reached. |
| Scanner.HistoryOnlyGrows | ai-agent-parser.tsx:231 | Emitted values and their chunks are never retracted: the history before a run is a prefix of the history after it. |
| Scanner.ScanPrefixMonotone | ai-agent-parser.tsx:199-239 | For every prefix `p` of `t`, the values found in `p` are a prefix of the values found in `t`. |
| Scanner.StepConserves | ai-agent-parser.tsx:202-236 | One step moves the character into the accumulator, and possibly the accumulator into a chunk, without losing or duplicating text. |
| Scanner.ConservationFrom | ai-agent-parser.tsx:199-237 | From any state, the raw chunks plus the accumulator after a run equal those before it, followed by the text read. |
| Scanner.Conservation | ai-agent-parser.tsx:199-237 | No character is lost or duplicated: the untrimmed chunks of the emitted values, then the final accumulator, spell the input exactly. |
| Scanner.EmittedValuesDecodeTheirChunks | ai-agent-parser.tsx:228-232 | Each emitted value is the decoder's result on its own trimmed, non-empty raw chunk, one value per chunk. |
| Scanner.RejectingDecoderKeepsEverything | ai-agent-parser.tsx:229-235 | When the decoder accepts nothing, nothing is emitted and the whole input stays in the accumulator. |
| Scanner.PlainTextIsStringBody | ai-agent-parser.tsx:214-216 | Text without quotes or backslashes can stand inside a string literal. |
| Scanner.StringBodyConcat | ai-agent-parser.tsx:202-216 | String bodies stay string bodies when concatenated. |
| Scanner.StringBodyIsInert | ai-agent-parser.tsx:202-226 | Inside a string within braces, a whole string body, escapes included, only grows the accumulator. |
| Scanner.StringLiteralIsInert | ai-agent-parser.tsx:214-226 | Within braces, a quoted string literal, whatever braces it holds, leaves the counter and flags as they were and decodes nothing. |
| Scanner.ScanIgnoresHistory | ai-agent-parser.tsx:199-237 | The scan of a text never depends on what was emitted before it. |
| Scanner.ScanSplitsAtBoundary | ai-agent-parser.tsx:228-236 | When a prefix ends with the scanner back at its start state, the rest of the input is scanned as if it stood alone: the values are those of the prefix followed by those of the rest. |
| Scanner.BackToBackValues | ai-agent-parser.tsx:199-239 | Two values that each close at their last character, written back to back, are found one after the other. |
| Scanner.ValueAfterBoundary | ai-agent-parser.tsx:228-236 | A value that closes at its last character, read where the scanner is back at its start state, is appended to the values found before it, and the scanner is back at its start state again. |
| Scanner.TrimStartDropsBlankPrefix | ai-agent-parser.tsx:228-229 | Whitespace put in front of the accumulator does not change what `trim` leaves of it. |
| Scanner.BlankIsInert | ai-agent-parser.tsx:199-236 | Whitespace alone holds no quote, brace or backslash and trims to nothing, so the scanner only collects it. |
| Scanner.StepBlankLed | ai-agent-parser.tsx:202-236 | When an accumulator differs from another only by leading whitespace, one character leaves them so until the shorter one emits. Then both emit the same value and become equal. |
| Scanner.ScanBlankLed | ai-agent-parser.tsx:199-237 | Over a whole run, a scan whose accumulator has extra leading whitespace follows the scan without it: same values, counter and flags throughout, and the same accumulator from the first emitted value on. |
| Scanner.BlankBeforeValue | ai-agent-parser.tsx:228-231 | Whitespace before a value is trimmed away before decoding: the value is still the only one found, and the scan ends back at its start state. |
| Scanner.BlankAfterValues | ai-agent-parser.tsx:228-236 | Whitespace after the last value trims to nothing, is never decoded and adds no value. |
| Scanner.BlankSeparatedValues | ai-agent-parser.tsx:199-239 | Any number of values that each close at their last character, each led by any whitespace, are all found, in their order and no others. |
| Scanner.OneMemberObjectIsOneUnit | ai-agent-parser.tsx:199-236 | `{"key":"value"}` with any string bodies is one unit. The decoder is consulted on the whole text only, at the closing brace, and its answer is the only possible value. |
| Scanner.BracesInStringScanAsOneObject | ai-agent-parser.tsx:214-224 | The object `{"k":"a { b } c \" d"}`, whose string holds braces and an escaped quote, is one unit: it yields the decoder's value of the whole text, or nothing. |
| Scanner.ScalarAtDepthZeroIsEmitted | ai-agent-parser.tsx:228-231 | The brace-free input `1` is emitted as the number 1, so the scanner's output is not limited to objects. |
| JsonValue.LookupLastFindsLastMember | ai-agent-parser.tsx:263-264 | A property read is `undefined` exactly when no member has the key. Otherwise it gives the value of the last member with that key. |
| JsonValue.Field | ai-agent-parser.tsx:263-264 | Reading a property of a decoded value that is not an object gives `undefined`. |
| JsonValue.Truthy | ai-agent-parser.tsx:263-264 | JavaScript truthiness of a decoded value: `null`, `false`, 0 and the empty string are falsy, everything else is truthy. |
| JsonValue.FieldOr | ai-agent-parser.tsx:263-264 | `obj.key`, falling back to `fallback` when it is falsy, is either the fallback or the value actually stored under the key, and it is truthy whenever the fallback is. |
| EventStore.MakeEvents | ai-agent-parser.tsx:261-266 | There are no events exactly when a value is `null`, because the property read throws. Otherwise there is one event per value, in order, with `id` its index and `data` the value. `created_at` is the value's truthy `created_at` or `now`, and `event` is its truthy `event` or "Unknown". |
| EventStore.ToEvent | ai-agent-parser.tsx:261-266 | One mapped event. Its label is always truthy, and it is either "Unknown" or the value's own `event`. Its timestamp is truthy whenever `now` is not 0. |
| EventStore.AIAgentParser.constructor | ai-agent-parser.tsx:51-55 | A fresh page has empty text, no events, no error and no filter. |
| EventStore.AIAgentParser.SetInputText | ai-agent-parser.tsx:447 | Typing replaces the text and nothing else. |
| EventStore.AIAgentParser.HandleParse | ai-agent-parser.tsx:242-279 | Blank text sets "Please enter some JSON data to parse", and text with no values sets "No valid JSON objects found in the input". A `null` value sets "Parse error: " plus the error message. In all three cases the events and the filter are left alone. Otherwise the events become `MakeEvents` of the scanned values, the error clears and the filter empties. The ids stay dense, so they increase strictly along the list. |
| EventStore.AIAgentParser.HandleClear | ai-agent-parser.tsx:281-286 | Everything is emptied, and clearing an already cleared page changes nothing. |
| EventStore.AIAgentParser.HandleEventTypeToggle | ai-agent-parser.tsx:288-296 | Checking adds the type to the filter and unchecking removes it. Afterwards the type is selected exactly when `checked`, and every other type is selected exactly as before. The text, the events and the error stay the same. |
| EventStore.AIAgentParser.ClearFilters | ai-agent-parser.tsx:298-300 | The filter empties, so the view shows every event, and nothing else changes. |
| EventStore.EventTypes | ai-agent-parser.tsx:59-61 | The distinct types have no duplicate and contain exactly the types that occur among the events. |
| EventStore.EventTypesOfPrefix | ai-agent-parser.tsx:59-61 | Later events only append types: the types of a prefix are a prefix of the types. |
| EventStore.EventTypesFirstSeen | ai-agent-parser.tsx:59-61 | First-seen order: an event whose type has not occurred before puts that type right after the types of the earlier events. |
| EventStore.Select | ai-agent-parser.tsx:66 | The filtered list contains exactly the events whose type is selected, and is no longer than the input. |
| EventStore.SelectAppend | ai-agent-parser.tsx:66 | Filtering a concatenation concatenates the filtered parts, so the filter keeps the events' relative order. |
| EventStore.SelectKeepsOrder | ai-agent-parser.tsx:66 | The filtered list keeps ids increasing. |
| EventStore.FilteredEvents | ai-agent-parser.tsx:64-67 | With an empty selection the view is the event list itself, in its order; otherwise it is the events whose type is selected. |
| EventStore.CountByType | ai-agent-parser.tsx:577-584 | The counted labels are exactly the types present. |
| EventStore.CountIsNumberOfEvents | ai-agent-parser.tsx:578-583 | The count for a label is the number of events carrying it, and a label with no count has no events. |
| EventStore.CountsSumToLength | ai-agent-parser.tsx:577-585 | The per-type counts, summed over the distinct types, equal the number of events shown. |
| EventStore.MinCreatedAt | ai-agent-parser.tsx:608 | On a non-empty view it is a number exactly when every `created_at` is a number. That number is one of the timestamps and is at most each of them. |
| EventStore.MaxCreatedAt | ai-agent-parser.tsx:616 | The same for the maximum, which is at least each timestamp. |
| EventStore.FirstNotAfterLast | ai-agent-parser.tsx:607-617 | "First" and "Last" are both numbers or neither, and "First" is never later than "Last". |
| StreamSession.FirstNull | ai-agent-stream-parser.tsx:266-269 | It finds nothing exactly when no value is `null`. Otherwise it gives the position of the first `null`, with no `null` before it. |
| StreamSession.ToStreamEvent | ai-agent-stream-parser.tsx:266-272 | One streamed event: the given id, `created_at` and `event` read with no fallback, the whole value, and the tick's clock. |
| StreamSession.StreamEvents | ai-agent-stream-parser.tsx:266-272 | `slice(...).map(...)` for values that hold no `null`: one event per value, with consecutive ids from the counter (`StreamEventsFields`). |
| StreamSession.ShownIdsIncrease | ai-agent-stream-parser.tsx:267 | The ids of the events shown are strictly increasing, so no id is given twice. |
| StreamSession.StreamEventsFields | ai-agent-stream-parser.tsx:266-272 | The `i`th new event is the event for the `i`th new value, with id counter + `i`, and its `created_at` and `event` read without a fallback. |
| StreamSession.StreamEventsAppend | ai-agent-stream-parser.tsx:266-267 | Numbering one more value continues the consecutive ids. |
| StreamSession.RevealedScansGrow | ai-agent-stream-parser.tsx:259-277 | The scans of the text revealed before a tick, at the tick and after the step each extend the previous one. |
| StreamSession.ShowsScanPrefixAppend | ai-agent-stream-parser.tsx:265-274 | Appending the events for the values beyond those shown, numbered from the counter, keeps them a one-to-one, in-order image of the values. |
| StreamSession.AppendKeepsShown | ai-agent-stream-parser.tsx:263-277 | After such an append the events still show a prefix of any later extension of the values, with the counter above every id. |
| StreamSession.Advance | ai-agent-stream-parser.tsx:277 | The advance with the overshoot corrected (see Findings). The position always moves forward and never by more than the step, and a full step that stays inside the text is taken unchanged. A position past the end comes only from the last character. |
| StreamSession.TickNext | ai-agent-stream-parser.tsx:251-278 | One tick as a state transition. Past the end, streaming stops and the buffer empties. Otherwise the first position + 1 characters become the buffer and are scanned. Its properties are `TickKeepsValid`, `TickAppendsUnseen`, `TickCatchesUp` and `FinalTickShowsWholeText`. |
| StreamSession.ShowParsed | ai-agent-stream-parser.tsx:259-277 | The tick's effect once the buffer is scanned. With no new value only the buffer and position change. A `null` among the new values throws after its id is taken: the counter moves but nothing is appended and the position stays. Otherwise the new values are appended, numbered from the counter. |
| StreamSession.TickKeepsValid | ai-agent-stream-parser.tsx:251-278 | Every tick keeps the shown events a prefix of the values in the revealed text, one event per value in order, with increasing ids below the counter. |
| StreamSession.InertTickKeepsValid | ai-agent-stream-parser.tsx:259-265 | A tick that finds no new value only reveals more text and keeps that correspondence. |
| StreamSession.ThrowingTickKeepsValid | ai-agent-stream-parser.tsx:266-269 | A tick that meets a `null` only raises the counter and keeps that correspondence. |
| StreamSession.AppendingTickKeepsValid | ai-agent-stream-parser.tsx:263-277 | A tick that appends new values keeps that correspondence in the new revealed text. |
| StreamSession.TickAppendsUnseen | ai-agent-stream-parser.tsx:259-275 | A tick inside the text sets the buffer to the first `charIndex + 1` characters. The shown events are only ever extended, and nothing is appended when there is no new value. When the new values hold no `null`, exactly the values beyond those shown are appended, with consecutive ids from the counter, and the counter grows by their number. |
| StreamSession.TickCatchesUp | ai-agent-stream-parser.tsx:263-275 | When no `null` is pending, a tick leaves exactly one event per value found in the buffer, in order. |
| StreamSession.AIAgentStreamParser.constructor | ai-agent-stream-parser.tsx:145-149 | A new page is not streaming and has no events, an empty buffer and counter 0. |
| StreamSession.AIAgentStreamParser.StartStreaming | ai-agent-stream-parser.tsx:242-250 | Starting while streaming changes nothing. Otherwise the events and buffer empty, the counter and position return to 0, and streaming starts. |
| StreamSession.AIAgentStreamParser.Tick | ai-agent-stream-parser.tsx:251-278 | The new state is `TickNext` of the old one. Past the end, streaming stops and the buffer empties. Inside the text, the prefix up to the position is revealed and scanned, the values beyond those shown are appended, and the position moves by `Advance`. The correspondence invariant is kept. |
| StreamSession.AIAgentStreamParser.RevealAndShow | ai-agent-stream-parser.tsx:259-277 | A tick inside the text: the buffer becomes the next prefix, and the state is that prefix's scan shown by `ShowParsed`. |
| StreamSession.AIAgentStreamParser.NumberUnseen | ai-agent-stream-parser.tsx:266-272 | `eventIdRef.current++` for each value reached. It throws exactly when a value is `null`, after taking that value's id. Otherwise it returns the numbered events and the counter grows by their number. |
| StreamSession.AIAgentStreamParser.StopStreaming | ai-agent-stream-parser.tsx:283-290 | Streaming stops and the buffer empties. The events, counter and position stay. |
| StreamSession.AIAgentStreamParser.ResetParser | ai-agent-stream-parser.tsx:292-297 | It stops, then empties the events and the buffer and sets the counter to 0. |
| StreamSession.StaleTickAppended | ai-agent-stream-parser.tsx:265-266 | As written, a tick appends the scanned values beyond the event count of the render in which Start was clicked, and nothing when there are no more. |
| StreamSession.StaleTickShowsObjectTwice | ai-agent-stream-parser.tsx:265-274 | With that count fixed at 0, the text `{} ` revealed one character per tick shows its one object twice. |
| StreamSession.RestartWithoutResetShowsNothing | ai-agent-stream-parser.tsx:243-266 | As written, after a restart without a reset the captured count is the old list's length. If that is at least the number of values in the whole text, no tick of the new run appends anything. |
| StreamSession.TickNextAsWritten | ai-agent-stream-parser.tsx:251-278 | The tick with the position moved by the whole random step, as the program does, even past the last character. |
| StreamSession.RandomStepSkipsLastCharacter | ai-agent-stream-parser.tsx:252-277 | As written, on the text `{}` with any step of 2 or more the first tick reveals only `{`, and the next tick ends the stream with no event, although the whole text holds one value. |
| StreamSession.FinalTickShowsWholeText | ai-agent-stream-parser.tsx:252-277 | With the clamped advance, the tick after which the stream stops has revealed the whole text. When no `null` is pending, the events are then exactly the values of the whole text, one each, in order. |

## Left out

- Rendering: all JSX, `EventCard`, the icon and colour tables, expanding a card, `JSON.stringify` for display, clipboard copy, toasts, auto-scroll and `toLocaleTimeString`. They are presentation, with nothing to prove.
- `JSON.parse` is a parameter, not a definition. The model does not fix what text it accepts.
- JSON numbers are integers. Floating point, `Date.now() / 1000` and `new Date()` are integer parameters (`now`).
- `trim`: the fixed list of ECMAScript white-space and line-terminator code points. JavaScript strings are UTF-16 code units, but the model works on Dafny characters.
- Timers: the 300 ms delay in `handleParse`, the 50 ms `setInterval` cadence and `clearInterval`. A tick is a method call, and `streamRef` is not modelled.
- The random step `Math.floor(Math.random() * 5) + 1` is any step of at least 1.
- `isLoading` is not modelled. It is a spinner flag that `handleParse` raises and lowers, and no other state depends on it.
- `loadSampleData` and the sample texts are not modelled. `loadSampleData` only sets the text box, as `SetInputText` does.
- The `TypeError` message that JavaScript gives for a property read on `null` is a parameter (`typeError`) of `HandleParse`.
- EventStore.EventTypes: deduplicates labels structurally. `new Set(...)` compares by JavaScript identity, which agrees for strings, numbers, booleans and `null`. Array and object labels (`obj.event` can be any truthy JSON value) are kept apart by identity in the program but merged here. Two events labelled `[1]` give two types on the page and one in the model.
- EventStore.Select: tests membership structurally, where `selectedEventTypes.has(...)` uses identity. For array and object labels, ticking one such type shows only the event whose label is that very array or object. The model shows every event with an equal label.
- EventStore.FilteredEvents: has the same identity gap as `EventStore.Select`, which it uses for a non-empty selection.
- EventStore.CountByType: keys by the `Json` label, not by JavaScript's string coercion of object keys. Two labels that coerce to the same string are still counted apart, and `Object.entries` order is not modelled. The accumulator `{}` also inherits the names of `Object.prototype`. For a label such as `toString` or `constructor`, `acc[label]` starts as an inherited function, so the page shows a string such as `function toString() { [native code] }1` instead of a count. For `__proto__` the assignment is ignored, and the label gets no entry. The model counts these labels like any other, so `CountByType`'s keys, `CountIsNumberOfEvents` and `CountsSumToLength` hold in the model but not on the page for them.
- EventStore.MinCreatedAt: a `created_at` that is not a JSON number gives "no number" (JavaScript `NaN`). JavaScript's numeric coercion of numeric strings, booleans, `null` and one-element arrays is not modelled.
- EventStore.MaxCreatedAt: has the same gap for `Math.max`. A non-number `created_at` gives "no number", and JavaScript's numeric coercion is not modelled.
- StreamSession.AIAgentStreamParser.ResetParser: also sets the timer position back to 0. In the program the position is local to the cleared timer and so is never used again.
- StreamSession.AIAgentStreamParser.Tick: uses the number of values shown (`emitted`), not the stale `events.length` the program reads. It also clamps the advance to the last character (`Advance`) where the program steps past it. Both are corrections; see Findings.
- StreamSession.TickNextAsWritten: shows the overshoot only. It keeps the corrected `emitted` count so that the two findings can be seen apart.
- streaming-parser.tsx is not part of this model: it is a demo playback of canned lines on timers and does no parsing. app/layout.tsx is page metadata only.

## Findings

| source | as written | input that shows it | evidently intended | confidence | as-written member | corrected member |
|---|---|---|---|---|---|---|
| ai-agent-stream-parser.tsx:265-266 | The interval callback compares the scan with `events.length` from the render in which Start was clicked. `setEvents` (lines 246 and 274) never changes the array the closure captured. On a first start, or a start after Reset, that length is 0, and every tick that finds values appends all of them again. On a restart without Reset it is the old list's length, and the new run appends nothing until the scan finds more values than that. | sample text `{} ` revealed one character per tick from an empty list: the object is appended when `}` arrives and again on the next tick. A restart after such a run has a captured length at least the text's number of values, and it shows nothing. | append only the values beyond those already shown in this run, each once | not executed | StreamSession.StaleTickShowsObjectTwice | StreamSession.TickKeepsValid |
| ai-agent-stream-parser.tsx:252-277 | The position moves by a random 1 to 5 characters, and the next tick stops as soon as the position is at or past the end. When a step jumps over the last character, the full text is never revealed or scanned, so its last value is never shown. | the text `{}` with a step of 2 or more: the buffer is `{` and the stream then ends with no events | reveal the whole text before stopping | not executed | StreamSession.RandomStepSkipsLastCharacter | StreamSession.FinalTickShowsWholeText |
