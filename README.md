# VANTAGE dashboard: the chat send handler

The VANTAGE dashboard has a chat panel where the user talks to a market agent.
When the user sends a message, `handleSend` logs it and posts it to the backend.
It then turns the agent's free-text reply into an agent message. When the reply
carries a chart directive, it also sets a new chart state: chart data, symbol
and price.

The model has six modules:

- `Strings`: the JavaScript string operations the handler uses. These are
  `indexOf`, `lastIndexOf`, `trim` and `replace` with a string pattern. The
  white-space set is the one shared by `\s` and `trim`.
- `Fence`: the fence stage. This is the expression
  `/```(?:json)?\s*([\s\S]*?)\s*```/i` written out as the backtracking matcher
  resolves it (`FenceMatch`). It is proved against `Matches`, a declarative
  description of every way the expression can match, by `FenceMatchLeftmost`
  and `FenceMatchPreferred`.
- `Braces`: the brace stage. It finds the first `"action": "update_chart"`,
  backs up to the last `{` before it and counts braces forward. The loop is the
  method `ScanBraces`, proved equal to the function `ClosingBrace`. Braces inside
  JSON strings are counted like any others, as in the source.
- `Json`: the JavaScript values a parsed directive can hold, plus `undefined`.
  It gives the member reads (`Get`, `At`), truthiness and number conversion the
  handler performs. A read from `null` or `undefined` is None, because
  JavaScript throws there.
- `Reply`: what one reply does. It covers the candidate, the shown text and the
  `Reaction` (text, chart data, symbol, price) for every request outcome.
- `Dashboard`: the component state as a class. `handleSend` is split at its
  `await` into `BeginSend` and `CompleteSend`; `HandleSend` runs both.

## Model

| member | source | states |
|---|---|---|
| Strings.Find | frontend/src/pages/Dashboard.tsx:106 | `indexOf`: the result is an occurrence at or after `from`, and no occurrence comes before it; None means there is none |
| Strings.LastIndexOf | frontend/src/pages/Dashboard.tsx:108 | `lastIndexOf('{', a)`: the result holds `{` at or before `a`, and no later position up to `a` does; None means there is no `{` up to `a` |
| Strings.SkipWhite | frontend/src/pages/Dashboard.tsx:102 | the greedy leading `\s*`: the returned end lies within the text, everything before it from the start point is white space, and the character at it is not |
| Strings.RetreatWhite | frontend/src/pages/Dashboard.tsx:102 | the trailing `\s*` before the closing fence: everything from the returned start up to the fence is white space, and the character just before it is not (unless the lower bound stops it) |
| Strings.Trim | frontend/src/pages/Dashboard.tsx:133-134 | `trim` keeps a contiguous middle piece: only white space precedes and follows it, and it neither starts nor ends with white space |
| Strings.ReplaceFirst | frontend/src/pages/Dashboard.tsx:133-134 | `replace(pat, '')` with a string pattern: without an occurrence the text is unchanged; otherwise the result is the text before the first occurrence followed by the text after it, shorter by the pattern's length |
| Strings.SkipWhiteMaximal | frontend/src/pages/Dashboard.tsx:102 | the leading `\s*` takes the whole white run: no white run from the same point goes further |
| Strings.RetreatWhiteMinimal | frontend/src/pages/Dashboard.tsx:102 | the trailing `\s*` takes the whole white run before the fence, so the lazy group is as short as possible |
| Strings.TrimEmptyIffAllWhite | frontend/src/pages/Dashboard.tsx:80 | trimming gives the empty string exactly when the text is all white space, which is the blank-input test |
| Strings.TrimIdempotent | frontend/src/pages/Dashboard.tsx:133-134 | trimming the trimmed text changes nothing |
| Strings.ReplaceFirstAt | frontend/src/pages/Dashboard.tsx:133-134 | `replace` with a string cuts out exactly the first occurrence, and the result is shorter by the pattern's length |
| Strings.CutFirst | frontend/src/pages/Dashboard.tsx:134 | a candidate that occurs at some position has a first occurrence at or before it, and `replace` cuts out that first one |
| Strings.SliceBeforeFind | frontend/src/pages/Dashboard.tsx:102 | a slice that ends before the first fence after its start contains no fence |
| Strings.ReplaceFirstAbsent | frontend/src/pages/Dashboard.tsx:133-134 | `replace` leaves a text without the pattern unchanged |
| Fence.FenceMatch | frontend/src/pages/Dashboard.tsx:102 | every match returned is a legal way for the expression to match: fences at both ends, tag optional and case-insensitive, white space only between the fences and the group |
| Fence.FenceFound | frontend/src/pages/Dashboard.tsx:102 | a fence followed at least three characters later by another gives a match that opens at the first fence |
| Fence.FenceMatchLeftmost | frontend/src/pages/Dashboard.tsx:102 | whenever any match exists, one is returned, and no match starts earlier than it |
| Fence.FenceMatchPreferred | frontend/src/pages/Dashboard.tsx:102 | at the same opening fence, the returned match takes the tag when possible, the longest leading white space and the shortest group |
| Fence.FencedCandidateShape | frontend/src/pages/Dashboard.tsx:102-103 | the captured group contains no triple backtick and has no white space at either end |
| Fence.FenceRemovedAtOpen | frontend/src/pages/Dashboard.tsx:132-133 | the first occurrence of `match[0]` is the match itself, so removing it cuts out exactly the fenced block |
| Braces.ScanBraces | frontend/src/pages/Dashboard.tsx:110-116 | the counting loop leaves with the index `ClosingBrace` names, or with none |
| Braces.CloseFrom | frontend/src/pages/Dashboard.tsx:110-116 | the rest of the counting loop from a given index and count: the index it stops at, if any, is at or after that index and inside the text |
| Braces.ClosingBrace | frontend/src/pages/Dashboard.tsx:110-117 | the loop started at `startBrace`: the closing index, if any, is at or after it and inside the text; `ClosingBraceBalances` proves it is the first return to zero |
| Braces.ClosingBraceBalances | frontend/src/pages/Dashboard.tsx:110-117 | from a `{`, the loop stops where the count first returns to zero; the closed span is balanced and every proper prefix has positive depth; with no stop, the depth stays positive to the end |
| Braces.ScanBraceSpan | frontend/src/pages/Dashboard.tsx:106-119 | the brace stage as written (find the literal, back up to `{`, run the loop) yields exactly the span `BraceSpan` describes |
| Braces.BraceSpan | frontend/src/pages/Dashboard.tsx:106-119 | the span `[startBrace, endBrace + 1)` the brace stage yields: non-empty and inside the text; its shape is proved by `BraceSpanStart`, `BraceSpanBalanced`, `BraceSpanDeeper` and `BraceSpanAbsent` |
| Braces.LevelIsDepth | frontend/src/pages/Dashboard.tsx:110-116 | the loop's running count after reading a stretch is the number of `{` minus the number of `}` in it |
| Braces.ClosedSpan | frontend/src/pages/Dashboard.tsx:110-117 | the span the loop closes ends with `}`, is balanced, and every proper prefix is deeper than zero |
| Braces.BraceSpanStart | frontend/src/pages/Dashboard.tsx:106-109 | a brace candidate starts at a `{` strictly before the first occurrence of the literal, with no `{` between them |
| Braces.BraceSpanBalanced | frontend/src/pages/Dashboard.tsx:110-117 | a brace candidate is at least two characters long, ends with `}` and holds equally many `{` and `}` |
| Braces.BraceSpanDeeper | frontend/src/pages/Dashboard.tsx:110-116 | every proper prefix of a brace candidate holds more `{` than `}` |
| Braces.BraceSpanAbsent | frontend/src/pages/Dashboard.tsx:105-119 | there is no brace candidate exactly when the literal is absent, no `{` precedes it, or the depth never returns to zero |
| Json.Get | frontend/src/pages/Dashboard.tsx:125-129 | reading a member throws exactly on `null` and `undefined` |
| Json.At | frontend/src/pages/Dashboard.tsx:129 | indexing throws exactly on `null` and `undefined` |
| Json.Truthy | frontend/src/pages/Dashboard.tsx:125-127 | JavaScript truthiness: `null` and `undefined` are falsy, arrays and objects are truthy |
| Json.NumberValue | frontend/src/pages/Dashboard.tsx:128 | the number a value converts to in `data.length > 0`: a number is itself, and only numbers, booleans and `null` convert |
| Reply.Candidate | frontend/src/pages/Dashboard.tsx:98-122 | a candidate that passes the `if (jsonString)` test is never empty |
| Reply.Shown | frontend/src/pages/Dashboard.tsx:133-136 | the shown text is never empty: it is the trimmed text when that is not all white space, otherwise "Chart updated." |
| Reply.DisplayText | frontend/src/pages/Dashboard.tsx:132-136 | the message for an accepted directive is never empty, and is either "Chart updated." or a text with no white space at either end; `DisplayTextWithoutFence` and `DisplayTextWithoutBraces` say which text |
| Reply.Accepts | frontend/src/pages/Dashboard.tsx:125 | an accepted directive is not `null` or `undefined`, and its `data` member can be read and is neither `null` nor `undefined`, so reading `data.length` cannot throw |
| Reply.NewSymbol | frontend/src/pages/Dashboard.tsx:127 | the new symbol is the directive's own when truthy, otherwise the old one; a truthy symbol never becomes falsy |
| Reply.PriceUpdate | frontend/src/pages/Dashboard.tsx:128-129 | for an array, the price step leaves the price alone exactly when the array is empty; `PriceOfArray` gives the last point's `value` otherwise |
| Reply.Apply | frontend/src/pages/Dashboard.tsx:124-138 | a parsed candidate sets the chart exactly when it is accepted. Rejected, the reply is shown verbatim and nothing is set. Accepted, the chart data is `data` and the symbol the fallback one. A price is only set together with the stripped text, and the text is always the reply or the stripped text |
| Reply.Interpret | frontend/src/pages/Dashboard.tsx:122-139 | one reply: with no chart update nothing is set and the reply is shown verbatim; a chart update needs a candidate and also sets the symbol; the text is the reply or the stripped text |
| Reply.AgentReply | frontend/src/pages/Dashboard.tsx:93-102 | the reply text exists exactly when the request succeeded and its body's `response` is a string, and then it is that string |
| Reply.Respond | frontend/src/pages/Dashboard.tsx:86-144 | a failed request shows the failure text and sets nothing; no chart update means no symbol or price update either; a chart update needs a successful request and also sets the symbol |
| Reply.FencedCandidate | frontend/src/pages/Dashboard.tsx:102-105 | a non-empty fenced group is the candidate, and it holds no triple backtick and has no edge white space |
| Reply.BraceCandidate | frontend/src/pages/Dashboard.tsx:105-119 | when the fence yields nothing or an empty group, the candidate is exactly the brace span, and None when there is no span; a span candidate opens with `{`, closes with `}` and is balanced |
| Reply.RejectedReplyShownVerbatim | frontend/src/pages/Dashboard.tsx:122-139 | with no candidate, an unparsable one, or one that is not an accepted directive, the reply is shown verbatim and no chart state is set |
| Reply.AcceptedArrayDirective | frontend/src/pages/Dashboard.tsx:125-136 | an accepted array directive sets the chart data to `data` and the symbol to its own if truthy, else the old one. The price is untouched for an empty array and set to the last point's `value` otherwise. A null last point throws after chart and symbol are set, and the reply is then shown verbatim |
| Reply.PriceOfArray | frontend/src/pages/Dashboard.tsx:128-129 | for an array, `data.length > 0` is non-emptiness and `data[data.length - 1]` is the last element |
| Reply.AcceptedTextNotEmpty | frontend/src/pages/Dashboard.tsx:132-136 | an accepted directive whose price step does not throw shows the stripped text, which is never empty |
| Reply.DisplayTextWithoutFence | frontend/src/pages/Dashboard.tsx:132-136 | when the expression matched, the text is the reply minus the fenced block, trimmed, or the placeholder; this holds even if the brace stage supplied the candidate |
| Reply.DisplayTextWithoutBraces | frontend/src/pages/Dashboard.tsx:134-136 | without a fence, the candidate is the brace span. The text is the reply minus the first occurrence of the candidate, which starts at or before the span, then trimmed or replaced by the placeholder |
| Reply.FailedRequestShowsFailure | frontend/src/pages/Dashboard.tsx:142-144 | a failed request, or a body without a string `response`, shows "Uplink failed. Retrying connection..." and sets no chart state |
| Dashboard.NextQuote | frontend/src/pages/Dashboard.tsx:46 | the next quote index stays in range and wraps from the last quote to the first |
| Dashboard.ExtractCandidate | frontend/src/pages/Dashboard.tsx:98-120 | the two stages as written leave the fence match and `jsonString` that `FenceMatch` and `Candidate` describe |
| Dashboard.Dashboard.constructor | frontend/src/pages/Dashboard.tsx:8-16 | the initial state: empty chart, "NIFTY 50", 24300.50, the greeting, empty input, idle |
| Dashboard.Dashboard.SetInput | frontend/src/pages/Dashboard.tsx:326 | the input box's change handler sets the input |
| Dashboard.Dashboard.BeginSend | frontend/src/pages/Dashboard.tsx:79-84 | a blank input changes nothing; otherwise the user message is appended, the input cleared and the page marked busy, with the chart state untouched |
| Dashboard.Dashboard.CompleteSend | frontend/src/pages/Dashboard.tsx:86-147 | exactly one agent message, the `Respond` text, is appended. Chart data, symbol and price change only as `Respond` says, and the page is idle on every path |
| Dashboard.Dashboard.ApplyDirective | frontend/src/pages/Dashboard.tsx:125-130 | an accepted directive sets the chart data to `data` and the symbol via the truthy fallback. The price changes only when the last point's `value` can be read, and `threw` reports the TypeError |
| Dashboard.Dashboard.HandleSend | frontend/src/pages/Dashboard.tsx:79-148 | a blank send changes nothing. Any other send appends the user message and then the agent message, leaves earlier messages alone and ends idle with an empty input |

## Behaviour worth knowing

- The brace fallback does not span from the first `{` to the last `}`. It is
  anchored on the first `"action": "update_chart"`: it starts at the last `{`
  before that literal and ends where the brace count first returns to zero.
  Braces inside JSON strings are counted too.
- Removing the fenced block keeps the line breaks on both sides of it. A reply
  "Here:\n```json …```\nDone." is shown as "Here:\n\nDone.".
- The price is the last point's `value` member. A point without one, such as
  an open/high/low/close record, sets the price to `undefined`.
- A `null` last point throws after the chart data and the symbol are set. The
  price is then left alone and the reply is shown verbatim.

## Left out

- The request itself is a parameter. `fetch`, the status check and
  `response.json()` are the `Outcome` passed in, and the endpoint address is not
  modelled.
- `JSON.parse` is the parameter `parse`, where None stands for a thrown
  SyntaxError. No JSON parser is modelled.
- The `console.error` calls are not modelled, because they only write to the
  console.
- Strings are sequences of characters, not UTF-16 code units. Indices differ
  from JavaScript's for text outside the Basic Multilingual Plane.
- Numbers are reals, not IEEE doubles. NaN, infinities and rounding are not
  modelled.
- Json.NumberValue: does not convert strings or arrays to numbers in
  `data.length > 0`. Such lengths count as NaN (no price update), whereas
  JavaScript would convert them.
- Json.At: reading an object at a whole-number index looks up its decimal name.
  A fractional index of an object always reads `undefined` here.
- Concurrent sends are not modelled. While `isProcessing` is set, the input and
  the button are disabled (frontend/src/pages/Dashboard.tsx:329, 334), so a
  second send cannot start before `CompleteSend`.
- React's state batching and the `prev =>` updaters are modelled as direct
  field updates, in source order.
- Not modelled, because they are rendering, timers or randomness:
  - the clock and the interval that drives the quote rotation (only the index
    step is modelled);
  - the quote texts;
  - the randomised depth rows;
  - scrolling;
  - `price.toFixed`;
  - the chart and all markup.
- The backend (`agent.py`, `main.py`, `tools.py`), the other pages and
  components, and the background canvas animation are not part of this model.
