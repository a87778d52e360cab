# lite-json core in Dafny

lite-json is a browser tool that shrinks a JSON document by cutting every
array, recursively, down to one representative element. It also reports
syntax errors in the text being edited. This project models and proves
the two pieces with real logic:

- **The simplifier** (`src/simplify-json.ts`).
  - `nestingDepth` scores how deeply a value nests.
  - `simplifyJson` rebuilds a value so that every non-empty array keeps one
    element: the deepest one, the smallest by `JSON.stringify` length among
    equally deep ones, and the earliest among ties. Objects keep their keys
    in order, with each value simplified. Primitives pass through.
- **The validator** (`src/validate-json.ts`).
  - `validateJson` returns no problems for blank text or text that parses.
  - Otherwise it returns one `JsonProblem` with a cleaned-up message and a
    line and column. These come from an explicit "line N column M" in the
    parser's message, or from an offset "position N" converted by a loop
    over the text's lines, or default to (1, 1).

Modules:

| file | module | contents |
|---|---|---|
| `json_value.dfy` | `JsonValue` | the JSON value datatype, keys, distinct-key well-formedness |
| `stringify.dfy` | `Stringify` | compact `JSON.stringify` over the datatype; its UTF-16 length (`Size`) |
| `selection.dfy` | `Selection` | the keep-the-best policy as a predicate; the left-to-right scan as a function; proof that the scan meets the policy |
| `simplify_json.dfy` | `SimplifyJson` | `Depth`, `Simplify`, the selection loop and the recursive procedure as methods, their properties, and the `__proto__` finding |
| `text_scan.dfy` | `TextScan` | JavaScript's `\s`, `\d`, `/i` on ASCII, greedy runs, leftmost-match search, `split("\n")` and its inverse |
| `validate_json.dfy` | `ValidateJson` | `trim`, the two position patterns, the offset conversion loop, the message cleanup, and `validateJson` |

Modelling choices:

- `JSON.parse` is an input, not code. A `ParseOutcome` is either `Parsed`
  or `Failed(message)`; `message` is the string the code reads from the
  error, whichever branch of line 18 produced it.
- Objects are sequences of (key, value) pairs in enumeration order.
  `WellFormed` says the keys are distinct, as they are in every parsed value.
- Numbers are integers. `JSON.stringify` is the compact form: no spaces, the
  standard string escapes, and a length counted in UTF-16 code units.
- Each regular expression is a deterministic scan. In every pattern of this
  code a greedy `\s+` or `\d+` is followed by a character outside its class,
  by `.*$`, or by the end of the pattern. So no backtracking is ever needed:
  before `.*$` any split of the digits leaves the same condition (one digit,
  then no line terminator up to the end), and at the end of the pattern the
  greedy run is the match. `msg.match` is the leftmost index at
  which the scan succeeds (`FindFrom`). A `replace` whose pattern ends in
  `.*$` cuts the string at its leftmost match (`CutAtFirst`).
- `parseInt` of a run of decimal digits is `DecimalValue`.

## Model

| member | source | states |
|---|---|---|
| SimplifyJson.Depth | src/simplify-json.ts:7-18 | nestingDepth: 0 for primitives and empty containers, otherwise 1 plus the largest child depth (properties in DepthScore) |
| SimplifyJson.MaxDepth | src/simplify-json.ts:10 | `Math.max` over the depths of an array's elements |
| SimplifyJson.MaxValueDepth | src/simplify-json.ts:13-15 | `Math.max` over the depths of an object's values |
| Selection.BestIndex | src/simplify-json.ts:33-46 | the index the left-to-right scan keeps; it is an index of the sequence (policy proved in BestIndexIsBest) |
| Stringify.Serialize | src/simplify-json.ts:35 | compact `JSON.stringify` of a value with integer numbers |
| Stringify.Size | src/simplify-json.ts:35 | `JSON.stringify(x).length`, in UTF-16 code units |
| SimplifyJson.Simplify | src/simplify-json.ts:29-60 | simplifyJson with every key kept (properties in SimplifyArray, SimplifyObject, SimplifyPrimitive and the lemmas below) |
| SimplifyJson.SimplifyMembers | src/simplify-json.ts:51-56 | the object's members in order, each value simplified |
| SimplifyJson.SimplifyAsWritten | src/simplify-json.ts:29-60 | simplifyJson as written, where the object rebuild goes through AssignMembers |
| SimplifyJson.AssignMembers | src/simplify-json.ts:52-55 | the `result[key] = ...` loop, in which a `__proto__` key adds no member |
| TextScan.Split | src/validate-json.ts:35 | `text.split("\n")`: at least one piece (inverse proved in SplitJoinsBack and JoinSplitsBack) |
| TextScan.DecimalValue | src/validate-json.ts:29-32 | `parseInt(digits, 10)` (read-back proved in DecimalValueOfNatToString) |
| ValidateJson.Trim | src/validate-json.ts:12 | `text.trim()` with the ECMAScript whitespace and line-terminator set (emptiness proved in TrimIsEmptyIffBlank) |
| ValidateJson.PositionMatch | src/validate-json.ts:22 | `msg.match(/position\s+(\d+)/i)`: the number captured at the leftmost match |
| ValidateJson.LineColumnMatch | src/validate-json.ts:23 | `msg.match(/line\s+(\d+)\s+column\s+(\d+)/i)`: the two numbers captured at the leftmost match |
| ValidateJson.LineColumnAt | src/validate-json.ts:32-43 | the reference the loop is proved against: 1 plus the newlines before `pos`, and `pos` minus its line start plus 1; (1, 1) past the text |
| ValidateJson.CleanMessage | src/validate-json.ts:47-50 | the three chained `replace` calls (properties in ParsePrefixStripped, CleanMessageIsPiece, CleanMessageHasNoSuffix) |
| ValidateJson.Location | src/validate-json.ts:25-44 | the reported position: the line/column match, else the converted offset, else (1, 1) (properties in ExplicitLineColumnWins, OffsetConverted, DefaultLocation) |
| SimplifyJson.DepthScore | src/simplify-json.ts:7-18 | primitives, `[]` and `{}` score 0; a non-empty array or object scores at least 1, more than each child, and exactly 1 plus the depth of some child |
| SimplifyJson.MaxDepthIsMaximum | src/simplify-json.ts:10 | `Math.max` over the element depths bounds every element's depth and is reached by one of them |
| SimplifyJson.MaxValueDepthIsMaximum | src/simplify-json.ts:13-15 | the same for the depths of an object's values |
| Selection.BestIndexIsBest | src/simplify-json.ts:33-46 | the index the scan keeps has maximal depth, minimal size among elements of that depth, and every earlier element is strictly worse |
| Selection.BestIsUnique | src/simplify-json.ts:41 | at most one index meets that policy, so it fixes the survivor |
| Selection.PolicyMinimum | src/simplify-json.ts:41 | an index that no element would replace, and that would replace every earlier one, meets the policy |
| SimplifyJson.SelectBest | src/simplify-json.ts:33-46 | the loop with `best`, `bestDepth` and `bestSize` returns the scan's index, which meets the policy |
| SimplifyJson.SimplifyArray | src/simplify-json.ts:30-49 | `[]` stays `[]`; a non-empty array becomes a one-element array holding the simplification of the element the policy keeps |
| SimplifyJson.SimplifyObject | src/simplify-json.ts:51-56 | an object stays an object with the same keys in the same order, each value simplified |
| SimplifyJson.SimplifyMembersShape | src/simplify-json.ts:52-55 | the rebuilt members have the input's length and keys, and member i is key i with value i simplified |
| SimplifyJson.SimplifyPrimitive | src/simplify-json.ts:59 | null, booleans, numbers and strings are returned unchanged |
| SimplifyJson.SimplifyKeepsDepth | src/simplify-json.ts:20-48 | simplification keeps the nesting depth, because the deepest element is the one kept |
| SimplifyJson.KeptIsDeepest | src/simplify-json.ts:41 | the kept element's depth is the maximum depth of the array |
| SimplifyJson.SimplifyTrims | src/simplify-json.ts:29-59 | every array anywhere in the result has at most one element |
| SimplifyJson.TrimmedIsFixed | src/simplify-json.ts:29-59 | a value whose arrays all have at most one element is left as it is |
| SimplifyJson.SimplifyIdempotent | src/simplify-json.ts:29-59 | simplifying twice gives the same value as simplifying once |
| SimplifyJson.SimplifyKeepsWellFormed | src/simplify-json.ts:51-56 | distinct keys stay distinct in every object of the result |
| SimplifyJson.SimplifyJson | src/simplify-json.ts:29-60 | the procedure (selection loop, recursion, member-by-member object loop) computes `Simplify` |
| SimplifyJson.DeeperElementKept | src/simplify-json.ts:24 | of `[{"a":1},{"a":{"b":2}}]` the deeper second element is kept |
| SimplifyJson.SmallerElementKept | src/simplify-json.ts:25 | of `[[1,2,3],[9]]`, equally deep, the shorter `[9]` is kept |
| SimplifyJson.SmallerSize | src/simplify-json.ts:35 | `JSON.stringify` lengths 3 for `[9]` and 7 for `[1,2,3]` |
| SimplifyJson.ProtoKeyDropped | src/simplify-json.ts:53-54 | assigning under the key `__proto__` loses the member, while `Simplify` keeps it |
| SimplifyJson.AsWrittenAgrees | src/simplify-json.ts:51-56 | without a `__proto__` key anywhere, the code as written and `Simplify` agree |
| SimplifyJson.AssignMembersAgree | src/simplify-json.ts:53-55 | the same for the member loop alone |
| JsonValue.Keys | src/simplify-json.ts:53 | the keys of the members, one per member, in order |
| Stringify.NatToString | src/simplify-json.ts:35 | a natural number is written as a non-empty run of decimal digits |
| Stringify.Utf16LengthInBmp | src/simplify-json.ts:35 | without characters beyond U+FFFF a string's length is its number of characters |
| TextScan.Skip | src/validate-json.ts:22-23 | a greedy run from i ends at the first character outside the class, or at the end |
| TextScan.SkipToEndOfRun | src/validate-json.ts:22-23 | a run that ends at n is exactly what the greedy scan finds |
| TextScan.FindFrom | src/validate-json.ts:22-23 | the leftmost index in the range where a pattern matches, or none when it matches nowhere |
| TextScan.FindFromLeftmost | src/validate-json.ts:22-23 | a match with no match before it is the one found |
| TextScan.SplitJoinsBack | src/validate-json.ts:35 | the pieces of `split("\n")` hold no newline and join back to the text |
| TextScan.JoinSplitsBack | src/validate-json.ts:35 | lines without newlines, joined and split again, come back unchanged |
| ValidateJson.TrimmedEnd | src/validate-json.ts:12 | the end after trimming is followed only by whitespace and preceded by a non-space |
| ValidateJson.TrimIsEmptyIffBlank | src/validate-json.ts:12 | `text.trim()` is empty exactly when every character is whitespace |
| ValidateJson.BlankExamples | src/validate-json.ts:12 | `""` and `"   "` trim to nothing |
| ValidateJson.NewlineCountConcat | src/validate-json.ts:35-42 | newlines in a concatenation add up |
| ValidateJson.LineOffsetMonotone | src/validate-json.ts:42 | the running `count` never decreases from line to line |
| ValidateJson.JoinedLength | src/validate-json.ts:42 | `count` after the last line is the text's length plus one |
| ValidateJson.LineHolding | src/validate-json.ts:36-42 | an offset below the final count lies in exactly one line's span |
| ValidateJson.OffsetWithinLine | src/validate-json.ts:36-42 | an offset in line k's span has k newlines before it and starts its line at that line's count |
| ValidateJson.StopsInLine | src/validate-json.ts:37-40 | where the loop breaks, `(i + 1, pos - count + 1)` is 1 plus the newlines before `pos` and `pos` minus its line start plus 1 |
| ValidateJson.RunsPastText | src/validate-json.ts:25-43 | when `pos` is at or past every line's end the loop never breaks and the position stays (1, 1) |
| ValidateJson.PositionToLineColumn | src/validate-json.ts:32-43 | the loop over the lines computes line = 1 + newlines before `pos` and column = `pos` − line start + 1, or (1, 1) past the text |
| ValidateJson.LineColumnRoundTrip | src/validate-json.ts:32-43 | for `pos` within the text, 1 ≤ line ≤ number of lines, 1 ≤ column ≤ that line's length + 1, and the counts of the earlier lines plus column − 1 give back `pos` |
| ValidateJson.OffsetExamples | src/validate-json.ts:32-43 | offset 7 of `{"a":1,}` is line 1 column 8; offset 9 of a three-line text is line 3 column 1 |
| ValidateJson.ValidateJson | src/validate-json.ts:11-54 | no problem for blank text or a successful parse; otherwise exactly one, with the cleaned message and the located line and column |
| ValidateJson.ExplicitLineColumnWins | src/validate-json.ts:22-31 | a "line N column M" match wins, whatever "position" the message also holds |
| ValidateJson.OffsetConverted | src/validate-json.ts:31-43 | without a line/column match, the first "position N" is converted from an offset |
| ValidateJson.DefaultLocation | src/validate-json.ts:25-26 | with neither pattern, or an offset past the text, the position is (1, 1) |
| ValidateJson.DecimalValueOfNatToString | src/validate-json.ts:29-32 | `parseInt` reads back the decimal digits of every natural number |
| ValidateJson.ParsePrefixStripped | src/validate-json.ts:48 | a leading `JSON.parse:`, in any case, and the whitespace after it are removed and nothing else; without it the message is unchanged |
| ValidateJson.CutAtLeftmostMatch | src/validate-json.ts:49-50 | a replacement of a to-the-end pattern keeps the text before its leftmost match, in which the pattern matches nowhere, and keeps all of it when there is no match |
| ValidateJson.CutIsPrefix | src/validate-json.ts:49-50 | that replacement leaves a prefix of its input |
| ValidateJson.CleanMessageIsPiece | src/validate-json.ts:47-50 | the cleaned message is a prefix of the message with its tag stripped, which is a suffix of the message |
| ValidateJson.PositionCutLeavesNone | src/validate-json.ts:49 | after the first cut no " at position N" suffix is left in a one-line message |
| ValidateJson.LineColumnCutLeavesNone | src/validate-json.ts:50 | after the second cut no " at line N column M" suffix is left in a one-line message |
| ValidateJson.CutKeepsNoPositionSuffix | src/validate-json.ts:50 | the second cut cannot bring back a position suffix |
| ValidateJson.CleanMessageHasNoSuffix | src/validate-json.ts:47-50 | a one-line message, cleaned, has neither suffix anywhere |
| ValidateJson.OffsetSuffixRead | src/validate-json.ts:22 | in `pre + " at position " + N` the position pattern reads N and the suffix pattern starts right after `pre` |
| ValidateJson.OffsetMessageReported | src/validate-json.ts:22-50 | a V8-style message `desc at position N`, with no earlier match, is reported as `desc` at the line and column of offset N |
| ValidateJson.LineColumnSuffixRead | src/validate-json.ts:23 | in `pre + " at line " + L + " column " + C + post` the line/column pattern reads (L, C) and the suffix pattern starts right after `pre` |
| ValidateJson.LineColumnMessageReported | src/validate-json.ts:22-50 | a Firefox-style message `JSON.parse: desc at line L column C of the JSON data`, with no earlier match, is reported as `desc` at (L, C) |

## Left out

- `JSON.parse` is not modelled. Its outcome, and the message of the error
  it throws, are an input of `ValidateJson`. The model does not separate a
  `SyntaxError`'s message from `String(err)` for other errors.
- Floating-point numbers are left out. Numbers are integers, and
  `JSON.stringify` writes them in plain decimal. The exponent form it uses
  from 1e21 up is not modelled.
- Objects enumerate keys in the order of the member sequence. The
  JavaScript rule that integer-like keys enumerate first, in ascending
  order, is not modelled.
- `parseInt` is exact here. For digit runs beyond 2^53 JavaScript loses
  precision; the model does not.
- Offsets and line lengths count Unicode characters. JavaScript counts
  UTF-16 code units, so the two differ on text with characters beyond U+FFFF.
- Duplicate keys are a `Json` value but are excluded by `WellFormed`; only
  `SimplifyKeepsWellFormed` assumes it. `JSON.parse` never yields them: it
  keeps the last value of a repeated key, and that merge is not modelled.
- `undefined`, functions and cyclic values cannot occur in the datatype;
  `JSON.parse` produces none of them.
- Engine limits are not modelled. `Math.max(...children)` at
  src/simplify-json.ts:10 and :15 passes one argument per child, and engines
  cap the argument count (V8 throws a `RangeError` near 10^5 arguments).
  Deep nesting overflows the recursion at :10, :15, :48 and :54. On such
  inputs `simplifyJson` throws, while `Simplify` returns a value.
- `src/App.tsx`, `src/json-editor.tsx` and `src/json-highlight.tsx` are the
  user interface (state hooks, the clipboard, DOM events, highlighting) and
  are not part of this model.
- `JsonProblem.line` and `JsonProblem.column` are `nat`, not positive. A
  message saying "line 0 column 0" is reported as (0, 0) by the code, so the
  claim of a 1-based position holds only for the offset conversion and the
  default.
- ValidateJson.CleanMessageHasNoSuffix: stated only for messages without
  line terminators. `.*$` cannot cross a line terminator, so in a
  multi-line message an "at position N" before the last line is left in place.
- ValidateJson.ParsePrefixStripped: a doubled `JSON.parse: JSON.parse:` tag
  loses only its first copy, as the anchored pattern matches once.
- ValidateJson.LineColumnMessageReported: requires a non-empty description
  that does not start with whitespace. Otherwise the whitespace after the
  tag is taken by the prefix pattern, not the suffix pattern, and the
  message cleans to a different string.

## Findings

| source | as written | input that shows it | evidently intended | confidence | as-written member | corrected member |
|---|---|---|---|---|---|---|
| src/simplify-json.ts:53-54 | `result[key] = ...` on a plain object runs the inherited `__proto__` setter when the key is `"__proto__"`, so no member is added | `{"__proto__":1}` simplifies to `{}` | every key of the input is kept, with its value simplified | not executed | SimplifyJson.ProtoKeyDropped | SimplifyJson.SimplifyObject |
