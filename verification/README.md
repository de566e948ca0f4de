# Horizon: moving the element under the cursor

Horizon is an editor extension that moves the element under the cursor one
place left or right within its line: an array item, an object entry, a
function parameter, a JSX prop, a union member or an operand of `&&`/`||`.
This project models its single-line engine as pure Dafny functions over
`seq<char>` and proves what each stage promises.

- **JsText**: the JavaScript string primitives the engine uses, with their
  out-of-range behaviour written out. These are `trim`, `slice`, `indexOf`
  and `lastIndexOf`, plus a fixed `/\s/` whitespace predicate.
- **Chunks**: the `EnvKind` and `Chunk` types and `joinChunks`.
- **Brackets**: `isOpening`, `isClosing`, `matching` and
  `findEnclosingPair`. The detector's copy of `findEnclosingPair` is a
  recursive function. The copy in `src/utils/brackets.ts` is a method with its
  two nested loops, proved to compute the same answer.
- **Splitter**: the four scope scanners (commas, top-level pipes, logical
  operators, JSX props) and the `splitScope` dispatch. Each scanner carries
  its bracket stack and, except the comma scanner, its quote state.
- **Detector**: `detectEnvironment`, an ordered chain:
  1. JSX tag props;
  2. the nearest enclosing bracket pair;
  3. a naive pair found by `lastIndexOf`/`indexOf`;
  4. union;
  5. logical;
  6. simple.
- **Manipulator**: `findElementIndexAt`, `reorderByMoving` and
  `manipulateLine`. `manipulateLine` covers the rebuilt line and the cursor
  arithmetic of `getElementStartAndLength`.
- **LegacySwap**: the older adjacent swap of `src/lib/brackets.ts`. It covers
  the bracket table, `splitByBracket` and `computeSwapForLine`.
- **SplitterExamples**, **DetectorExamples**, **ManipulatorExamples**,
  **LegacySwapExamples**: a selection of the unit tests, one lemma per test,
  each stated on the test's own line. They are:
  - seven `splitScope` tests (src/lib/splitter.test.ts:9-39, 59-82), plus
    the split of the scope in src/lib/manipulator.test.ts:7;
  - one `detectEnvironment` test (src/lib/detector.test.ts:28-32);
  - one `manipulateLine` test (src/lib/manipulator.test.ts:6-13);
  - all four `computeSwapForLine` tests (src/lib/brackets.test.ts).

  DetectorExamples also states the naive pair on `[ [x] ]`, and
  LegacySwapExamples the line with a repeated item.

Regular expressions are written as explicit predicates over characters.
A read past either end of a string is JavaScript's `undefined`, which equals
no character and is not whitespace.

## Model

| member | source | states |
|---|---|---|
| JsText.Trim | src/lib/splitter.ts:31 | the trimmed text neither starts nor ends with whitespace |
| JsText.TrimSplit | src/lib/splitter.ts:31 | the input is whitespace, then its trim, then whitespace |
| JsText.TrimKeepsNonWs | src/lib/splitter.ts:31 | trimming loses only whitespace |
| JsText.TrimIdentity | src/lib/splitter.ts:31 | trimming changes nothing exactly when neither edge is whitespace |
| JsText.TrimUnique | src/lib/splitter.ts:31 | a slice with visible ends and only whitespace around it is the trim of the whole |
| JsText.Slice | src/lib/manipulator.ts:56 | `slice` with in-range ascending bounds is the subsequence, and with crossed bounds it is empty |
| JsText.IndexOf | src/lib/detector.ts:182 | the first occurrence at or after the start, or -1 when there is none |
| JsText.LastIndexOf | src/lib/detector.ts:181 | the last occurrence at or before the clamped start, or -1 when there is none |
| JsText.IndexOfPair | src/lib/detector.ts:229 | the first occurrence of a two-character string at or after the start, or -1 |
| Chunks.JoinChunksAppend | src/lib/manipulator.ts:10-11 | joining distributes over concatenation, and one chunk joins to its own text, so the join is the in-order concatenation of the texts |
| Chunks.ElementsAppend | src/lib/manipulator.ts:35 | the element filter distributes over concatenation |
| Brackets.Matching | src/utils/brackets.ts:3 | every opener maps to its own closer, which is a closer and not an opener |
| Brackets.BalancedClose | src/lib/detector.ts:18-29 | the close is the first index after the opener where that bracket type's depth returns to zero; other brackets and quotes are ignored |
| Brackets.FindEnclosingPair | src/lib/detector.ts:8-34 | a pair has `openIndex < cursor <= closeIndex`, the opener and its own closer at those indices, and the balanced close; the pair is the first straddling opener scanning left; None means no opener at or before the cursor straddles it |
| Brackets.NoPairAtLineStart | src/utils/brackets.ts:10 | a cursor at or before offset zero has no enclosing pair |
| Brackets.FindEnclosingPairLoop | src/utils/brackets.ts:5-31 | the nested-loop copy returns exactly what the detector's copy returns, on every input |
| Brackets.BalancedCloseLoop | src/utils/brackets.ts:15-27 | the inner depth loop returns the balanced close |
| Splitter.QuotedBracketsNeverCount | src/lib/splitter.ts:54-72 | inside an open quote, no character other than a quote changes the scanner state |
| Splitter.MismatchedCloserNeverPops | src/lib/splitter.ts:24-28 | a closer that is not the expected one leaves the bracket stack unchanged |
| Splitter.SplitByCommas | src/lib/splitter.ts:12-43 | the chunks keep every non-whitespace character in order; separators are `,` or `, `; elements have trimmed edges and no comma outside brackets |
| Splitter.CommaRoundTrip | src/lib/splitter.ts:29-37 | with canonical spacing, joining the chunks gives back the content exactly |
| Splitter.CommaSeparatorsExact | src/lib/splitter.ts:19-37 | the separators are, in order, one per comma at bracket depth zero, each `, ` exactly when a space follows the comma and `,` otherwise, so a comma inside brackets never cuts |
| Splitter.SplitByPipes | src/lib/splitter.ts:45-88 | the chunks keep every non-whitespace character; separators are `\|` or ` \| `; elements are trimmed, with no pipe outside quotes and brackets |
| Splitter.UnionSeparatorsExact | src/lib/splitter.ts:73-82 | the separators are, in order, one per top-level pipe, and ` \| ` exactly when both neighbours are spaces |
| Splitter.SplitLogical | src/lib/splitter.ts:90-148 | the chunks keep every non-whitespace character; separators are `&&` or `\|\|` with at most one space on each side; elements are non-empty, with no trailing space and no top-level operator |
| Splitter.OperatorText | src/lib/splitter.ts:134-141 | an operator separator takes the two operator characters and at most the one space after them |
| Splitter.LogicalSeparatorsExact | src/lib/splitter.ts:105-143 | the separators are, in order, one per `&&` or `\|\|` outside quotes and brackets read left to right, each with a left space exactly when a space precedes it and some chunk was already pushed, and a right space exactly when one follows it |
| Splitter.SplitProps | src/lib/splitter.ts:150-195 | the chunks keep every non-whitespace character; separators are a single space; elements are non-empty, with no space outside quotes and brackets |
| Splitter.SpaceRunEnd | src/lib/splitter.ts:187 | the skipped run is exactly the maximal run of spaces |
| Splitter.PropsSeparatorsExact | src/lib/splitter.ts:161-192 | the separators are, in order, one ` ` per run of spaces that starts outside quotes and brackets |
| Splitter.SplitScope | src/lib/splitter.ts:197-215 | Array, Object and FunctionParams give exactly `SplitByCommas` of the content, Union exactly `SplitByPipes`, Logical exactly `SplitLogical` and ReactComponent exactly `SplitProps`; any other kind gives one element equal to the content; every answer keeps the content's non-whitespace characters in order |
| Detector.SkipWsRight | src/lib/detector.ts:149 | the start skips exactly the whitespace run, up to one past the bound |
| Detector.SkipWsLeft | src/lib/detector.ts:151 | the end skips exactly the whitespace run, down to one before the bound |
| Detector.TrimsToTrim | src/lib/detector.ts:146-151 | a scope trimmed this way spells `trim` of its region, and is empty exactly when the region trims to nothing |
| Detector.TrimmedRegion | src/lib/detector.ts:146-151 | a region with whitespace-only margins and visible ends is the trim of the enclosing region |
| Detector.PairScope | src/lib/detector.ts:146-151 | the pair scope trims its region from both ends |
| Detector.NaiveScope | src/lib/detector.ts:195-198 | the naive scope trims its region, the end never passing the trimmed start |
| Detector.PairScopeInside | src/lib/detector.ts:146-151 | the pair scope is the trimmed interior of a pair straddling the cursor, never its delimiters |
| Detector.NaiveScopeInside | src/lib/detector.ts:195-199 | the naive scope is the trimmed interior of the naive pair |
| Detector.TagOpen | src/lib/detector.ts:46-52 | the nearest `<` at or before the cursor, or -1 |
| Detector.SpacesEnd | src/lib/detector.ts:56 | skips exactly the run of spaces |
| Detector.NameEnd | src/lib/detector.ts:57 | skips exactly the run of tag-name characters |
| Detector.TagClose | src/lib/detector.ts:59-82 | the first index at which a `>` outside quotes and brackets, not preceded by `=`, closes the tag; depth is clamped at zero |
| Detector.PropsEnd | src/lib/detector.ts:88-91 | the props end before `>`, on a visible character unless they are empty; after that end only whitespace and `/` remain, at most one `/`, and a `/` end is kept only when another `/` was dropped after it |
| Detector.TagFrame | src/lib/detector.ts:46-82 | a frame exists exactly when a `<` precedes the cursor and its tag closes; the `>` lies after the name |
| Detector.TagProps | src/lib/detector.ts:85-139 | when a pair other than `<` lies strictly inside the props and has a nested kind, the answer is exactly that nested detection; otherwise it is ReactComponent with the props scope between the name and the `>`, or with no scope when the props are empty |
| Detector.TagDetection | src/lib/detector.ts:44-141 | an answer exists exactly when the tag frame does, and it is the tag-props answer for that frame; it is never Simple or Union, and its props scope and nested pair lie within the tag |
| Detector.TagBranch | src/lib/detector.ts:38-141 | on a line that looks like JSX the branch answers exactly when the tag frame exists; it answers only on such lines, and its answer carries its evidence |
| Detector.NestedKind | src/lib/detector.ts:110-133 | a nested `[` is Array; a `{` is Object exactly when `:` is inside; a `(` is FunctionParams exactly when `)`, optional whitespace and `=>` occur, and otherwise Logical exactly when `&&` or `\|\|` occurs |
| Detector.NestedDetection | src/lib/detector.ts:94-133 | a nested list is reported with the pair's trimmed interior as its scope |
| Detector.PairKind | src/lib/detector.ts:146-176 | a kind read off the enclosing pair is scoped to that pair's trimmed interior |
| Detector.PairList | src/lib/detector.ts:153-176 | `[` gives Array, `{` Object, `(` with an arrow FunctionParams, `<` ReactComponent, and `(` with a logical operator Logical; a bare `(` gives nothing |
| Detector.PairDetection | src/lib/detector.ts:144-177 | an answer comes from the enclosing pair's classification, and there is none exactly when that classification fails |
| Detector.SimplePair | src/lib/detector.ts:180-192 | the last opener at or before the cursor and the first closer at or after it, kept only when they straddle the cursor |
| Detector.NaiveDetection | src/lib/detector.ts:179-216 | Array exactly when a naive `[`/`]` pair straddles the cursor; otherwise Object exactly when a `{`/`}` pair does; otherwise FunctionParams exactly when a `(`/`)` pair does and an arrow follows a `)`; none exactly when all three fail; each answer is scoped to the trimmed interior of that very pair, the last opener at or before the cursor and the first closer at or after it |
| Detector.NaiveList | src/lib/detector.ts:195-215 | a naive answer is scoped to the trimmed interior of its pair |
| Detector.UnionStart | src/lib/detector.ts:224-225 | the union scope starts just after the last `=`, or at the line start |
| Detector.UnionEnd | src/lib/detector.ts:226-231 | the union scope ends before the first `;` or `//` after its start, or at the line end |
| Detector.UnionDetection | src/lib/detector.ts:219-237 | a union answer has a scope exactly when the line contains a `\|`, and that scope is its region, trimmed |
| Detector.LogicalDetection | src/lib/detector.ts:239-246 | a logical answer is scoped to the whole line, trimmed |
| Detector.Fallback | src/lib/detector.ts:218-248 | Union exactly on union lines, with the union detection's scope; then Logical exactly on logical lines, with the whole line as scope; otherwise Simple with no scope |
| Detector.AfterPair | src/lib/detector.ts:179-248 | a naive pair answers first when one applies; otherwise the answer is the union, logical or simple fallback |
| Detector.AfterTag | src/lib/detector.ts:144-248 | the enclosing pair answers first when it classifies; otherwise the naive pair; otherwise the fallback; Simple exactly when none of them applies |
| Detector.DetectEnvironment | src/lib/detector.ts:36-249 | the rules are tried in order: the tag branch, then the enclosing pair, then the naive pair, then union, logical and simple; the first that applies gives the answer; every answer is well formed and rests on its evidence; an empty line gives Simple with no scope |
| Manipulator.FindElementIndexAt | src/lib/manipulator.ts:13-28 | the index lies in `[0, max(0, count - 1)]`; an offset inside a chunk gives that chunk's element (or the preceding one for a separator, clamped to 0); an offset outside every chunk gives the last element |
| Manipulator.FindElementInElement | src/lib/manipulator.ts:21-22 | an offset inside an element chunk selects that very element |
| Manipulator.ElementLocation | src/lib/manipulator.ts:62-76 | the start and length of the chunk holding the element; past the end, the join's length and zero |
| Manipulator.ElementLocationSpans | src/lib/manipulator.ts:62-76 | the location of an element spells that element in the joined scope |
| Manipulator.Move | src/lib/manipulator.ts:37-39 | the moved item lands at the target, and removing it there leaves what removing it at the source leaves |
| Manipulator.RemoveInsert | src/lib/manipulator.ts:38-39 | inserting then removing at one index is the identity |
| Manipulator.MoveInverse | src/lib/manipulator.ts:37-39 | moving back undoes a move |
| Manipulator.MovePermutes | src/lib/manipulator.ts:37-39 | a move is a permutation |
| Manipulator.MoveInPlace | src/lib/manipulator.ts:37-39 | moving an element onto itself changes nothing |
| Manipulator.ReplaceElements | src/lib/manipulator.ts:40-41 | the rebuilt chunks keep every kind and separator, and their elements are the given texts in order |
| Manipulator.ChunksEqual | src/lib/manipulator.ts:40-41 | chunk lists of the same shape with the same element texts are equal |
| Manipulator.JoinLength | src/lib/manipulator.ts:10-11 | the joined scope is as long as its elements and separators together |
| Manipulator.ReorderByMoving | src/lib/manipulator.ts:30-42 | no move exactly when the target is outside `[0, count)`; otherwise same kinds and separators, with elements moved from source to target |
| Manipulator.ReorderKeeps | src/lib/manipulator.ts:35-41 | a move keeps the element count, the separators, the element multiset and the joined length, and puts the source element at the target |
| Manipulator.SeparatorsKept | src/lib/manipulator.ts:41 | lists of the same shape have the same separators |
| Manipulator.ReorderInverse | src/lib/manipulator.ts:30-42 | moving the element back restores the original chunks |
| Manipulator.ManipulateLine | src/lib/manipulator.ts:44-97 | with Simple, no scope, or a target outside the scope's elements, the line and cursor come back unchanged; otherwise the scope is replaced by its chunks with the cursor's element moved `delta` places and the rest of the line is kept, the cursor keeps its offset inside the moved element, and the new line spells that element at its new place |
| Manipulator.ManipulateIn | src/lib/manipulator.ts:49-97 | for any well-formed detection: unscoped changes nothing; scoped moves within the chunks of the scope's content, with the text, cursor and spelling `ManipulateLine` states |
| Manipulator.MoveInScope | src/lib/manipulator.ts:59-96 | a target outside the elements returns the line and cursor unchanged |
| Manipulator.MoveInScopeMovesOrKeeps | src/lib/manipulator.ts:59-96 | for any scope and chunks, the result is either the move `MovedWithin` describes, when the target is among the elements, or the unchanged line |
| Manipulator.MoveInScopeMoves | src/lib/manipulator.ts:77-96 | with the target among the elements: the new line is the text before the scope, the joined moved chunks and the text after it; the cursor is the scope start, plus the target element's start, plus the old offset clamped to the element; the moved element is spelled there |
| Manipulator.ScopedManipulated | src/lib/manipulator.ts:55-96 | a scoped detection, split by its kind, is manipulated as `ManipulateLine` states |
| Manipulator.MoveKeepsOutside | src/lib/manipulator.ts:85-88 | the new line is the text before the scope, the joined new scope, and the text after it |
| Manipulator.MovedSpan | src/lib/manipulator.ts:90-94 | after the move, the element at the target index has the source element's length and text, and its span lies inside the joined scope |
| Manipulator.MovePlacesCursor | src/lib/manipulator.ts:77-96 | the offset within the element lies in `[0, length]`, and the new cursor is the scope start plus the target element's start plus that offset |
| Manipulator.MoveSpellsElement | src/lib/manipulator.ts:85-96 | the new line spells the moved element where the cursor's element now starts |
| LegacySwap.Types | src/lib/brackets.ts:10-15 | the four rows, in the order `<>`, `{}`, `[]`, `()`, split at space and then at commas, joined with a space and then with `, ` |
| LegacySwap.LeftBracket | src/lib/brackets.ts:39-48 | the nearest opener at or before the cursor; none exactly when the cursor is off the line or no opener precedes it |
| LegacySwap.RightBracket | src/lib/brackets.ts:50-65 | the first closer from the cursor at which opens and closes since the cursor balance |
| LegacySwap.ItemStart | src/lib/brackets.ts:67-72 | the item starts just after the nearest separator or opener to the left |
| LegacySwap.ItemEnd | src/lib/brackets.ts:74-86 | the item ends just before the next separator or closer to the right |
| LegacySwap.SplitParts | src/lib/brackets.ts:89-106 | the pieces joined with the separator give back the interior, and there is one more piece than top-level separators |
| LegacySwap.TrimAll | src/lib/brackets.ts:107 | each item is the trim of its piece |
| LegacySwap.PartsScanSound | src/lib/brackets.ts:91-106 | from any point of the loop whose depth, cut pieces and current piece agree with the text read so far, the pieces it returns join back to the interior, one more than the top-level separators |
| LegacySwap.SplitBetween | src/lib/brackets.ts:67-114 | the brackets are the ones found, the items are the trimmed top-level pieces of the interior, and the item text is the slice from the start the third loop finds through the end the fourth loop finds |
| LegacySwap.SplitByBracket | src/lib/brackets.ts:33-115 | none exactly when the cursor is off the line, no opener precedes it, or no balanced closer follows it; otherwise `left <= cursor <= right`, the bracket characters at both ends, the trimmed top-level items, and the item text sliced from the item's start through its end |
| LegacySwap.SwapByValue | src/lib/brackets.ts:137-141 | the value swap as written keeps the length and every other item |
| LegacySwap.SwapByValueDuplicates | src/lib/brackets.ts:137-141 | on `a, a, b`, exchanging `b` with the `a` before it gives `b, b, a`, which is not a permutation |
| LegacySwap.SwapPositions | src/lib/brackets.ts:137-141 | the corrected swap exchanges the two positions and keeps every other item |
| LegacySwap.SwapPositionsPermutes | src/lib/brackets.ts:137-141 | the positional swap is a permutation and undoes itself |
| LegacySwap.SwapByValueOnDistinct | src/lib/brackets.ts:137-141 | on pairwise-distinct items the value swap as written equals the positional swap |
| LegacySwap.SwapItemsOnDistinct | src/lib/brackets.ts:137-155 | on pairwise-distinct items a swapped answer is the text rebuilt from the positional swap |
| LegacySwap.IndexOfItem | src/lib/brackets.ts:128 | -1 exactly when the word is absent, otherwise its first index |
| LegacySwap.OffsetIsJoinLength | src/lib/brackets.ts:148-152 | past the first `t > 0` items, the offset is the length of their join plus one joiner |
| LegacySwap.OffsetSpellsItem | src/lib/brackets.ts:145-152 | the join spells item `t` at the offset |
| LegacySwap.Rebuild | src/lib/brackets.ts:143-155 | the new text is the original opener, the padding, the items joined with the row's joiner, the padding and the closer; the selection starts after the opener, the padding and the items before the target with their joiners, has the word's length and spells the word |
| LegacySwap.Pad | src/lib/brackets.ts:143 | the padding is one space exactly when a space follows the opener, and empty otherwise |
| LegacySwap.SwapItems | src/lib/brackets.ts:126-166 | none exactly when the word is not among the items; blocked exactly when the target is out of range or the neighbour is empty; otherwise the text is rebuilt from the value swap of the word and its neighbour, which puts the neighbour at the word's index and the word at the target, with the selection on the target |
| LegacySwap.SwapWith | src/lib/brackets.ts:122-129 | a row declines exactly when its split fails or the word is not found |
| LegacySwap.ComputeSwapForLine | src/lib/brackets.ts:117-170 | `{}` exactly when every row declines; otherwise the answer of the first row that answers |
| LegacySwap.FirstFrom | src/lib/brackets.ts:122-169 | the first row that answers decides; none exactly when no row answers |
| LegacySwapExamples.RowDeclines | src/lib/brackets.ts:122-129 | a row whose opener does not occur in the line declines it |
| LegacySwapExamples.AnswerOfRow | src/lib/brackets.ts:122-169 | when the rows before `k` decline and row `k` answers, the line's answer is row `k`'s |
| LegacySwapExamples.SplitABC | src/lib/brackets.ts:33-115 | `[ a, b, c ]` with the cursor on `a` or `b` splits between 0 and 10 into `a`, `b`, `c`, with the item text ` a` or ` b` |
| LegacySwapExamples.SplitXYZ | src/lib/brackets.ts:33-115 | `{ x, y, z }` with the cursor on `y` splits between 0 and 10 into `x`, `y`, `z`, with the item text ` y` |
| LegacySwapExamples.SplitAB | src/lib/brackets.ts:74-86 | in `[ a, b ]` the item text on `b` is ` b `: the fourth loop steps over the space after `b` |
| LegacySwapExamples.SplitAAB | src/lib/brackets.ts:74-86 | in `[ a, a, b ]` the item text on `b` is ` b `, with the space after it |
| LegacySwapExamples.SwapRightExample | src/lib/brackets.test.ts:5-10 | `[ a, b, c ]` with the cursor on `a` moving right: the `[` row answers `[ b, a, c ]` between 0 and 10 with `a` selected at 5-6 |
| LegacySwapExamples.SwapLeftExample | src/lib/brackets.test.ts:12-17 | `[ a, b, c ]` with the cursor on `b` moving left: the `[` row answers `[ b, a, c ]` with `b` selected at 2-3 |
| LegacySwapExamples.BracesExample | src/lib/brackets.test.ts:19-24 | `{ x, y, z }` with the cursor on `y` moving right: the `{` row answers `{ x, z, y }` with `y` selected at 8-9 |
| LegacySwapExamples.EdgeExample | src/lib/brackets.test.ts:26-31 | `[ a, b ]` with the cursor on `b` moving right: the `[` row answers with no result |
| LegacySwapExamples.DuplicatesExample | src/lib/brackets.ts:117-170 | `[ a, a, b ]` with the cursor on `b` moving left: the `[` row answers `[ b, b, a ]`, the value swap as written |
| SplitterExamples.ArrayByCommas | src/lib/splitter.test.ts:9-20 | `1, 2, 3` as an array splits into `1`, `, `, `2`, `, `, `3` |
| SplitterExamples.NestedArrayKept | src/lib/splitter.test.ts:22-26 | `1, [2, 3], 4` as an array splits into `1`, `, `, `[2, 3]`, `, `, `4` |
| SplitterExamples.ObjectByCommas | src/lib/splitter.test.ts:28-33 | `a: 1, b: 2` as an object splits into `a: 1`, `, `, `b: 2` |
| SplitterExamples.ParamsByCommas | src/lib/splitter.test.ts:35-39 | `a: A, b: B` as parameters splits into `a: A`, `, `, `b: B` |
| SplitterExamples.UnionByPipes | src/lib/splitter.test.ts:59-70 | `'a' \| 'b' \| 'c'` as a union splits into the three quoted members with ` \| ` between them |
| SplitterExamples.LogicalByOperators | src/lib/splitter.test.ts:72-76 | `a && b \|\| c && d` as a logical expression splits into the four operands with ` && `, ` \|\| `, ` && ` between them |
| SplitterExamples.PropsBySpaces | src/lib/splitter.test.ts:78-82 | `a={x} b="y z" c` as props splits into `a={x}`, `b="y z"` and `c`, with one ` ` between each, the space inside quotes kept |
| SplitterExamples.ArrayOfFour | src/lib/manipulator.test.ts:7 | `1, 2, 3, 4` as an array splits into four numbers with `, ` between them |
| DetectorExamples.ArrayDetected | src/lib/detector.test.ts:28-32 | in `[ 1, 2, 3, 4 ]` before the `4` the answer is Array with the scope `1, 2, 3, 4` |
| DetectorExamples.NaiveInnerPair | src/lib/detector.ts:179-199 | on `[ [x] ]` with the cursor on `x` the naive branch answers Array scoped to `x` alone, the inner pair that `lastIndexOf`/`indexOf` find |
| ManipulatorExamples.MovesFirstRight | src/lib/manipulator.test.ts:6-13 | `const a = [1, 2, 3, 4]` with the cursor on `1` moved right gives `const a = [2, 1, 3, 4]` with the cursor on the `1` again |

## Left out

- src/extension.ts is not part of this model. It is editor I/O: command registration, word ranges, asynchronous edits and setting the selection.
- The integration tests (src/test/suite/extension.test.ts) and the cursor-marker helper (src/utils/tests.ts) are left out; lemmas use explicit indices.
- Regular expressions are explicit predicates. The `\b` in src/lib/detector.ts:40 is dropped, because `\w+` can always start its match at a word boundary.
- `/\s/` and `trim` use one fixed whitespace set: ASCII whitespace, the no-break space and the byte-order mark. Unicode's other space separators and UTF-16 code-unit subtleties are out of scope.
- The `for ... of` loop over the bracket interior (src/lib/brackets.ts:94) iterates code points. The model iterates characters, which agrees for text without surrogate pairs.
- The `word` field of the bracket table (src/lib/brackets.ts:7, 11-14) is never read, so it is not modelled.
- The `currentPosNested` branch of src/lib/brackets.ts:79-83 cannot change where the item ends. Lines 79-80 do count openers ahead, but the counter is read only at lines 81-83, and that branch is unreachable: line 78 has already stopped the loop on a closer one place ahead. `ItemEnd` leaves the counter out.
- ReorderByMoving: requires the source index to be an element index (or 0 when there are none). `manipulateLine` always passes the result of `findElementIndexAt`, which is one.
- The padding clause of the `SwapSound` predicate is one-way: a space after the original opener puts a space on both inner sides of the new text. The converse does not hold character by character, since with no space after the opener the first item may itself start with a space. `Rebuild` and `SwapItems` state the padding both ways, through `RebuiltFrom` and `Pad`.
- Other unit tests that the code does implement are not stated as lemmas: among them the Simple and Object detections (src/lib/detector.test.ts:16-20, 34-38), the left move and the out-of-range move (src/lib/manipulator.test.ts:15-30), and the nested and quoted-props splits (src/lib/splitter.test.ts:41-57, 97-107). Their behaviour falls under the general contracts of `DetectEnvironment`, `ManipulateLine` and `SplitScope`, but no lemma evaluates them on their lines.
- Several tests assert behaviour the code does not implement, so they are not stated as lemmas. These are quote-aware comma splitting, ClassList and Tailwind splitting, a word fallback in Simple lines, and call-argument detection without `=>` (src/lib/splitter.test.ts:109-119, 127-197; src/lib/manipulator.test.ts:171-250).
- `TypeParams` and `ClassList` are never produced by the detector. `SplitScope` sends them to the one-element default.

## Findings

| source | as written | input that shows it | evidently intended | confidence | as-written member | corrected member |
|---|---|---|---|---|---|---|
| src/lib/brackets.ts:137-141 | `newArray` swaps by value: every item equal to the cursor's word becomes the neighbour and every item equal to the neighbour becomes the cursor's word | `[ a, a, b ]` with the cursor on `b` and direction -1 gives `[ b, b, a ]` | exchange the two positions, giving `[ a, b, a ]` | not executed | LegacySwap.SwapByValueDuplicates | LegacySwap.SwapPositionsPermutes |

`SwapItems`, and through it `ComputeSwapForLine`, uses the value swap as written, and `LegacySwapExamples.DuplicatesExample` shows the resulting `[ b, b, a ]` from the line itself. The corrected positional swap is `SwapPositions`; `SwapByValueOnDistinct` and `SwapItemsOnDistinct` show that the two agree whenever the items are pairwise distinct.
