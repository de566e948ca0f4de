/**
 * The scope splitter: four hand-written scanners cutting a scope's content
 * into element and separator chunks, and the dispatch between them by
 * environment kind.
 *
 * Each scanner is a recursion over the content index carrying the scanner's
 * state: the bracket stack of expected closers, the open quote (all but the
 * comma scanner), the element text collected so far and the chunks emitted.
 */
module Splitter {
  import opened JsText
  import opened Chunks
  import opened Brackets

  // ---------------------------------------------------------------------------
  // Shared scanner state
  // ---------------------------------------------------------------------------

  /** One step of the bracket stack: an opener pushes its closer; a closer pops
      only when it is the closer on top of the stack; anything else is ignored. */
  function StackStep(stack: seq<char>, c: char): seq<char> {
    if IsOpening(c) then stack + [Matching(c)]
    else if IsClosing(c) then
      (if |stack| > 0 && stack[|stack| - 1] == c then stack[..|stack| - 1] else stack)
    else stack
  }

  /** The bracket stack after scanning `s` from an empty stack. */
  function StackOf(s: string): seq<char>
    decreases |s|
  {
    if |s| == 0 then [] else StackStep(StackOf(s[..|s| - 1]), s[|s| - 1])
  }

  predicate IsQuoteChar(c: char) {
    c == '"' || c == '\'' || c == '`'
  }

  /** The open quote (if any) and the bracket stack. */
  datatype ScanState = ScanState(quote: Option<char>, stack: seq<char>)

  const Top := ScanState(None, [])

  /** Outside every quote and every bracket. */
  predicate AtTop(st: ScanState) {
    st.quote.None? && |st.stack| == 0
  }

  /** One step of the quote-aware scanners, for a character that is not a
      split point: brackets count only outside quotes; a quote character
      closes the open quote of the same kind unless preceded by a backslash,
      and opens one when none is open. */
  function QuoteStep(st: ScanState, c: char, escaped: bool): ScanState {
    if st.quote.None? && (IsOpening(c) || IsClosing(c)) then ScanState(None, StackStep(st.stack, c))
    else if IsQuoteChar(c) then
      (if st.quote == Some(c) && !escaped then ScanState(None, st.stack)
       else if st.quote.None? then ScanState(Some(c), st.stack)
       else st)
    else st
  }

  /** The quote-and-bracket state after scanning `s` from the top level; a
      character counts as escaped when the one before it in `s` is a backslash. */
  function StateOf(s: string): ScanState
    decreases |s|
  {
    if |s| == 0 then Top
    else StateStep(StateOf(s[..|s| - 1]), s, |s| - 1)
  }

  /** The step the scanners take at index `i` of `s`. */
  function StateStep(st: ScanState, s: string, i: nat): ScanState
    requires i < |s|
  {
    QuoteStep(st, s[i], CharIs(s, i - 1, '\\'))
  }

  /** Once a quote is open, no bracket changes the stack. */
  lemma QuotedBracketsNeverCount(st: ScanState, c: char, escaped: bool)
    requires st.quote.Some? && !IsQuoteChar(c)
    ensures QuoteStep(st, c, escaped) == st
  {
  }

  /** A closer that is not the expected one leaves the stack as it is. */
  lemma MismatchedCloserNeverPops(stack: seq<char>, c: char)
    requires IsClosing(c) && (|stack| == 0 || stack[|stack| - 1] != c)
    ensures StackStep(stack, c) == stack
  {
  }

  // ---------------------------------------------------------------------------
  // Properties the chunk lists are checked against
  // ---------------------------------------------------------------------------

  /** No `,` of `t` sits at bracket depth zero, counting from the start of `t`. */
  ghost predicate NoTopComma(t: string) {
    forall k :: 0 <= k < |t| && t[k] == ',' ==> |StackOf(t[..k])| > 0
  }

  /** No `|` of `t` sits outside quotes and brackets. */
  ghost predicate NoTopPipe(t: string) {
    forall k :: 0 <= k < |t| && t[k] == '|' ==> !AtTop(StateOf(t[..k]))
  }

  predicate IsOpPair(a: char, b: char) {
    (a == '&' && b == '&') || (a == '|' && b == '|')
  }

  /** No `&&` or `||` of `t` starts outside quotes and brackets. */
  ghost predicate NoTopLogicalOp(t: string) {
    forall k :: 0 <= k < |t| - 1 && IsOpPair(t[k], t[k + 1]) ==> !AtTop(StateOf(t[..k]))
  }

  /** No space of `t` sits outside quotes and brackets. */
  ghost predicate NoTopSpace(t: string) {
    forall k :: 0 <= k < |t| && t[k] == ' ' ==> !AtTop(StateOf(t[..k]))
  }

  predicate EdgesTrimmed(t: string) {
    |t| > 0 ==> !IsWs(t[0]) && !IsWs(t[|t| - 1])
  }

  /** A chunk the comma splitter may emit. */
  ghost predicate CommaChunk(c: Chunk) {
    if c.kind == Separator then c.text == "," || c.text == ", "
    else EdgesTrimmed(c.text) && NoTopComma(c.text)
  }

  /** A chunk the union splitter may emit. */
  ghost predicate UnionChunk(c: Chunk) {
    if c.kind == Separator then c.text == "|" || c.text == " | "
    else EdgesTrimmed(c.text) && NoTopPipe(c.text)
  }

  predicate IsLogicalSeparator(t: string) {
    exists l: string, op: string, r: string
      | l in {"", " "} && op in {"&&", "||"} && r in {"", " "} :: t == l + op + r
  }

  /** A chunk the logical splitter may emit. */
  ghost predicate LogicalChunk(c: Chunk) {
    if c.kind == Separator then IsLogicalSeparator(c.text)
    else |c.text| > 0 && c.text[|c.text| - 1] != ' ' && NoTopLogicalOp(c.text)
  }

  /** A chunk the props splitter may emit. */
  ghost predicate PropsChunk(c: Chunk) {
    if c.kind == Separator then c.text == " "
    else |c.text| > 0 && NoTopSpace(c.text)
  }

  // ---------------------------------------------------------------------------
  // splitByCommas
  // ---------------------------------------------------------------------------

  /** Emit the collected text, trimmed, as an element when it is non-empty. */
  function FlushTrimmed(acc: seq<Chunk>, current: string): seq<Chunk> {
    if |current| > 0 then acc + [Chunk(Element, Trim(current))] else acc
  }

  /** `splitByCommas`: cut at every `,` at bracket depth zero. Quotes are not
      tracked. Elements are trimmed; a separator takes the one space after its
      comma when there is one. Only whitespace is ever lost. */
  function SplitByCommas(content: string): (r: seq<Chunk>)
    ensures NonWs(JoinChunks(r)) == NonWs(content)
    ensures AllCommaChunks(r)
  {
    CommaScanSound(content, 0, [], "", []);
    CommaScan(content, 0, [], "", [])
  }

  function CommaScan(c: string, i: nat, stack: seq<char>, current: string, acc: seq<Chunk>): seq<Chunk>
    requires i <= |c|
    decreases |c| - i
  {
    if i == |c| then FlushTrimmed(acc, current)
    else
      var ch := c[i];
      if IsOpening(ch) || IsClosing(ch) then
        CommaScan(c, i + 1, StackStep(stack, ch), current + [ch], acc)
      else if ch == ',' && |stack| == 0 then
        CommaScan(c, CommaEnd(c, i), stack, "", FlushTrimmed(acc, current) + [Chunk(Separator, CommaSeparatorText(c, i))])
      else
        CommaScan(c, i + 1, stack, current + [ch], acc)
  }

  lemma StackOfSnoc(s: string, c: char)
    ensures StackOf(s + [c]) == StackStep(StackOf(s), c)
  {
    assert (s + [c])[..|s + [c]| - 1] == s;
  }

  /** Flushing keeps the non-whitespace text of the collected element. */
  lemma FlushTrimmedNonWs(acc: seq<Chunk>, current: string)
    ensures NonWs(JoinChunks(FlushTrimmed(acc, current))) == NonWs(JoinChunks(acc)) + NonWs(current)
  {
    if |current| > 0 {
      calc {
        NonWs(JoinChunks(acc + [Chunk(Element, Trim(current))]));
        { JoinChunksAppend(acc, [Chunk(Element, Trim(current))]); }
        NonWs(JoinChunks(acc) + Trim(current));
        { NonWsAppend(JoinChunks(acc), Trim(current)); }
        NonWs(JoinChunks(acc)) + NonWs(Trim(current));
        { TrimKeepsNonWs(current); }
        NonWs(JoinChunks(acc)) + NonWs(current);
      }
    }
  }

  /** Scanning past one character that lands in the collected element. */
  lemma NonWsStep(c: string, i: nat, joined: string, current: string)
    requires i < |c|
    requires NonWs(joined) + NonWs(current) == NonWs(c[..i])
    ensures NonWs(joined) + NonWs(current + [c[i]]) == NonWs(c[..i + 1])
  {
    calc {
      NonWs(joined) + NonWs(current + [c[i]]);
      { NonWsAppend(current, [c[i]]); }
      NonWs(joined) + (NonWs(current) + NonWs([c[i]]));
      (NonWs(joined) + NonWs(current)) + NonWs([c[i]]);
      NonWs(c[..i]) + NonWs([c[i]]);
      { assert c[..i + 1] == c[..i] + [c[i]]; NonWsAppend(c[..i], [c[i]]); }
      NonWs(c[..i + 1]);
    }
  }

  /** The visible text of a one-character operator with optional single-space padding. */
  lemma PaddedNonWs(sp: char, op: char, sp2: char)
    requires IsWs(sp) && IsWs(sp2) && !IsWs(op)
    ensures NonWs([op]) == [op] && NonWs([op, sp2]) == [op] && NonWs([sp, op, sp2]) == [op]
  {
    assert [op, sp2][..1] == [op];
    assert [op][..0] == [];
    assert [sp, op, sp2] == [sp] + [op, sp2];
    NonWsAppend([sp], [op, sp2]);
    NonWsOfChar(sp);
  }

  /** Scanning past a separator `sep` that spells `c[i..j]` up to whitespace. */
  lemma NonWsSeparator(c: string, i: nat, j: nat, acc: seq<Chunk>, sep: Chunk)
    requires i <= j <= |c|
    requires NonWs(JoinChunks(acc)) == NonWs(c[..i])
    requires NonWs(sep.text) == NonWs(c[i..j])
    ensures NonWs(JoinChunks(acc + [sep])) == NonWs(c[..j])
  {
    calc {
      NonWs(JoinChunks(acc + [sep]));
      { JoinChunksAppend(acc, [sep]); }
      NonWs(JoinChunks(acc) + sep.text);
      { NonWsAppend(JoinChunks(acc), sep.text); }
      NonWs(c[..i]) + NonWs(c[i..j]);
      { NonWsAppend(c[..i], c[i..j]); }
      NonWs(c[..i] + c[i..j]);
      { assert c[..j] == c[..i] + c[i..j]; }
      NonWs(c[..j]);
    }
  }

  /** Stacks of a whitespace prefix are empty, so the prefix changes nothing. */
  lemma {:induction false} StackOfAfterEmpty(p: string, x: string)
    requires StackOf(p) == []
    ensures StackOf(p + x) == StackOf(x)
    decreases |x|
  {
    if |x| == 0 {
      assert p + x == p;
    } else {
      assert (p + x)[..|p + x| - 1] == p + x[..|x| - 1];
      StackOfAfterEmpty(p, x[..|x| - 1]);
    }
  }

  lemma {:induction false} StackOfAllWs(p: string)
    requires AllWs(p)
    ensures StackOf(p) == []
    decreases |p|
  {
    if |p| > 0 {
      StackOfAllWs(p[..|p| - 1]);
    }
  }

  /** Trimming an element keeps its commas nested. */
  lemma NoTopCommaTrim(s: string)
    requires NoTopComma(s)
    ensures NoTopComma(Trim(s))
  {
    var t := Trim(s);
    var a := LeadingWs(s);
    StackOfAllWs(s[..a]);
    forall k | 0 <= k < |t| && t[k] == ','
      ensures |StackOf(t[..k])| > 0
    {
      assert s[a + k] == ',';
      assert s[..a + k] == s[..a] + t[..k];
      StackOfAfterEmpty(s[..a], t[..k]);
    }
  }

  lemma NoTopCommaSnoc(current: string, ch: char)
    requires NoTopComma(current)
    requires ch == ',' ==> |StackOf(current)| > 0
    ensures NoTopComma(current + [ch])
  {
    var t := current + [ch];
    forall k | 0 <= k < |t| && t[k] == ','
      ensures |StackOf(t[..k])| > 0
    {
      if k < |current| {
        assert t[..k] == current[..k];
      } else {
        assert t[..k] == current;
      }
    }
  }

  ghost predicate AllCommaChunks(r: seq<Chunk>) {
    forall k :: 0 <= k < |r| ==> CommaChunk(r[k])
  }

  lemma AllCommaChunksSnoc(r: seq<Chunk>, x: Chunk)
    requires AllCommaChunks(r) && CommaChunk(x)
    ensures AllCommaChunks(r + [x])
  {
  }

  lemma FlushTrimmedComma(acc: seq<Chunk>, current: string)
    requires AllCommaChunks(acc) && NoTopComma(current)
    ensures AllCommaChunks(FlushTrimmed(acc, current))
  {
    if |current| > 0 {
      NoTopCommaTrim(current);
      AllCommaChunksSnoc(acc, Chunk(Element, Trim(current)));
    }
  }

  ghost predicate CommaScanPre(c: string, i: nat, stack: seq<char>, current: string, acc: seq<Chunk>) {
    && i <= |c|
    && stack == StackOf(current)
    && NoTopComma(current)
    && AllCommaChunks(acc)
    && NonWs(JoinChunks(acc)) + NonWs(current) == NonWs(c[..i])
  }

  lemma {:induction false} CommaScanSound(c: string, i: nat, stack: seq<char>, current: string, acc: seq<Chunk>)
    requires CommaScanPre(c, i, stack, current, acc)
    ensures NonWs(JoinChunks(CommaScan(c, i, stack, current, acc))) == NonWs(c)
    ensures AllCommaChunks(CommaScan(c, i, stack, current, acc))
    decreases |c| - i, 1
  {
    if i == |c| {
      assert c[..i] == c;
      FlushTrimmedNonWs(acc, current);
      FlushTrimmedComma(acc, current);
    } else if c[i] == ',' && |stack| == 0 {
      CommaScanSoundAtComma(c, i, stack, current, acc);
    } else {
      CommaScanSoundInElement(c, i, stack, current, acc);
    }
  }

  lemma {:induction false} CommaScanSoundInElement(c: string, i: nat, stack: seq<char>, current: string, acc: seq<Chunk>)
    requires CommaScanPre(c, i, stack, current, acc) && i < |c| && !(c[i] == ',' && |stack| == 0)
    ensures NonWs(JoinChunks(CommaScan(c, i, stack, current, acc))) == NonWs(c)
    ensures AllCommaChunks(CommaScan(c, i, stack, current, acc))
    decreases |c| - i, 0
  {
    var ch := c[i];
    StackOfSnoc(current, ch);
    NoTopCommaSnoc(current, ch);
    NonWsStep(c, i, JoinChunks(acc), current);
    CommaScanInElement(c, i, stack, current, acc);
    CommaScanSound(c, i + 1, StackStep(stack, ch), current + [ch], acc);
  }

  /** The separator for the comma at `i`: the comma and the one space after it, if any. */
  function CommaSeparatorText(c: string, i: nat): string {
    if CharIs(c, i + 1, ' ') then ", " else ","
  }

  /** Where scanning resumes after the comma at `i`. */
  function CommaEnd(c: string, i: nat): nat {
    if CharIs(c, i + 1, ' ') then i + 2 else i + 1
  }

  /** The comma separator is exactly the text it consumes. */
  lemma CommaSeparatorSound(c: string, i: nat)
    requires i < |c| && c[i] == ','
    ensures CommaEnd(c, i) <= |c|
    ensures CommaChunk(Chunk(Separator, CommaSeparatorText(c, i)))
    ensures c[i..CommaEnd(c, i)] == CommaSeparatorText(c, i)
  {
  }

  lemma CommaStepNonWs(c: string, i: nat, acc: seq<Chunk>, current: string)
    requires i < |c| && c[i] == ','
    requires NonWs(JoinChunks(acc)) + NonWs(current) == NonWs(c[..i])
    ensures NonWs(JoinChunks(FlushTrimmed(acc, current) + [Chunk(Separator, CommaSeparatorText(c, i))]))
      == NonWs(c[..CommaEnd(c, i)])
  {
    var j := CommaEnd(c, i);
    CommaSeparatorSound(c, i);
    FlushTrimmedNonWs(acc, current);
    NonWsSeparator(c, i, j, FlushTrimmed(acc, current), Chunk(Separator, CommaSeparatorText(c, i)));
  }

  lemma {:induction false} CommaScanSoundAtComma(c: string, i: nat, stack: seq<char>, current: string, acc: seq<Chunk>)
    requires CommaScanPre(c, i, stack, current, acc) && i < |c| && c[i] == ',' && |stack| == 0
    ensures NonWs(JoinChunks(CommaScan(c, i, stack, current, acc))) == NonWs(c)
    ensures AllCommaChunks(CommaScan(c, i, stack, current, acc))
    decreases |c| - i, 0
  {
    var sep := Chunk(Separator, CommaSeparatorText(c, i));
    var j := CommaEnd(c, i);
    var acc1 := FlushTrimmed(acc, current);
    CommaSeparatorSound(c, i);
    assert AllCommaChunks(acc1 + [sep]) by {
      FlushTrimmedComma(acc, current);
      AllCommaChunksSnoc(acc1, sep);
    }
    CommaStepNonWs(c, i, acc, current);
    assert CommaScanPre(c, j, stack, "", acc1 + [sep]) by {
      assert StackOf("") == [];
      assert NonWs("") == [];
    }
    CommaScanAtComma(c, i, stack, current, acc);
    CommaScanSound(c, j, stack, "", acc1 + [sep]);
  }

  // ---------------------------------------------------------------------------
  // Exact round trip of splitByCommas under canonical spacing
  // ---------------------------------------------------------------------------

  /** A `,` at bracket depth zero, reading the content from its start. */
  ghost predicate TopComma(c: string, q: int) {
    0 <= q < |c| && c[q] == ',' && |StackOf(c[..q])| == 0
  }

  /** A character that is neither whitespace nor a top-level comma. */
  ghost predicate SolidAt(c: string, q: int) {
    0 <= q < |c| && !IsWs(c[q]) && !TopComma(c, q)
  }

  /** Canonical spacing for the comma splitter: every whitespace character is
      either the one space right after a top-level comma, or lies between two
      characters that are neither whitespace nor top-level commas. */
  ghost predicate CanonicalCommaSpacing(c: string) {
    forall k :: 0 <= k < |c| ==> CanonicalWsAt(c, k)
  }

  ghost predicate CanonicalWsAt(c: string, k: nat)
    requires k < |c|
  {
    IsWs(c[k]) ==> (c[k] == ' ' && TopComma(c, k - 1)) || (SolidAt(c, k - 1) && SolidAt(c, k + 1))
  }

  /** Where the comma splitter starts collecting an element: the content
      start, or just past a top-level comma and the one space it takes. */
  ghost predicate SegmentStart(c: string, s: nat) {
    s <= |c| && (s == 0 || (TopComma(c, s - 1) && !CharIs(c, s, ' ')) || (TopComma(c, s - 2) && CharIs(c, s - 1, ' ')))
  }

  lemma StackOfPrefix(c: string, i: nat)
    requires i < |c|
    ensures StackOf(c[..i + 1]) == StackStep(StackOf(c[..i]), c[i])
  {
    assert c[..i + 1][..i] == c[..i];
  }

  /** Under canonical spacing an element's text has no whitespace at either edge. */
  lemma SegmentEdges(c: string, s: nat, e: nat)
    requires CanonicalCommaSpacing(c) && SegmentStart(c, s) && s < e <= |c|
    requires forall q :: s <= q < e ==> !TopComma(c, q)
    requires e == |c| || TopComma(c, e)
    ensures !IsWs(c[s]) && !IsWs(c[e - 1])
  {
    assert CanonicalWsAt(c, s) && CanonicalWsAt(c, e - 1);
    assert !IsWs(c[s]);
    assert !SolidAt(c, e);
    assert TopComma(c, e - 2) ==> e - 1 == s;
  }

  /** With canonical spacing the comma splitter loses nothing: joining its
      chunks gives back the content exactly. */
  lemma CommaRoundTrip(content: string)
    requires CanonicalCommaSpacing(content)
    ensures JoinChunks(SplitByCommas(content)) == content
  {
    assert SegmentStart(content, 0);
    CommaExactScan(content, 0, [], "", []);
  }

  ghost predicate CommaExactPre(c: string, i: nat, stack: seq<char>, current: string, acc: seq<Chunk>) {
    && Collected(c, i, current)
    && stack == StackOf(c[..i])
    && SegmentStart(c, i - |current|)
    && (forall q :: i - |current| <= q < i ==> !TopComma(c, q))
    && JoinChunks(acc) == c[..i - |current|]
  }

  /** Under canonical spacing, flushing the collected element at a top-level
      comma or at the end reproduces the content up to there. */
  lemma FlushExact(c: string, i: nat, current: string, acc: seq<Chunk>)
    requires CanonicalCommaSpacing(c) && Collected(c, i, current)
    requires SegmentStart(c, i - |current|)
    requires forall q :: i - |current| <= q < i ==> !TopComma(c, q)
    requires JoinChunks(acc) == c[..i - |current|]
    requires i == |c| || TopComma(c, i)
    ensures JoinChunks(FlushTrimmed(acc, current)) == c[..i]
  {
    if |current| > 0 {
      SegmentEdges(c, i - |current|, i);
      TrimIdentity(current);
      calc {
        JoinChunks(acc + [Chunk(Element, current)]);
        { JoinChunksAppend(acc, [Chunk(Element, current)]); }
        c[..i - |current|] + current;
        c[..i];
      }
    }
  }

  lemma JoinSnocExact(acc: seq<Chunk>, sep: Chunk, c: string, i: nat, j: nat)
    requires i <= j <= |c| && JoinChunks(acc) == c[..i] && c[i..j] == sep.text
    ensures JoinChunks(acc + [sep]) == c[..j]
  {
    calc {
      JoinChunks(acc + [sep]);
      { JoinChunksAppend(acc, [sep]); }
      c[..i] + c[i..j];
      c[..j];
    }
  }

  lemma {:induction false} CommaExactScan(c: string, i: nat, stack: seq<char>, current: string, acc: seq<Chunk>)
    requires CanonicalCommaSpacing(c) && CommaExactPre(c, i, stack, current, acc)
    ensures JoinChunks(CommaScan(c, i, stack, current, acc)) == c
    decreases |c| - i, 1
  {
    if i == |c| {
      CommaExactAtEnd(c, i, stack, current, acc);
    } else if c[i] == ',' && |stack| == 0 {
      CommaExactAtComma(c, i, stack, current, acc);
    } else {
      CommaExactInElement(c, i, stack, current, acc);
    }
  }

  lemma CommaExactAtEnd(c: string, i: nat, stack: seq<char>, current: string, acc: seq<Chunk>)
    requires CanonicalCommaSpacing(c) && CommaExactPre(c, i, stack, current, acc) && i == |c|
    ensures JoinChunks(CommaScan(c, i, stack, current, acc)) == c
  {
    FlushExact(c, i, current, acc);
    assert c[..i] == c;
  }

  /** Collecting one more element character keeps the exact-join invariant. */
  lemma CommaExactGrow(c: string, i: nat, stack: seq<char>, current: string, acc: seq<Chunk>)
    requires CommaExactPre(c, i, stack, current, acc) && i < |c|
    requires !(c[i] == ',' && |stack| == 0)
    ensures CommaExactPre(c, i + 1, StackStep(stack, c[i]), current + [c[i]], acc)
  {
    var t := current + [c[i]];
    StackOfPrefix(c, i);
    assert !TopComma(c, i);
    assert c[i + 1 - |t|..i + 1] == c[i - |current|..i] + [c[i]];
  }

  /** One step of the comma splitter inside an element. */
  lemma CommaScanInElement(c: string, i: nat, stack: seq<char>, current: string, acc: seq<Chunk>)
    requires i < |c| && !(c[i] == ',' && |stack| == 0)
    ensures CommaScan(c, i, stack, current, acc) == CommaScan(c, i + 1, StackStep(stack, c[i]), current + [c[i]], acc)
  {
  }

  lemma {:induction false} CommaExactInElement(c: string, i: nat, stack: seq<char>, current: string, acc: seq<Chunk>)
    requires CanonicalCommaSpacing(c) && CommaExactPre(c, i, stack, current, acc) && i < |c|
    requires !(c[i] == ',' && |stack| == 0)
    ensures JoinChunks(CommaScan(c, i, stack, current, acc)) == c
    decreases |c| - i, 0
  {
    var ch := c[i];
    CommaExactGrow(c, i, stack, current, acc);
    CommaScanInElement(c, i, stack, current, acc);
    CommaExactScan(c, i + 1, StackStep(stack, ch), current + [ch], acc);
  }

  /** Past a top-level comma and its space the comma splitter starts a new element. */
  lemma CommaExactRestart(c: string, i: nat, stack: seq<char>, acc: seq<Chunk>)
    requires i < |c| && TopComma(c, i) && stack == StackOf(c[..i])
    requires JoinChunks(acc) == c[..CommaEnd(c, i)]
    ensures CommaEnd(c, i) <= |c|
    ensures CommaExactPre(c, CommaEnd(c, i), stack, "", acc)
  {
    var j := CommaEnd(c, i);
    assert Collected(c, j, "") by {
      assert c[j - 0..j] == "";
    }
    assert stack == StackOf(c[..j]) by {
      StackOfPrefix(c, i);
      if j == i + 2 {
        StackOfPrefix(c, i + 1);
      }
    }
    assert SegmentStart(c, j) by {
      if j == i + 2 {
        assert TopComma(c, j - 2) && CharIs(c, j - 1, ' ');
      } else {
        assert TopComma(c, j - 1) && !CharIs(c, j, ' ');
      }
    }
    assert JoinChunks(acc) == c[..j - |""|];
  }

  /** One step of the comma splitter at a top-level comma. */
  lemma CommaScanAtComma(c: string, i: nat, stack: seq<char>, current: string, acc: seq<Chunk>)
    requires i < |c| && c[i] == ',' && |stack| == 0
    ensures CommaEnd(c, i) <= |c|
    ensures CommaScan(c, i, stack, current, acc)
      == CommaScan(c, CommaEnd(c, i), stack, "", FlushTrimmed(acc, current) + [Chunk(Separator, CommaSeparatorText(c, i))])
  {
    assert !IsOpening(c[i]) && !IsClosing(c[i]);
  }

  lemma {:induction false} CommaExactAtComma(c: string, i: nat, stack: seq<char>, current: string, acc: seq<Chunk>)
    requires CanonicalCommaSpacing(c) && CommaExactPre(c, i, stack, current, acc) && i < |c|
    requires c[i] == ',' && |stack| == 0
    ensures JoinChunks(CommaScan(c, i, stack, current, acc)) == c
    decreases |c| - i, 0
  {
    var sep := Chunk(Separator, CommaSeparatorText(c, i));
    var j := CommaEnd(c, i);
    var acc1 := FlushTrimmed(acc, current);
    assert TopComma(c, i);
    CommaSeparatorSound(c, i);
    FlushExact(c, i, current, acc);
    JoinSnocExact(acc1, sep, c, i, j);
    CommaExactRestart(c, i, stack, acc1 + [sep]);
    CommaScanAtComma(c, i, stack, current, acc);
    CommaExactScan(c, j, stack, "", acc1 + [sep]);
  }

  // ---------------------------------------------------------------------------
  // Where splitByCommas cuts
  // ---------------------------------------------------------------------------

  /** The separators the comma splitter owes for the top-level commas before `n`. */
  ghost function CommaSeparatorsBefore(c: string, n: nat): seq<string>
    requires n <= |c|
  {
    if n == 0 then []
    else CommaSeparatorsBefore(c, n - 1) + (if TopComma(c, n - 1) then [CommaSeparatorText(c, n - 1)] else [])
  }

  /** The comma separators, in order, are one per comma at bracket depth zero
      of the content, and each takes the space after its comma exactly when
      there is one. */
  lemma CommaSeparatorsExact(content: string)
    ensures Separators(SplitByCommas(content)) == CommaSeparatorsBefore(content, |content|)
  {
    CommaSeparatorsScan(content, 0, [], "", []);
  }

  ghost predicate CommaSeparatorsPre(c: string, i: nat, stack: seq<char>, acc: seq<Chunk>) {
    i <= |c| && stack == StackOf(c[..i]) && Separators(acc) == CommaSeparatorsBefore(c, i)
  }

  lemma {:induction false} CommaSeparatorsScan(c: string, i: nat, stack: seq<char>, current: string, acc: seq<Chunk>)
    requires CommaSeparatorsPre(c, i, stack, acc)
    ensures Separators(CommaScan(c, i, stack, current, acc)) == CommaSeparatorsBefore(c, |c|)
    decreases |c| - i, 1
  {
    if i == |c| {
      if |current| > 0 {
        SeparatorsSnoc(acc, Chunk(Element, Trim(current)));
      }
    } else if c[i] == ',' && |stack| == 0 {
      CommaSeparatorsAtComma(c, i, stack, current, acc);
    } else {
      CommaSeparatorsInElement(c, i, stack, current, acc);
    }
  }

  lemma {:induction false} CommaSeparatorsInElement(c: string, i: nat, stack: seq<char>, current: string, acc: seq<Chunk>)
    requires CommaSeparatorsPre(c, i, stack, acc) && i < |c| && !(c[i] == ',' && |stack| == 0)
    ensures Separators(CommaScan(c, i, stack, current, acc)) == CommaSeparatorsBefore(c, |c|)
    decreases |c| - i, 0
  {
    StackOfPrefix(c, i);
    assert !TopComma(c, i);
    CommaScanInElement(c, i, stack, current, acc);
    CommaSeparatorsScan(c, i + 1, StackStep(stack, c[i]), current + [c[i]], acc);
  }

  lemma {:induction false} CommaSeparatorsAtComma(c: string, i: nat, stack: seq<char>, current: string, acc: seq<Chunk>)
    requires CommaSeparatorsPre(c, i, stack, acc) && i < |c| && c[i] == ',' && |stack| == 0
    ensures Separators(CommaScan(c, i, stack, current, acc)) == CommaSeparatorsBefore(c, |c|)
    decreases |c| - i, 0
  {
    var sep := Chunk(Separator, CommaSeparatorText(c, i));
    var acc1 := FlushTrimmed(acc, current);
    assert Separators(acc1 + [sep]) == CommaSeparatorsBefore(c, i + 1) by {
      if |current| > 0 {
        SeparatorsSnoc(acc, Chunk(Element, Trim(current)));
      }
      SeparatorsSnoc(acc1, sep);
      assert TopComma(c, i);
    }
    CommaSeparatorsAdvance(c, i, stack, acc1 + [sep]);
    CommaScanAtComma(c, i, stack, current, acc);
    CommaSeparatorsScan(c, CommaEnd(c, i), stack, "", acc1 + [sep]);
  }

  /** Past a top-level comma and the one space its separator takes, the depth
      is unchanged and no further separator is due. */
  lemma CommaSeparatorsAdvance(c: string, i: nat, stack: seq<char>, acc: seq<Chunk>)
    requires i < |c| && stack == StackOf(c[..i]) && c[i] == ',' && |stack| == 0
    requires Separators(acc) == CommaSeparatorsBefore(c, i + 1)
    ensures CommaEnd(c, i) <= |c| && CommaSeparatorsPre(c, CommaEnd(c, i), stack, acc)
  {
    StackOfPrefix(c, i);
    if CharIs(c, i + 1, ' ') {
      StackOfPrefix(c, i + 1);
      assert !TopComma(c, i + 1);
    }
  }

  // ---------------------------------------------------------------------------
  // Shared facts for the quote-aware scanners
  // ---------------------------------------------------------------------------

  /** A character collected into the element that is not a split point. */
  predicate IsStateChar(st: ScanState, ch: char) {
    (st.quote.None? && (IsOpening(ch) || IsClosing(ch))) || IsQuoteChar(ch)
  }

  /** The collected element text is the contiguous run of content just before `i`. */
  ghost predicate Collected(c: string, i: nat, current: string) {
    |current| <= i <= |c| && current == c[i - |current|..i]
  }

  /** Scanning one more content character into the element keeps the scanner
      state equal to the state of the element text read on its own. */
  lemma StateSnoc(c: string, i: nat, current: string, st: ScanState)
    requires i < |c| && Collected(c, i, current) && st == StateOf(current)
    ensures StateOf(current + [c[i]]) == StateStep(st, c, i)
    ensures Collected(c, i + 1, current + [c[i]])
  {
    var t := current + [c[i]];
    assert t[..|t| - 1] == current;
    if |current| > 0 {
      assert t[|t| - 2] == c[i - 1];
    }
    assert c[i + 1 - |t|..i + 1] == c[i - |current|..i] + [c[i]];
  }

  /** A plain character (not a bracket outside quotes, not a quote) leaves the state alone. */
  lemma PlainStep(c: string, i: nat, st: ScanState)
    requires i < |c| && !IsStateChar(st, c[i])
    ensures StateStep(st, c, i) == st
  {
  }

  lemma StateOfEmpty()
    ensures StateOf("") == Top
  {
  }

  // ---------------------------------------------------------------------------
  // splitByPipesTopLevel
  // ---------------------------------------------------------------------------

  /** `splitByPipesTopLevel`: cut at every `|` outside quotes and brackets.
      Elements are trimmed; the separator is ` | ` when both neighbours of the
      `|` are spaces and `|` otherwise, and one space after the `|` is always
      consumed. Only whitespace is ever lost. */
  function SplitByPipes(content: string): (r: seq<Chunk>)
    ensures NonWs(JoinChunks(r)) == NonWs(content)
    ensures AllUnionChunks(r)
  {
    PipeScanSound(content, 0, Top, "", []);
    PipeScan(content, 0, Top, "", [])
  }

  function PipeScan(c: string, i: nat, st: ScanState, current: string, acc: seq<Chunk>): seq<Chunk>
    requires i <= |c|
    decreases |c| - i
  {
    if i == |c| then FlushTrimmed(acc, current)
    else
      var ch := c[i];
      if IsStateChar(st, ch) then
        PipeScan(c, i + 1, StateStep(st, c, i), current + [ch], acc)
      else if ch == '|' && AtTop(st) then
        PipeScan(c, PipeEnd(c, i), st, "", FlushTrimmed(acc, current) + [Chunk(Separator, PipeSeparatorText(c, i))])
      else
        PipeScan(c, i + 1, st, current + [ch], acc)
  }

  ghost predicate AllUnionChunks(r: seq<Chunk>) {
    forall k :: 0 <= k < |r| ==> UnionChunk(r[k])
  }

  /** Leading whitespace does not change the quote-and-bracket state. */
  lemma {:induction false} StateOfAfterWs(p: string, x: string)
    requires AllWs(p)
    ensures StateOf(p + x) == StateOf(x)
    decreases |x|
  {
    if |x| == 0 {
      assert p + x == p;
      StateOfAllWs(p);
    } else {
      var px := p + x;
      var init := x[..|x| - 1];
      assert px[..|px| - 1] == p + init;
      StateOfAfterWs(p, init);
      assert px[|px| - 1] == x[|x| - 1];
      assert CharIs(px, |px| - 2, '\\') == CharIs(x, |x| - 2, '\\') by {
        if |x| >= 2 {
          assert px[|px| - 2] == x[|x| - 2];
        } else if |p| > 0 {
          assert px[|px| - 2] == p[|p| - 1];
          assert IsWs(p[|p| - 1]);
        }
      }
      assert StateOf(px) == StateStep(StateOf(p + init), px, |px| - 1);
      assert StateOf(x) == StateStep(StateOf(init), x, |x| - 1);
    }
  }

  lemma {:induction false} StateOfAllWs(p: string)
    requires AllWs(p)
    ensures StateOf(p) == Top
    decreases |p|
  {
    if |p| > 0 {
      StateOfAllWs(p[..|p| - 1]);
    }
  }

  lemma NoTopPipeTrim(s: string)
    requires NoTopPipe(s)
    ensures NoTopPipe(Trim(s))
  {
    var t := Trim(s);
    var a := LeadingWs(s);
    forall k | 0 <= k < |t| && t[k] == '|'
      ensures !AtTop(StateOf(t[..k]))
    {
      assert s[a + k] == '|';
      assert s[..a + k] == s[..a] + t[..k];
      StateOfAfterWs(s[..a], t[..k]);
    }
  }

  lemma NoTopPipeSnoc(current: string, ch: char)
    requires NoTopPipe(current)
    requires ch == '|' ==> !AtTop(StateOf(current))
    ensures NoTopPipe(current + [ch])
  {
    var t := current + [ch];
    forall k | 0 <= k < |t| && t[k] == '|'
      ensures !AtTop(StateOf(t[..k]))
    {
      if k < |current| {
        assert t[..k] == current[..k];
      } else {
        assert t[..k] == current;
      }
    }
  }

  lemma FlushTrimmedUnion(acc: seq<Chunk>, current: string)
    requires AllUnionChunks(acc) && NoTopPipe(current)
    ensures AllUnionChunks(FlushTrimmed(acc, current))
  {
    if |current| > 0 {
      NoTopPipeTrim(current);
      assert UnionChunk(Chunk(Element, Trim(current)));
    }
  }

  ghost predicate PipeScanPre(c: string, i: nat, st: ScanState, current: string, acc: seq<Chunk>) {
    && Collected(c, i, current)
    && st == StateOf(current)
    && NoTopPipe(current)
    && AllUnionChunks(acc)
    && NonWs(JoinChunks(acc)) + NonWs(current) == NonWs(c[..i])
  }

  lemma {:induction false} PipeScanSound(c: string, i: nat, st: ScanState, current: string, acc: seq<Chunk>)
    requires PipeScanPre(c, i, st, current, acc)
    ensures NonWs(JoinChunks(PipeScan(c, i, st, current, acc))) == NonWs(c)
    ensures AllUnionChunks(PipeScan(c, i, st, current, acc))
    decreases |c| - i, 1
  {
    if i == |c| {
      assert c[..i] == c;
      FlushTrimmedNonWs(acc, current);
      FlushTrimmedUnion(acc, current);
    } else if !IsStateChar(st, c[i]) && c[i] == '|' && AtTop(st) {
      PipeScanSoundAtPipe(c, i, st, current, acc);
    } else {
      PipeScanSoundInElement(c, i, st, current, acc);
    }
  }

  /** One step of the union splitter inside an element. */
  lemma PipeScanInElement(c: string, i: nat, st: ScanState, current: string, acc: seq<Chunk>)
    requires i < |c| && (IsStateChar(st, c[i]) || !(c[i] == '|' && AtTop(st)))
    ensures PipeScan(c, i, st, current, acc) == PipeScan(c, i + 1, StateStep(st, c, i), current + [c[i]], acc)
  {
    if !IsStateChar(st, c[i]) {
      PlainStep(c, i, st);
    }
  }

  /** One step of the union splitter at a top-level pipe. */
  lemma PipeScanAtPipe(c: string, i: nat, st: ScanState, current: string, acc: seq<Chunk>)
    requires i < |c| && !IsStateChar(st, c[i]) && c[i] == '|' && AtTop(st)
    ensures PipeEnd(c, i) <= |c|
    ensures PipeScan(c, i, st, current, acc)
      == PipeScan(c, PipeEnd(c, i), st, "", FlushTrimmed(acc, current) + [Chunk(Separator, PipeSeparatorText(c, i))])
  {
  }

  lemma {:induction false} PipeScanSoundInElement(c: string, i: nat, st: ScanState, current: string, acc: seq<Chunk>)
    requires PipeScanPre(c, i, st, current, acc) && i < |c|
    requires IsStateChar(st, c[i]) || !(c[i] == '|' && AtTop(st))
    ensures NonWs(JoinChunks(PipeScan(c, i, st, current, acc))) == NonWs(c)
    ensures AllUnionChunks(PipeScan(c, i, st, current, acc))
    decreases |c| - i, 0
  {
    var ch := c[i];
    var st' := StateStep(st, c, i);
    StateSnoc(c, i, current, st);
    NoTopPipeSnoc(current, ch);
    NonWsStep(c, i, JoinChunks(acc), current);
    PipeScanInElement(c, i, st, current, acc);
    PipeScanSound(c, i + 1, st', current + [ch], acc);
  }

  /** Where scanning resumes after the pipe at `i`: past the one space after it, if any. */
  function PipeEnd(c: string, i: nat): nat
    requires i < |c|
  {
    if CharIs(c, i + 1, ' ') then i + 2 else i + 1
  }

  lemma PipeSeparatorSound(c: string, i: nat)
    requires i < |c| && c[i] == '|'
    ensures PipeEnd(c, i) <= |c|
    ensures UnionChunk(Chunk(Separator, PipeSeparatorText(c, i)))
    ensures NonWs(PipeSeparatorText(c, i)) == NonWs(c[i..PipeEnd(c, i)])
  {
    PaddedNonWs(' ', '|', ' ');
    if CharIs(c, i + 1, ' ') {
      assert c[i..i + 2] == "| ";
    } else {
      assert c[i..i + 1] == "|";
    }
  }

  lemma PipeStepNonWs(c: string, i: nat, acc: seq<Chunk>, current: string)
    requires i < |c| && c[i] == '|'
    requires NonWs(JoinChunks(acc)) + NonWs(current) == NonWs(c[..i])
    ensures NonWs(JoinChunks(FlushTrimmed(acc, current) + [Chunk(Separator, PipeSeparatorText(c, i))]))
      == NonWs(c[..PipeEnd(c, i)])
  {
    var j := PipeEnd(c, i);
    PipeSeparatorSound(c, i);
    FlushTrimmedNonWs(acc, current);
    NonWsSeparator(c, i, j, FlushTrimmed(acc, current), Chunk(Separator, PipeSeparatorText(c, i)));
  }

  lemma {:induction false} PipeScanSoundAtPipe(c: string, i: nat, st: ScanState, current: string, acc: seq<Chunk>)
    requires PipeScanPre(c, i, st, current, acc) && i < |c|
    requires !IsStateChar(st, c[i]) && c[i] == '|' && AtTop(st)
    ensures NonWs(JoinChunks(PipeScan(c, i, st, current, acc))) == NonWs(c)
    ensures AllUnionChunks(PipeScan(c, i, st, current, acc))
    decreases |c| - i, 0
  {
    var sep := Chunk(Separator, PipeSeparatorText(c, i));
    var j := PipeEnd(c, i);
    var acc1 := FlushTrimmed(acc, current);
    PipeSeparatorSound(c, i);
    assert AllUnionChunks(acc1 + [sep]) by {
      FlushTrimmedUnion(acc, current);
    }
    PipeStepNonWs(c, i, acc, current);
    assert PipeScanPre(c, j, st, "", acc1 + [sep]) by {
      StateOfEmpty();
      assert NonWs("") == [];
      assert c[j - 0..j] == "";
    }
    PipeScanAtPipe(c, i, st, current, acc);
    PipeScanSound(c, j, st, "", acc1 + [sep]);
  }

  /** The scanner state read over the whole content up to `i`. */
  lemma StateOfPrefix(c: string, i: nat)
    requires i < |c|
    ensures StateOf(c[..i + 1]) == StateStep(StateOf(c[..i]), c, i)
  {
    assert c[..i + 1][..i] == c[..i];
  }

  /** A `|` outside quotes and brackets, reading the content from its start. */
  ghost predicate TopPipe(c: string, p: int) {
    0 <= p < |c| && c[p] == '|' && AtTop(StateOf(c[..p]))
  }

  /** The separator text for the pipe at `p`: padded exactly when both its
      neighbours are spaces. */
  function PipeSeparatorText(c: string, p: int): string {
    if CharIs(c, p + 1, ' ') && CharIs(c, p - 1, ' ') then " | " else "|"
  }

  /** The separators the union splitter owes for the top-level pipes before `n`. */
  ghost function UnionSeparatorsBefore(c: string, n: nat): seq<string>
    requires n <= |c|
  {
    if n == 0 then []
    else UnionSeparatorsBefore(c, n - 1) + (if TopPipe(c, n - 1) then [PipeSeparatorText(c, n - 1)] else [])
  }

  lemma SeparatorsSnoc(acc: seq<Chunk>, x: Chunk)
    ensures Separators(acc + [x]) == Separators(acc) + (if x.kind == Separator then [x.text] else [])
  {
    assert (acc + [x])[..|acc|] == acc;
  }

  /** The union separators, in order, are one per top-level `|` of the content,
      and each is ` | ` exactly when the characters on both sides of its pipe
      are spaces. */
  lemma UnionSeparatorsExact(content: string)
    ensures Separators(SplitByPipes(content)) == UnionSeparatorsBefore(content, |content|)
  {
    PipeSeparatorsScan(content, 0, Top, "", []);
  }

  ghost predicate PipeSeparatorsPre(c: string, i: nat, st: ScanState, acc: seq<Chunk>) {
    i <= |c| && st == StateOf(c[..i]) && Separators(acc) == UnionSeparatorsBefore(c, i)
  }

  lemma {:induction false} PipeSeparatorsScan(c: string, i: nat, st: ScanState, current: string, acc: seq<Chunk>)
    requires PipeSeparatorsPre(c, i, st, acc)
    ensures Separators(PipeScan(c, i, st, current, acc)) == UnionSeparatorsBefore(c, |c|)
    decreases |c| - i, 1
  {
    if i == |c| {
      if |current| > 0 {
        SeparatorsSnoc(acc, Chunk(Element, Trim(current)));
      }
    } else if !IsStateChar(st, c[i]) && c[i] == '|' && AtTop(st) {
      PipeSeparatorsAtPipe(c, i, st, current, acc);
    } else {
      PipeSeparatorsInElement(c, i, st, current, acc);
    }
  }

  lemma {:induction false} PipeSeparatorsInElement(c: string, i: nat, st: ScanState, current: string, acc: seq<Chunk>)
    requires PipeSeparatorsPre(c, i, st, acc) && i < |c|
    requires IsStateChar(st, c[i]) || !(c[i] == '|' && AtTop(st))
    ensures Separators(PipeScan(c, i, st, current, acc)) == UnionSeparatorsBefore(c, |c|)
    decreases |c| - i, 0
  {
    var st' := StateStep(st, c, i);
    StateOfPrefix(c, i);
    assert !TopPipe(c, i);
    if !IsStateChar(st, c[i]) {
      PlainStep(c, i, st);
    }
    PipeScanInElement(c, i, st, current, acc);
    PipeSeparatorsScan(c, i + 1, st', current + [c[i]], acc);
  }

  lemma {:induction false} PipeSeparatorsAtPipe(c: string, i: nat, st: ScanState, current: string, acc: seq<Chunk>)
    requires PipeSeparatorsPre(c, i, st, acc) && i < |c|
    requires !IsStateChar(st, c[i]) && c[i] == '|' && AtTop(st)
    ensures Separators(PipeScan(c, i, st, current, acc)) == UnionSeparatorsBefore(c, |c|)
    decreases |c| - i, 0
  {
    var sep := Chunk(Separator, PipeSeparatorText(c, i));
    var acc1 := FlushTrimmed(acc, current);
    var n := PipeEnd(c, i) - i;
    assert Separators(acc1 + [sep]) == UnionSeparatorsBefore(c, i + 1) by {
      if |current| > 0 {
        SeparatorsSnoc(acc, Chunk(Element, Trim(current)));
      }
      SeparatorsSnoc(acc1, sep);
      assert TopPipe(c, i);
    }
    PipeSeparatorsAdvance(c, i, st, acc1 + [sep]);
    PipeScanAtPipe(c, i, st, current, acc);
    PipeSeparatorsScan(c, i + n, st, "", acc1 + [sep]);
  }

  /** Past a top-level `|` and the one space its separator takes, the scan
      state is unchanged and no further separator is due. */
  lemma PipeSeparatorsAdvance(c: string, i: nat, st: ScanState, acc: seq<Chunk>)
    requires i < |c| && st == StateOf(c[..i])
    requires !IsStateChar(st, c[i]) && c[i] == '|' && AtTop(st)
    requires Separators(acc) == UnionSeparatorsBefore(c, i + 1)
    ensures PipeEnd(c, i) <= |c| && PipeSeparatorsPre(c, PipeEnd(c, i), st, acc)
  {
    StateOfPrefix(c, i);
    PlainStep(c, i, st);
    if CharIs(c, i + 1, ' ') {
      StateOfPrefix(c, i + 1);
      PlainStep(c, i + 1, st);
      assert !TopPipe(c, i + 1);
    }
  }

  // ---------------------------------------------------------------------------
  // splitLogical
  // ---------------------------------------------------------------------------

  /** Number of trailing ` ` characters of `s` (spaces only, not other whitespace). */
  function TrailingSpaces(s: string): (n: nat)
    ensures n <= |s|
    ensures forall k :: |s| - n <= k < |s| ==> s[k] == ' '
    ensures n < |s| ==> s[|s| - 1 - n] != ' '
    decreases |s|
  {
    if |s| > 0 && s[|s| - 1] == ' ' then 1 + TrailingSpaces(s[..|s| - 1]) else 0
  }

  /** `flushElement` of `splitLogical`: drop the trailing spaces (they belong to
      the separator) and emit what is left when it is non-empty. */
  function FlushLogical(acc: seq<Chunk>, current: string): seq<Chunk> {
    var trimmed := current[..|current| - TrailingSpaces(current)];
    if |trimmed| > 0 then acc + [Chunk(Element, trimmed)] else acc
  }

  /** `splitLogical`: cut at every `&&` and `||` outside quotes and brackets.
      Elements keep their leading text and lose trailing spaces; a separator
      takes at most one space on each side, and the left one only when some
      chunk, element or separator, was emitted before it. Only whitespace is
      ever lost. */
  function SplitLogical(content: string): (r: seq<Chunk>)
    ensures NonWs(JoinChunks(r)) == NonWs(content)
    ensures AllLogicalChunks(r)
  {
    LogicalScanSound(content, 0, Top, "", []);
    LogicalScan(content, 0, Top, "", [])
  }

  function LogicalScan(c: string, i: nat, st: ScanState, current: string, acc: seq<Chunk>): seq<Chunk>
    requires i <= |c|
    decreases |c| - i
  {
    if i == |c| then FlushLogical(acc, current)
    else
      var ch := c[i];
      if IsStateChar(st, ch) then
        LogicalScan(c, i + 1, StateStep(st, c, i), current + [ch], acc)
      else
        var isAnd := ch == '&' && CharIs(c, i + 1, '&');
        var isOr := ch == '|' && CharIs(c, i + 1, '|');
        if (isAnd || isOr) && AtTop(st) then
          var acc1 := FlushLogical(acc, current);
          LogicalScan(c, OperatorEnd(c, i), st, "", acc1 + [OperatorChunk(c, i, |acc1| > 0)])
        else
          LogicalScan(c, i + 1, st, current + [ch], acc)
  }

  ghost predicate AllLogicalChunks(r: seq<Chunk>) {
    forall k :: 0 <= k < |r| ==> LogicalChunk(r[k])
  }

  /** The operator test looks one character ahead: the last collected
      character and the next one never form an operator at the top level. */
  ghost predicate NoTopOpAhead(c: string, i: nat, current: string) {
    |current| > 0 && i < |c| && IsOpPair(current[|current| - 1], c[i])
    ==> !AtTop(StateOf(current[..|current| - 1]))
  }

  lemma NoTopLogicalOpSnoc(c: string, i: nat, current: string)
    requires i < |c| && NoTopLogicalOp(current) && NoTopOpAhead(c, i, current)
    ensures NoTopLogicalOp(current + [c[i]])
  {
    var t := current + [c[i]];
    forall k | 0 <= k < |t| - 1 && IsOpPair(t[k], t[k + 1])
      ensures !AtTop(StateOf(t[..k]))
    {
      if k < |current| - 1 {
        assert t[..k] == current[..k];
      } else {
        assert t[..k] == current[..|current| - 1];
      }
    }
  }

  lemma NoTopLogicalOpPrefix(s: string, m: nat)
    requires m <= |s| && NoTopLogicalOp(s)
    ensures NoTopLogicalOp(s[..m])
  {
    var t := s[..m];
    forall k | 0 <= k < |t| - 1 && IsOpPair(t[k], t[k + 1])
      ensures !AtTop(StateOf(t[..k]))
    {
      assert t[..k] == s[..k];
    }
  }

  lemma FlushLogicalSound(acc: seq<Chunk>, current: string)
    requires AllLogicalChunks(acc) && NoTopLogicalOp(current)
    ensures AllLogicalChunks(FlushLogical(acc, current))
    ensures NonWs(JoinChunks(FlushLogical(acc, current))) == NonWs(JoinChunks(acc)) + NonWs(current)
  {
    FlushLogicalChunks(acc, current);
    FlushLogicalNonWs(acc, current);
  }

  lemma FlushLogicalChunks(acc: seq<Chunk>, current: string)
    requires AllLogicalChunks(acc) && NoTopLogicalOp(current)
    ensures AllLogicalChunks(FlushLogical(acc, current))
  {
    var m := |current| - TrailingSpaces(current);
    if m > 0 {
      NoTopLogicalOpPrefix(current, m);
      assert LogicalChunk(Chunk(Element, current[..m]));
    }
  }

  lemma FlushLogicalNonWs(acc: seq<Chunk>, current: string)
    ensures NonWs(JoinChunks(FlushLogical(acc, current))) == NonWs(JoinChunks(acc)) + NonWs(current)
  {
    var m := |current| - TrailingSpaces(current);
    var trimmed := current[..m];
    assert NonWs(current) == NonWs(trimmed) by {
      calc {
        NonWs(current);
        { assert current == trimmed + current[m..]; }
        NonWs(trimmed + current[m..]);
        { NonWsAppend(trimmed, current[m..]); }
        NonWs(trimmed) + NonWs(current[m..]);
        { assert AllWs(current[m..]); NonWsOfAllWs(current[m..]); }
        NonWs(trimmed);
      }
    }
    if |trimmed| > 0 {
      calc {
        NonWs(JoinChunks(acc + [Chunk(Element, trimmed)]));
        { JoinChunksAppend(acc, [Chunk(Element, trimmed)]); }
        NonWs(JoinChunks(acc) + trimmed);
        { NonWsAppend(JoinChunks(acc), trimmed); }
        NonWs(JoinChunks(acc)) + NonWs(trimmed);
      }
    } else {
      assert NonWs(trimmed) == [];
    }
  }

  ghost predicate LogicalScanPre(c: string, i: nat, st: ScanState, current: string, acc: seq<Chunk>) {
    && Collected(c, i, current)
    && st == StateOf(current)
    && NoTopLogicalOp(current)
    && NoTopOpAhead(c, i, current)
    && AllLogicalChunks(acc)
    && NonWs(JoinChunks(acc)) + NonWs(current) == NonWs(c[..i])
  }

  /** The operator test at `i`, as the scanner makes it. */
  predicate TopOperatorAt(c: string, i: nat, st: ScanState)
    requires i < |c|
  {
    !IsStateChar(st, c[i]) && i + 1 < |c| && IsOpPair(c[i], c[i + 1]) && AtTop(st)
  }

  lemma {:induction false} LogicalScanSound(c: string, i: nat, st: ScanState, current: string, acc: seq<Chunk>)
    requires LogicalScanPre(c, i, st, current, acc)
    ensures NonWs(JoinChunks(LogicalScan(c, i, st, current, acc))) == NonWs(c)
    ensures AllLogicalChunks(LogicalScan(c, i, st, current, acc))
    decreases |c| - i, 1
  {
    if i == |c| {
      assert c[..i] == c;
      FlushLogicalSound(acc, current);
    } else if TopOperatorAt(c, i, st) {
      LogicalScanSoundAtOperator(c, i, st, current, acc);
    } else {
      LogicalScanSoundInElement(c, i, st, current, acc);
    }
  }

  /** One step of the logical splitter inside an element. */
  lemma LogicalScanInElement(c: string, i: nat, st: ScanState, current: string, acc: seq<Chunk>)
    requires i < |c| && !TopOperatorAt(c, i, st)
    ensures LogicalScan(c, i, st, current, acc) == LogicalScan(c, i + 1, StateStep(st, c, i), current + [c[i]], acc)
  {
    if !IsStateChar(st, c[i]) {
      PlainStep(c, i, st);
    }
  }

  /** One step of the logical splitter at a top-level operator. */
  lemma LogicalScanAtOperator(c: string, i: nat, st: ScanState, current: string, acc: seq<Chunk>)
    requires i < |c| && TopOperatorAt(c, i, st)
    ensures OperatorEnd(c, i) <= |c|
    ensures LogicalScan(c, i, st, current, acc)
      == LogicalScan(c, OperatorEnd(c, i), st, "", FlushLogical(acc, current)
         + [OperatorChunk(c, i, |FlushLogical(acc, current)| > 0)])
  {
  }

  /** A character that is not a top-level operator start keeps the lookahead invariant. */
  lemma NoTopOpAheadGrow(c: string, i: nat, st: ScanState, current: string)
    requires i < |c| && !TopOperatorAt(c, i, st) && st == StateOf(current)
    ensures NoTopOpAhead(c, i + 1, current + [c[i]])
  {
    var t := current + [c[i]];
    assert t[..|t| - 1] == current;
    if IsStateChar(st, c[i]) {
      assert !IsOpPair(c[i], '&') && !IsOpPair(c[i], '|');
    }
  }

  lemma {:induction false} LogicalScanSoundInElement(c: string, i: nat, st: ScanState, current: string, acc: seq<Chunk>)
    requires LogicalScanPre(c, i, st, current, acc) && i < |c| && !TopOperatorAt(c, i, st)
    ensures NonWs(JoinChunks(LogicalScan(c, i, st, current, acc))) == NonWs(c)
    ensures AllLogicalChunks(LogicalScan(c, i, st, current, acc))
    decreases |c| - i, 0
  {
    LogicalGrow(c, i, st, current, acc);
    LogicalScanInElement(c, i, st, current, acc);
    LogicalScanSound(c, i + 1, StateStep(st, c, i), current + [c[i]], acc);
  }

  /** Collecting one more element character keeps the logical splitter's invariant. */
  lemma LogicalGrow(c: string, i: nat, st: ScanState, current: string, acc: seq<Chunk>)
    requires LogicalScanPre(c, i, st, current, acc) && i < |c| && !TopOperatorAt(c, i, st)
    ensures LogicalScanPre(c, i + 1, StateStep(st, c, i), current + [c[i]], acc)
  {
    StateSnoc(c, i, current, st);
    NoTopLogicalOpSnoc(c, i, current);
    NonWsStep(c, i, JoinChunks(acc), current);
    NoTopOpAheadGrow(c, i, st, current);
  }

  /** The separator for the operator at `i`: the operator with the space
      before it when any chunk was emitted before it, and the space after it. */
  function OperatorChunk(c: string, i: nat, afterChunk: bool): Chunk
    requires i + 1 < |c|
  {
    var hasLeftSpace := afterChunk && CharIs(c, i - 1, ' ');
    var hasRightSpace := CharIs(c, i + 2, ' ');
    Chunk(Separator, (if hasLeftSpace then " " else "") + (if c[i] == '&' then "&&" else "||")
      + (if hasRightSpace then " " else ""))
  }

  /** Where scanning resumes after the operator at `i`: past the space after it, if any. */
  function OperatorEnd(c: string, i: nat): nat
    requires i + 1 < |c|
  {
    if CharIs(c, i + 2, ' ') then i + 3 else i + 2
  }

  lemma OperatorChunkSound(c: string, i: nat, afterChunk: bool)
    requires i + 1 < |c| && IsOpPair(c[i], c[i + 1])
    ensures OperatorEnd(c, i) <= |c|
    ensures LogicalChunk(OperatorChunk(c, i, afterChunk))
    ensures NonWs(OperatorChunk(c, i, afterChunk).text) == NonWs(c[i..OperatorEnd(c, i)])
  {
    OperatorChunkShape(c, i, afterChunk);
    OperatorChunkNonWs(c, i, afterChunk);
  }

  lemma OperatorChunkShape(c: string, i: nat, afterChunk: bool)
    requires i + 1 < |c| && IsOpPair(c[i], c[i + 1])
    ensures LogicalChunk(OperatorChunk(c, i, afterChunk))
  {
    var l := if afterChunk && CharIs(c, i - 1, ' ') then " " else "";
    var op := if c[i] == '&' then "&&" else "||";
    var r := if CharIs(c, i + 2, ' ') then " " else "";
    assert IsLogicalSeparator(l + op + r);
  }

  lemma OperatorChunkNonWs(c: string, i: nat, afterChunk: bool)
    requires i + 1 < |c| && IsOpPair(c[i], c[i + 1])
    ensures OperatorEnd(c, i) <= |c|
    ensures NonWs(OperatorChunk(c, i, afterChunk).text) == NonWs(c[i..OperatorEnd(c, i)])
  {
    var hasRightSpace := CharIs(c, i + 2, ' ');
    var l := if afterChunk && CharIs(c, i - 1, ' ') then " " else "";
    var op := if c[i] == '&' then "&&" else "||";
    var r := if hasRightSpace then " " else "";
    OperatorText(c, i, hasRightSpace);
    LogicalSeparatorNonWs(l, op, r);
  }

  lemma {:induction false} LogicalScanSoundAtOperator(c: string, i: nat, st: ScanState, current: string, acc: seq<Chunk>)
    requires LogicalScanPre(c, i, st, current, acc) && i < |c| && TopOperatorAt(c, i, st)
    ensures NonWs(JoinChunks(LogicalScan(c, i, st, current, acc))) == NonWs(c)
    ensures AllLogicalChunks(LogicalScan(c, i, st, current, acc))
    decreases |c| - i, 0
  {
    var acc1 := FlushLogical(acc, current);
    var sep := OperatorChunk(c, i, |acc1| > 0);
    var j := OperatorEnd(c, i);
    LogicalCut(c, i, current, acc);
    LogicalRestart(c, j, st, acc1 + [sep]);
    LogicalScanAtOperator(c, i, st, current, acc);
    LogicalScanSound(c, j, st, "", acc1 + [sep]);
  }

  /** Cutting at a top-level operator emits only well-formed chunks and loses only whitespace. */
  lemma LogicalCut(c: string, i: nat, current: string, acc: seq<Chunk>)
    requires i + 1 < |c| && IsOpPair(c[i], c[i + 1])
    requires AllLogicalChunks(acc) && NoTopLogicalOp(current)
    requires NonWs(JoinChunks(acc)) + NonWs(current) == NonWs(c[..i])
    ensures OperatorEnd(c, i) <= |c|
    ensures AllLogicalChunks(FlushLogical(acc, current) + [OperatorChunk(c, i, |FlushLogical(acc, current)| > 0)])
    ensures NonWs(JoinChunks(FlushLogical(acc, current) + [OperatorChunk(c, i, |FlushLogical(acc, current)| > 0)]))
      == NonWs(c[..OperatorEnd(c, i)])
  {
    LogicalCutChunks(c, i, current, acc);
    LogicalCutNonWs(c, i, current, acc);
  }

  lemma LogicalCutChunks(c: string, i: nat, current: string, acc: seq<Chunk>)
    requires i + 1 < |c| && IsOpPair(c[i], c[i + 1])
    requires AllLogicalChunks(acc) && NoTopLogicalOp(current)
    ensures AllLogicalChunks(FlushLogical(acc, current) + [OperatorChunk(c, i, |FlushLogical(acc, current)| > 0)])
  {
    FlushLogicalChunks(acc, current);
    OperatorChunkShape(c, i, |FlushLogical(acc, current)| > 0);
  }

  lemma LogicalCutNonWs(c: string, i: nat, current: string, acc: seq<Chunk>)
    requires i + 1 < |c| && IsOpPair(c[i], c[i + 1])
    requires NonWs(JoinChunks(acc)) + NonWs(current) == NonWs(c[..i])
    ensures OperatorEnd(c, i) <= |c|
    ensures NonWs(JoinChunks(FlushLogical(acc, current) + [OperatorChunk(c, i, |FlushLogical(acc, current)| > 0)]))
      == NonWs(c[..OperatorEnd(c, i)])
  {
    var acc1 := FlushLogical(acc, current);
    var sep := OperatorChunk(c, i, |acc1| > 0);
    var j := OperatorEnd(c, i);
    FlushLogicalNonWs(acc, current);
    OperatorChunkNonWs(c, i, |acc1| > 0);
    assert NonWs(JoinChunks(acc1)) == NonWs(c[..i]);
    NonWsSeparator(c, i, j, acc1, sep);
  }

  /** The logical splitter's invariant at the start of a new element. */
  lemma LogicalRestart(c: string, j: nat, st: ScanState, acc: seq<Chunk>)
    requires j <= |c| && st == Top && AllLogicalChunks(acc)
    requires NonWs(JoinChunks(acc)) == NonWs(c[..j])
    ensures LogicalScanPre(c, j, st, "", acc)
  {
    StateOfEmpty();
    assert NonWs("") == [];
    assert c[j - 0..j] == "";
  }

  /** The text an operator separator consumes: the two operator characters and,
      when present, the one space after them. */
  lemma OperatorText(c: string, i: nat, hasRightSpace: bool)
    requires i + 1 < |c| && IsOpPair(c[i], c[i + 1])
    requires hasRightSpace == CharIs(c, i + 2, ' ')
    ensures c[i..i + (if hasRightSpace then 3 else 2)]
      == (if c[i] == '&' then "&&" else "||") + (if hasRightSpace then " " else "")
  {
  }

  lemma LogicalSeparatorNonWs(l: string, op: string, r: string)
    requires l in {"", " "} && op in {"&&", "||"} && r in {"", " "}
    ensures NonWs(l + op + r) == op && NonWs(op + r) == op
  {
    assert NonWs(op) == op by {
      assert op == [op[0]] + [op[1]];
      NonWsAppend([op[0]], [op[1]]);
      NonWsOfChar(op[0]);
      NonWsOfChar(op[1]);
    }
    NonWsAppend(l + op, r);
    NonWsAppend(l, op);
    NonWsAppend(op, r);
    if |l| > 0 {
      NonWsOfChar(' ');
    }
    if |r| > 0 {
      NonWsOfChar(' ');
    }
  }

  // ---------------------------------------------------------------------------
  // Where splitLogical cuts
  // ---------------------------------------------------------------------------

  /** Whether `s` holds a character other than a space. */
  ghost predicate HasNonSpace(s: string) {
    exists k :: 0 <= k < |s| && s[k] != ' '
  }

  /** An `&&` or `||` starting outside quotes and brackets, reading the content from its start. */
  ghost predicate TopOperator(c: string, i: int) {
    0 <= i && i + 1 < |c| && IsOpPair(c[i], c[i + 1]) && AtTop(StateOf(c[..i]))
  }

  /** The separator text for the operator at `i`: the space before it is
      taken when the content before the operator is not all spaces. */
  ghost function LogicalSeparatorText(c: string, i: nat): string
    requires i + 1 < |c|
  {
    OperatorChunk(c, i, HasNonSpace(c[..i])).text
  }

  /** The separators the logical splitter owes from `i` on, reading left to
      right: one per top-level `&&` or `||`, whose two characters and the one
      space after them are not read again. */
  ghost function LogicalSeparatorsFrom(c: string, i: nat): seq<string>
    requires i <= |c|
    decreases |c| - i
  {
    if i == |c| then []
    else if TopOperator(c, i) then [LogicalSeparatorText(c, i)] + LogicalSeparatorsFrom(c, OperatorEnd(c, i))
    else LogicalSeparatorsFrom(c, i + 1)
  }

  /** The logical separators, in order, are one per top-level operator of the
      content read left to right, each with the spaces the source gives it. */
  lemma LogicalSeparatorsExact(content: string)
    ensures Separators(SplitLogical(content)) == LogicalSeparatorsFrom(content, 0)
  {
    LogicalSeparatorsScan(content, 0, Top, "", []);
  }

  /** Until the first cut the collected text is the whole content read so
      far; after it, that content already holds an operator character. */
  ghost predicate LogicalSeparatorsPre(c: string, i: nat, st: ScanState, current: string, acc: seq<Chunk>) {
    && i <= |c|
    && st == StateOf(c[..i])
    && (|acc| == 0 ==> current == c[..i])
    && (|acc| > 0 ==> HasNonSpace(c[..i]))
  }

  /** Flushing adds no separator, and emits something exactly when there was
      something before or the collected text is not all spaces. */
  lemma FlushLogicalSeparators(acc: seq<Chunk>, current: string)
    ensures Separators(FlushLogical(acc, current)) == Separators(acc)
    ensures |FlushLogical(acc, current)| > 0 <==> |acc| > 0 || HasNonSpace(current)
  {
    var m := |current| - TrailingSpaces(current);
    if m > 0 {
      SeparatorsSnoc(acc, Chunk(Element, current[..m]));
      assert current[m - 1] != ' ';
    } else {
      assert !HasNonSpace(current);
    }
  }

  lemma HasNonSpaceGrow(c: string, i: nat, j: nat)
    requires i <= j <= |c| && HasNonSpace(c[..i])
    ensures HasNonSpace(c[..j])
  {
    var k :| 0 <= k < i && c[..i][k] != ' ';
    assert c[..j][k] == c[k];
  }

  lemma {:induction false} LogicalSeparatorsScan(c: string, i: nat, st: ScanState, current: string, acc: seq<Chunk>)
    requires LogicalSeparatorsPre(c, i, st, current, acc)
    ensures Separators(LogicalScan(c, i, st, current, acc)) == Separators(acc) + LogicalSeparatorsFrom(c, i)
    decreases |c| - i, 1
  {
    if i == |c| {
      FlushLogicalSeparators(acc, current);
    } else if TopOperatorAt(c, i, st) {
      LogicalSeparatorsAtOperator(c, i, st, current, acc);
    } else {
      LogicalSeparatorsInElement(c, i, st, current, acc);
    }
  }

  lemma {:induction false} LogicalSeparatorsInElement(c: string, i: nat, st: ScanState, current: string, acc: seq<Chunk>)
    requires LogicalSeparatorsPre(c, i, st, current, acc) && i < |c| && !TopOperatorAt(c, i, st)
    ensures Separators(LogicalScan(c, i, st, current, acc)) == Separators(acc) + LogicalSeparatorsFrom(c, i)
    decreases |c| - i, 0
  {
    var st1, current1 := StateStep(st, c, i), current + [c[i]];
    assert LogicalSeparatorsPre(c, i + 1, st1, current1, acc) by {
      StateOfPrefix(c, i);
      if |acc| == 0 {
        assert current + [c[i]] == c[..i + 1];
      } else {
        HasNonSpaceGrow(c, i, i + 1);
      }
    }
    assert LogicalSeparatorsFrom(c, i) == LogicalSeparatorsFrom(c, i + 1) by {
      assert !TopOperator(c, i);
    }
    assert LogicalScan(c, i, st, current, acc) == LogicalScan(c, i + 1, st1, current1, acc) by {
      LogicalScanInElement(c, i, st, current, acc);
    }
    LogicalSeparatorsScan(c, i + 1, st1, current1, acc);
  }

  lemma {:induction false} LogicalSeparatorsAtOperator(c: string, i: nat, st: ScanState, current: string, acc: seq<Chunk>)
    requires LogicalSeparatorsPre(c, i, st, current, acc) && i < |c| && TopOperatorAt(c, i, st)
    ensures Separators(LogicalScan(c, i, st, current, acc)) == Separators(acc) + LogicalSeparatorsFrom(c, i)
    decreases |c| - i, 0
  {
    var acc1 := FlushLogical(acc, current);
    var acc2 := acc1 + [OperatorChunk(c, i, |acc1| > 0)];
    LogicalOperatorStep(c, i, st, current, acc);
    LogicalSeparatorsScan(c, OperatorEnd(c, i), st, "", acc2);
  }

  /** One top-level operator: the scan restarts past it with one more
      separator, which is the next one the content promises. */
  lemma LogicalOperatorStep(c: string, i: nat, st: ScanState, current: string, acc: seq<Chunk>)
    requires LogicalSeparatorsPre(c, i, st, current, acc) && i < |c| && TopOperatorAt(c, i, st)
    ensures var acc2 := FlushLogical(acc, current) + [OperatorChunk(c, i, |FlushLogical(acc, current)| > 0)];
      && OperatorEnd(c, i) <= |c| && LogicalSeparatorsPre(c, OperatorEnd(c, i), st, "", acc2)
      && LogicalScan(c, i, st, current, acc) == LogicalScan(c, OperatorEnd(c, i), st, "", acc2)
      && Separators(acc2) == Separators(acc) + [LogicalSeparatorText(c, i)]
      && LogicalSeparatorsFrom(c, i) == [LogicalSeparatorText(c, i)] + LogicalSeparatorsFrom(c, OperatorEnd(c, i))
  {
    var acc1 := FlushLogical(acc, current);
    var acc2 := acc1 + [OperatorChunk(c, i, |acc1| > 0)];
    LogicalCutSeparators(c, i, st, current, acc);
    LogicalSeparatorsAdvance(c, i, st, acc2);
    LogicalScanAtOperator(c, i, st, current, acc);
    LogicalSeparatorsFromAt(c, i);
  }

  lemma LogicalSeparatorsFromAt(c: string, i: nat)
    requires TopOperator(c, i)
    ensures LogicalSeparatorsFrom(c, i) == [LogicalSeparatorText(c, i)] + LogicalSeparatorsFrom(c, OperatorEnd(c, i))
  {
  }

  /** The cut at a top-level operator adds exactly the separator owed for it. */
  lemma LogicalCutSeparators(c: string, i: nat, st: ScanState, current: string, acc: seq<Chunk>)
    requires LogicalSeparatorsPre(c, i, st, current, acc) && i < |c| && TopOperatorAt(c, i, st)
    ensures TopOperator(c, i)
    ensures Separators(FlushLogical(acc, current) + [OperatorChunk(c, i, |FlushLogical(acc, current)| > 0)])
      == Separators(acc) + [LogicalSeparatorText(c, i)]
  {
    var acc1 := FlushLogical(acc, current);
    FlushLogicalSeparators(acc, current);
    assert |acc1| > 0 <==> HasNonSpace(c[..i]);
    SeparatorsSnoc(acc1, OperatorChunk(c, i, |acc1| > 0));
  }

  /** Past a top-level operator and the one space after it, the scan state
      is unchanged and the content read so far holds an operator character. */
  lemma LogicalSeparatorsAdvance(c: string, i: nat, st: ScanState, acc: seq<Chunk>)
    requires i < |c| && st == StateOf(c[..i]) && TopOperatorAt(c, i, st) && |acc| > 0
    ensures OperatorEnd(c, i) <= |c| && LogicalSeparatorsPre(c, OperatorEnd(c, i), st, "", acc)
  {
    StateOfPrefix(c, i);
    PlainStep(c, i, st);
    StateOfPrefix(c, i + 1);
    PlainStep(c, i + 1, st);
    if CharIs(c, i + 2, ' ') {
      StateOfPrefix(c, i + 2);
      PlainStep(c, i + 2, st);
    }
    assert c[..OperatorEnd(c, i)][i] == c[i];
  }

  // ---------------------------------------------------------------------------
  // splitProps
  // ---------------------------------------------------------------------------

  /** `pushElement` of `splitProps`: the collected text, untrimmed, when non-empty. */
  function FlushRaw(acc: seq<Chunk>, current: string): seq<Chunk> {
    if |current| > 0 then acc + [Chunk(Element, current)] else acc
  }

  /** Index just past the run of spaces starting at `i`. */
  function SpaceRunEnd(c: string, i: nat): (r: nat)
    requires i < |c| && c[i] == ' '
    ensures i < r <= |c|
    ensures forall k :: i <= k < r ==> c[k] == ' '
    ensures r < |c| ==> c[r] != ' '
    decreases |c| - i
  {
    if CharIs(c, i + 1, ' ') then SpaceRunEnd(c, i + 1) else i + 1
  }

  /** `splitProps`: cut at every run of spaces outside quotes and brackets;
      each run becomes one ` ` separator and elements are kept as collected.
      Only whitespace is ever lost. */
  function SplitProps(content: string): (r: seq<Chunk>)
    ensures NonWs(JoinChunks(r)) == NonWs(content)
    ensures AllPropsChunks(r)
  {
    PropsScanSound(content, 0, Top, "", []);
    PropsScan(content, 0, Top, "", [])
  }

  function PropsScan(c: string, i: nat, st: ScanState, current: string, acc: seq<Chunk>): seq<Chunk>
    requires i <= |c|
    decreases |c| - i
  {
    if i == |c| then FlushRaw(acc, current)
    else
      var ch := c[i];
      if IsStateChar(st, ch) then
        PropsScan(c, i + 1, StateStep(st, c, i), current + [ch], acc)
      else if ch == ' ' && AtTop(st) then
        PropsScan(c, SpaceRunEnd(c, i), st, "", FlushRaw(acc, current) + [Chunk(Separator, " ")])
      else
        PropsScan(c, i + 1, st, current + [ch], acc)
  }

  ghost predicate AllPropsChunks(r: seq<Chunk>) {
    forall k :: 0 <= k < |r| ==> PropsChunk(r[k])
  }

  lemma NoTopSpaceSnoc(current: string, ch: char)
    requires NoTopSpace(current)
    requires ch == ' ' ==> !AtTop(StateOf(current))
    ensures NoTopSpace(current + [ch])
  {
    var t := current + [ch];
    forall k | 0 <= k < |t| && t[k] == ' '
      ensures !AtTop(StateOf(t[..k]))
    {
      if k < |current| {
        assert t[..k] == current[..k];
      } else {
        assert t[..k] == current;
      }
    }
  }

  lemma FlushRawSound(acc: seq<Chunk>, current: string)
    requires AllPropsChunks(acc) && NoTopSpace(current)
    ensures AllPropsChunks(FlushRaw(acc, current))
    ensures NonWs(JoinChunks(FlushRaw(acc, current))) == NonWs(JoinChunks(acc)) + NonWs(current)
  {
    FlushRawChunks(acc, current);
    FlushRawNonWs(acc, current);
  }

  lemma FlushRawChunks(acc: seq<Chunk>, current: string)
    requires AllPropsChunks(acc) && NoTopSpace(current)
    ensures AllPropsChunks(FlushRaw(acc, current))
  {
    if |current| > 0 {
      assert PropsChunk(Chunk(Element, current));
    }
  }

  lemma FlushRawNonWs(acc: seq<Chunk>, current: string)
    ensures NonWs(JoinChunks(FlushRaw(acc, current))) == NonWs(JoinChunks(acc)) + NonWs(current)
  {
    if |current| > 0 {
      calc {
        NonWs(JoinChunks(acc + [Chunk(Element, current)]));
        { JoinChunksAppend(acc, [Chunk(Element, current)]); }
        NonWs(JoinChunks(acc) + current);
        { NonWsAppend(JoinChunks(acc), current); }
        NonWs(JoinChunks(acc)) + NonWs(current);
      }
    } else {
      assert NonWs(current) == [];
    }
  }

  ghost predicate PropsScanPre(c: string, i: nat, st: ScanState, current: string, acc: seq<Chunk>) {
    && Collected(c, i, current)
    && st == StateOf(current)
    && NoTopSpace(current)
    && AllPropsChunks(acc)
    && NonWs(JoinChunks(acc)) + NonWs(current) == NonWs(c[..i])
  }

  lemma {:induction false} PropsScanSound(c: string, i: nat, st: ScanState, current: string, acc: seq<Chunk>)
    requires PropsScanPre(c, i, st, current, acc)
    ensures NonWs(JoinChunks(PropsScan(c, i, st, current, acc))) == NonWs(c)
    ensures AllPropsChunks(PropsScan(c, i, st, current, acc))
    decreases |c| - i, 1
  {
    if i == |c| {
      assert c[..i] == c;
      FlushRawSound(acc, current);
    } else if !IsStateChar(st, c[i]) && c[i] == ' ' && AtTop(st) {
      PropsScanSoundAtSpace(c, i, st, current, acc);
    } else {
      PropsScanSoundInElement(c, i, st, current, acc);
    }
  }

  /** One step of the props splitter inside an element. */
  lemma PropsScanInElement(c: string, i: nat, st: ScanState, current: string, acc: seq<Chunk>)
    requires i < |c| && (IsStateChar(st, c[i]) || !(c[i] == ' ' && AtTop(st)))
    ensures PropsScan(c, i, st, current, acc) == PropsScan(c, i + 1, StateStep(st, c, i), current + [c[i]], acc)
  {
    if !IsStateChar(st, c[i]) {
      PlainStep(c, i, st);
    }
  }

  /** One step of the props splitter at a top-level space. */
  lemma PropsScanAtSpace(c: string, i: nat, st: ScanState, current: string, acc: seq<Chunk>)
    requires i < |c| && !IsStateChar(st, c[i]) && c[i] == ' ' && AtTop(st)
    ensures PropsScan(c, i, st, current, acc)
      == PropsScan(c, SpaceRunEnd(c, i), st, "", FlushRaw(acc, current) + [Chunk(Separator, " ")])
  {
  }

  lemma {:induction false} PropsScanSoundInElement(c: string, i: nat, st: ScanState, current: string, acc: seq<Chunk>)
    requires PropsScanPre(c, i, st, current, acc) && i < |c|
    requires IsStateChar(st, c[i]) || !(c[i] == ' ' && AtTop(st))
    ensures NonWs(JoinChunks(PropsScan(c, i, st, current, acc))) == NonWs(c)
    ensures AllPropsChunks(PropsScan(c, i, st, current, acc))
    decreases |c| - i, 0
  {
    var ch := c[i];
    var st' := StateStep(st, c, i);
    StateSnoc(c, i, current, st);
    NoTopSpaceSnoc(current, ch);
    NonWsStep(c, i, JoinChunks(acc), current);
    PropsScanInElement(c, i, st, current, acc);
    PropsScanSound(c, i + 1, st', current + [ch], acc);
  }

  /** Cutting at a run of top-level spaces emits only well-formed chunks and loses only whitespace. */
  lemma PropsCut(c: string, i: nat, current: string, acc: seq<Chunk>)
    requires i < |c| && c[i] == ' '
    requires AllPropsChunks(acc) && NoTopSpace(current)
    requires NonWs(JoinChunks(acc)) + NonWs(current) == NonWs(c[..i])
    ensures AllPropsChunks(FlushRaw(acc, current) + [Chunk(Separator, " ")])
    ensures NonWs(JoinChunks(FlushRaw(acc, current) + [Chunk(Separator, " ")])) == NonWs(c[..SpaceRunEnd(c, i)])
  {
    PropsCutChunks(current, acc);
    PropsCutNonWs(c, i, current, acc);
  }

  lemma PropsCutChunks(current: string, acc: seq<Chunk>)
    requires AllPropsChunks(acc) && NoTopSpace(current)
    ensures AllPropsChunks(FlushRaw(acc, current) + [Chunk(Separator, " ")])
  {
    FlushRawChunks(acc, current);
    assert PropsChunk(Chunk(Separator, " "));
  }

  lemma PropsCutNonWs(c: string, i: nat, current: string, acc: seq<Chunk>)
    requires i < |c| && c[i] == ' '
    requires NonWs(JoinChunks(acc)) + NonWs(current) == NonWs(c[..i])
    ensures NonWs(JoinChunks(FlushRaw(acc, current) + [Chunk(Separator, " ")])) == NonWs(c[..SpaceRunEnd(c, i)])
  {
    var j := SpaceRunEnd(c, i);
    var sep := Chunk(Separator, " ");
    var acc1 := FlushRaw(acc, current);
    FlushRawNonWs(acc, current);
    assert AllWs(c[i..j]);
    NonWsOfAllWs(c[i..j]);
    NonWsOfChar(' ');
    NonWsSeparator(c, i, j, acc1, sep);
  }

  lemma {:induction false} PropsScanSoundAtSpace(c: string, i: nat, st: ScanState, current: string, acc: seq<Chunk>)
    requires PropsScanPre(c, i, st, current, acc) && i < |c|
    requires !IsStateChar(st, c[i]) && c[i] == ' ' && AtTop(st)
    ensures NonWs(JoinChunks(PropsScan(c, i, st, current, acc))) == NonWs(c)
    ensures AllPropsChunks(PropsScan(c, i, st, current, acc))
    decreases |c| - i, 0
  {
    var j := SpaceRunEnd(c, i);
    var sep := Chunk(Separator, " ");
    var acc1 := FlushRaw(acc, current);
    assert PropsScanPre(c, j, st, "", acc1 + [sep]) by {
      PropsCut(c, i, current, acc);
      StateOfEmpty();
      assert NonWs("") == [];
      assert c[j - 0..j] == "";
    }
    assert PropsScan(c, i, st, current, acc) == PropsScan(c, j, st, "", acc1 + [sep]) by {
      PropsScanAtSpace(c, i, st, current, acc);
    }
    PropsScanSound(c, j, st, "", acc1 + [sep]);
  }

  // ---------------------------------------------------------------------------
  // Where splitProps cuts
  // ---------------------------------------------------------------------------

  /** A space outside quotes and brackets, reading the content from its start. */
  ghost predicate TopSpace(c: string, i: int) {
    0 <= i < |c| && c[i] == ' ' && AtTop(StateOf(c[..i]))
  }

  /** The separators the props splitter owes from `i` on, reading left to
      right: one ` ` per run of spaces that starts outside quotes and brackets. */
  ghost function PropsSeparatorsFrom(c: string, i: nat): seq<string>
    requires i <= |c|
    decreases |c| - i
  {
    if i == |c| then []
    else if TopSpace(c, i) then [" "] + PropsSeparatorsFrom(c, SpaceRunEnd(c, i))
    else PropsSeparatorsFrom(c, i + 1)
  }

  /** The props separators, in order, are one per run of top-level spaces of the content. */
  lemma PropsSeparatorsExact(content: string)
    ensures Separators(SplitProps(content)) == PropsSeparatorsFrom(content, 0)
  {
    PropsSeparatorsScan(content, 0, Top, "", []);
  }

  lemma {:induction false} PropsSeparatorsScan(c: string, i: nat, st: ScanState, current: string, acc: seq<Chunk>)
    requires i <= |c| && st == StateOf(c[..i])
    ensures Separators(PropsScan(c, i, st, current, acc)) == Separators(acc) + PropsSeparatorsFrom(c, i)
    decreases |c| - i, 1
  {
    if i == |c| {
      if |current| > 0 {
        SeparatorsSnoc(acc, Chunk(Element, current));
      }
    } else if !IsStateChar(st, c[i]) && c[i] == ' ' && AtTop(st) {
      PropsSeparatorsAtSpace(c, i, st, current, acc);
    } else {
      PropsSeparatorsInElement(c, i, st, current, acc);
    }
  }

  lemma {:induction false} PropsSeparatorsInElement(c: string, i: nat, st: ScanState, current: string, acc: seq<Chunk>)
    requires i < |c| && st == StateOf(c[..i])
    requires IsStateChar(st, c[i]) || !(c[i] == ' ' && AtTop(st))
    ensures Separators(PropsScan(c, i, st, current, acc)) == Separators(acc) + PropsSeparatorsFrom(c, i)
    decreases |c| - i, 0
  {
    StateOfPrefix(c, i);
    assert !TopSpace(c, i);
    PropsScanInElement(c, i, st, current, acc);
    PropsSeparatorsScan(c, i + 1, StateStep(st, c, i), current + [c[i]], acc);
  }

  lemma {:induction false} PropsSeparatorsAtSpace(c: string, i: nat, st: ScanState, current: string, acc: seq<Chunk>)
    requires i < |c| && st == StateOf(c[..i])
    requires !IsStateChar(st, c[i]) && c[i] == ' ' && AtTop(st)
    ensures Separators(PropsScan(c, i, st, current, acc)) == Separators(acc) + PropsSeparatorsFrom(c, i)
    decreases |c| - i, 0
  {
    var acc1 := FlushRaw(acc, current);
    var sep := Chunk(Separator, " ");
    var j := SpaceRunEnd(c, i);
    assert Separators(acc1 + [sep]) == Separators(acc) + [" "] by {
      PropsCutSeparators(current, acc);
    }
    assert PropsScan(c, i, st, current, acc) == PropsScan(c, j, st, "", acc1 + [sep]) by {
      PropsScanAtSpace(c, i, st, current, acc);
    }
    assert PropsSeparatorsFrom(c, i) == [" "] + PropsSeparatorsFrom(c, j) by {
      PropsSeparatorsFromAt(c, i);
    }
    SpaceRunKeepsState(c, i, st);
    PropsSeparatorsScan(c, j, st, "", acc1 + [sep]);
  }

  /** The cut at a run of top-level spaces adds exactly one ` ` separator. */
  lemma PropsCutSeparators(current: string, acc: seq<Chunk>)
    ensures Separators(FlushRaw(acc, current) + [Chunk(Separator, " ")]) == Separators(acc) + [" "]
  {
    if |current| > 0 {
      SeparatorsSnoc(acc, Chunk(Element, current));
    }
    SeparatorsSnoc(FlushRaw(acc, current), Chunk(Separator, " "));
  }

  lemma PropsSeparatorsFromAt(c: string, i: nat)
    requires TopSpace(c, i)
    ensures PropsSeparatorsFrom(c, i) == [" "] + PropsSeparatorsFrom(c, SpaceRunEnd(c, i))
  {
  }

  /** Spaces never change the scan state. */
  lemma {:induction false} SpaceRunKeepsState(c: string, i: nat, st: ScanState)
    requires i < |c| && c[i] == ' ' && st == StateOf(c[..i])
    ensures st == StateOf(c[..SpaceRunEnd(c, i)])
    decreases |c| - i
  {
    StateOfPrefix(c, i);
    PlainStep(c, i, st);
    if CharIs(c, i + 1, ' ') {
      SpaceRunKeepsState(c, i + 1, st);
    }
  }

  // ---------------------------------------------------------------------------
  // splitScope
  // ---------------------------------------------------------------------------

  predicate IsCommaEnv(env: EnvKind) {
    env.Array? || env.Object? || env.FunctionParams?
  }

  /** `splitScope`: the scanner for each environment kind. Whatever the kind,
      the chunks hold exactly the visible text of the content; the kinds with
      no scanner get the whole content as one element. */
  function SplitScope(content: string, env: EnvKind): (r: seq<Chunk>)
    ensures NonWs(JoinChunks(r)) == NonWs(content)
    ensures IsCommaEnv(env) ==> AllCommaChunks(r)
    ensures env.Union? ==> AllUnionChunks(r)
    ensures env.Logical? ==> AllLogicalChunks(r)
    ensures env.ReactComponent? ==> AllPropsChunks(r)
    ensures !IsCommaEnv(env) && !env.Union? && !env.Logical? && !env.ReactComponent?
      ==> r == [Chunk(Element, content)]
    ensures IsCommaEnv(env) ==> r == SplitByCommas(content)
    ensures env.Union? ==> r == SplitByPipes(content)
    ensures env.Logical? ==> r == SplitLogical(content)
    ensures env.ReactComponent? ==> r == SplitProps(content)
  {
    if IsCommaEnv(env) then SplitByCommas(content)
    else if env.Union? then SplitByPipes(content)
    else if env.Logical? then SplitLogical(content)
    else if env.ReactComponent? then SplitProps(content)
    else
      JoinChunksAppend([], [Chunk(Element, content)]);
      [Chunk(Element, content)]
  }
}
