/**
 * The splitter on the inputs of its unit tests (src/lib/splitter.test.ts),
 * one lemma per test.
 *
 * Each test is proved chunk by chunk, from small step lemmas over an
 * abstract content string: a run of ordinary characters, one item, one
 * separator. A test lemma then only checks the literal's shape and
 * instantiates the steps, so that no proof unfolds a scanner over the
 * whole literal.
 */
module SplitterExamples {
  import opened JsText
  import opened Chunks
  import opened Brackets
  import opened Splitter

  /** Characters that are no brackets, and no commas at the top level, are collected as they are. */
  lemma {:induction false} CommaRun(c: string, i: nat, j: nat, stack: seq<char>, current: string, acc: seq<Chunk>)
    requires i <= j <= |c|
    requires forall k :: i <= k < j ==> !IsOpening(c[k]) && !IsClosing(c[k]) && (c[k] != ',' || |stack| > 0)
    ensures CommaScan(c, i, stack, current, acc) == CommaScan(c, j, stack, current + c[i..j], acc)
    decreases j - i
  {
    if i < j {
      CommaScanInElement(c, i, stack, current, acc);
      CommaRun(c, i + 1, j, stack, current + [c[i]], acc);
      assert current + [c[i]] + c[i + 1..j] == current + c[i..j];
    } else {
      assert current + c[i..j] == current;
    }
  }

  /** An item without brackets or commas and with visible characters at both ends. */
  predicate PlainItem(c: string, i: nat, j: nat)
    requires i < j <= |c|
  {
    (forall k :: i <= k < j ==> !IsOpening(c[k]) && !IsClosing(c[k]) && c[k] != ',')
    && !IsWs(c[i]) && !IsWs(c[j - 1])
  }

  /** An item `[...]` whose inside holds no further brackets. */
  predicate BracketItem(c: string, i: nat, j: nat)
    requires i < j <= |c|
  {
    i + 1 < j && c[i] == '[' && c[j - 1] == ']'
    && forall k :: i < k < j - 1 ==> !IsOpening(c[k]) && !IsClosing(c[k])
  }

  /** The comma splitter collects a plain item whole. */
  lemma CommaPlain(c: string, i: nat, j: nat, acc: seq<Chunk>)
    requires i < j <= |c| && PlainItem(c, i, j)
    ensures CommaScan(c, i, [], "", acc) == CommaScan(c, j, [], c[i..j], acc)
  {
    CommaRun(c, i, j, [], "", acc);
    assert "" + c[i..j] == c[i..j];
  }

  /** The comma splitter collects a bracketed item whole: the bracket opens
      and closes the only level, so no comma inside it is a cut. */
  lemma CommaBracket(c: string, i: nat, j: nat, acc: seq<Chunk>)
    requires i < j <= |c| && BracketItem(c, i, j)
    ensures CommaScan(c, i, [], "", acc) == CommaScan(c, j, [], c[i..j], acc)
  {
    var open := [c[i]];
    var inner := open + c[i + 1..j - 1];
    assert CommaScan(c, i, [], "", acc) == CommaScan(c, i + 1, [']'], open, acc) by {
      CommaScanInElement(c, i, [], "", acc);
      assert StackStep([], '[') == [']'];
      assert "" + [c[i]] == open;
    }
    assert CommaScan(c, i + 1, [']'], open, acc) == CommaScan(c, j - 1, [']'], inner, acc) by {
      CommaRun(c, i + 1, j - 1, [']'], open, acc);
    }
    assert CommaScan(c, j - 1, [']'], inner, acc) == CommaScan(c, j, [], c[i..j], acc) by {
      CommaScanInElement(c, j - 1, [']'], inner, acc);
      assert StackStep([']'], ']') == [];
      BracketSpelling(c, i, j);
    }
  }

  lemma BracketSpelling(c: string, i: nat, j: nat)
    requires i + 1 < j <= |c|
    ensures [c[i]] + c[i + 1..j - 1] + [c[j - 1]] == c[i..j]
  {
    assert c[i..j] == [c[i]] + c[i + 1..j];
    assert c[i + 1..j] == c[i + 1..j - 1] + [c[j - 1]];
  }

  /** The comma splitter collects a plain or bracketed item whole, and trimming keeps it. */
  lemma CommaItem(c: string, i: nat, j: nat, acc: seq<Chunk>)
    requires i < j <= |c| && (PlainItem(c, i, j) || BracketItem(c, i, j))
    ensures CommaScan(c, i, [], "", acc) == CommaScan(c, j, [], c[i..j], acc)
    ensures Trim(c[i..j]) == c[i..j]
  {
    if PlainItem(c, i, j) {
      CommaPlain(c, i, j, acc);
    } else {
      CommaBracket(c, i, j, acc);
    }
    ItemTrimmed(c, i, j);
  }

  /** A plain or bracketed item starts and ends on visible characters. */
  lemma ItemTrimmed(c: string, i: nat, j: nat)
    requires i < j <= |c| && (PlainItem(c, i, j) || BracketItem(c, i, j))
    ensures Trim(c[i..j]) == c[i..j]
  {
    var x := c[i..j];
    assert x[0] == c[i] && x[|x| - 1] == c[j - 1];
    assert !IsWs(x[0]) && !IsWs(x[|x| - 1]);
    TrimIdentity(x);
  }

  /** A top-level `, ` after a trimmed, non-empty element. */
  lemma CommaCut(c: string, i: nat, current: string, acc: seq<Chunk>)
    requires i + 1 < |c| && c[i] == ',' && c[i + 1] == ' ' && |current| > 0 && Trim(current) == current
    ensures CommaScan(c, i, [], current, acc)
      == CommaScan(c, i + 2, [], "", acc + [Chunk(Element, current), Chunk(Separator, ", ")])
  {
    CommaScanAtComma(c, i, [], current, acc);
    assert acc + [Chunk(Element, current)] + [Chunk(Separator, ", ")]
      == acc + [Chunk(Element, current), Chunk(Separator, ", ")];
  }

  /** At the end of the content the last element is flushed. */
  lemma CommaLast(c: string, current: string, acc: seq<Chunk>)
    requires |current| > 0 && Trim(current) == current
    ensures CommaScan(c, |c|, [], current, acc) == acc + [Chunk(Element, current)]
  {
  }

  /** An item followed by `, `. */
  lemma CommaItemCut(c: string, i: nat, j: nat, acc: seq<Chunk>)
    requires i < j && j + 1 < |c| && (PlainItem(c, i, j) || BracketItem(c, i, j)) && c[j] == ',' && c[j + 1] == ' '
    ensures CommaScan(c, i, [], "", acc)
      == CommaScan(c, j + 2, [], "", acc + [Chunk(Element, c[i..j]), Chunk(Separator, ", ")])
  {
    CommaItem(c, i, j, acc);
    CommaCut(c, j, c[i..j], acc);
  }

  /** The last item, running to the end. */
  lemma CommaItemLast(c: string, i: nat, acc: seq<Chunk>)
    requires i < |c| && (PlainItem(c, i, |c|) || BracketItem(c, i, |c|))
    ensures CommaScan(c, i, [], "", acc) == acc + [Chunk(Element, c[i..])]
  {
    CommaItem(c, i, |c|, acc);
    assert c[i..|c|] == c[i..];
    CommaLast(c, c[i..], acc);
  }

  /** Two items separated by `, `. */
  lemma TwoItems(c: string, j1: nat)
    requires 0 < j1 && j1 + 2 < |c|
    requires PlainItem(c, 0, j1) && c[j1] == ',' && c[j1 + 1] == ' ' && PlainItem(c, j1 + 2, |c|)
    ensures SplitByCommas(c) == [Chunk(Element, c[..j1]), Chunk(Separator, ", "), Chunk(Element, c[j1 + 2..])]
  {
    var x1, x3 := Chunk(Element, c[0..j1]), Chunk(Element, c[j1 + 2..]);
    var sep := Chunk(Separator, ", ");
    CommaItemCut(c, 0, j1, []);
    assert [] + [x1, sep] == [x1, sep];
    CommaItemLast(c, j1 + 2, [x1, sep]);
    assert [x1, sep] + [x3] == [x1, sep, x3];
    assert c[0..j1] == c[..j1];
  }

  /** Three items separated by `, `. */
  lemma ThreeItems(c: string, j1: nat, j2: nat)
    requires 0 < j1 && j1 + 2 < j2 && j2 + 2 < |c|
    requires (PlainItem(c, 0, j1) || BracketItem(c, 0, j1)) && c[j1] == ',' && c[j1 + 1] == ' '
    requires (PlainItem(c, j1 + 2, j2) || BracketItem(c, j1 + 2, j2)) && c[j2] == ',' && c[j2 + 1] == ' '
    requires PlainItem(c, j2 + 2, |c|) || BracketItem(c, j2 + 2, |c|)
    ensures SplitByCommas(c)
      == [Chunk(Element, c[..j1]), Chunk(Separator, ", "), Chunk(Element, c[j1 + 2..j2]), Chunk(Separator, ", "), Chunk(Element, c[j2 + 2..])]
  {
    var x1, x3, x5 := Chunk(Element, c[0..j1]), Chunk(Element, c[j1 + 2..j2]), Chunk(Element, c[j2 + 2..]);
    var sep := Chunk(Separator, ", ");
    CommaItemCut(c, 0, j1, []);
    assert [] + [x1, sep] == [x1, sep];
    CommaItemCut(c, j1 + 2, j2, [x1, sep]);
    CommaItemLast(c, j2 + 2, [x1, sep] + [x3, sep]);
    assert [x1, sep] + [x3, sep] + [x5] == [x1, sep, x3, sep, x5];
    assert c[0..j1] == c[..j1];
  }

  /** Four plain items separated by `, `. */
  lemma FourItems(c: string, j1: nat, j2: nat, j3: nat)
    requires 0 < j1 && j1 + 2 < j2 && j2 + 2 < j3 && j3 + 2 < |c|
    requires PlainItem(c, 0, j1) && c[j1] == ',' && c[j1 + 1] == ' '
    requires PlainItem(c, j1 + 2, j2) && c[j2] == ',' && c[j2 + 1] == ' '
    requires PlainItem(c, j2 + 2, j3) && c[j3] == ',' && c[j3 + 1] == ' '
    requires PlainItem(c, j3 + 2, |c|)
    ensures SplitByCommas(c)
      == [Chunk(Element, c[..j1]), Chunk(Separator, ", "), Chunk(Element, c[j1 + 2..j2]), Chunk(Separator, ", "),
          Chunk(Element, c[j2 + 2..j3]), Chunk(Separator, ", "), Chunk(Element, c[j3 + 2..])]
  {
    var x1, x3, x5, x7 := Chunk(Element, c[0..j1]), Chunk(Element, c[j1 + 2..j2]), Chunk(Element, c[j2 + 2..j3]), Chunk(Element, c[j3 + 2..]);
    var sep := Chunk(Separator, ", ");
    CommaItemCut(c, 0, j1, []);
    assert [] + [x1, sep] == [x1, sep];
    CommaItemCut(c, j1 + 2, j2, [x1, sep]);
    CommaItemCut(c, j2 + 2, j3, [x1, sep] + [x3, sep]);
    CommaItemLast(c, j3 + 2, [x1, sep] + [x3, sep] + [x5, sep]);
    assert [x1, sep] + [x3, sep] + [x5, sep] + [x7] == [x1, sep, x3, sep, x5, sep, x7];
    assert c[0..j1] == c[..j1];
  }

  /** The characters of the `ArrayOfFour` input the step lemmas need. */
  lemma ArrayOfFourShape(c: string)
    requires c == "1, 2, 3, 4"
    ensures PlainItem(c, 0, 1) && PlainItem(c, 3, 4) && PlainItem(c, 6, 7) && PlainItem(c, 9, 10)
    ensures c[..1] == "1" && c[3..4] == "2" && c[6..7] == "3" && c[9..] == "4"
  {
  }

  /** The scope of the first manipulator.test.ts case: four numbers. */
  lemma ArrayOfFour(c: string)
    requires c == "1, 2, 3, 4"
    ensures SplitScope(c, Array)
      == [Chunk(Element, "1"), Chunk(Separator, ", "), Chunk(Element, "2"), Chunk(Separator, ", "),
          Chunk(Element, "3"), Chunk(Separator, ", "), Chunk(Element, "4")]
  {
    ArrayOfFourShape(c);
    FourItems(c, 1, 4, 7);
  }

  /** The characters of the `ArrayByCommas` input the step lemmas need. */
  lemma ArrayByCommasShape(c: string)
    requires c == "1, 2, 3"
    ensures PlainItem(c, 0, 1) && PlainItem(c, 3, 4) && PlainItem(c, 6, 7)
  {
  }

  /** splitter.test.ts: a flat array splits at each top-level comma. */
  lemma ArrayByCommas(c: string)
    requires c == "1, 2, 3"
    ensures SplitScope(c, Array)
      == [Chunk(Element, "1"), Chunk(Separator, ", "), Chunk(Element, "2"), Chunk(Separator, ", "), Chunk(Element, "3")]
  {
    ArrayByCommasShape(c);
    ThreeItems(c, 1, 4);
    assert c[..1] == "1" && c[3..4] == "2" && c[6..] == "3";
  }

  /** The characters of the `NestedArrayKept` input the step lemmas need. */
  lemma NestedArrayKeptShape(c: string)
    requires c == "1, [2, 3], 4"
    ensures PlainItem(c, 0, 1) && BracketItem(c, 3, 9) && PlainItem(c, 11, 12)
  {
  }

  /** splitter.test.ts: a nested array stays one element. */
  lemma NestedArrayKept(c: string)
    requires c == "1, [2, 3], 4"
    ensures SplitScope(c, Array)
      == [Chunk(Element, "1"), Chunk(Separator, ", "), Chunk(Element, "[2, 3]"), Chunk(Separator, ", "), Chunk(Element, "4")]
  {
    NestedArrayKeptShape(c);
    ThreeItems(c, 1, 9);
    assert c[..1] == "1" && c[3..9] == "[2, 3]" && c[11..] == "4";
  }

  /** The characters of the `ObjectByCommas` input the step lemmas need. */
  lemma ObjectByCommasShape(c: string)
    requires c == "a: 1, b: 2"
    ensures PlainItem(c, 0, 4) && PlainItem(c, 6, 10)
  {
  }

  /** splitter.test.ts: object properties split at the top-level comma. */
  lemma ObjectByCommas(c: string)
    requires c == "a: 1, b: 2"
    ensures SplitScope(c, Object) == [Chunk(Element, "a: 1"), Chunk(Separator, ", "), Chunk(Element, "b: 2")]
  {
    ObjectByCommasShape(c);
    TwoItems(c, 4);
    assert c[..4] == "a: 1" && c[6..] == "b: 2";
  }

  /** The characters of the `ParamsByCommas` input the step lemmas need. */
  lemma ParamsByCommasShape(c: string)
    requires c == "a: A, b: B"
    ensures PlainItem(c, 0, 4) && PlainItem(c, 6, 10)
  {
  }

  /** splitter.test.ts: function parameters split at the top-level comma. */
  lemma ParamsByCommas(c: string)
    requires c == "a: A, b: B"
    ensures SplitScope(c, FunctionParams) == [Chunk(Element, "a: A"), Chunk(Separator, ", "), Chunk(Element, "b: B")]
  {
    ParamsByCommasShape(c);
    TwoItems(c, 4);
    assert c[..4] == "a: A" && c[6..] == "b: B";
  }

  /** A character that is no bracket and no quote leaves every scanner state as it is. */
  predicate Ordinary(ch: char) {
    !IsOpening(ch) && !IsClosing(ch) && !IsQuoteChar(ch)
  }

  /** A quote character at the top level opens a string. */
  lemma QuoteOpens(c: string, i: nat)
    requires i < |c| && IsQuoteChar(c[i])
    ensures StateStep(Top, c, i) == ScanState(Some(c[i]), [])
  {
  }

  /** The same quote character, not escaped, closes it again. */
  lemma QuoteCloses(c: string, i: nat, q: char)
    requires i < |c| && c[i] == q && IsQuoteChar(q) && !CharIs(c, i - 1, '\\')
    ensures StateStep(ScanState(Some(q), []), c, i) == Top
  {
  }

  /** A `'x'` string literal of one ordinary character, scanned from the top level. */
  lemma PipeQuoted(c: string, i: nat, acc: seq<Chunk>)
    requires i + 3 <= |c| && IsQuoteChar(c[i]) && Ordinary(c[i + 1]) && c[i + 1] != '\\' && c[i + 2] == c[i]
    ensures PipeScan(c, i, Top, "", acc) == PipeScan(c, i + 3, Top, c[i..i + 3], acc)
  {
    var inQuote := ScanState(Some(c[i]), []);
    QuoteOpens(c, i);
    PipeScanInElement(c, i, Top, "", acc);
    PlainStep(c, i + 1, inQuote);
    PipeScanInElement(c, i + 1, inQuote, "" + [c[i]], acc);
    QuoteCloses(c, i + 2, c[i]);
    PipeScanInElement(c, i + 2, inQuote, "" + [c[i]] + [c[i + 1]], acc);
    assert "" + [c[i]] + [c[i + 1]] + [c[i + 2]] == c[i..i + 3];
  }

  /** A padded ` | ` at the top level after a trimmed, non-empty element. */
  lemma PipeCut(c: string, j: nat, current: string, acc: seq<Chunk>)
    requires j + 2 < |c| && c[j] == ' ' && c[j + 1] == '|' && c[j + 2] == ' '
    requires |current| > 0 && Trim(current) == current
    ensures PipeScan(c, j, Top, current, acc)
      == PipeScan(c, j + 3, Top, "", acc + [Chunk(Element, current), Chunk(Separator, " | ")])
  {
    PipeScanInElement(c, j, Top, current, acc);
    PlainStep(c, j, Top);
    PipeScanAtPipe(c, j + 1, Top, current + [' '], acc);
    TrimIdentity(current);
    TrimUnique(current + [' '], 0, |current|);
    assert (current + [' '])[..|current|] == current;
    assert acc + [Chunk(Element, current)] + [Chunk(Separator, " | ")]
      == acc + [Chunk(Element, current), Chunk(Separator, " | ")];
  }

  /** A one-character string literal starts at `i`. */
  predicate QuotedAt(c: string, i: nat)
    requires i + 3 <= |c|
  {
    IsQuoteChar(c[i]) && Ordinary(c[i + 1]) && c[i + 1] != '\\' && c[i + 2] == c[i]
  }

  /** A ` | ` starts at `j`. */
  predicate PaddedPipeAt(c: string, j: nat)
    requires j + 3 <= |c|
  {
    c[j] == ' ' && c[j + 1] == '|' && c[j + 2] == ' '
  }

  /** A string literal followed by ` | `. */
  lemma QuotedCut(c: string, i: nat, acc: seq<Chunk>)
    requires i + 6 <= |c| && QuotedAt(c, i) && PaddedPipeAt(c, i + 3)
    ensures PipeScan(c, i, Top, "", acc)
      == PipeScan(c, i + 6, Top, "", acc + [Chunk(Element, c[i..i + 3]), Chunk(Separator, " | ")])
  {
    PipeQuoted(c, i, acc);
    TrimIdentity(c[i..i + 3]);
    PipeCut(c, i + 3, c[i..i + 3], acc);
  }

  /** A string literal that ends the content. */
  lemma QuotedLast(c: string, i: nat, acc: seq<Chunk>)
    requires i + 3 == |c| && QuotedAt(c, i)
    ensures PipeScan(c, i, Top, "", acc) == acc + [Chunk(Element, c[i..])]
  {
    PipeQuoted(c, i, acc);
    TrimIdentity(c[i..i + 3]);
    assert c[i..i + 3] == c[i..];
  }

  /** Three one-character string literals joined by ` | `. */
  lemma ThreeQuoted(c: string)
    requires |c| == 15 && QuotedAt(c, 0) && PaddedPipeAt(c, 3) && QuotedAt(c, 6) && PaddedPipeAt(c, 9) && QuotedAt(c, 12)
    ensures SplitByPipes(c)
      == [Chunk(Element, c[0..3]), Chunk(Separator, " | "), Chunk(Element, c[6..9]), Chunk(Separator, " | "), Chunk(Element, c[12..])]
  {
    var x1, x3, x5 := Chunk(Element, c[0..3]), Chunk(Element, c[6..9]), Chunk(Element, c[12..]);
    var sep := Chunk(Separator, " | ");
    QuotedCut(c, 0, []);
    assert [] + [x1, sep] == [x1, sep];
    QuotedCut(c, 6, [x1, sep]);
    QuotedLast(c, 12, [x1, sep] + [x3, sep]);
    assert [x1, sep] + [x3, sep] + [x5] == [x1, sep, x3, sep, x5];
  }

  /** The characters of the `UnionByPipes` input the step lemmas need. */
  lemma UnionByPipesShape(c: string)
    requires c == "'a' | 'b' | 'c'"
    ensures QuotedAt(c, 0) && PaddedPipeAt(c, 3) && QuotedAt(c, 6) && PaddedPipeAt(c, 9) && QuotedAt(c, 12)
  {
  }

  /** splitter.test.ts: a union splits at each top-level pipe. */
  lemma UnionByPipes(c: string)
    requires c == "'a' | 'b' | 'c'"
    ensures SplitScope(c, Union)
      == [Chunk(Element, "'a'"), Chunk(Separator, " | "), Chunk(Element, "'b'"), Chunk(Separator, " | "), Chunk(Element, "'c'")]
  {
    UnionByPipesShape(c);
    ThreeQuoted(c);
    assert c[0..3] == "'a'" && c[6..9] == "'b'" && c[12..] == "'c'";
  }

  /** Ordinary characters other than `&` and `|` are collected by the logical splitter as they are. */
  lemma {:induction false} LogicalRun(c: string, i: nat, j: nat, st: ScanState, current: string, acc: seq<Chunk>)
    requires i <= j <= |c|
    requires forall k :: i <= k < j ==> Ordinary(c[k]) && c[k] != '&' && c[k] != '|'
    ensures LogicalScan(c, i, st, current, acc) == LogicalScan(c, j, st, current + c[i..j], acc)
    decreases j - i
  {
    if i < j {
      LogicalScanInElement(c, i, st, current, acc);
      PlainStep(c, i, st);
      LogicalRun(c, i + 1, j, st, current + [c[i]], acc);
      assert current + [c[i]] + c[i + 1..j] == current + c[i..j];
    } else {
      assert current + c[i..j] == current;
    }
  }

  /** The one space before an operator goes to the separator, not the element. */
  lemma FlushOneSpace(acc: seq<Chunk>, current: string)
    requires |current| > 0 && current[|current| - 1] != ' '
    ensures FlushLogical(acc, current + [' ']) == acc + [Chunk(Element, current)]
  {
    var t := current + [' '];
    assert t[..|t| - 1] == current;
    assert TrailingSpaces(current) == 0;
    assert TrailingSpaces(t) == 1;
  }

  /** An operator with a space on each side, after an emitted chunk, is a four-character separator. */
  lemma OperatorPadded(c: string, i: nat)
    requires 0 < i && i + 2 < |c| && c[i - 1] == ' ' && IsOpPair(c[i], c[i + 1]) && c[i + 2] == ' '
    ensures OperatorEnd(c, i) == i + 3
    ensures OperatorChunk(c, i, true) == Chunk(Separator, c[i - 1..i + 3])
  {
    assert c[i - 1..i + 3] == [' ', c[i], c[i + 1], ' '];
    if c[i] == '&' {
      assert " " + "&&" + " " == [' ', c[i], c[i + 1], ' '];
    } else {
      assert " " + "||" + " " == [' ', c[i], c[i + 1], ' '];
    }
  }

  /** A padded ` && ` or ` || ` at the top level after an element without trailing spaces. */
  lemma OperatorCut(c: string, j: nat, current: string, acc: seq<Chunk>)
    requires j + 3 < |c| && c[j] == ' ' && IsOpPair(c[j + 1], c[j + 2]) && c[j + 3] == ' '
    requires |current| > 0 && current[|current| - 1] != ' '
    ensures LogicalScan(c, j, Top, current, acc)
      == LogicalScan(c, j + 4, Top, "", acc + [Chunk(Element, current), Chunk(Separator, c[j..j + 4])])
  {
    LogicalScanInElement(c, j, Top, current, acc);
    PlainStep(c, j, Top);
    LogicalScanAtOperator(c, j + 1, Top, current + [' '], acc);
    FlushOneSpace(acc, current);
    OperatorPadded(c, j + 1);
    assert acc + [Chunk(Element, current)] + [Chunk(Separator, c[j..j + 4])]
      == acc + [Chunk(Element, current), Chunk(Separator, c[j..j + 4])];
  }

  /** A one-character operand followed by a padded operator. */
  lemma LogicalOperand(c: string, i: nat, acc: seq<Chunk>)
    requires i + 4 < |c| && Ordinary(c[i]) && c[i] != '&' && c[i] != '|' && c[i] != ' '
    requires c[i + 1] == ' ' && IsOpPair(c[i + 2], c[i + 3]) && c[i + 4] == ' '
    ensures LogicalScan(c, i, Top, "", acc)
      == LogicalScan(c, i + 5, Top, "", acc + [Chunk(Element, c[i..i + 1]), Chunk(Separator, c[i + 1..i + 5])])
  {
    LogicalRun(c, i, i + 1, Top, "", acc);
    assert "" + c[i..i + 1] == c[i..i + 1];
    OperatorCut(c, i + 1, c[i..i + 1], acc);
  }

  /** A one-character operand followed by a padded operator starts at `i`. */
  predicate OperandAt(c: string, i: nat)
    requires i + 5 <= |c|
  {
    Ordinary(c[i]) && c[i] != '&' && c[i] != '|' && c[i] != ' '
    && c[i + 1] == ' ' && IsOpPair(c[i + 2], c[i + 3]) && c[i + 4] == ' '
  }

  /** At the end of the content the last operand is flushed. */
  lemma LogicalLast(c: string, current: string, acc: seq<Chunk>)
    requires |current| > 0 && current[|current| - 1] != ' '
    ensures LogicalScan(c, |c|, Top, current, acc) == acc + [Chunk(Element, current)]
  {
    assert TrailingSpaces(current) == 0;
    assert current[..|current| - 0] == current;
  }

  /** Four one-character operands joined by padded operators. */
  lemma FourOperands(c: string)
    requires |c| == 16 && OperandAt(c, 0) && OperandAt(c, 5) && OperandAt(c, 10)
    requires Ordinary(c[15]) && c[15] != '&' && c[15] != '|' && c[15] != ' '
    ensures SplitLogical(c)
      == [Chunk(Element, c[0..1]), Chunk(Separator, c[1..5]), Chunk(Element, c[5..6]), Chunk(Separator, c[6..10]),
          Chunk(Element, c[10..11]), Chunk(Separator, c[11..15]), Chunk(Element, c[15..16])]
  {
    var x1, x3, x5, x7 := Chunk(Element, c[0..1]), Chunk(Element, c[5..6]), Chunk(Element, c[10..11]), Chunk(Element, c[15..16]);
    var s2, s4, s6 := Chunk(Separator, c[1..5]), Chunk(Separator, c[6..10]), Chunk(Separator, c[11..15]);
    LogicalOperand(c, 0, []);
    assert [] + [x1, s2] == [x1, s2];
    LogicalOperand(c, 5, [x1, s2]);
    LogicalOperand(c, 10, [x1, s2] + [x3, s4]);
    LogicalRun(c, 15, 16, Top, "", [x1, s2] + [x3, s4] + [x5, s6]);
    assert "" + c[15..16] == c[15..16];
    LogicalLast(c, c[15..16], [x1, s2] + [x3, s4] + [x5, s6]);
    assert [x1, s2] + [x3, s4] + [x5, s6] + [x7] == [x1, s2, x3, s4, x5, s6, x7];
  }

  /** The characters of the `LogicalByOperators` input the step lemmas need. */
  lemma LogicalByOperatorsShape(c: string)
    requires c == "a && b || c && d"
    ensures OperandAt(c, 0) && OperandAt(c, 5) && OperandAt(c, 10)
  {
  }

  /** splitter.test.ts: a logical chain splits at each top-level `&&` and `||`. */
  lemma LogicalByOperators(c: string)
    requires c == "a && b || c && d"
    ensures SplitScope(c, Logical)
      == [Chunk(Element, "a"), Chunk(Separator, " && "), Chunk(Element, "b"), Chunk(Separator, " || "),
          Chunk(Element, "c"), Chunk(Separator, " && "), Chunk(Element, "d")]
  {
    LogicalByOperatorsShape(c);
    FourOperands(c);
    assert c[0..1] == "a" && c[5..6] == "b" && c[10..11] == "c" && c[15..16] == "d";
    assert c[1..5] == " && " && c[6..10] == " || " && c[11..15] == " && ";
  }

  /** `c[i..j]` holds only ordinary characters, and no space where `st` is at the top level. */
  predicate RunIn(c: string, i: nat, j: nat, st: ScanState)
    requires i <= j <= |c|
  {
    forall k :: i <= k < j ==> Ordinary(c[k]) && (c[k] != ' ' || !AtTop(st))
  }

  /** Ordinary characters, and spaces inside a string or brackets, are collected by the props splitter as they are. */
  lemma {:induction false} PropsRun(c: string, i: nat, j: nat, st: ScanState, current: string, acc: seq<Chunk>)
    requires i <= j <= |c| && RunIn(c, i, j, st)
    ensures PropsScan(c, i, st, current, acc) == PropsScan(c, j, st, current + c[i..j], acc)
    decreases j - i
  {
    if i < j {
      PropsScanInElement(c, i, st, current, acc);
      PlainStep(c, i, st);
      PropsRun(c, i + 1, j, st, current + [c[i]], acc);
      assert current + [c[i]] + c[i + 1..j] == current + c[i..j];
    } else {
      assert current + c[i..j] == current;
    }
  }

  /** A prop value `{...}` or a string literal, holding no further brackets or quotes, starts at `i` and ends before `j`. */
  predicate WrappedAt(c: string, i: nat, j: nat)
    requires i + 1 < j <= |c|
  {
    ((c[i] == '{' && c[j - 1] == '}') || (IsQuoteChar(c[i]) && c[j - 1] == c[i] && c[j - 2] != '\\'))
    && forall k :: i < k < j - 1 ==> Ordinary(c[k])
  }

  /** The scanner's state inside a wrapped value that opens at `i`. */
  function WrappedInside(c: string, i: nat): ScanState
    requires i < |c|
  {
    if c[i] == '{' then ScanState(None, ['}']) else ScanState(Some(c[i]), [])
  }

  /** The opening character of a wrapped value enters it and the closing one leaves it. */
  lemma WrappedSteps(c: string, i: nat, j: nat)
    requires i + 1 < j <= |c| && WrappedAt(c, i, j)
    ensures StateStep(Top, c, i) == WrappedInside(c, i)
    ensures StateStep(WrappedInside(c, i), c, j - 1) == Top
    ensures c[i] != ' ' && c[j - 1] != ' ' && !AtTop(WrappedInside(c, i))
    ensures RunIn(c, i + 1, j - 1, WrappedInside(c, i))
  {
    if c[i] == '{' {
      assert Matching('{') == '}';
    }
  }

  /** Entering a wrapped value. */
  lemma WrappedOpen(c: string, i: nat, j: nat, current: string, acc: seq<Chunk>)
    requires i + 1 < j <= |c| && WrappedAt(c, i, j)
    ensures PropsScan(c, i, Top, current, acc) == PropsScan(c, i + 1, WrappedInside(c, i), current + [c[i]], acc)
  {
    WrappedSteps(c, i, j);
    PropsScanInElement(c, i, Top, current, acc);
  }

  /** Leaving a wrapped value. */
  lemma WrappedClose(c: string, i: nat, j: nat, current: string, acc: seq<Chunk>)
    requires i + 1 < j <= |c| && WrappedAt(c, i, j)
    ensures PropsScan(c, j - 1, WrappedInside(c, i), current, acc) == PropsScan(c, j, Top, current + [c[j - 1]], acc)
  {
    WrappedSteps(c, i, j);
    PropsScanInElement(c, j - 1, WrappedInside(c, i), current, acc);
  }

  /** Inside a wrapped value every character is collected. */
  lemma WrappedRun(c: string, i: nat, j: nat, current: string, acc: seq<Chunk>)
    requires i + 1 < j <= |c| && WrappedAt(c, i, j)
    ensures PropsScan(c, i + 1, WrappedInside(c, i), current, acc)
      == PropsScan(c, j - 1, WrappedInside(c, i), current + c[i + 1..j - 1], acc)
  {
    WrappedSteps(c, i, j);
    PropsRun(c, i + 1, j - 1, WrappedInside(c, i), current, acc);
  }

  /** The props splitter collects a wrapped value whole, spaces inside included. */
  lemma PropsWrapped(c: string, i: nat, j: nat, current: string, acc: seq<Chunk>)
    requires i + 1 < j <= |c| && WrappedAt(c, i, j)
    ensures PropsScan(c, i, Top, current, acc) == PropsScan(c, j, Top, current + c[i..j], acc)
  {
    var head := current + [c[i]];
    var t := head + c[i + 1..j - 1];
    WrappedOpen(c, i, j, current, acc);
    WrappedRun(c, i, j, head, acc);
    WrappedClose(c, i, j, t, acc);
    WrappedSpelling(c, i, j, current);
  }

  lemma WrappedSpelling(c: string, i: nat, j: nat, current: string)
    requires i + 1 < j <= |c|
    ensures current + [c[i]] + c[i + 1..j - 1] + [c[j - 1]] == current + c[i..j]
  {
    BracketSpelling(c, i, j);
    assert current + [c[i]] + c[i + 1..j - 1] + [c[j - 1]] == current + ([c[i]] + c[i + 1..j - 1] + [c[j - 1]]);
  }

  /** A prop `name=value`: ordinary characters, then a wrapped value ending at `j`. */
  lemma PropsItem(c: string, i: nat, m: nat, j: nat, acc: seq<Chunk>)
    requires i <= m && m + 1 < j <= |c| && WrappedAt(c, m, j)
    requires forall k :: i <= k < m ==> Ordinary(c[k]) && c[k] != ' '
    ensures PropsScan(c, i, Top, "", acc) == PropsScan(c, j, Top, c[i..j], acc)
  {
    PropsRun(c, i, m, Top, "", acc);
    PropsWrapped(c, m, j, "" + c[i..m], acc);
    assert "" + c[i..m] + c[m..j] == c[i..j];
  }

  /** A single top-level space between props. */
  lemma PropsSpaceCut(c: string, j: nat, current: string, acc: seq<Chunk>)
    requires j + 1 < |c| && c[j] == ' ' && c[j + 1] != ' ' && |current| > 0
    ensures PropsScan(c, j, Top, current, acc)
      == PropsScan(c, j + 1, Top, "", acc + [Chunk(Element, current), Chunk(Separator, " ")])
  {
    PropsScanAtSpace(c, j, Top, current, acc);
    assert acc + [Chunk(Element, current)] + [Chunk(Separator, " ")]
      == acc + [Chunk(Element, current), Chunk(Separator, " ")];
  }

  /** A prop `name=value` followed by one space. */
  lemma PropsItemCut(c: string, i: nat, m: nat, j: nat, acc: seq<Chunk>)
    requires i <= m && m + 1 < j && j + 1 < |c| && WrappedAt(c, m, j)
    requires forall k :: i <= k < m ==> Ordinary(c[k]) && c[k] != ' '
    requires c[j] == ' ' && c[j + 1] != ' '
    ensures PropsScan(c, i, Top, "", acc)
      == PropsScan(c, j + 1, Top, "", acc + [Chunk(Element, c[i..j]), Chunk(Separator, " ")])
  {
    PropsItem(c, i, m, j, acc);
    PropsSpaceCut(c, j, c[i..j], acc);
  }

  /** A bare prop that ends the content. */
  lemma PropsLast(c: string, i: nat, acc: seq<Chunk>)
    requires i < |c| && forall k :: i <= k < |c| ==> Ordinary(c[k]) && c[k] != ' '
    ensures PropsScan(c, i, Top, "", acc) == acc + [Chunk(Element, c[i..])]
  {
    PropsRun(c, i, |c|, Top, "", acc);
    assert "" + c[i..|c|] == c[i..];
  }

  /** Two wrapped props and a bare one, each pair separated by one space. */
  lemma ThreeProps(c: string, m1: nat, j1: nat, m2: nat, j2: nat)
    requires m1 + 1 < j1 && j1 + 1 <= m2 && m2 + 1 < j2 && j2 + 1 < |c|
    requires WrappedAt(c, m1, j1) && WrappedAt(c, m2, j2)
    requires forall k :: 0 <= k < m1 ==> Ordinary(c[k]) && c[k] != ' '
    requires forall k :: j1 + 1 <= k < m2 ==> Ordinary(c[k]) && c[k] != ' '
    requires forall k :: j2 + 1 <= k < |c| ==> Ordinary(c[k]) && c[k] != ' '
    requires c[j1] == ' ' && c[j1 + 1] != ' ' && c[j2] == ' ' && c[j2 + 1] != ' '
    ensures SplitProps(c)
      == [Chunk(Element, c[..j1]), Chunk(Separator, " "), Chunk(Element, c[j1 + 1..j2]), Chunk(Separator, " "), Chunk(Element, c[j2 + 1..])]
  {
    var x1, x3, x5 := Chunk(Element, c[0..j1]), Chunk(Element, c[j1 + 1..j2]), Chunk(Element, c[j2 + 1..]);
    var sep := Chunk(Separator, " ");
    PropsItemCut(c, 0, m1, j1, []);
    assert [] + [x1, sep] == [x1, sep];
    PropsItemCut(c, j1 + 1, m2, j2, [x1, sep]);
    PropsLast(c, j2 + 1, [x1, sep] + [x3, sep]);
    assert [x1, sep] + [x3, sep] + [x5] == [x1, sep, x3, sep, x5];
    assert c[0..j1] == c[..j1];
  }

  /** The characters of the `PropsBySpaces` input the step lemmas need. */
  lemma PropsBySpacesShape(c: string)
    requires c == "a={x} b=\"y z\" c"
    ensures WrappedAt(c, 2, 5) && WrappedAt(c, 8, 13)
    ensures forall k :: 0 <= k < 2 ==> Ordinary(c[k]) && c[k] != ' '
    ensures forall k :: 6 <= k < 8 ==> Ordinary(c[k]) && c[k] != ' '
    ensures forall k :: 14 <= k < |c| ==> Ordinary(c[k]) && c[k] != ' '
    ensures c[..5] == "a={x}" && c[6..13] == "b=\"y z\"" && c[14..] == "c"
  {
  }

  /** splitter.test.ts: props split at top-level spaces, not inside braces or quotes. */
  lemma PropsBySpaces(c: string)
    requires c == "a={x} b=\"y z\" c"
    ensures SplitScope(c, ReactComponent)
      == [Chunk(Element, "a={x}"), Chunk(Separator, " "), Chunk(Element, "b=\"y z\""), Chunk(Separator, " "), Chunk(Element, "c")]
  {
    PropsBySpacesShape(c);
    ThreeProps(c, 2, 5, 8, 13);
  }
}
