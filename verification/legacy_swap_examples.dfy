/**
 * The older adjacent swap on the lines of its unit tests
 * (src/lib/brackets.test.ts), and on the line with a repeated item that
 * shows the value swap as written. Each lemma runs the whole
 * `computeSwapForLine`, from the line and the cursor to the answer.
 *
 * The split is proved from step lemmas over abstract text: a bracket pair
 * with no bracket of its kind inside, and an interior made of flat pieces.
 * A line's lemmas then only check the literal's shape, and which rows of
 * `Types` decline before the one that answers.
 */
module LegacySwapExamples {
  import opened JsText
  import opened Brackets
  import opened LegacySwap

  // ---------------------------------------------------------------------------
  // Step lemmas
  // ---------------------------------------------------------------------------

  /** A character absent from `s[i..j]` is counted zero times there. */
  lemma {:induction false} CountInAbsent(s: string, c: char, i: nat, j: nat)
    requires i <= j <= |s| && forall k :: i <= k < j ==> s[k] != c
    ensures CountIn(s, c, i, j) == 0
    decreases j - i
  {
    if i < j {
      CountInAbsent(s, c, i, j - 1);
    }
  }

  /** A row whose opener does not occur in the line declines it. */
  lemma RowDeclines(text: string, cursor: int, dir: int, k: nat, open: char)
    requires k < |Types()| && (dir == 1 || dir == -1) && Types()[k].open == open
    requires forall j :: 0 <= j < |text| ==> text[j] != open
    ensures SwapWith(text, cursor, dir, Types()[k]).None?
  {
    assert SplitByBracket(text, Types()[k], cursor).None?;
  }

  /** A row whose split is `split` and whose swap over that split is `x`
      answers `x`. */
  lemma RowAnswers(text: string, cursor: int, dir: int, k: nat, split: SplitOutcome, x: SwapOutcome)
    requires k < |Types()| && (dir == 1 || dir == -1)
    requires SplitByBracket(text, Types()[k], cursor) == Some(split)
    requires SwapItems(text, Types()[k], dir, split) == Some(x)
    ensures SwapWith(text, cursor, dir, Types()[k]) == Some(x)
  {
  }

  /** On a line with no `<` and no `{`, the first two rows decline. */
  lemma FirstTwoRowsDecline(text: string, cursor: int, dir: int)
    requires dir == 1 || dir == -1
    requires forall j :: 0 <= j < |text| ==> text[j] != '<' && text[j] != '{'
    ensures forall j :: 0 <= j < 2 ==> SwapWith(text, cursor, dir, Types()[j]).None?
  {
    RowBrackets();
    forall j | 0 <= j < 2
      ensures SwapWith(text, cursor, dir, Types()[j]).None?
    {
      if j == 0 {
        RowDeclines(text, cursor, dir, 0, '<');
      } else {
        RowDeclines(text, cursor, dir, 1, '{');
      }
    }
  }

  /** On a line with no `<` and no `{`, a split and a swap of the `[` row are
      the first answer of the rows. */
  lemma SquareRowFirst(text: string, cursor: int, dir: int, split: SplitOutcome, x: SwapOutcome)
    requires dir == 1 || dir == -1
    requires forall j :: 0 <= j < |text| ==> text[j] != '<' && text[j] != '{'
    requires SplitByBracket(text, Types()[2], cursor) == Some(split)
    requires SwapItems(text, Types()[2], dir, split) == Some(x)
    ensures FirstAnswer(text, cursor, dir, 2, x)
  {
    FirstTwoRowsDecline(text, cursor, dir);
    RowAnswers(text, cursor, dir, 2, split, x);
  }

  /** On a line with no `<`, a split and a swap of the `{` row are the first
      answer of the rows. */
  lemma BraceRowFirst(text: string, cursor: int, dir: int, split: SplitOutcome, x: SwapOutcome)
    requires dir == 1 || dir == -1
    requires forall j :: 0 <= j < |text| ==> text[j] != '<'
    requires SplitByBracket(text, Types()[1], cursor) == Some(split)
    requires SwapItems(text, Types()[1], dir, split) == Some(x)
    ensures FirstAnswer(text, cursor, dir, 1, x)
  {
    RowDeclines(text, cursor, dir, 0, '<');
    RowAnswers(text, cursor, dir, 1, split, x);
  }

  /** Two first answers of the rows are the same answer. */
  lemma FirstAnswerUnique(text: string, cursor: int, dir: int, m: int, k: int, r: SwapOutcome, x: SwapOutcome)
    requires dir == 1 || dir == -1
    requires FirstAnswer(text, cursor, dir, m, r) && FirstAnswer(text, cursor, dir, k, x)
    ensures m == k && r == x
  {
  }

  /** When the rows before `k` decline and row `k` answers, that answer is
      the answer for the line. */
  lemma AnswerOfRow(text: string, cursor: int, dir: int, k: int, x: SwapOutcome)
    requires dir == 1 || dir == -1
    requires FirstAnswer(text, cursor, dir, k, x)
    ensures ComputeSwapForLine(text, cursor, dir) == x
  {
    var r := ComputeSwapForLine(text, cursor, dir);
    assert !r.NoBracket?;
    var m :| FirstAnswer(text, cursor, dir, m, r);
    FirstAnswerUnique(text, cursor, dir, m, k, r, x);
  }

  /** The opener at 0 is the only one of its kind: the first loop stops there. */
  lemma LeftOfLine(text: string, t: BracketType, cursor: nat, right: nat)
    requires 0 < cursor < right && OneBracketPair(text, t.open, t.close, right)
    ensures LeftBracket(text, t.open, cursor) == Some(0)
  {
    assert text[0] == t.open;
  }

  /** The closer at `right` is the only closer, and no opener lies between the
      cursor and it: the second loop stops there. */
  lemma RightOfLine(text: string, t: BracketType, cursor: nat, right: nat)
    requires WellFormedType(t) && 0 < cursor < right && OneBracketPair(text, t.open, t.close, right)
    ensures RightBracket(text, t.open, t.close, cursor) == Some(right)
  {
    CountInAbsent(text, t.open, cursor, right);
    CountInAbsent(text, t.close, cursor, right);
    assert Depth(text, t.open, t.close, cursor, right) == 0;
    assert text[right] == t.close;
  }

  /** Walking over a piece with no separator and no bracket of the row only
      extends the piece being read. */
  lemma {:induction false} PartsRun(s: string, open: char, close: char, separator: char, i: nat, j: nat,
                                    nested: int, current: string, acc: seq<string>)
    requires i <= j <= |s|
    requires forall k :: i <= k < j ==> s[k] != separator && s[k] != open && s[k] != close
    ensures PartsScan(s, open, close, separator, i, nested, current, acc)
      == PartsScan(s, open, close, separator, j, nested, current + s[i..j], acc)
    decreases j - i
  {
    if i == j {
      assert current + s[i..j] == current;
    } else {
      PartsRun(s, open, close, separator, i + 1, j, nested, current + [s[i]], acc);
      assert current + [s[i]] + s[i + 1..j] == current + s[i..j];
    }
  }

  /** `p` holds no separator and no bracket of the row. */
  predicate Flat(p: string, open: char, close: char, separator: char) {
    forall k :: 0 <= k < |p| ==> p[k] != separator && p[k] != open && p[k] != close
  }

  /** Reading the flat piece `p` from `i`, then cutting at the separator after it. */
  lemma PieceThenCut(s: string, open: char, close: char, separator: char, i: nat, p: string, acc: seq<string>)
    requires i + |p| < |s| && s[i..i + |p|] == p && s[i + |p|] == separator
    requires Flat(p, open, close, separator)
    ensures PartsScan(s, open, close, separator, i, 0, "", acc)
      == PartsScan(s, open, close, separator, i + |p| + 1, 0, "", acc + [p])
  {
    PartsRun(s, open, close, separator, i, i + |p|, 0, "", acc);
    assert "" + p == p;
  }

  /** Reading the flat piece `p` from `i` to the end. */
  lemma LastPiece(s: string, open: char, close: char, separator: char, i: nat, p: string, acc: seq<string>)
    requires i + |p| == |s| && s[i..] == p
    requires Flat(p, open, close, separator)
    ensures PartsScan(s, open, close, separator, i, 0, "", acc) == acc + [p]
  {
    PartsRun(s, open, close, separator, i, |s|, 0, "", acc);
    assert "" + s[i..|s|] == p;
  }

  /** Two flat pieces around one separator split into those two pieces. */
  lemma TwoParts(s: string, open: char, close: char, separator: char, p: string, q: string)
    requires open != close && separator != open && separator != close
    requires s == p + [separator] + q
    requires Flat(p, open, close, separator) && Flat(q, open, close, separator)
    ensures SplitParts(s, open, close, separator) == [p, q]
  {
    assert s[0..|p|] == p && s[|p|] == separator;
    PieceThenCut(s, open, close, separator, 0, p, []);
    assert s[|p| + 1..] == q;
    LastPiece(s, open, close, separator, |p| + 1, q, [p]);
    assert [] + [p] == [p] && [p] + [q] == [p, q];
  }

  /** Three flat pieces around two separators split into those three pieces. */
  lemma ThreeParts(s: string, open: char, close: char, separator: char, p: string, q: string, u: string)
    requires open != close && separator != open && separator != close
    requires s == p + [separator] + q + [separator] + u
    requires Flat(p, open, close, separator) && Flat(q, open, close, separator) && Flat(u, open, close, separator)
    ensures SplitParts(s, open, close, separator) == [p, q, u]
  {
    var i := |p| + 1;
    assert s[0..|p|] == p && s[|p|] == separator;
    PieceThenCut(s, open, close, separator, 0, p, []);
    assert s[i..i + |q|] == q && s[i + |q|] == separator;
    PieceThenCut(s, open, close, separator, i, q, [p]);
    assert s[i + |q| + 1..] == u;
    LastPiece(s, open, close, separator, i + |q| + 1, u, [p, q]);
    assert [] + [p] == [p] && [p] + [q] == [p, q] && [p, q] + [u] == [p, q, u];
  }

  /** A one-letter item with one space before it, and maybe one after it, trims to the letter. */
  lemma TrimLetter(x: string, c: char)
    requires x == [' ', c] || x == [' ', c, ' ']
    requires !IsWs(c)
    ensures Trim(x) == [c]
  {
    TrimUnique(x, 1, 2);
  }

  // ---------------------------------------------------------------------------
  // The splits of the test lines
  // ---------------------------------------------------------------------------

  /** A line with one bracket pair of the row, the opener at 0, whose
      interior cuts into `parts` that trim to `items`, and whose item under
      the cursor reads `item`. */
  predicate SplitReady(text: string, t: BracketType, cursor: nat, right: nat, parts: seq<string>,
                       item: string, items: seq<string>)
  {
    WellFormedType(t) && 0 < cursor < right && OneBracketPair(text, t.open, t.close, right)
    && SplitParts(text[1..right], t.open, t.close, t.separator) == parts && TrimAll(parts) == items
    && ItemStart(text, t.separator, t.open, cursor) <= ItemEnd(text, t.separator, t.close, cursor) < |text|
    && text[ItemStart(text, t.separator, t.open, cursor)..ItemEnd(text, t.separator, t.close, cursor) + 1] == item
  }

  /** On such a line the split is known. */
  lemma SplitFrom(text: string, t: BracketType, cursor: nat, right: nat, parts: seq<string>, item: string, items: seq<string>)
    requires SplitReady(text, t, cursor, right, parts, item, items)
    ensures SplitByBracket(text, t, cursor) == Some(SplitOutcome(0, right, item, items))
  {
    LeftOfLine(text, t, cursor, right);
    RightOfLine(text, t, cursor, right);
    assert Slice(text, 1, right) == text[1..right];
  }

  /** The bracket characters of the rows the tests use. */
  lemma RowBrackets()
    ensures Types()[1] == BracketType('{', '}', ',', ", ")
    ensures Types()[2] == BracketType('[', ']', ',', ", ")
  {
  }

  /** A line `o`, items, `c`: the opener only at 0, the closer only at `right`. */
  predicate OneBracketPair(text: string, o: char, c: char, right: nat) {
    0 < right < |text| && text[0] == o && text[right] == c
    && (forall k :: 0 < k < |text| ==> text[k] != o)
    && (forall k :: 0 <= k < |text| && k != right ==> text[k] != c)
  }

  /** A bracket pair of the row around text with no bracket of the row: the
      opener is the only one, and the closer the only closer. */
  lemma PairAround(text: string, t: BracketType, inner: string)
    requires WellFormedType(t) && text == [t.open] + inner + [t.close]
    requires forall k :: 0 <= k < |inner| ==> inner[k] != t.open && inner[k] != t.close
    ensures OneBracketPair(text, t.open, t.close, |text| - 1)
    ensures text[1..|text| - 1] == inner
  {
    forall k | 0 < k < |text| - 1
      ensures text[k] == inner[k - 1]
    {
    }
  }

  /** Three flat items cut by the row's separator hold no bracket of the row. */
  lemma NoBracketInThree(t: BracketType, p: string, q: string, u: string)
    requires WellFormedType(t)
    requires Flat(p, t.open, t.close, t.separator) && Flat(q, t.open, t.close, t.separator) && Flat(u, t.open, t.close, t.separator)
    ensures var inner := p + [t.separator] + q + [t.separator] + u;
      forall k :: 0 <= k < |inner| ==> inner[k] != t.open && inner[k] != t.close
  {
    var inner := p + [t.separator] + q + [t.separator] + u;
    forall k | 0 <= k < |inner|
      ensures inner[k] != t.open && inner[k] != t.close
    {
      if k < |p| {
        assert inner[k] == p[k];
      } else if k == |p| {
      } else if k < |p| + 1 + |q| {
        assert inner[k] == q[k - |p| - 1];
      } else if k == |p| + 1 + |q| {
      } else {
        assert inner[k] == u[k - |p| - |q| - 2];
      }
    }
  }

  /** Two flat items cut by the row's separator hold no bracket of the row. */
  lemma NoBracketInTwo(t: BracketType, p: string, q: string)
    requires WellFormedType(t)
    requires Flat(p, t.open, t.close, t.separator) && Flat(q, t.open, t.close, t.separator)
    ensures var inner := p + [t.separator] + q;
      forall k :: 0 <= k < |inner| ==> inner[k] != t.open && inner[k] != t.close
  {
    var inner := p + [t.separator] + q;
    forall k | 0 <= k < |inner|
      ensures inner[k] != t.open && inner[k] != t.close
    {
      if k < |p| {
        assert inner[k] == p[k];
      } else if k > |p| {
        assert inner[k] == q[k - |p| - 1];
      }
    }
  }

  /** Three flat items in a bracket pair of the row, with the ends of the
      item under the cursor at `a` and `b`. */
  lemma ThreeItemReady(text: string, t: BracketType, cursor: nat, p: string, q: string, u: string,
                       a: nat, b: nat, item: string, items: seq<string>)
    requires WellFormedType(t)
    requires text == [t.open] + (p + [t.separator] + q + [t.separator] + u) + [t.close]
    requires Flat(p, t.open, t.close, t.separator) && Flat(q, t.open, t.close, t.separator) && Flat(u, t.open, t.close, t.separator)
    requires 0 < cursor < |text| - 1
    requires ItemStart(text, t.separator, t.open, cursor) == a && ItemEnd(text, t.separator, t.close, cursor) == b
    requires a <= b < |text| && text[a..b + 1] == item && TrimAll([p, q, u]) == items
    ensures SplitReady(text, t, cursor, |text| - 1, [p, q, u], item, items)
  {
    var inner := p + [t.separator] + q + [t.separator] + u;
    NoBracketInThree(t, p, q, u);
    PairAround(text, t, inner);
    ThreeParts(inner, t.open, t.close, t.separator, p, q, u);
  }

  /** Two flat items in a bracket pair of the row, with the ends of the item
      under the cursor at `a` and `b`. */
  lemma TwoItemReady(text: string, t: BracketType, cursor: nat, p: string, q: string,
                     a: nat, b: nat, item: string, items: seq<string>)
    requires WellFormedType(t)
    requires text == [t.open] + (p + [t.separator] + q) + [t.close]
    requires Flat(p, t.open, t.close, t.separator) && Flat(q, t.open, t.close, t.separator)
    requires 0 < cursor < |text| - 1
    requires ItemStart(text, t.separator, t.open, cursor) == a && ItemEnd(text, t.separator, t.close, cursor) == b
    requires a <= b < |text| && text[a..b + 1] == item && TrimAll([p, q]) == items
    ensures SplitReady(text, t, cursor, |text| - 1, [p, q], item, items)
  {
    var inner := p + [t.separator] + q;
    NoBracketInTwo(t, p, q);
    PairAround(text, t, inner);
    TwoParts(inner, t.open, t.close, t.separator, p, q);
  }

  /** Three one-letter items, the last with a space after it, trim to their letters. */
  lemma TrimThree(x: char, y: char, z: char)
    requires !IsWs(x) && !IsWs(y) && !IsWs(z)
    ensures TrimAll([[' ', x], [' ', y], [' ', z, ' ']]) == [[x], [y], [z]]
  {
    TrimLetter([' ', x], x);
    TrimLetter([' ', y], y);
    TrimLetter([' ', z, ' '], z);
  }

  /** Two one-letter items, the last with a space after it, trim to their letters. */
  lemma TrimTwo(x: char, y: char)
    requires !IsWs(x) && !IsWs(y)
    ensures TrimAll([[' ', x], [' ', y, ' ']]) == [[x], [y]]
  {
    TrimLetter([' ', x], x);
    TrimLetter([' ', y, ' '], y);
  }

  /** `[ a, b, c ]` with the cursor on `a` (2). */
  lemma ReadyABCOnA()
    ensures SplitReady("[ a, b, c ]", Types()[2], 2, 10, [" a", " b", " c "], " a", ["a", "b", "c"])
  {
    var text := "[ a, b, c ]";
    RowBrackets();
    assert text == ['['] + (" a" + [','] + " b" + [','] + " c ") + [']'];
    TrimThree('a', 'b', 'c');
    assert ItemStart(text, ',', '[', 2) == 1 && ItemEnd(text, ',', ']', 2) == 2;
    assert text[1..3] == " a";
    ThreeItemReady(text, Types()[2], 2, " a", " b", " c ", 1, 2, " a", ["a", "b", "c"]);
  }

  /** `[ a, b, c ]` with the cursor on `b` (5). */
  lemma ReadyABCOnB()
    ensures SplitReady("[ a, b, c ]", Types()[2], 5, 10, [" a", " b", " c "], " b", ["a", "b", "c"])
  {
    var text := "[ a, b, c ]";
    RowBrackets();
    assert text == ['['] + (" a" + [','] + " b" + [','] + " c ") + [']'];
    TrimThree('a', 'b', 'c');
    assert ItemStart(text, ',', '[', 5) == 4 && ItemEnd(text, ',', ']', 5) == 5;
    assert text[4..6] == " b";
    ThreeItemReady(text, Types()[2], 5, " a", " b", " c ", 4, 5, " b", ["a", "b", "c"]);
  }

  /** `[ a, b, c ]` with the cursor on `a` (2) or on `b` (5). */
  lemma SplitABC(cursor: nat, item: string)
    requires (cursor, item) == (2, " a") || (cursor, item) == (5, " b")
    ensures SplitByBracket("[ a, b, c ]", Types()[2], cursor) == Some(SplitOutcome(0, 10, item, ["a", "b", "c"]))
  {
    if cursor == 2 {
      ReadyABCOnA();
    } else {
      ReadyABCOnB();
    }
    SplitFrom("[ a, b, c ]", Types()[2], cursor, 10, [" a", " b", " c "], item, ["a", "b", "c"]);
  }

  /** `{ x, y, z }` with the cursor on `y` (5). */
  lemma ReadyXYZ()
    ensures SplitReady("{ x, y, z }", Types()[1], 5, 10, [" x", " y", " z "], " y", ["x", "y", "z"])
  {
    var text := "{ x, y, z }";
    RowBrackets();
    assert text == ['{'] + (" x" + [','] + " y" + [','] + " z ") + ['}'];
    TrimThree('x', 'y', 'z');
    assert ItemStart(text, ',', '{', 5) == 4 && ItemEnd(text, ',', '}', 5) == 5;
    assert text[4..6] == " y";
    ThreeItemReady(text, Types()[1], 5, " x", " y", " z ", 4, 5, " y", ["x", "y", "z"]);
  }

  /** `{ x, y, z }` with the cursor on `y` (5). */
  lemma SplitXYZ()
    ensures SplitByBracket("{ x, y, z }", Types()[1], 5) == Some(SplitOutcome(0, 10, " y", ["x", "y", "z"]))
  {
    ReadyXYZ();
    SplitFrom("{ x, y, z }", Types()[1], 5, 10, [" x", " y", " z "], " y", ["x", "y", "z"]);
  }

  /** `[ a, b ]` with the cursor on `b` (5). */
  lemma ReadyAB()
    ensures SplitReady("[ a, b ]", Types()[2], 5, 7, [" a", " b "], " b ", ["a", "b"])
  {
    var text := "[ a, b ]";
    RowBrackets();
    assert text == ['['] + (" a" + [','] + " b ") + [']'];
    TrimTwo('a', 'b');
    assert ItemStart(text, ',', '[', 5) == 4 && ItemEnd(text, ',', ']', 5) == 6;
    assert text[4..7] == " b ";
    TwoItemReady(text, Types()[2], 5, " a", " b ", 4, 6, " b ", ["a", "b"]);
  }

  /** `[ a, b ]` with the cursor on `b` (5): the fourth loop steps over the
      space after `b`, since the character one ahead of `b` is that space and
      not `]`, so the item text keeps it. */
  lemma SplitAB()
    ensures SplitByBracket("[ a, b ]", Types()[2], 5) == Some(SplitOutcome(0, 7, " b ", ["a", "b"]))
  {
    ReadyAB();
    SplitFrom("[ a, b ]", Types()[2], 5, 7, [" a", " b "], " b ", ["a", "b"]);
  }

  /** `[ a, a, b ]` with the cursor on `b` (8). */
  lemma ReadyAAB()
    ensures SplitReady("[ a, a, b ]", Types()[2], 8, 10, [" a", " a", " b "], " b ", ["a", "a", "b"])
  {
    var text := "[ a, a, b ]";
    RowBrackets();
    assert text == ['['] + (" a" + [','] + " a" + [','] + " b ") + [']'];
    TrimThree('a', 'a', 'b');
    assert ItemStart(text, ',', '[', 8) == 7 && ItemEnd(text, ',', ']', 8) == 9;
    assert text[7..10] == " b ";
    ThreeItemReady(text, Types()[2], 8, " a", " a", " b ", 7, 9, " b ", ["a", "a", "b"]);
  }

  /** `[ a, a, b ]` with the cursor on `b` (8): the item text keeps the space
      after `b` here too. */
  lemma SplitAAB()
    ensures SplitByBracket("[ a, a, b ]", Types()[2], 8) == Some(SplitOutcome(0, 10, " b ", ["a", "a", "b"]))
  {
    ReadyAAB();
    SplitFrom("[ a, a, b ]", Types()[2], 8, 10, [" a", " a", " b "], " b ", ["a", "a", "b"]);
  }

  // ---------------------------------------------------------------------------
  // The swaps after the split
  // ---------------------------------------------------------------------------

  /** The rebuilt text `[ b, a, c ]`, selecting the item at `target`. */
  lemma RebuildBAC(word: string, target: nat, start: int)
    requires (word, target, start) == ("a", 1, 5) || (word, target, start) == ("b", 0, 2)
    ensures Rebuild("[ a, b, c ]", Types()[2], 0, 10, ["b", "a", "c"], target, word)
      == SwapResult(0, 10, "[ b, a, c ]", start, start + 1, word)
  {
    var text := "[ a, b, c ]";
    var n := ["b", "a", "c"];
    var joined := Join(n, ", ");
    assert joined == "b, a, c" by {
      assert n[..2] == ["b", "a"];
      assert ["b", "a"][..1] == ["b"];
    }
    assert SelectionOffset(n, 2, target) == start - 2;
    assert CharIs(text, 1, ' ');
    assert [text[0]] + " " + joined + " " + [text[10]] == "[ b, a, c ]";
  }

  /** `a` moving right in `[ a, b, c ]` gives `[ b, a, c ]` with `a` selected. */
  lemma SwapRightItems()
    ensures SwapItems("[ a, b, c ]", Types()[2], 1, SplitOutcome(0, 10, " a", ["a", "b", "c"]))
      == Some(Swapped(Types()[2], SwapResult(0, 10, "[ b, a, c ]", 5, 6, "a")))
  {
    TrimLetter(" a", 'a');
    assert IndexOfItem(["a", "b", "c"], "a") == 0;
    assert SwapByValue(["a", "b", "c"], "a", "b") == ["b", "a", "c"];
    RebuildBAC("a", 1, 5);
  }

  /** `b` moving left in `[ a, b, c ]` gives `[ b, a, c ]` with `b` selected. */
  lemma SwapLeftItems()
    ensures SwapItems("[ a, b, c ]", Types()[2], -1, SplitOutcome(0, 10, " b", ["a", "b", "c"]))
      == Some(Swapped(Types()[2], SwapResult(0, 10, "[ b, a, c ]", 2, 3, "b")))
  {
    TrimLetter(" b", 'b');
    assert IndexOfItem(["a", "b", "c"], "b") == 1;
    assert SwapByValue(["a", "b", "c"], "b", "a") == ["b", "a", "c"];
    RebuildBAC("b", 0, 2);
  }

  /** The rebuilt text `{ x, z, y }`, selecting `y`. */
  lemma RebuildXZY()
    ensures Rebuild("{ x, y, z }", Types()[1], 0, 10, ["x", "z", "y"], 2, "y")
      == SwapResult(0, 10, "{ x, z, y }", 8, 9, "y")
  {
    var text := "{ x, y, z }";
    var n := ["x", "z", "y"];
    var joined := Join(n, ", ");
    assert joined == "x, z, y" by {
      assert n[..2] == ["x", "z"];
      assert ["x", "z"][..1] == ["x"];
    }
    assert SelectionOffset(n, 2, 2) == 6;
    assert CharIs(text, 1, ' ');
    assert [text[0]] + " " + joined + " " + [text[10]] == "{ x, z, y }";
  }

  /** `y` moving right in `{ x, y, z }` gives `{ x, z, y }` with `y` selected. */
  lemma SwapBracesItems()
    ensures SwapItems("{ x, y, z }", Types()[1], 1, SplitOutcome(0, 10, " y", ["x", "y", "z"]))
      == Some(Swapped(Types()[1], SwapResult(0, 10, "{ x, z, y }", 8, 9, "y")))
  {
    TrimLetter(" y", 'y');
    assert IndexOfItem(["x", "y", "z"], "y") == 1;
    assert SwapByValue(["x", "y", "z"], "y", "z") == ["x", "z", "y"];
    RebuildXZY();
  }

  /** The rebuilt text `[ b, b, a ]`, selecting the item at 1. */
  lemma RebuildBBA()
    ensures Rebuild("[ a, a, b ]", Types()[2], 0, 10, ["b", "b", "a"], 1, "b")
      == SwapResult(0, 10, "[ b, b, a ]", 5, 6, "b")
  {
    var text := "[ a, a, b ]";
    var n := ["b", "b", "a"];
    var joined := Join(n, ", ");
    assert joined == "b, b, a" by {
      assert n[..2] == ["b", "b"];
      assert ["b", "b"][..1] == ["b"];
    }
    assert SelectionOffset(n, 2, 1) == 3;
    assert CharIs(text, 1, ' ');
    assert [text[0]] + " " + joined + " " + [text[10]] == "[ b, b, a ]";
  }

  /** `b` moving left in `[ a, a, b ]`: the value swap turns both `a`s into
      `b`s, giving `[ b, b, a ]` with the second `b` selected. */
  lemma SwapDuplicatesItems()
    ensures SwapItems("[ a, a, b ]", Types()[2], -1, SplitOutcome(0, 10, " b ", ["a", "a", "b"]))
      == Some(Swapped(Types()[2], SwapResult(0, 10, "[ b, b, a ]", 5, 6, "b")))
  {
    TrimLetter(" b ", 'b');
    assert IndexOfItem(["a", "a", "b"], "b") == 2;
    SwapByValueDuplicates();
    RebuildBBA();
  }

  /** `b` moving right in `[ a, b ]`: the target lies past the end. */
  lemma SwapEdgeItems()
    ensures SwapItems("[ a, b ]", Types()[2], 1, SplitOutcome(0, 7, " b ", ["a", "b"])) == Some(Blocked(Types()[2]))
  {
    TrimLetter(" b ", 'b');
    assert IndexOfItem(["a", "b"], "b") == 1;
  }

  // ---------------------------------------------------------------------------
  // The tests, from the line and the cursor
  // ---------------------------------------------------------------------------

  /** The line holds no `<` and no `{`. */
  lemma NoAngleOrBrace(text: string)
    requires text == "[ a, b, c ]" || text == "[ a, b ]" || text == "[ a, a, b ]"
    ensures forall j :: 0 <= j < |text| ==> text[j] != '<' && text[j] != '{'
  {
  }

  /** The line holds no `<`. */
  lemma NoAngle(text: string)
    requires text == "{ x, y, z }"
    ensures forall j :: 0 <= j < |text| ==> text[j] != '<'
  {
  }

  /** The rows of `[ a, b, c ]` at 2, moving right: the first two rows decline and row 2 answers. */
  lemma SwapRightRows()
    ensures FirstAnswer("[ a, b, c ]", 2, 1, 2, Swapped(Types()[2], SwapResult(0, 10, "[ b, a, c ]", 5, 6, "a")))
  {
    SplitABC(2, " a");
    SwapRightItems();
    NoAngleOrBrace("[ a, b, c ]");
    SquareRowFirst("[ a, b, c ]", 2, 1, SplitOutcome(0, 10, " a", ["a", "b", "c"]), Swapped(Types()[2], SwapResult(0, 10, "[ b, a, c ]", 5, 6, "a")));
  }

  /** brackets.test.ts: `[ a, b, c ]` with the cursor on `a`, moving right,
      becomes `[ b, a, c ]` with `a` selected. */
  lemma SwapRightExample()
    ensures ComputeSwapForLine("[ a, b, c ]", 2, 1) == Swapped(Types()[2], SwapResult(0, 10, "[ b, a, c ]", 5, 6, "a"))
  {
    SwapRightRows();
    AnswerOfRow("[ a, b, c ]", 2, 1, 2, Swapped(Types()[2], SwapResult(0, 10, "[ b, a, c ]", 5, 6, "a")));
  }

  /** The rows of `[ a, b, c ]` at 5, moving left: the first two rows decline and row 2 answers. */
  lemma SwapLeftRows()
    ensures FirstAnswer("[ a, b, c ]", 5, -1, 2, Swapped(Types()[2], SwapResult(0, 10, "[ b, a, c ]", 2, 3, "b")))
  {
    SplitABC(5, " b");
    SwapLeftItems();
    NoAngleOrBrace("[ a, b, c ]");
    SquareRowFirst("[ a, b, c ]", 5, -1, SplitOutcome(0, 10, " b", ["a", "b", "c"]), Swapped(Types()[2], SwapResult(0, 10, "[ b, a, c ]", 2, 3, "b")));
  }

  /** brackets.test.ts: `[ a, b, c ]` with the cursor on `b`, moving left,
      becomes `[ b, a, c ]` with `b` selected. */
  lemma SwapLeftExample()
    ensures ComputeSwapForLine("[ a, b, c ]", 5, -1) == Swapped(Types()[2], SwapResult(0, 10, "[ b, a, c ]", 2, 3, "b"))
  {
    SwapLeftRows();
    AnswerOfRow("[ a, b, c ]", 5, -1, 2, Swapped(Types()[2], SwapResult(0, 10, "[ b, a, c ]", 2, 3, "b")));
  }

  /** The rows of `{ x, y, z }` at 5, moving right: the first row declines and row 1 answers. */
  lemma BracesRows()
    ensures FirstAnswer("{ x, y, z }", 5, 1, 1, Swapped(Types()[1], SwapResult(0, 10, "{ x, z, y }", 8, 9, "y")))
  {
    SplitXYZ();
    SwapBracesItems();
    NoAngle("{ x, y, z }");
    BraceRowFirst("{ x, y, z }", 5, 1, SplitOutcome(0, 10, " y", ["x", "y", "z"]), Swapped(Types()[1], SwapResult(0, 10, "{ x, z, y }", 8, 9, "y")));
  }

  /** brackets.test.ts: `{ x, y, z }` with the cursor on `y`, moving right,
      becomes `{ x, z, y }`. */
  lemma BracesExample()
    ensures ComputeSwapForLine("{ x, y, z }", 5, 1) == Swapped(Types()[1], SwapResult(0, 10, "{ x, z, y }", 8, 9, "y"))
  {
    BracesRows();
    AnswerOfRow("{ x, y, z }", 5, 1, 1, Swapped(Types()[1], SwapResult(0, 10, "{ x, z, y }", 8, 9, "y")));
  }

  /** The rows of `[ a, b ]` at 5, moving right: the first two rows decline and row 2 answers. */
  lemma EdgeRows()
    ensures FirstAnswer("[ a, b ]", 5, 1, 2, Blocked(Types()[2]))
  {
    SplitAB();
    SwapEdgeItems();
    NoAngleOrBrace("[ a, b ]");
    SquareRowFirst("[ a, b ]", 5, 1, SplitOutcome(0, 7, " b ", ["a", "b"]), Blocked(Types()[2]));
  }

  /** brackets.test.ts: `[ a, b ]` with the cursor on `b`, moving right: the
      row answers without a result. */
  lemma EdgeExample()
    ensures ComputeSwapForLine("[ a, b ]", 5, 1) == Blocked(Types()[2])
  {
    EdgeRows();
    AnswerOfRow("[ a, b ]", 5, 1, 2, Blocked(Types()[2]));
  }

  /** The rows of `[ a, a, b ]` at 8, moving left: the first two rows decline and row 2 answers. */
  lemma DuplicatesRows()
    ensures FirstAnswer("[ a, a, b ]", 8, -1, 2, Swapped(Types()[2], SwapResult(0, 10, "[ b, b, a ]", 5, 6, "b")))
  {
    SplitAAB();
    SwapDuplicatesItems();
    NoAngleOrBrace("[ a, a, b ]");
    SquareRowFirst("[ a, a, b ]", 8, -1, SplitOutcome(0, 10, " b ", ["a", "a", "b"]), Swapped(Types()[2], SwapResult(0, 10, "[ b, b, a ]", 5, 6, "b")));
  }

  /** `[ a, a, b ]` with the cursor on `b`, moving left, becomes `[ b, b, a ]`:
      the value swap as written. */
  lemma DuplicatesExample()
    ensures ComputeSwapForLine("[ a, a, b ]", 8, -1) == Swapped(Types()[2], SwapResult(0, 10, "[ b, b, a ]", 5, 6, "b"))
  {
    DuplicatesRows();
    AnswerOfRow("[ a, a, b ]", 8, -1, 2, Swapped(Types()[2], SwapResult(0, 10, "[ b, b, a ]", 5, 6, "b")));
  }
}
