/**
 * The older adjacent-swap routine: find the innermost bracket of one of four
 * kinds around the cursor, split its interior into items at top-level
 * separators, and exchange the item under the cursor with its neighbour.
 */
module LegacySwap {
  import opened JsText
  import opened Brackets

  // ---------------------------------------------------------------------------
  // The bracket table (lines 1-15)
  // ---------------------------------------------------------------------------

  /** One row of `types`: the bracket characters, the one-character separator
      the interior is split at, and the text the items are joined with. */
  datatype BracketType = BracketType(open: char, close: char, separator: char, joiner: string)

  /** The characters of a row are pairwise distinct, and the joiner starts
      with the separator. */
  predicate WellFormedType(t: BracketType) {
    t.open != t.close && t.separator != t.open && t.separator != t.close
    && |t.joiner| > 0 && t.joiner[0] == t.separator
  }

  /** The rows in the order they are tried: angle brackets split at spaces,
      the other three at commas. */
  function Types(): (r: seq<BracketType>)
    ensures |r| == 4 && forall k :: 0 <= k < |r| ==> WellFormedType(r[k])
    ensures r[0].open == '<' && r[0].separator == ' ' && r[0].joiner == " "
    ensures forall k :: 1 <= k < |r| ==> r[k].separator == ',' && r[k].joiner == ", "
  {
    [
      BracketType('<', '>', ' ', " "),
      BracketType('{', '}', ',', ", "),
      BracketType('[', ']', ',', ", "),
      BracketType('(', ')', ',', ", ")
    ]
  }

  // ---------------------------------------------------------------------------
  // splitByBracket (lines 33-115)
  // ---------------------------------------------------------------------------

  /** The first loop: walking left from `pos`, the nearest opener (the cursor
      position itself included), without regard to nesting. */
  function LeftBracket(text: string, open: char, pos: int): (r: Option<nat>)
    ensures r.Some? ==> r.value <= pos < |text| && text[r.value] == open
    ensures r.Some? ==> forall k :: r.value < k <= pos ==> text[k] != open
    ensures r.None? <==> !(0 <= pos < |text|) || forall k :: 0 <= k <= pos ==> text[k] != open
    decreases pos + 1
  {
    if pos < 0 || pos >= |text| then None
    else if text[pos] == open then Some(pos)
    else LeftBracket(text, open, pos - 1)
  }

  /** The second loop: walking right from the cursor, the first closer met
      while the openers and closers passed since the cursor balance. */
  function RightBracket(text: string, open: char, close: char, start: nat): (r: Option<nat>)
    requires start <= |text| && open != close
    ensures r.Some? ==> start <= r.value < |text| && text[r.value] == close && Depth(text, open, close, start, r.value) == 0
    ensures r.Some? ==> forall j :: start <= j < r.value && text[j] == close ==> Depth(text, open, close, start, j) > 0
    ensures r.None? ==> forall j :: start <= j < |text| && text[j] == close ==> Depth(text, open, close, start, j) > 0
  {
    RightScan(text, open, close, start, start, 0)
  }

  function RightScan(text: string, open: char, close: char, start: nat, pos: nat, nested: nat): (r: Option<nat>)
    requires start <= pos <= |text| && open != close
    requires nested == Depth(text, open, close, start, pos)
    requires forall j :: start <= j < pos && text[j] == close ==> Depth(text, open, close, start, j) > 0
    ensures r.Some? ==> pos <= r.value < |text| && text[r.value] == close && Depth(text, open, close, start, r.value) == 0
    ensures r.Some? ==> forall j :: start <= j < r.value && text[j] == close ==> Depth(text, open, close, start, j) > 0
    ensures r.None? ==> forall j :: start <= j < |text| && text[j] == close ==> Depth(text, open, close, start, j) > 0
    decreases |text| - pos
  {
    if pos >= |text| then None
    else if text[pos] == open then RightScan(text, open, close, start, pos + 1, nested + 1)
    else if text[pos] == close then
      if nested == 0 then Some(pos) else RightScan(text, open, close, start, pos + 1, nested - 1)
    else RightScan(text, open, close, start, pos + 1, nested)
  }

  /** The third loop: the start of the item under the cursor, just after the
      nearest separator or opener to the left (or the line start). */
  function ItemStart(text: string, separator: char, open: char, p: nat): (r: nat)
    requires p <= |text|
    ensures r <= p
    ensures forall k :: r <= k < p ==> text[k] != separator && text[k] != open
    ensures r == 0 || text[r - 1] == separator || text[r - 1] == open
  {
    if p == 0 then 0
    else if text[p - 1] == separator || text[p - 1] == open then p
    else ItemStart(text, separator, open, p - 1)
  }

  /** The fourth loop: the last index of the item under the cursor, just
      before the next separator or closer to the right (or the line end). */
  function ItemEnd(text: string, separator: char, close: char, p: nat): (r: nat)
    requires p <= |text|
    ensures p <= r <= |text|
    ensures forall k :: p < k <= r && k < |text| ==> text[k] != separator && text[k] != close
    ensures r < |text| ==> r + 1 < |text| && (text[r + 1] == separator || text[r + 1] == close)
    decreases |text| - p
  {
    if p >= |text| then p
    else if p + 1 < |text| && (text[p + 1] == separator || text[p + 1] == close) then p
    else ItemEnd(text, separator, close, p + 1)
  }

  /** `Array.prototype.join`. */
  function Join(xs: seq<string>, joiner: string): string
    decreases |xs|
  {
    if |xs| == 0 then ""
    else if |xs| == 1 then xs[0]
    else Join(xs[..|xs| - 1], joiner) + joiner + xs[|xs| - 1]
  }

  lemma JoinPush(xs: seq<string>, joiner: string, y: string)
    requires |xs| > 0
    ensures Join(xs + [y], joiner) == Join(xs, joiner) + joiner + y
  {
    assert (xs + [y])[..|xs|] == xs;
  }

  lemma JoinExtendLast(xs: seq<string>, joiner: string, y: string, z: string)
    ensures Join(xs + [y + z], joiner) == Join(xs + [y], joiner) + z
  {
    if |xs| > 0 {
      JoinPush(xs, joiner, y + z);
      JoinPush(xs, joiner, y);
    }
  }

  /** Position `k` of `s` is a separator outside every nested bracket pair. */
  predicate TopSeparator(s: string, open: char, close: char, separator: char, k: nat)
    requires k < |s|
  {
    s[k] == separator && Depth(s, open, close, 0, k) == 0
  }

  /** Number of top-level separators in `s[..j]`. */
  function TopSeparators(s: string, open: char, close: char, separator: char, j: nat): nat
    requires j <= |s|
  {
    if j == 0 then 0
    else TopSeparators(s, open, close, separator, j - 1) + (if TopSeparator(s, open, close, separator, j - 1) then 1 else 0)
  }

  /** The character loop over the bracket interior: the untrimmed pieces
      between top-level separators. Joined back with the separator they
      give the interior, and there is one more piece than separators. */
  function SplitParts(s: string, open: char, close: char, separator: char): (r: seq<string>)
    requires open != close && separator != open && separator != close
    ensures Join(r, [separator]) == s
    ensures |r| == TopSeparators(s, open, close, separator, |s|) + 1
  {
    assert s[..0] == [];
    PartsScanSound(s, open, close, separator, 0, 0, "", []);
    PartsScan(s, open, close, separator, 0, 0, "", [])
  }

  /** The loop from index `i` on, with the bracket depth `nested`, the piece
      `current` being read and the pieces `acc` already cut. */
  function PartsScan(s: string, open: char, close: char, separator: char, i: nat, nested: int,
                     current: string, acc: seq<string>): seq<string>
    requires i <= |s|
    decreases |s| - i
  {
    if i == |s| then acc + [current]
    else
      var c := s[i];
      if c == separator && nested == 0 then PartsScan(s, open, close, separator, i + 1, nested, "", acc + [current])
      else
        var nested' := if c == open then nested + 1 else if c == close then nested - 1 else nested;
        PartsScan(s, open, close, separator, i + 1, nested', current + [c], acc)
  }

  /** With `nested` the depth before `i`, the cut pieces and the current one
      joined back giving `s[..i]`, and one cut piece per top-level separator
      so far, the loop's pieces join back to `s`, one more than there are
      top-level separators. */
  lemma {:induction false} PartsScanSound(s: string, open: char, close: char, separator: char, i: nat, nested: int,
                                          current: string, acc: seq<string>)
    requires open != close && separator != open && separator != close
    requires i <= |s| && nested == Depth(s, open, close, 0, i)
    requires Join(acc + [current], [separator]) == s[..i]
    requires |acc| == TopSeparators(s, open, close, separator, i)
    ensures Join(PartsScan(s, open, close, separator, i, nested, current, acc), [separator]) == s
    ensures |PartsScan(s, open, close, separator, i, nested, current, acc)| == TopSeparators(s, open, close, separator, |s|) + 1
    decreases |s| - i
  {
    if i == |s| {
      assert s[..i] == s;
    } else {
      var c := s[i];
      assert s[..i + 1] == s[..i] + [c];
      if c == separator && nested == 0 {
        JoinPush(acc + [current], [separator], "");
        assert acc + [current] + [""] == (acc + [current]) + [""];
        PartsScanSound(s, open, close, separator, i + 1, nested, "", acc + [current]);
      } else {
        JoinExtendLast(acc, [separator], current, [c]);
        var nested' := if c == open then nested + 1 else if c == close then nested - 1 else nested;
        PartsScanSound(s, open, close, separator, i + 1, nested', current + [c], acc);
      }
    }
  }

  /** `result.map((item) => item.trim())` */
  function TrimAll(parts: seq<string>): (r: seq<string>)
    ensures |r| == |parts| && forall k :: 0 <= k < |r| ==> r[k] == Trim(parts[k])
  {
    seq(|parts|, k requires 0 <= k < |parts| => Trim(parts[k]))
  }

  /** What `splitByBracket` reports. */
  datatype SplitOutcome = SplitOutcome(leftBracketPos: nat, rightBracketPos: nat, currentItemText: string, items: seq<string>)

  /** `splitByBracket`: nothing when no opener lies at or left of the cursor
      or no balanced closer lies right of it; otherwise the two brackets, the
      text of the item under the cursor and the trimmed top-level items of
      the interior. */
  function SplitByBracket(text: string, t: BracketType, cursor: int): (r: Option<SplitOutcome>)
    requires WellFormedType(t)
    ensures r.None? <==>
      !(0 <= cursor < |text|)
      || (forall k :: 0 <= k <= cursor ==> text[k] != t.open)
      || (forall j :: cursor <= j < |text| && text[j] == t.close ==> Depth(text, t.open, t.close, cursor, j) > 0)
    ensures r.Some? ==> var o := r.value;
      o.leftBracketPos <= cursor <= o.rightBracketPos < |text| && o.leftBracketPos < o.rightBracketPos
      && text[o.leftBracketPos] == t.open && text[o.rightBracketPos] == t.close
      && (forall k :: o.leftBracketPos < k <= cursor ==> text[k] != t.open)
    ensures r.Some? ==> InteriorItems(text, t, r.value.leftBracketPos, r.value.rightBracketPos, r.value.items)
    ensures r.Some? ==> 0 <= cursor && r.value.currentItemText == CurrentItem(text, t, cursor)
  {
    match LeftBracket(text, t.open, cursor)
    case None => None
    case Some(leftBracketPos) =>
      assert cursor < |text|;
      match RightBracket(text, t.open, t.close, cursor)
      case None => None
      case Some(rightBracketPos) =>
        SplitBetween(text, t, cursor, leftBracketPos, rightBracketPos)
  }

  /** `items` are the trimmed top-level pieces of the text strictly between
      the brackets at `leftBracketPos` and `rightBracketPos`: one more than
      there are top-level separators. */
  predicate InteriorItems(text: string, t: BracketType, leftBracketPos: nat, rightBracketPos: nat, items: seq<string>)
    requires WellFormedType(t) && leftBracketPos < rightBracketPos < |text|
  {
    var inner := text[leftBracketPos + 1..rightBracketPos];
    |items| == TopSeparators(inner, t.open, t.close, t.separator, |inner|) + 1
    && items == TrimAll(SplitParts(inner, t.open, t.close, t.separator))
  }

  /** The text of the item under the cursor: from the start the third loop
      finds through the end the fourth loop finds, both included. */
  function CurrentItem(text: string, t: BracketType, cursor: nat): string
    requires cursor <= |text|
  {
    Slice(text, ItemStart(text, t.separator, t.open, cursor), ItemEnd(text, t.separator, t.close, cursor) + 1)
  }

  /** The part of `splitByBracket` after both brackets are found: the item
      under the cursor and the trimmed top-level items of the interior. */
  function SplitBetween(text: string, t: BracketType, cursor: nat, leftBracketPos: nat, rightBracketPos: nat): (r: Option<SplitOutcome>)
    requires WellFormedType(t) && leftBracketPos <= cursor <= rightBracketPos < |text| && leftBracketPos < rightBracketPos
    ensures r.Some? && r.value.leftBracketPos == leftBracketPos && r.value.rightBracketPos == rightBracketPos
    ensures InteriorItems(text, t, leftBracketPos, rightBracketPos, r.value.items)
    ensures r.value.currentItemText == CurrentItem(text, t, cursor)
  {
    var leftCurrentPos := ItemStart(text, t.separator, t.open, cursor);
    var rightCurrentPos := ItemEnd(text, t.separator, t.close, cursor);
    var currentItemText := Slice(text, leftCurrentPos, rightCurrentPos + 1);
    var bracketText := Slice(text, leftBracketPos + 1, rightBracketPos);
    assert bracketText == text[leftBracketPos + 1..rightBracketPos];
    var items := TrimAll(SplitParts(bracketText, t.open, t.close, t.separator));
    Some(SplitOutcome(leftBracketPos, rightBracketPos, currentItemText, items))
  }

  // ---------------------------------------------------------------------------
  // The swap of computeSwapForLine (lines 137-141)
  // ---------------------------------------------------------------------------

  /** `items.map(...)` as written: every item equal to `cursorWord` becomes
      `nextWord` and every item equal to `nextWord` becomes `cursorWord`. */
  function SwapByValue(items: seq<string>, cursorWord: string, nextWord: string): (r: seq<string>)
    ensures |r| == |items|
    ensures forall k :: 0 <= k < |r| && items[k] == cursorWord ==> r[k] == nextWord
    ensures forall k :: 0 <= k < |r| && items[k] == nextWord && items[k] != cursorWord ==> r[k] == cursorWord
    ensures forall k :: 0 <= k < |r| && items[k] != cursorWord && items[k] != nextWord ==> r[k] == items[k]
  {
    seq(|items|, k requires 0 <= k < |items| =>
      if items[k] == cursorWord then nextWord else if items[k] == nextWord then cursorWord else items[k])
  }

  /** With a repeated item the value swap is not a permutation: moving `b`
      left in `[a, a, b]` turns both `a`s into `b`s. */
  lemma SwapByValueDuplicates()
    ensures SwapByValue(["a", "a", "b"], "b", "a") == ["b", "b", "a"]
    ensures multiset(SwapByValue(["a", "a", "b"], "b", "a")) != multiset(["a", "a", "b"])
  {
    var r := SwapByValue(["a", "a", "b"], "b", "a");
    assert r[0] == "b" && r[1] == "b" && r[2] == "a";
    assert r == ["b", "b", "a"];
    assert multiset(r)["a"] == 1;
    assert multiset(["a", "a", "b"])["a"] == 2;
  }

  /** The exchange of the items at `i` and `j`. */
  function SwapPositions(items: seq<string>, i: nat, j: nat): (r: seq<string>)
    requires i < |items| && j < |items|
    ensures |r| == |items| && r[i] == items[j] && r[j] == items[i]
    ensures forall k :: 0 <= k < |r| && k != i && k != j ==> r[k] == items[k]
  {
    items[i := items[j]][j := items[i]]
  }

  /** The exchange is a permutation and undoes itself. */
  lemma SwapPositionsPermutes(items: seq<string>, i: nat, j: nat)
    requires i < |items| && j < |items|
    ensures multiset(SwapPositions(items, i, j)) == multiset(items)
    ensures SwapPositions(SwapPositions(items, i, j), i, j) == items
  {
    var m := items[i := items[j]];
    assert multiset(m) == multiset(items) - multiset{items[i]} + multiset{items[j]};
  }

  /** No item occurs twice. */
  predicate Distinct(items: seq<string>) {
    forall a, b :: 0 <= a < b < |items| ==> items[a] != items[b]
  }

  /** On pairwise-distinct items the value swap is the exchange of positions. */
  lemma SwapByValueOnDistinct(items: seq<string>, i: nat, j: nat)
    requires i < |items| && j < |items| && Distinct(items)
    ensures SwapByValue(items, items[i], items[j]) == SwapPositions(items, i, j)
  {
    var a := SwapByValue(items, items[i], items[j]);
    var b := SwapPositions(items, i, j);
    forall k | 0 <= k < |items|
      ensures a[k] == b[k]
    {
      if k != i && k != j {
        assert items[k] != items[i] && items[k] != items[j] by {
          if k < i { assert items[k] != items[i]; } else { assert items[i] != items[k]; }
          if k < j { assert items[k] != items[j]; } else { assert items[j] != items[k]; }
        }
      }
    }
  }

  // ---------------------------------------------------------------------------
  // The selection of computeSwapForLine (lines 148-155)
  // ---------------------------------------------------------------------------

  /** `items.indexOf(x)`: the first position holding `x`, or -1. */
  function IndexOfItem(items: seq<string>, x: string): (r: int)
    ensures r == -1 <==> x !in items
    ensures r != -1 ==> 0 <= r < |items| && items[r] == x && forall k :: 0 <= k < r ==> items[k] != x
  {
    ItemFrom(items, x, 0)
  }

  function ItemFrom(items: seq<string>, x: string, k: nat): (r: int)
    requires k <= |items| && forall j :: 0 <= j < k ==> items[j] != x
    ensures r == -1 <==> x !in items
    ensures r != -1 ==> k <= r < |items| && items[r] == x && forall j :: 0 <= j < r ==> items[j] != x
    decreases |items| - k
  {
    if k == |items| then -1
    else if items[k] == x then k
    else ItemFrom(items, x, k + 1)
  }

  /** The offset loop: the lengths of the first `t` items, each followed by a
      joiner of length `joinerLength`. */
  function SelectionOffset(xs: seq<string>, joinerLength: nat, t: nat): nat
    requires t <= |xs|
  {
    if t == 0 then 0 else SelectionOffset(xs, joinerLength, t - 1) + |xs[t - 1]| + joinerLength
  }

  /** Past the first `t > 0` items the offset is the length of their join plus one joiner. */
  lemma {:induction false} OffsetIsJoinLength(xs: seq<string>, joiner: string, t: nat)
    requires 0 < t <= |xs|
    ensures SelectionOffset(xs, |joiner|, t) == |Join(xs[..t], joiner)| + |joiner|
  {
    if t == 1 {
      assert xs[..1] == [xs[0]];
    } else {
      OffsetIsJoinLength(xs, joiner, t - 1);
      assert xs[..t][..t - 1] == xs[..t - 1];
    }
  }

  /** Joining a prefix of the items gives a prefix of the whole join. */
  lemma {:induction false} JoinPrefix(xs: seq<string>, joiner: string, m: nat)
    requires 0 < m <= |xs|
    ensures |Join(xs[..m], joiner)| <= |Join(xs, joiner)|
    ensures Join(xs, joiner)[..|Join(xs[..m], joiner)|] == Join(xs[..m], joiner)
    decreases |xs|
  {
    if m == |xs| {
      assert xs[..m] == xs;
    } else {
      var init := xs[..|xs| - 1];
      JoinPrefix(init, joiner, m);
      assert init[..m] == xs[..m];
    }
  }

  /** The join spells item `t` at the selection offset. */
  lemma OffsetSpellsItem(xs: seq<string>, joiner: string, t: nat)
    requires t < |xs|
    ensures SpellsAt(Join(xs, joiner), SelectionOffset(xs, |joiner|, t), xs[t])
  {
    var upTo := Join(xs[..t + 1], joiner);
    var before := JoinUpTo(xs, joiner, t);
    JoinPrefix(xs, joiner, t + 1);
    SpellsAtEnd(upTo, before, xs[t]);
    SpellsInPrefix(Join(xs, joiner), upTo, |before|, xs[t]);
  }

  /** The join of the first `t + 1` items is the text before item `t`, as
      long as the selection offset, followed by item `t`. */
  lemma JoinUpTo(xs: seq<string>, joiner: string, t: nat) returns (before: string)
    requires t < |xs|
    ensures Join(xs[..t + 1], joiner) == before + xs[t]
    ensures |before| == SelectionOffset(xs, |joiner|, t)
  {
    if t == 0 {
      assert xs[..1] == [xs[0]];
      before := [];
    } else {
      OffsetIsJoinLength(xs, joiner, t);
      assert xs[..t + 1][..t] == xs[..t];
      before := Join(xs[..t], joiner) + joiner;
    }
  }

  lemma SpellsAtEnd(text: string, pre: string, x: string)
    requires text == pre + x
    ensures SpellsAt(text, |pre|, x)
  {
    assert text[|pre|..] == x;
  }

  lemma SpellsInPrefix(text: string, pre: string, at: int, x: string)
    requires |pre| <= |text| && text[..|pre|] == pre && SpellsAt(pre, at, x)
    ensures SpellsAt(text, at, x)
  {
    assert text[at..at + |x|] == text[..|pre|][at..at + |x|];
  }

  // ---------------------------------------------------------------------------
  // computeSwapForLine (lines 117-170)
  // ---------------------------------------------------------------------------

  /** What a successful swap reports. */
  datatype SwapResult = SwapResult(
    bracketLeft: nat, bracketRight: nat, newBracketText: string,
    selectionStart: int, selectionEnd: int, cursorWord: string)

  /** `{}`: no row applied; `{ type }`: a row applied but the move is blocked;
      `{ type, result }`: the swap. */
  datatype SwapOutcome = NoBracket | Blocked(kind: BracketType) | Swapped(kind: BracketType, result: SwapResult)

  /** The promises of a swap result: the new bracket text starts and ends with
      the original bracket characters, and the selection, taken relative to
      the opening bracket, spells the cursor's word in it; a space after the
      original opener is kept on both inner sides. */
  predicate SwapSound(text: string, t: BracketType, res: SwapResult) {
    var n := res.newBracketText;
    |n| >= 2 && res.bracketLeft < res.bracketRight < |text|
    && n[0] == text[res.bracketLeft] == t.open && n[|n| - 1] == text[res.bracketRight] == t.close
    && res.selectionEnd - res.selectionStart == |res.cursorWord|
    && SpellsAt(n, res.selectionStart - res.bracketLeft, res.cursorWord)
    && (CharIs(text, res.bracketLeft + 1, ' ') ==> |n| >= 4 && n[1] == ' ' && n[|n| - 2] == ' ')
  }

  /** Line 143: the inner padding, one space when the opener is followed by one. */
  function Pad(text: string, leftBracketPos: nat): (pad: string)
    ensures pad == " " <==> CharIs(text, leftBracketPos + 1, ' ')
    ensures pad == "" <==> !CharIs(text, leftBracketPos + 1, ' ')
  {
    if CharIs(text, leftBracketPos + 1, ' ') then " " else ""
  }

  /** The new bracket text is the original brackets and padding around the
      join of `xs`, and the selection starts at the offset of item `target`. */
  predicate RebuiltFrom(text: string, t: BracketType, res: SwapResult, xs: seq<string>, target: nat)
    requires target <= |xs|
  {
    var pad := Pad(text, res.bracketLeft);
    res.newBracketText == [t.open] + pad + Join(xs, t.joiner) + pad + [t.close]
    && res.selectionStart - res.bracketLeft == 1 + |pad| + SelectionOffset(xs, |t.joiner|, target)
  }

  /** One row of the loop of `computeSwapForLine`: `None` to try the next row
      (no bracket pair, or the cursor's word is not among the items),
      otherwise the answer. */
  function SwapWith(text: string, cursor: int, dir: int, t: BracketType): (r: Option<SwapOutcome>)
    requires WellFormedType(t) && (dir == 1 || dir == -1)
    ensures var split := SplitByBracket(text, t, cursor);
      r.None? <==> split.None? || Trim(split.value.currentItemText) !in split.value.items
    ensures r.Some? ==> r == SwapItems(text, t, dir, SplitByBracket(text, t, cursor).value)
  {
    match SplitByBracket(text, t, cursor)
    case None => None
    case Some(split) => SwapItems(text, t, dir, split)
  }

  /** The part of one row after the split: `None` when the cursor's word is
      not among the items, `Blocked` when its neighbour in direction `dir` is
      missing or empty, and otherwise the swap with that neighbour. */
  function SwapItems(text: string, t: BracketType, dir: int, split: SplitOutcome): (r: Option<SwapOutcome>)
    requires WellFormedType(t) && (dir == 1 || dir == -1)
    requires split.leftBracketPos < split.rightBracketPos < |text|
    requires text[split.leftBracketPos] == t.open && text[split.rightBracketPos] == t.close
    ensures r.None? <==> Trim(split.currentItemText) !in split.items
    ensures r.Some? ==> !r.value.NoBracket? && r.value.kind == t
    ensures r.Some? ==> var index := IndexOfItem(split.items, Trim(split.currentItemText));
      (r.value.Blocked? <==> index + dir < 0 || index + dir >= |split.items| || split.items[index + dir] == "")
    ensures r.Some? && r.value.Swapped? ==> SwapSound(text, t, r.value.result)
    ensures r.Some? && r.value.Swapped? ==>
      r.value.result.bracketLeft == split.leftBracketPos && r.value.result.bracketRight == split.rightBracketPos
      && r.value.result.cursorWord == Trim(split.currentItemText)
    ensures r.Some? && r.value.Swapped? ==>
      var word := Trim(split.currentItemText);
      var index := IndexOfItem(split.items, word);
      var xs := SwapByValue(split.items, word, split.items[index + dir]);
      0 <= index + dir < |xs| && xs[index] == split.items[index + dir] && xs[index + dir] == word
      && RebuiltFrom(text, t, r.value.result, xs, index + dir)
  {
    var cursorWord := Trim(split.currentItemText);
    var cursorWordIndex := IndexOfItem(split.items, cursorWord);
    if cursorWordIndex == -1 then None
    else
      var items := split.items;
      var targetIndex := cursorWordIndex + dir;
      if targetIndex < 0 || targetIndex >= |items| then Some(Blocked(t))
      else
        var nextWord := items[targetIndex];
        if nextWord == "" then Some(Blocked(t))
        else
          var newArray := SwapByValue(items, cursorWord, nextWord);
          Some(Swapped(t, Rebuild(text, t, split.leftBracketPos, split.rightBracketPos, newArray, targetIndex, cursorWord)))
  }

  /** On pairwise-distinct items the swap the row reports is the exchange of
      the cursor's item with its neighbour. */
  lemma SwapItemsOnDistinct(text: string, t: BracketType, dir: int, split: SplitOutcome)
    requires WellFormedType(t) && (dir == 1 || dir == -1)
    requires split.leftBracketPos < split.rightBracketPos < |text|
    requires text[split.leftBracketPos] == t.open && text[split.rightBracketPos] == t.close
    requires Distinct(split.items)
    ensures var r := SwapItems(text, t, dir, split);
      r.Some? && r.value.Swapped? ==>
      var index := IndexOfItem(split.items, Trim(split.currentItemText));
      0 <= index + dir < |split.items|
      && RebuiltFrom(text, t, r.value.result, SwapPositions(split.items, index, index + dir), index + dir)
  {
    var r := SwapItems(text, t, dir, split);
    if r.Some? && r.value.Swapped? {
      var index := IndexOfItem(split.items, Trim(split.currentItemText));
      SwapByValueOnDistinct(split.items, index, index + dir);
    }
  }

  /** Lines 143-155: the new bracket text for the rearranged items, keeping
      the original brackets and inner padding, and the selection of the
      cursor's word, which now sits at `target`. */
  function Rebuild(text: string, t: BracketType, leftBracketPos: nat, rightBracketPos: nat,
                   newArray: seq<string>, target: nat, cursorWord: string): (res: SwapResult)
    requires leftBracketPos < rightBracketPos < |text|
    requires text[leftBracketPos] == t.open && text[rightBracketPos] == t.close
    requires target < |newArray| && newArray[target] == cursorWord
    ensures SwapSound(text, t, res)
    ensures res.bracketLeft == leftBracketPos && res.bracketRight == rightBracketPos && res.cursorWord == cursorWord
    ensures RebuiltFrom(text, t, res, newArray, target)
  {
    var s := Pad(text, leftBracketPos);
    var joined := Join(newArray, t.joiner);
    var newBracketText := [text[leftBracketPos]] + s + joined + s + [text[rightBracketPos]];
    var offset := SelectionOffset(newArray, |t.joiner|, target);
    var selectionStart := leftBracketPos + 1 + |s| + offset;
    var res := SwapResult(leftBracketPos, rightBracketPos, newBracketText,
                          selectionStart, selectionStart + |cursorWord|, cursorWord);
    SwapSelects(text, t, res, s, newArray, target);
    res
  }

  /** The selection of a swap spells the moved word, which sits at the target. */
  lemma SwapSelects(text: string, t: BracketType, res: SwapResult, pad: string, newArray: seq<string>, target: nat)
    requires res.bracketLeft < res.bracketRight < |text|
    requires text[res.bracketLeft] == t.open && text[res.bracketRight] == t.close
    requires target < |newArray| && newArray[target] == res.cursorWord
    requires pad == Pad(text, res.bracketLeft)
    requires res.newBracketText == [text[res.bracketLeft]] + pad + Join(newArray, t.joiner) + pad + [text[res.bracketRight]]
    requires res.selectionStart == res.bracketLeft + 1 + |pad| + SelectionOffset(newArray, |t.joiner|, target)
    requires res.selectionEnd == res.selectionStart + |res.cursorWord|
    ensures SwapSound(text, t, res)
  {
    var n := res.newBracketText;
    var joined := Join(newArray, t.joiner);
    OffsetSpellsItem(newArray, t.joiner, target);
    SpellsInside(n, [text[res.bracketLeft]] + pad, joined, pad + [text[res.bracketRight]],
                 SelectionOffset(newArray, |t.joiner|, target), res.cursorWord);
  }

  /** `computeSwapForLine`: the rows of `Types` in order; the first row that
      answers decides, and when none does the result is `{}`. */
  function ComputeSwapForLine(text: string, cursor: int, dir: int): (r: SwapOutcome)
    requires dir == 1 || dir == -1
    ensures r.NoBracket? <==> forall k :: 0 <= k < |Types()| ==> SwapWith(text, cursor, dir, Types()[k]).None?
    ensures !r.NoBracket? ==> exists k :: FirstAnswer(text, cursor, dir, k, r)
  {
    var ts := Types();
    var answers := seq(|ts|, k requires 0 <= k < |ts| => SwapWith(text, cursor, dir, ts[k]));
    var r := FirstFrom(answers, 0);
    FirstAnswerOf(text, cursor, dir, answers, r);
    r
  }

  /** Row `k` of `Types` gives the answer `r` and no earlier row answers. */
  predicate FirstAnswer(text: string, cursor: int, dir: int, k: int, r: SwapOutcome)
    requires dir == 1 || dir == -1
  {
    0 <= k < |Types()| && SwapWith(text, cursor, dir, Types()[k]) == Some(r)
    && forall j :: 0 <= j < k ==> SwapWith(text, cursor, dir, Types()[j]).None?
  }

  /** `answers[k]` is `Some(r)` and every earlier answer is `None`. */
  predicate FirstAt(answers: seq<Option<SwapOutcome>>, k: int, r: SwapOutcome) {
    0 <= k < |answers| && answers[k] == Some(r) && forall j :: 0 <= j < k ==> answers[j].None?
  }

  /** The loop over the rows from `i` on, the rows before `i` having declined. */
  function FirstFrom(answers: seq<Option<SwapOutcome>>, i: nat): (r: SwapOutcome)
    requires i <= |answers| && forall j :: 0 <= j < i ==> answers[j].None?
    requires forall j :: 0 <= j < |answers| && answers[j].Some? ==> !answers[j].value.NoBracket?
    ensures r.NoBracket? <==> forall k :: i <= k < |answers| ==> answers[k].None?
    ensures !r.NoBracket? ==> exists k :: FirstAt(answers, k, r)
    decreases |answers| - i
  {
    if i == |answers| then NoBracket
    else if answers[i].Some? then
      assert FirstAt(answers, i, answers[i].value);
      answers[i].value
    else FirstFrom(answers, i + 1)
  }

  /** The first answer among the rows' answers is the first answer of the rows. */
  lemma FirstAnswerOf(text: string, cursor: int, dir: int, answers: seq<Option<SwapOutcome>>, r: SwapOutcome)
    requires dir == 1 || dir == -1
    requires |answers| == |Types()| && forall k :: 0 <= k < |answers| ==> answers[k] == SwapWith(text, cursor, dir, Types()[k])
    requires !r.NoBracket? ==> exists k :: FirstAt(answers, k, r)
    ensures !r.NoBracket? ==> exists k :: FirstAnswer(text, cursor, dir, k, r)
  {
    if !r.NoBracket? {
      var k :| FirstAt(answers, k, r);
      assert SwapWith(text, cursor, dir, Types()[k]) == Some(r) by {
        assert answers[k] == SwapWith(text, cursor, dir, Types()[k]);
      }
      forall j | 0 <= j < k
        ensures SwapWith(text, cursor, dir, Types()[j]).None?
      {
        assert answers[j] == SwapWith(text, cursor, dir, Types()[j]);
      }
      assert FirstAnswer(text, cursor, dir, k, r);
    }
  }
}
