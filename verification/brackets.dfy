/**
 * Bracket helpers shared by the splitter and the detector: which characters
 * open and close a bracket, and the search for the nearest bracket pair that
 * straddles the cursor.
 */
module Brackets {
  import opened JsText

  /** `isOpening` */
  predicate IsOpening(c: char) {
    c == '[' || c == '{' || c == '('
  }

  /** `isClosing` */
  predicate IsClosing(c: char) {
    c == ']' || c == '}' || c == ')'
  }

  /** `matching`: each opener's own closer. */
  function Matching(c: char): (r: char)
    requires IsOpening(c)
    ensures IsClosing(r) && !IsOpening(r)
    ensures (c == '[') == (r == ']') && (c == '{') == (r == '}') && (c == '(') == (r == ')')
  {
    match c
    case '[' => ']'
    case '{' => '}'
    case '(' => ')'
  }

  /** The table `findEnclosingPair` searches with: the three brackets and also `<`/`>`. */
  function PairCloser(c: char): Option<char> {
    match c
    case '(' => Some(')')
    case '[' => Some(']')
    case '{' => Some('}')
    case '<' => Some('>')
    case _ => None
  }

  /** Occurrences of `c` in `s[i..j]`. */
  function CountIn(s: string, c: char, i: nat, j: nat): nat
    requires i <= j <= |s|
    decreases j - i
  {
    if j == i then 0 else CountIn(s, c, i, j - 1) + (if s[j - 1] == c then 1 else 0)
  }

  /** Openers minus closers of one bracket type over `s[i..j]`. */
  function Depth(s: string, open: char, close: char, i: nat, j: nat): int
    requires i <= j <= |s|
  {
    CountIn(s, open, i, j) - CountIn(s, close, i, j)
  }

  /** The inner loop of `findEnclosingPair`: scanning right from the opener at
      `i`, the first index where the count of that opener minus that closer
      returns to zero. Other bracket types and quotes are ignored. */
  function BalancedClose(s: string, i: nat, open: char, close: char): (r: Option<nat>)
    requires i < |s| && s[i] == open && open != close
    ensures r.Some? ==> i < r.value < |s| && s[r.value] == close && Depth(s, open, close, i, r.value + 1) == 0
    ensures r.Some? ==> forall j :: i < j <= r.value ==> Depth(s, open, close, i, j) > 0
    ensures r.None? ==> forall j :: i < j <= |s| ==> Depth(s, open, close, i, j) > 0
  {
    CloseScan(s, i, open, close, i, 0)
  }

  function CloseScan(s: string, i: nat, open: char, close: char, j: nat, depth: int): (r: Option<nat>)
    requires i <= j <= |s| && i < |s| && s[i] == open && open != close
    requires depth == Depth(s, open, close, i, j)
    requires forall k :: i < k <= j ==> Depth(s, open, close, i, k) > 0
    ensures r.Some? ==> j <= r.value < |s| && s[r.value] == close && Depth(s, open, close, i, r.value + 1) == 0
    ensures r.Some? ==> forall k :: i < k <= r.value ==> Depth(s, open, close, i, k) > 0
    ensures r.None? ==> forall k :: i < k <= |s| ==> Depth(s, open, close, i, k) > 0
    decreases |s| - j
  {
    if j == |s| then None
    else if s[j] == open then CloseScan(s, i, open, close, j + 1, depth + 1)
    else if s[j] == close then
      if depth - 1 == 0 then Some(j) else CloseScan(s, i, open, close, j + 1, depth - 1)
    else CloseScan(s, i, open, close, j + 1, depth)
  }

  /** A bracket pair `findEnclosingPair` reports. */
  datatype Pair = Pair(open: char, close: char, openIndex: nat, closeIndex: nat)

  /** The balanced close of the bracket at `i`, if `line[i]` is in the table. */
  function CloseOf(line: string, i: nat): Option<nat>
    requires i < |line|
  {
    match PairCloser(line[i])
    case None => None
    case Some(close) => BalancedClose(line, i, line[i], close)
  }

  /** The bracket at `i` opens a pair whose balanced close lies at or after the
      cursor, with the opener strictly before it. */
  predicate Straddles(line: string, cursor: int, i: int) {
    0 <= i < |line| && CloseOf(line, i).Some? && i < cursor <= CloseOf(line, i).value
  }

  /** `findEnclosingPair` (the copy in `detector.ts`): walking left from the
      cursor, the first bracket whose balanced close straddles the cursor. */
  function FindEnclosingPair(line: string, cursor: int): (r: Option<Pair>)
    ensures r.Some? ==> Straddles(line, cursor, r.value.openIndex)
    ensures r.Some? ==> r.value.openIndex < cursor <= r.value.closeIndex < |line|
    ensures r.Some? ==> line[r.value.openIndex] == r.value.open && line[r.value.closeIndex] == r.value.close
    ensures r.Some? ==> PairCloser(r.value.open) == Some(r.value.close)
    ensures r.Some? ==> CloseOf(line, r.value.openIndex) == Some(r.value.closeIndex)
    ensures r.Some? ==> forall i :: r.value.openIndex < i <= cursor ==> !Straddles(line, cursor, i)
    ensures r.None? ==> forall i :: i <= cursor ==> !Straddles(line, cursor, i)
  {
    PairScan(line, cursor, cursor)
  }

  function PairScan(line: string, cursor: int, i: int): (r: Option<Pair>)
    requires i <= cursor
    ensures r.Some? ==> Straddles(line, cursor, r.value.openIndex) && r.value.openIndex <= i
    ensures r.Some? ==> line[r.value.openIndex] == r.value.open && PairCloser(r.value.open) == Some(r.value.close)
    ensures r.Some? ==> CloseOf(line, r.value.openIndex) == Some(r.value.closeIndex)
    ensures r.Some? ==> forall k :: r.value.openIndex < k <= i ==> !Straddles(line, cursor, k)
    ensures r.None? ==> forall k :: k <= i ==> !Straddles(line, cursor, k)
    decreases i + 1
  {
    if i < 0 then None
    else if i < |line| && PairCloser(line[i]).Some? then
      var close := PairCloser(line[i]).value;
      match BalancedClose(line, i, line[i], close)
      case Some(j) =>
        if i < cursor && cursor <= j then Some(Pair(line[i], close, i, j))
        else PairScan(line, cursor, i - 1)
      case None => PairScan(line, cursor, i - 1)
    else PairScan(line, cursor, i - 1)
  }

  /** A cursor at offset zero (or before the line) has no enclosing pair. */
  lemma NoPairAtLineStart(line: string, cursor: int)
    requires cursor <= 0
    ensures FindEnclosingPair(line, cursor).None?
  {
  }

  /** `findEnclosingPair` as written in `utils/brackets.ts`, with its two
      nested loops; it computes the same answer as the copy in `detector.ts`. */
  method FindEnclosingPairLoop(codeLine: string, cursorIndex: int) returns (r: Option<Pair>)
    ensures r == FindEnclosingPair(codeLine, cursorIndex)
  {
    var i := cursorIndex;
    while i >= 0
      invariant i <= cursorIndex
      invariant PairScan(codeLine, cursorIndex, i) == FindEnclosingPair(codeLine, cursorIndex)
      decreases i + 1
    {
      if i < |codeLine| && PairCloser(codeLine[i]).Some? {
        var open := codeLine[i];
        var close := PairCloser(open).value;
        var j := BalancedCloseLoop(codeLine, i, open, close);
        if j.Some? && i < cursorIndex && cursorIndex <= j.value {
          return Some(Pair(open, close, i, j.value));
        }
      }
      i := i - 1;
    }
    return None;
  }

  /** The inner loop of `findEnclosingPair`: the running depth of one bracket
      type, stopping where it returns to zero. */
  method BalancedCloseLoop(codeLine: string, i: nat, open: char, close: char) returns (r: Option<nat>)
    requires i < |codeLine| && codeLine[i] == open && open != close
    ensures r == BalancedClose(codeLine, i, open, close)
  {
    var depth := 0;
    var j := i;
    while j < |codeLine|
      invariant i <= j <= |codeLine|
      invariant depth == Depth(codeLine, open, close, i, j)
      invariant forall k :: i < k <= j ==> Depth(codeLine, open, close, i, k) > 0
      invariant CloseScan(codeLine, i, open, close, j, depth) == BalancedClose(codeLine, i, open, close)
      decreases |codeLine| - j
    {
      var c := codeLine[j];
      assert Depth(codeLine, open, close, i, j + 1)
        == depth + (if c == open then 1 else 0) - (if c == close then 1 else 0);
      if c == open {
        depth := depth + 1;
      } else if c == close {
        depth := depth - 1;
        if depth == 0 {
          return Some(j);
        }
      }
      j := j + 1;
    }
    return None;
  }
}
