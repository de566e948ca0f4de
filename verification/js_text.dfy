/**
 * The JavaScript string primitives the move engine relies on, stated over
 * `seq<char>` with their out-of-range behaviour written out: an index read
 * past either end of a string yields `undefined`, which equals no character
 * and is not whitespace.
 */
module JsText {

  datatype Option<+T> = None | Some(value: T)

  /** The characters `/\s/` and `String.prototype.trim` treat as whitespace in
      this model: ASCII whitespace, the no-break space and the byte-order mark. */
  predicate IsWs(c: char) {
    c == ' ' || c == '\t' || c == '\n' || c == '\r' || c == '\U{000B}' || c == '\U{000C}'
    || c == '\U{00A0}' || c == '\U{FEFF}'
  }

  /** `/\s/.test(s[k])`: an out-of-range read tests the string "undefined",
      which holds no whitespace. */
  predicate WsAt(s: string, k: int) {
    0 <= k < |s| && IsWs(s[k])
  }

  /** `s[k] === c`, where an out-of-range read is `undefined`. */
  predicate CharIs(s: string, k: int, c: char) {
    0 <= k < |s| && s[k] == c
  }

  ghost predicate AllWs(s: string) {
    forall k :: 0 <= k < |s| ==> IsWs(s[k])
  }

  /** The non-whitespace characters of `s`, in order. */
  function NonWs(s: string): string
    decreases |s|
  {
    if |s| == 0 then []
    else NonWs(s[..|s| - 1]) + (if IsWs(s[|s| - 1]) then [] else [s[|s| - 1]])
  }

  lemma {:induction false} NonWsAppend(a: string, b: string)
    ensures NonWs(a + b) == NonWs(a) + NonWs(b)
    decreases |b|
  {
    if |b| == 0 {
      assert a + b == a;
    } else {
      var init := b[..|b| - 1];
      var last := if IsWs(b[|b| - 1]) then [] else [b[|b| - 1]];
      calc {
        NonWs(a + b);
        { assert (a + b)[..|a + b| - 1] == a + init; }
        NonWs(a + init) + last;
        { NonWsAppend(a, init); }
        (NonWs(a) + NonWs(init)) + last;
        NonWs(a) + (NonWs(init) + last);
        NonWs(a) + NonWs(b);
      }
    }
  }

  lemma {:induction false} NonWsOfAllWs(s: string)
    requires AllWs(s)
    ensures NonWs(s) == []
    decreases |s|
  {
    if |s| > 0 {
      NonWsOfAllWs(s[..|s| - 1]);
    }
  }

  lemma NonWsOfChar(c: char)
    ensures NonWs([c]) == if IsWs(c) then [] else [c]
  {
    assert [c][..0] == [];
  }

  /** Number of leading whitespace characters of `s`. */
  function LeadingWs(s: string): (n: nat)
    ensures n <= |s|
    ensures AllWs(s[..n]) && forall k :: 0 <= k < n ==> IsWs(s[k])
    ensures n < |s| ==> !IsWs(s[n])
    decreases |s|
  {
    if |s| > 0 && IsWs(s[0]) then
      var m := LeadingWs(s[1..]);
      assert s[..1 + m] == [s[0]] + s[1..][..m];
      1 + m
    else 0
  }

  /** Number of trailing whitespace characters of `s`. */
  function TrailingWs(s: string): (n: nat)
    ensures n <= |s|
    ensures forall k :: |s| - n <= k < |s| ==> IsWs(s[k])
    ensures n < |s| ==> !IsWs(s[|s| - 1 - n])
    decreases |s|
  {
    if |s| > 0 && IsWs(s[|s| - 1]) then
      var m := TrailingWs(s[..|s| - 1]);
      1 + m
    else 0
  }

  /** `String.prototype.trim`: the result neither starts nor ends with
      whitespace; `TrimSplit` places it within `s`. */
  function Trim(s: string): (t: string)
    ensures |t| > 0 ==> !IsWs(t[0]) && !IsWs(t[|t| - 1])
  {
    var a := LeadingWs(s);
    var rest := s[a..];
    rest[..|rest| - TrailingWs(rest)]
  }

  /** `s` is whitespace, then `trim(s)`, then whitespace. */
  lemma TrimSplit(s: string)
    ensures LeadingWs(s) + |Trim(s)| <= |s|
    ensures Trim(s) == s[LeadingWs(s)..LeadingWs(s) + |Trim(s)|]
    ensures AllWs(s[..LeadingWs(s)]) && AllWs(s[LeadingWs(s) + |Trim(s)|..])
    ensures forall k :: LeadingWs(s) + |Trim(s)| <= k < |s| ==> IsWs(s[k])
  {
    var a := LeadingWs(s);
    var m := |s[a..]| - TrailingWs(s[a..]);
    assert Trim(s) == s[a..a + m];
    TrailingWsOfSuffix(s, a);
    AllWsSuffix(s, a + m);
  }

  /** The trailing whitespace of a suffix is trailing whitespace of `s`. */
  lemma TrailingWsOfSuffix(s: string, a: nat)
    requires a <= |s|
    ensures forall k :: a + |s[a..]| - TrailingWs(s[a..]) <= k < |s| ==> IsWs(s[k])
  {
    var rest := s[a..];
    forall k | a + |rest| - TrailingWs(rest) <= k < |s|
      ensures IsWs(s[k])
    {
      assert s[k] == rest[k - a];
    }
  }

  lemma AllWsSuffix(s: string, j: nat)
    requires j <= |s|
    requires forall k :: j <= k < |s| ==> IsWs(s[k])
    ensures AllWs(s[j..])
  {
    var tail := s[j..];
    forall k | 0 <= k < |tail|
      ensures IsWs(tail[k])
    {
      assert tail[k] == s[j + k];
    }
  }

  lemma TrimKeepsNonWs(s: string)
    ensures NonWs(Trim(s)) == NonWs(s)
  {
    var t := Trim(s);
    var a := LeadingWs(s);
    TrimSplit(s);
    assert s == s[..a] + t + s[a + |t|..];
    NonWsAppend(s[..a] + t, s[a + |t|..]);
    NonWsAppend(s[..a], t);
    NonWsOfAllWs(s[..a]);
    NonWsOfAllWs(s[a + |t|..]);
  }

  /** Trimming changes nothing exactly when no edge character is whitespace. */
  lemma TrimIdentity(s: string)
    ensures Trim(s) == s <==> (|s| == 0 || (!IsWs(s[0]) && !IsWs(s[|s| - 1])))
  {
    var t := Trim(s);
    TrimSplit(s);
    if |s| > 0 && !IsWs(s[0]) && !IsWs(s[|s| - 1]) {
      assert LeadingWs(s) == 0;
    }
  }

  /** `trim` is pinned down by where the visible text starts and ends: once
      `x[p..q]` has non-whitespace ends and only whitespace around it, it is
      the trimmed string. */
  lemma TrimUnique(x: string, p: nat, q: nat)
    requires p < q <= |x|
    requires forall k :: 0 <= k < p ==> IsWs(x[k])
    requires forall k :: q <= k < |x| ==> IsWs(x[k])
    requires !IsWs(x[p]) && !IsWs(x[q - 1])
    ensures Trim(x) == x[p..q]
  {
    var n := LeadingWs(x);
    var t := Trim(x);
    TrimSplit(x);
    assert n == p;
    assert |t| > 0 ==> t[|t| - 1] == x[p + |t| - 1];
  }

  /** A string of whitespace trims to the empty string. */
  lemma TrimAllWs(x: string)
    requires forall k :: 0 <= k < |x| ==> IsWs(x[k])
    ensures Trim(x) == []
  {
    var n := LeadingWs(x);
    TrimSplit(x);
    assert n == |x|;
  }

  /** A slice of a slice is a slice of the original. */
  lemma SliceOfSlice(t: string, a: nat, b: nat, i: nat, j: nat)
    requires a <= b <= |t| && i <= j <= b - a
    ensures t[a..b][i..j] == t[a + i..a + j]
  {
    assert forall k :: 0 <= k < j - i ==> t[a..b][i..j][k] == t[a + i + k];
  }

  /** `text` spells `x` from offset `at`. */
  predicate SpellsAt(text: string, at: int, x: string) {
    0 <= at && at + |x| <= |text| && text[at..at + |x|] == x
  }

  /** What the middle part of `pre + mid + post` spells reappears shifted by `|pre|`. */
  lemma SpellsInside(text: string, pre: string, mid: string, post: string, a: int, x: string)
    requires text == pre + mid + post && SpellsAt(mid, a, x)
    ensures SpellsAt(text, |pre| + a, x)
  {
    assert text[|pre|..|pre| + |mid|] == mid;
  }

  /** How `slice` reads an index argument: negatives count from the end and
      everything is clamped into `[0, len]`. */
  function ClampIndex(i: int, len: nat): (r: nat)
    ensures r <= len
    ensures 0 <= i <= len ==> r == i
  {
    if i < 0 then (if len + i < 0 then 0 else len + i)
    else if i > len then len
    else i
  }

  /** `s.slice(a, b)`. */
  function Slice(s: string, a: int, b: int): (r: string)
    ensures 0 <= a <= b <= |s| ==> r == s[a..b]
    ensures 0 <= b <= a ==> r == []
  {
    var lo := ClampIndex(a, |s|);
    var hi := ClampIndex(b, |s|);
    if lo < hi then s[lo..hi] else []
  }

  function Max0(i: int): nat {
    if i < 0 then 0 else i
  }

  /** `s.indexOf(c, from)` for a one-character search string. */
  function IndexOf(s: string, c: char, from: int): (r: int)
    ensures r == -1 || (Max0(from) <= r < |s| && s[r] == c)
    ensures forall k :: Max0(from) <= k < |s| && (r == -1 || k < r) ==> s[k] != c
  {
    IndexFrom(s, c, Max0(from))
  }

  function IndexFrom(s: string, c: char, k: nat): (r: int)
    ensures r == -1 || (k <= r < |s| && s[r] == c)
    ensures forall j :: k <= j < |s| && (r == -1 || j < r) ==> s[j] != c
    decreases |s| - k
  {
    if k >= |s| then -1
    else if s[k] == c then k
    else IndexFrom(s, c, k + 1)
  }

  /** `s.indexOf(c1 + c2, from)` for a two-character search string. */
  function IndexOfPair(s: string, c1: char, c2: char, from: int): (r: int)
    ensures r == -1 || (Max0(from) <= r && r + 1 < |s| && s[r] == c1 && s[r + 1] == c2)
    ensures forall k :: Max0(from) <= k && k + 1 < |s| && (r == -1 || k < r) ==> !(s[k] == c1 && s[k + 1] == c2)
  {
    PairFrom(s, c1, c2, Max0(from))
  }

  function PairFrom(s: string, c1: char, c2: char, k: nat): (r: int)
    ensures r == -1 || (k <= r && r + 1 < |s| && s[r] == c1 && s[r + 1] == c2)
    ensures forall j :: k <= j && j + 1 < |s| && (r == -1 || j < r) ==> !(s[j] == c1 && s[j + 1] == c2)
    decreases |s| - k
  {
    if k + 1 >= |s| then -1
    else if s[k] == c1 && s[k + 1] == c2 then k
    else PairFrom(s, c1, c2, k + 1)
  }

  /** `s.lastIndexOf(c, from)` for a one-character search string: the search
      starts at `from` clamped into `[0, |s| - 1]` and runs leftwards. */
  function LastIndexOf(s: string, c: char, from: int): (r: int)
    ensures r == -1 || (0 <= r <= Max0(from) && r < |s| && s[r] == c)
    ensures forall k :: r < k <= Max0(from) && k < |s| ==> s[k] != c
  {
    var start := if Max0(from) < |s| then Max0(from) else |s| - 1;
    LastFrom(s, c, start)
  }

  function LastFrom(s: string, c: char, k: int): (r: int)
    requires k < |s|
    ensures r == -1 || (0 <= r <= k && s[r] == c)
    ensures forall j :: r < j <= k && 0 <= j ==> s[j] != c
    decreases k + 1
  {
    if k < 0 then -1
    else if s[k] == c then k
    else LastFrom(s, c, k - 1)
  }
}
