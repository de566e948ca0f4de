/**
 * The detector on the input of one of its unit tests
 * (src/lib/detector.test.ts), from step lemmas over an abstract line: no
 * JSX tag without a `<`, a bracket pair with nothing of its kind inside,
 * and the leftward walk past characters that open nothing.
 */
module DetectorExamples {
  import opened JsText
  import opened Chunks
  import opened Brackets
  import opened Detector

  /** A line without `<` has no JSX tag, so the JSX branch never answers. */
  lemma NoAngleNoTag(line: string, cursor: int)
    requires forall k :: 0 <= k < |line| ==> line[k] != '<'
    ensures TagBranch(line, cursor).None?
  {
    assert !ReactPattern(line);
  }

  /** No `open` and no `close` strictly between `i` and `k`: the count of
      openers is the one at `i` and no closer has been seen. */
  lemma {:induction false} FlatCounts(s: string, i: nat, k: nat, open: char, close: char)
    requires i < k <= |s| && s[i] == open && open != close
    requires forall m :: i < m < k ==> s[m] != open && s[m] != close
    ensures CountIn(s, open, i, k) == 1 && CountIn(s, close, i, k) == 0
    decreases k - i
  {
    if k > i + 1 {
      FlatCounts(s, i, k - 1, open, close);
    }
  }

  /** The balanced-close scan, at depth one, runs to the first closer. */
  lemma {:induction false} FlatScan(s: string, i: nat, j: nat, k: nat, open: char, close: char)
    requires i < k <= j < |s| && s[i] == open && s[j] == close && open != close
    requires forall m :: i < m < j ==> s[m] != open && s[m] != close
    requires forall m :: i < m <= k ==> Depth(s, open, close, i, m) > 0
    requires Depth(s, open, close, i, k) == 1
    ensures CloseScan(s, i, open, close, k, 1) == Some(j)
    decreases j - k
  {
    FlatCounts(s, i, k, open, close);
    if k < j {
      FlatCounts(s, i, k + 1, open, close);
      forall m | i < m <= k + 1
        ensures Depth(s, open, close, i, m) > 0
      {
        if m == k + 1 {
          assert Depth(s, open, close, i, m) == 1;
        }
      }
      assert Depth(s, open, close, i, k + 1) == 1;
      FlatScan(s, i, j, k + 1, open, close);
    }
  }

  /** A pair with nothing of its kind inside closes at its first closer. */
  lemma FlatClose(s: string, i: nat, j: nat, open: char, close: char)
    requires i < j < |s| && s[i] == open && s[j] == close && open != close
    requires forall m :: i < m < j ==> s[m] != open && s[m] != close
    ensures BalancedClose(s, i, open, close) == Some(j)
  {
    FlatCounts(s, i, i + 1, open, close);
    FlatScan(s, i, j, i + 1, open, close);
  }

  /** Walking left past characters that open nothing changes nothing. */
  lemma {:induction false} PairScanSkip(line: string, cursor: int, i: int, lo: int)
    requires lo <= i <= cursor
    requires forall k :: lo < k <= i && 0 <= k < |line| ==> PairCloser(line[k]).None?
    ensures PairScan(line, cursor, i) == PairScan(line, cursor, lo)
    decreases i - lo
  {
    if lo < i {
      PairScanSkip(line, cursor, i - 1, lo);
    }
  }

  /** The nearest bracket left of the cursor, with nothing of its kind inside
      and its closer at or past the cursor, is the enclosing pair. */
  lemma NearestFlatPair(line: string, cursor: int, o: nat, c: nat)
    requires o < cursor <= c < |line| && PairCloser(line[o]).Some? && line[c] == PairCloser(line[o]).value
    requires forall m :: o < m < c ==> line[m] != line[o] && line[m] != line[c]
    requires forall k :: o < k <= cursor && k < |line| ==> PairCloser(line[k]).None?
    ensures FindEnclosingPair(line, cursor) == Some(Pair(line[o], line[c], o, c))
  {
    assert line[o] != line[c] by {
      assert PairCloser(line[o]) == Some(line[c]);
    }
    FlatClose(line, o, c, line[o], line[c]);
    PairScanSkip(line, cursor, cursor, o);
  }

  /** The characters of the `ArrayDetected` input the step lemmas need. */
  lemma ArrayDetectedShape(line: string)
    requires line == "[ 1, 2, 3, 4 ]"
    ensures forall k :: 0 <= k < |line| ==> line[k] != '<'
    ensures PairCloser(line[0]) == Some(']') && line[13] == ']'
    ensures forall m :: 0 < m < 13 ==> line[m] != line[0] && line[m] != line[13]
    ensures forall k :: 0 < k <= 11 && k < |line| ==> PairCloser(line[k]).None?
    ensures PairScope(line, 1, 12) == Scope(2, 11)
    ensures line[2..12] == "1, 2, 3, 4"
  {
    assert WsAt(line, 1) && !WsAt(line, 2) && WsAt(line, 12) && !WsAt(line, 11);
    assert SkipWsRight(line, 2, 12) == 2 && SkipWsLeft(line, 11, 1) == 11;
  }

  /** detector.test.ts: inside `[ 1, 2, 3, 4 ]` before the `4` the detector
      reports an array whose scope is `1, 2, 3, 4`. */
  lemma ArrayDetected(line: string)
    requires line == "[ 1, 2, 3, 4 ]"
    ensures DetectEnvironment(line, 11) == Detection(Array, Some(Scope(2, 11)))
    ensures line[2..12] == "1, 2, 3, 4"
  {
    ArrayDetectedShape(line);
    NoAngleNoTag(line, 11);
    NearestFlatPair(line, 11, 0, 13);
  }

  /** On `[ [x] ]` with the cursor on `x` (3), the naive branch scopes the
      inner pair, the one `lastIndexOf`/`indexOf` find, and not the outer. */
  lemma NaiveInnerPair()
    ensures NaiveDetection("[ [x] ]", 3) == Some(Detection(Array, Some(Scope(3, 3))))
  {
    var line := "[ [x] ]";
    assert LastIndexOf(line, '[', 3) == 2;
    assert IndexOf(line, ']', 3) == 4;
    assert SimplePair(line, 3, '[', ']') == Some(Span(2, 4));
    assert NaiveScope(line, 3, 3) == Scope(3, 3);
  }
}
