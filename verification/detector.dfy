/**
 * The environment detector: an ordered chain of heuristics that decides what
 * kind of list the cursor sits in and which stretch of the line holds it.
 * The few regular expressions it tests are written out as predicates.
 */
module Detector {
  import opened JsText
  import opened Chunks
  import opened Brackets
  import opened Splitter

  /** `[start, end]`, both ends inclusive, as the detector reports a scope. */
  datatype Scope = Scope(start: int, end: int)

  datatype Detection = Detection(env: EnvKind, scope: Option<Scope>)

  // ---------------------------------------------------------------------------
  // The line-level patterns
  // ---------------------------------------------------------------------------

  predicate IsUpper(c: char) {
    'A' <= c <= 'Z'
  }

  predicate IsAlnum(c: char) {
    'A' <= c <= 'Z' || 'a' <= c <= 'z' || '0' <= c <= '9'
  }

  /** `\w` */
  predicate IsWordChar(c: char) {
    IsAlnum(c) || c == '_'
  }

  /** The class `[A-Za-z0-9*[\s/>]`: what may follow `<` and a capital. */
  predicate IsTagFollower(c: char) {
    IsAlnum(c) || c == '*' || c == '[' || IsWs(c) || c == '/' || c == '>'
  }

  /** `/<[A-Z][A-Za-z0-9*[\s/>]/.test(line)`: the line looks like JSX. */
  predicate ReactPattern(line: string) {
    exists k :: 0 <= k && k + 2 < |line| && line[k] == '<' && IsUpper(line[k + 1]) && IsTagFollower(line[k + 2])
  }

  /** A quote at `i`, the next quote at `j`, and a `|` between them. */
  predicate QuotedPipeAt(line: string, i: nat, j: nat)
    requires i < j < |line|
  {
    IsQuoteChar(line[i]) && IsQuoteChar(line[j])
    && (forall k :: i < k < j ==> !IsQuoteChar(line[k]))
    && (exists k :: i < k < j && line[k] == '|')
  }

  /** A word character, then only whitespace up to the `|` at `p`. */
  predicate WordBefore(line: string, p: nat)
    requires p < |line|
  {
    exists k :: 0 <= k < p && IsWordChar(line[k]) && forall m :: k < m < p ==> IsWs(line[m])
  }

  /** Only whitespace after the `|` at `p`, then a word character. */
  predicate WordAfter(line: string, p: nat)
    requires p < |line|
  {
    exists k :: p < k < |line| && IsWordChar(line[k]) && forall m :: p < m < k ==> IsWs(line[m])
  }

  /** `/['"`][^'"`]*\|[^'"`]*['"`]/.test(line) || /\b\w+\s*\|\s*\w+/.test(line)`.
      The `\b` never decides whether the second pattern matches somewhere: a
      match may always start at the first character of its word. */
  predicate UnionPattern(line: string) {
    (exists i, j :: 0 <= i < j < |line| && QuotedPipeAt(line, i, j))
    || (exists p :: 0 <= p < |line| && line[p] == '|' && WordBefore(line, p) && WordAfter(line, p))
  }

  /** `/(?:&&|\|\|)/.test(line)` */
  predicate LogicalPattern(line: string) {
    exists k :: 0 <= k && k + 1 < |line| && IsOpPair(line[k], line[k + 1])
  }

  /** A `)` at `k`, only whitespace after it, and `=>` at `m`. */
  predicate ArrowAt(line: string, k: nat, m: nat)
    requires k < m && m + 1 < |line|
  {
    line[k] == ')' && line[m] == '=' && line[m + 1] == '>' && forall q :: k < q < m ==> IsWs(line[q])
  }

  /** `/\)\s*=>/.test(line)`: a closing parenthesis, optional whitespace, `=>`. */
  predicate ArrowAfterParen(line: string) {
    exists k, m :: 0 <= k < m && m + 1 < |line| && ArrowAt(line, k, m)
  }

  /** The class `[A-Za-z0-9_.]` of JSX tag names. */
  predicate IsTagNameChar(c: char) {
    IsAlnum(c) || c == '_' || c == '.'
  }

  function Min(a: int, b: int): int {
    if a <= b then a else b
  }

  // ---------------------------------------------------------------------------
  // Trimming a region by index
  // ---------------------------------------------------------------------------

  /** `while (s <= last && /\s/.test(line[s])) s++` */
  function SkipWsRight(line: string, s: int, last: int): (r: int)
    ensures s <= r && (r == s || r <= last + 1)
    ensures forall k :: s <= k < r ==> WsAt(line, k)
    ensures r <= last ==> !WsAt(line, r)
    decreases |line| - s
  {
    if s <= last && WsAt(line, s) then SkipWsRight(line, s + 1, last) else s
  }

  /** `while (e >= first && /\s/.test(line[e])) e--` */
  function SkipWsLeft(line: string, e: int, first: int): (r: int)
    ensures r <= e && (r == e || first - 1 <= r)
    ensures forall k :: r < k <= e ==> WsAt(line, k)
    ensures first <= r ==> !WsAt(line, r)
    decreases e + 1
  {
    if e >= first && WsAt(line, e) then SkipWsLeft(line, e - 1, first) else e
  }

  /** The scope `sc` marks the visible stretch of the region `line[a..b + 1]`:
      only whitespace lies between `a` and its start and between its end and
      `b`, it starts and ends on visible characters, and a blank region is
      reported as starting just past `b`. */
  ghost predicate TrimsTo(line: string, a: nat, b: int, sc: Scope)
    requires a <= b + 1 <= |line|
  {
    a <= sc.start <= b + 1 && a - 1 <= sc.end <= b
    && (forall k :: a <= k < sc.start ==> WsAt(line, k))
    && (forall k :: sc.start <= k <= b && sc.end < k ==> WsAt(line, k))
    && (sc.start <= sc.end ==> !IsWs(line[sc.start]) && !IsWs(line[sc.end]))
    && (sc.start > sc.end ==> sc.start == b + 1)
  }

  /** Such a scope spells `trim` of its region, and is empty exactly when
      the region trims to nothing. */
  lemma TrimsToTrim(line: string, a: nat, b: int, sc: Scope)
    requires a <= b + 1 <= |line| && TrimsTo(line, a, b, sc)
    ensures sc.start <= sc.end ==> line[sc.start..sc.end + 1] == Trim(line[a..b + 1])
    ensures sc.start > sc.end ==> Trim(line[a..b + 1]) == []
  {
    if sc.start <= sc.end {
      TrimmedRegion(line, a, b, sc.start, sc.end);
    } else {
      BlankRegion(line, a, b);
    }
  }

  lemma TrimmedRegion(line: string, a: nat, b: int, s: int, e: int)
    requires a <= s <= e <= b < |line|
    requires forall k :: a <= k < s ==> WsAt(line, k)
    requires forall k :: e < k <= b ==> WsAt(line, k)
    requires !IsWs(line[s]) && !IsWs(line[e])
    ensures line[s..e + 1] == Trim(line[a..b + 1])
  {
    var x := line[a..b + 1];
    WsInRegion(line, a, x, 0, s - a);
    WsInRegion(line, a, x, e + 1 - a, |x|);
    assert x[s - a] == line[s] && x[e - a] == line[e];
    calc {
      Trim(x);
      { TrimUnique(x, s - a, e + 1 - a); }
      x[s - a..e + 1 - a];
      { SliceOfSlice(line, a, b + 1, s - a, e + 1 - a); }
      line[s..e + 1];
    }
  }

  lemma BlankRegion(line: string, a: nat, b: int)
    requires a <= b + 1 <= |line|
    requires forall k :: a <= k <= b ==> WsAt(line, k)
    ensures Trim(line[a..b + 1]) == []
  {
    var x := line[a..b + 1];
    WsInRegion(line, a, x, 0, |x|);
    TrimAllWs(line[a..b + 1]);
  }

  /** Whitespace of `line` is whitespace of the region `x` that starts at `a`. */
  lemma WsInRegion(line: string, a: nat, x: string, i: nat, j: nat)
    requires i <= j <= |x| && a + |x| <= |line| && x == line[a..a + |x|]
    requires forall k :: a + i <= k < a + j ==> WsAt(line, k)
    ensures forall k :: i <= k < j ==> IsWs(x[k])
  {
    forall k | i <= k < j
      ensures IsWs(x[k])
    {
      assert WsAt(line, a + k);
    }
  }

  /** Lines 146-151 (and 101-109): both ends trimmed independently inside
      the delimiters `a - 1` and `b + 1`. */
  function PairScope(line: string, a: nat, b: int): (sc: Scope)
    requires a <= b + 1 <= |line|
    ensures TrimsTo(line, a, b, sc)
  {
    Scope(SkipWsRight(line, a, b), SkipWsLeft(line, b, a))
  }

  /** Lines 195-198 (and 232-233, 243-244): the end is trimmed only down to
      the already trimmed start. */
  function NaiveScope(line: string, a: nat, b: int): (sc: Scope)
    requires a <= b + 1 <= |line|
    ensures TrimsTo(line, a, b, sc)
  {
    var s := SkipWsRight(line, a, b);
    Scope(s, SkipWsLeft(line, b, s))
  }

  /** What every reported scope satisfies: it starts inside the line (or just
      past it), ends before the line's end, and when non-empty it starts and
      ends on visible characters. */
  predicate ScopeWellFormed(line: string, sc: Scope) {
    0 <= sc.start <= |line| && -1 <= sc.end < |line|
    && (sc.start <= sc.end ==> !IsWs(line[sc.start]) && !IsWs(line[sc.end]))
  }

  predicate DetectionWellFormed(line: string, d: Detection) {
    d.scope.Some? ==> ScopeWellFormed(line, d.scope.value)
  }

  /** The scope is the trimmed interior of an `open`..`close` pair that
      straddles the cursor. */
  ghost predicate InsidePair(line: string, cursor: int, open: char, close: char, sc: Scope) {
    exists o: nat, c: nat :: PairInterior(line, cursor, open, close, o, c, sc)
  }

  /** The witness form of `InsidePair`: the delimiters sit at `o` and `c`. */
  ghost predicate PairInterior(line: string, cursor: int, open: char, close: char, o: nat, c: nat, sc: Scope) {
    o < cursor <= c < |line| && line[o] == open && line[c] == close && TrimsTo(line, o + 1, c - 1, sc)
  }

  lemma PairScopeInside(line: string, cursor: int, o: nat, c: nat)
    requires o < cursor <= c < |line|
    ensures InsidePair(line, cursor, line[o], line[c], PairScope(line, o + 1, c - 1))
  {
    assert PairInterior(line, cursor, line[o], line[c], o, c, PairScope(line, o + 1, c - 1));
  }

  lemma NaiveScopeInside(line: string, cursor: int, o: nat, c: nat)
    requires o < cursor <= c < |line|
    ensures InsidePair(line, cursor, line[o], line[c], NaiveScope(line, o + 1, c - 1))
  {
    assert PairInterior(line, cursor, line[o], line[c], o, c, NaiveScope(line, o + 1, c - 1));
  }

  /** What each reported kind rests on: the pair around the cursor whose
      trimmed interior is the scope, or the line-level pattern that admits it. */
  ghost predicate Evidence(line: string, cursor: int, d: Detection) {
    match d.env
    case Simple => d.scope.None?
    case Array => d.scope.Some? && InsidePair(line, cursor, '[', ']', d.scope.value)
    case Object => d.scope.Some? && InsidePair(line, cursor, '{', '}', d.scope.value)
    case FunctionParams =>
      ArrowAfterParen(line) && d.scope.Some? && InsidePair(line, cursor, '(', ')', d.scope.value)
    case Logical =>
      LogicalPattern(line) && d.scope.Some?
      && (InsidePair(line, cursor, '(', ')', d.scope.value) || WholeLine(line, d.scope.value))
    case ReactComponent =>
      ReactPattern(line) || (d.scope.Some? && InsidePair(line, cursor, '<', '>', d.scope.value))
    case Union => UnionPattern(line) && (d.scope.Some? ==> UnionRegion(line, d.scope.value))
    case TypeParams => false
    case ClassList => false
  }

  /** The scope is the whole line trimmed. */
  ghost predicate WholeLine(line: string, sc: Scope) {
    TrimsTo(line, 0, |line| - 1, sc)
  }

  /** The scope is the union's region, from after the last `=` to before the
      first `;` or `//`, trimmed. */
  ghost predicate UnionRegion(line: string, sc: Scope) {
    TrimsTo(line, UnionStart(line), UnionEnd(line, UnionStart(line)), sc)
  }

  // ---------------------------------------------------------------------------
  // The JSX tag scan (lines 44-141)
  // ---------------------------------------------------------------------------

  /** The nearest `<` at or before the cursor, or -1 (lines 47-52). */
  function TagOpen(line: string, cursor: int): (r: int)
    ensures r == -1 || (0 <= r <= cursor && r < |line| && line[r] == '<')
    ensures forall k :: r < k <= cursor && 0 <= k < |line| ==> line[k] != '<'
  {
    LastFrom(line, '<', if cursor < |line| then cursor else |line| - 1)
  }

  /** `while (line[i] === ' ') i++` */
  function SpacesEnd(line: string, i: nat): (r: nat)
    ensures i <= r && (r == i || r <= |line|)
    ensures forall k :: i <= k < r ==> CharIs(line, k, ' ')
    ensures !CharIs(line, r, ' ')
    decreases |line| - i
  {
    if CharIs(line, i, ' ') then SpacesEnd(line, i + 1) else i
  }

  /** `while (/[A-Za-z0-9_.]/.test(line[i] || '')) i++` */
  function NameEnd(line: string, i: nat): (r: nat)
    ensures i <= r && (r == i || r <= |line|)
    ensures forall k :: i <= k < r ==> k < |line| && IsTagNameChar(line[k])
    ensures r < |line| ==> !IsTagNameChar(line[r])
    decreases |line| - i
  {
    if i < |line| && IsTagNameChar(line[i]) then NameEnd(line, i + 1) else i
  }

  /** The quote and bracket depth of the `>` search. Depth is a `nat`: a
      closer at depth zero leaves it at zero. */
  datatype TagState = TagState(quote: Option<char>, depth: nat)

  /** One character of the `>` search (lines 64-76). */
  function TagStep(st: TagState, line: string, k: nat): TagState
    requires k < |line|
  {
    var ch := line[k];
    if st.quote.Some? then
      if ch == st.quote.value && !CharIs(line, k - 1, '\\') then TagState(None, st.depth) else st
    else if IsQuoteChar(ch) then TagState(Some(ch), st.depth)
    else if ch == '{' || ch == '(' || ch == '[' then TagState(None, st.depth + 1)
    else if ch == '}' || ch == ')' || ch == ']' then TagState(None, Max0(st.depth - 1))
    else st
  }

  /** The state of the search on reaching `k`, having started at `from`. */
  function TagStateAt(line: string, from: nat, k: nat): TagState
    requires from <= k <= |line|
    decreases k - from
  {
    if k == from then TagState(None, 0) else TagStep(TagStateAt(line, from, k - 1), line, k - 1)
  }

  /** Line 78: outside quotes and brackets, a `>` not preceded by `=` ends the tag. */
  predicate ClosesTag(line: string, st: TagState, k: nat)
    requires k < |line|
  {
    st.quote.None? && st.depth == 0 && line[k] == '>' && !CharIs(line, k - 1, '=')
  }

  /** Lines 63-82: the first index at or after `from` that closes the tag, or -1. */
  function TagClose(line: string, from: nat): (r: int)
    ensures r == -1 || (from <= r < |line| && ClosesTag(line, TagStateAt(line, from, r), r))
    ensures forall k :: from <= k < |line| && (r == -1 || k < r) ==> !ClosesTag(line, TagStateAt(line, from, k), k)
  {
    if from > |line| then -1 else TagScan(line, from, from, TagState(None, 0))
  }

  function TagScan(line: string, from: nat, i: nat, st: TagState): (r: int)
    requires from <= i <= |line| && st == TagStateAt(line, from, i)
    requires forall k :: from <= k < i ==> !ClosesTag(line, TagStateAt(line, from, k), k)
    ensures r == -1 || (i <= r < |line| && ClosesTag(line, TagStateAt(line, from, r), r))
    ensures forall k :: from <= k < |line| && (r == -1 || k < r) ==> !ClosesTag(line, TagStateAt(line, from, k), k)
    decreases |line| - i
  {
    if i == |line| then -1
    else if ClosesTag(line, st, i) then i
    else TagScan(line, from, i + 1, TagStep(st, line, i))
  }

  /** Lines 88-91: the props end before `>`, with trailing whitespace, one
      optional `/` and the whitespace before it dropped, never passing `s`. */
  function PropsEnd(line: string, s: int, gt: nat): (e: int)
    requires 0 <= s <= gt < |line|
    requires s < gt ==> !WsAt(line, s)
    ensures e < gt
    ensures s < gt ==> s - 1 <= e
    ensures s <= e ==> !IsWs(line[e])
    ensures forall k :: e < k < gt && s <= k ==> IsWs(line[k]) || line[k] == '/'
    ensures AtMostOneSlash(line, e, gt)
    ensures s <= e && line[e] == '/' ==> exists k :: e < k < gt && line[k] == '/'
  {
    var e1 := SkipWsLeft(line, gt - 1, s + 1);
    var e2 := if CharIs(line, e1, '/') then e1 - 1 else e1;
    var e := SkipWsLeft(line, e2, s + 1);
    forall k | e < k < gt && s <= k
      ensures IsWs(line[k]) || line[k] == '/'
    {
      assert WsAt(line, k) || CharIs(line, k, '/');
    }
    forall k | e < k < gt && k != e1
      ensures IsWs(line[k])
    {
      assert WsAt(line, k);
    }
    e
  }

  /** At most one `/` lies strictly between `e` and `gt`. */
  predicate AtMostOneSlash(line: string, e: int, gt: nat)
    requires gt <= |line|
  {
    forall j, k :: e < j < k < gt && 0 <= j ==> !(line[j] == '/' && line[k] == '/')
  }

  /** What `findEnclosingPair` promises of the pair it reports. */
  predicate PairAround(line: string, cursor: int, p: Pair) {
    p.openIndex < cursor <= p.closeIndex < |line|
    && line[p.openIndex] == p.open && line[p.closeIndex] == p.close && PairCloser(p.open) == Some(p.close)
  }

  /** A kind read off the pair around the cursor, with the pair's trimmed
      interior as its scope, carries its evidence. */
  lemma PairEvidence(line: string, cursor: int, p: Pair, env: EnvKind)
    requires PairAround(line, cursor, p)
    requires env.Array? || env.Object? || env.FunctionParams? || env.Logical? || env.ReactComponent?
    requires env.Array? ==> p.open == '['
    requires env.Object? ==> p.open == '{'
    requires env.FunctionParams? ==> p.open == '(' && ArrowAfterParen(line)
    requires env.Logical? ==> p.open == '(' && LogicalPattern(line)
    requires env.ReactComponent? ==> p.open == '<'
    ensures var d := Detection(env, Some(PairScope(line, p.openIndex + 1, p.closeIndex - 1)));
      Evidence(line, cursor, d) && DetectionWellFormed(line, d)
  {
    var sc := PairScope(line, p.openIndex + 1, p.closeIndex - 1);
    PairScopeInside(line, cursor, p.openIndex, p.closeIndex);
    var d := Detection(env, Some(sc));
    if env.Array? {
      assert p.close == ']';
      assert Evidence(line, cursor, d);
    } else if env.Object? {
      assert p.close == '}';
      assert Evidence(line, cursor, d);
    } else if env.FunctionParams? || env.Logical? {
      assert p.close == ')';
      assert Evidence(line, cursor, d);
    } else {
      assert p.close == '>';
      assert Evidence(line, cursor, d);
    }
  }

  /** The detection of kind `env` scoped to the trimmed interior of `p`. */
  function PairKind(line: string, cursor: int, p: Pair, env: EnvKind): (r: Option<Detection>)
    requires PairAround(line, cursor, p)
    requires env.Array? || env.Object? || env.FunctionParams? || env.Logical? || env.ReactComponent?
    requires env.Array? ==> p.open == '['
    requires env.Object? ==> p.open == '{'
    requires env.FunctionParams? ==> p.open == '(' && ArrowAfterParen(line)
    requires env.Logical? ==> p.open == '(' && LogicalPattern(line)
    requires env.ReactComponent? ==> p.open == '<'
    ensures r == Some(Detection(env, Some(PairScope(line, p.openIndex + 1, p.closeIndex - 1))))
    ensures Evidence(line, cursor, r.value) && DetectionWellFormed(line, r.value)
  {
    PairEvidence(line, cursor, p, env);
    Some(Detection(env, Some(PairScope(line, p.openIndex + 1, p.closeIndex - 1))))
  }

  /** Lines 94-133: the kind a bracket pair strictly inside the props gives;
      `None` for a `{` without a `:` and a `(` with neither an arrow nor a
      logical operator on the line. */
  function NestedKind(line: string, p: Pair): (k: Option<EnvKind>)
    requires p.openIndex < p.closeIndex <= |line|
    ensures k == Some(Array) <==> p.open == '['
    ensures k == Some(Object) <==> p.open == '{' && ':' in line[p.openIndex + 1..p.closeIndex]
    ensures k == Some(FunctionParams) <==> p.open == '(' && ArrowAfterParen(line)
    ensures k == Some(Logical) <==> p.open == '(' && !ArrowAfterParen(line) && LogicalPattern(line)
    ensures k.Some? ==> k.value.Array? || k.value.Object? || k.value.FunctionParams? || k.value.Logical?
  {
    var innerText := Slice(line, p.openIndex + 1, p.closeIndex);
    if p.open == '[' then Some(Array)
    else if p.open == '{' && ':' in innerText then Some(Object)
    else if p.open == '(' && ArrowAfterParen(line) then Some(FunctionParams)
    else if p.open == '(' && LogicalPattern(line) then Some(Logical)
    else None
  }

  /** The nested list, scoped to the pair's trimmed interior. */
  function NestedDetection(line: string, cursor: int, p: Pair): (r: Option<Detection>)
    requires PairAround(line, cursor, p)
    ensures r.Some? <==> NestedKind(line, p).Some?
    ensures r.Some? ==> r.value == Detection(NestedKind(line, p).value, Some(PairScope(line, p.openIndex + 1, p.closeIndex - 1)))
    ensures r.Some? ==> Evidence(line, cursor, r.value) && DetectionWellFormed(line, r.value)
  {
    match NestedKind(line, p)
    case None => None
    case Some(env) => PairKind(line, cursor, p, env)
  }

  /** Lines 46-82: the tag around the cursor, as the index just past its
      name and the index of the `>` that closes it. */
  function TagFrame(line: string, cursor: int): (r: Option<(nat, nat)>)
    ensures r.Some? <==> TagOpen(line, cursor) != -1 && TagClose(line, NameEnd(line, SpacesEnd(line, TagOpen(line, cursor) + 1))) != -1
    ensures r.Some? ==> TagOpen(line, cursor) < r.value.0 <= r.value.1 < |line| && line[r.value.1] == '>'
  {
    var lt := TagOpen(line, cursor);
    if lt == -1 then None
    else
      var nameEnd := NameEnd(line, SpacesEnd(line, lt + 1));
      var gt := TagClose(line, nameEnd);
      if gt == -1 then None else Some((nameEnd, gt))
  }

  /** The props scope lies between the end of the tag name and the closing
      `>`, with only whitespace before it and only whitespace or `/` after it. */
  predicate PropsWithin(line: string, nameEnd: nat, gt: nat, sc: Scope)
    requires gt < |line|
  {
    nameEnd <= sc.start <= sc.end < gt
    && (forall k :: nameEnd <= k < sc.start ==> WsAt(line, k))
    && (forall k :: sc.end < k < gt ==> IsWs(line[k]) || line[k] == '/')
    && AtMostOneSlash(line, sc.end, gt)
  }

  /** Lines 96-101: the pair around the cursor lies strictly inside the props
      starting at `s` and closed at `gt`, and it is a list of its own. */
  predicate NestedClaims(line: string, cursor: int, s: int, gt: nat) {
    var p := FindEnclosingPair(line, cursor);
    p.Some? && p.value.open != '<' && s < p.value.openIndex && p.value.closeIndex < gt
    && NestedKind(line, p.value).Some?
  }

  /** Lines 44-141, once the line looks like JSX: the props of the tag the
      cursor is in, unless a nested list strictly inside the props claims the
      cursor. `None` when no `<` precedes the cursor or the tag never closes. */
  function TagDetection(line: string, cursor: int): (r: Option<Detection>)
    ensures r.Some? <==> TagFrame(line, cursor).Some?
    ensures r.Some? ==> DetectionWellFormed(line, r.value)
    ensures r.Some? ==> !r.value.env.Simple? && !r.value.env.Union? && !r.value.env.TypeParams? && !r.value.env.ClassList?
    ensures r.Some? && r.value.env.ReactComponent? && r.value.scope.Some? ==>
      PropsWithin(line, TagFrame(line, cursor).value.0, TagFrame(line, cursor).value.1, r.value.scope.value)
    ensures r.Some? && !r.value.env.ReactComponent? ==>
      var p := FindEnclosingPair(line, cursor);
      p.Some? && p.value.open != '<'
      && TagFrame(line, cursor).value.0 < p.value.openIndex && p.value.closeIndex < TagFrame(line, cursor).value.1
    ensures r.Some? && ReactPattern(line) ==> Evidence(line, cursor, r.value)
    ensures r.Some? ==> r.value == TagProps(line, cursor, TagFrame(line, cursor).value.0, TagFrame(line, cursor).value.1)
  {
    match TagFrame(line, cursor)
    case None => None
    case Some((nameEnd, gt)) => Some(TagProps(line, cursor, nameEnd, gt))
  }

  /** Lines 85-139: the detection inside a tag whose name ends at `nameEnd`
      and which `>` at `gt` closes. */
  function TagProps(line: string, cursor: int, nameEnd: nat, gt: nat): (d: Detection)
    requires nameEnd <= gt < |line|
    ensures DetectionWellFormed(line, d)
    ensures !d.env.Simple? && !d.env.Union? && !d.env.TypeParams? && !d.env.ClassList?
    ensures d.env.ReactComponent? && d.scope.Some? ==> PropsWithin(line, nameEnd, gt, d.scope.value)
    ensures !d.env.ReactComponent? ==>
      var p := FindEnclosingPair(line, cursor);
      p.Some? && p.value.open != '<' && nameEnd < p.value.openIndex && p.value.closeIndex < gt
    ensures ReactPattern(line) ==> Evidence(line, cursor, d)
    ensures var s := SkipWsRight(line, nameEnd, gt - 1);
      NestedClaims(line, cursor, s, gt) ==> d == NestedDetection(line, cursor, FindEnclosingPair(line, cursor).value).value
    ensures var s := SkipWsRight(line, nameEnd, gt - 1); var e := PropsEnd(line, s, gt);
      !NestedClaims(line, cursor, s, gt) && s <= e ==> d == Detection(ReactComponent, Some(Scope(s, e)))
    ensures var s := SkipWsRight(line, nameEnd, gt - 1); var e := PropsEnd(line, s, gt);
      !NestedClaims(line, cursor, s, gt) && e < s ==> d == Detection(ReactComponent, None)
  {
    var s := SkipWsRight(line, nameEnd, gt - 1);
    var e := PropsEnd(line, s, gt);
    var nested := FindEnclosingPair(line, cursor);
    var inner :=
      if nested.Some? && nested.value.open != '<' && nested.value.openIndex > s && nested.value.closeIndex < gt
      then NestedDetection(line, cursor, nested.value) else None;
    if inner.Some? then inner.value
    else if s <= e then Detection(ReactComponent, Some(Scope(s, e)))
    else Detection(ReactComponent, None)
  }

  /** The JSX branch as `detectEnvironment` consults it: only on lines that
      look like JSX. */
  function TagBranch(line: string, cursor: int): (r: Option<Detection>)
    ensures r.Some? ==> ReactPattern(line) && Evidence(line, cursor, r.value) && DetectionWellFormed(line, r.value)
    ensures ReactPattern(line) ==> (r.Some? <==> TagFrame(line, cursor).Some?)
  {
    if ReactPattern(line) then TagDetection(line, cursor) else None
  }

  // ---------------------------------------------------------------------------
  // The enclosing pair (lines 144-177)
  // ---------------------------------------------------------------------------

  /** Classification of the nearest enclosing pair. `None` for a `(` on a
      line with neither an arrow nor a logical operator. */
  function PairDetection(line: string, cursor: int): (r: Option<Detection>)
    ensures r.Some? ==> DetectionWellFormed(line, r.value) && Evidence(line, cursor, r.value)
    ensures r.Some? ==>
      FindEnclosingPair(line, cursor).Some? && r == PairList(line, cursor, FindEnclosingPair(line, cursor).value)
    ensures r.None? <==> NoPairList(line, cursor)
  {
    match FindEnclosingPair(line, cursor)
    case None => None
    case Some(p) => PairList(line, cursor, p)
  }

  /** Lines 146-176: the kind the enclosing pair's opener gives, with the
      pair's trimmed interior as the scope. */
  function PairList(line: string, cursor: int, p: Pair): (r: Option<Detection>)
    requires PairAround(line, cursor, p)
    ensures r.Some? ==> r.value.scope == Some(PairScope(line, p.openIndex + 1, p.closeIndex - 1))
    ensures r.Some? ==> DetectionWellFormed(line, r.value) && Evidence(line, cursor, r.value)
    ensures p.open == '[' ==> r.Some? && r.value.env.Array?
    ensures p.open == '{' ==> r.Some? && r.value.env.Object?
    ensures p.open == '(' && ArrowAfterParen(line) ==> r.Some? && r.value.env.FunctionParams?
    ensures p.open == '<' ==> r.Some? && r.value.env.ReactComponent?
    ensures p.open == '(' && !ArrowAfterParen(line) && LogicalPattern(line) ==> r.Some? && r.value.env.Logical?
    ensures p.open == '(' && !ArrowAfterParen(line) && !LogicalPattern(line) ==> r.None?
  {
    if p.open == '[' then PairKind(line, cursor, p, Array)
    else if p.open == '{' then PairKind(line, cursor, p, Object)
    else if p.open == '(' && ArrowAfterParen(line) then PairKind(line, cursor, p, FunctionParams)
    else if p.open == '<' then PairKind(line, cursor, p, ReactComponent)
    else if p.open == '(' && LogicalPattern(line) then PairKind(line, cursor, p, Logical)
    else None
  }

  /** No enclosing pair, or only a `(` on a line with neither an arrow nor
      a logical operator. */
  predicate NoPairList(line: string, cursor: int) {
    match FindEnclosingPair(line, cursor)
    case None => true
    case Some(p) => p.open == '(' && !ArrowAfterParen(line) && !LogicalPattern(line)
  }

  // ---------------------------------------------------------------------------
  // The naive pair (lines 180-216)
  // ---------------------------------------------------------------------------

  datatype Span = Span(openIndex: nat, closeIndex: nat)

  /** `simplePair`: the last `open` at or before the cursor and the first
      `close` at or after it, kept only when they straddle the cursor. */
  function SimplePair(line: string, cursor: int, open: char, close: char): (r: Option<Span>)
    ensures r.Some? ==> r.value.openIndex < cursor <= r.value.closeIndex < |line|
    ensures r.Some? ==> line[r.value.openIndex] == open && line[r.value.closeIndex] == close
    ensures r.Some? ==> forall k :: r.value.openIndex < k <= cursor && k < |line| ==> line[k] != open
    ensures r.Some? ==> forall k :: cursor <= k < r.value.closeIndex ==> line[k] != close
    ensures r.None? ==>
      LastIndexOf(line, open, cursor) == -1 || IndexOf(line, close, cursor) == -1
      || !(LastIndexOf(line, open, cursor) < cursor <= IndexOf(line, close, cursor))
  {
    var o := LastIndexOf(line, open, cursor);
    var c := IndexOf(line, close, cursor);
    if o != -1 && c != -1 && o < cursor <= c then Some(Span(o, c)) else None
  }

  function NaiveDetection(line: string, cursor: int): (r: Option<Detection>)
    ensures r.Some? ==> DetectionWellFormed(line, r.value) && Evidence(line, cursor, r.value)
    ensures r.Some? ==> r.value.env.Array? || r.value.env.Object? || r.value.env.FunctionParams?
    ensures r.Some? && r.value.env.Array? <==> SimplePair(line, cursor, '[', ']').Some?
    ensures r.Some? && r.value.env.Object? <==>
      SimplePair(line, cursor, '[', ']').None? && SimplePair(line, cursor, '{', '}').Some?
    ensures r.Some? && r.value.env.FunctionParams? <==>
      SimplePair(line, cursor, '[', ']').None? && SimplePair(line, cursor, '{', '}').None?
      && SimplePair(line, cursor, '(', ')').Some? && ArrowAfterParen(line)
    ensures r.None? <==> NoNaiveList(line, cursor)
    ensures SimplePair(line, cursor, '[', ']').Some? ==>
      r == NaiveList(line, cursor, Array, SimplePair(line, cursor, '[', ']').value)
    ensures SimplePair(line, cursor, '[', ']').None? && SimplePair(line, cursor, '{', '}').Some? ==>
      r == NaiveList(line, cursor, Object, SimplePair(line, cursor, '{', '}').value)
    ensures (SimplePair(line, cursor, '[', ']').None? && SimplePair(line, cursor, '{', '}').None?
             && SimplePair(line, cursor, '(', ')').Some? && ArrowAfterParen(line)) ==>
      r == NaiveList(line, cursor, FunctionParams, SimplePair(line, cursor, '(', ')').value)
  {
    var a := SimplePair(line, cursor, '[', ']');
    var o := SimplePair(line, cursor, '{', '}');
    var f := SimplePair(line, cursor, '(', ')');
    if a.Some? then NaiveList(line, cursor, Array, a.value)
    else if o.Some? then NaiveList(line, cursor, Object, o.value)
    else if f.Some? && ArrowAfterParen(line) then NaiveList(line, cursor, FunctionParams, f.value)
    else None
  }

  /** Lines 195-199, 203-207, 211-215: the trimmed interior of a naive pair. */
  function NaiveList(line: string, cursor: int, env: EnvKind, sp: Span): (r: Option<Detection>)
    requires sp.openIndex < cursor <= sp.closeIndex < |line|
    ensures r == Some(Detection(env, Some(NaiveScope(line, sp.openIndex + 1, sp.closeIndex - 1))))
    ensures InsidePair(line, cursor, line[sp.openIndex], line[sp.closeIndex], r.value.scope.value)
  {
    var sc := NaiveScope(line, sp.openIndex + 1, sp.closeIndex - 1);
    NaiveScopeInside(line, cursor, sp.openIndex, sp.closeIndex);
    Some(Detection(env, Some(sc)))
  }

  /** No naive pair that `detectEnvironment` would report. */
  predicate NoNaiveList(line: string, cursor: int) {
    SimplePair(line, cursor, '[', ']').None? && SimplePair(line, cursor, '{', '}').None?
    && (SimplePair(line, cursor, '(', ')').None? || !ArrowAfterParen(line))
  }

  // ---------------------------------------------------------------------------
  // Union and logical fallbacks (lines 219-246)
  // ---------------------------------------------------------------------------

  /** Line 225: just after the last `=`, or the line start. */
  function UnionStart(line: string): (s: nat)
    ensures s <= |line|
    ensures s > 0 ==> line[s - 1] == '='
    ensures forall k :: s <= k < |line| ==> line[k] != '='
  {
    var eq := LastIndexOf(line, '=', |line|);
    if eq != -1 then eq + 1 else 0
  }

  /** Lines 226-231: the last index before the first `;` or `//` at or after
      `s`, or the line's last index. */
  function UnionEnd(line: string, s: nat): (e: int)
    requires s <= |line|
    ensures s - 1 <= e < |line|
    ensures forall k :: s <= k <= e ==> line[k] != ';' && !(k + 1 < |line| && line[k] == '/' && line[k + 1] == '/')
    ensures e + 1 == |line| || line[e + 1] == ';' || (e + 2 < |line| && line[e + 1] == '/' && line[e + 2] == '/')
  {
    var semi := IndexOf(line, ';', s);
    var comment := IndexOfPair(line, '/', '/', s);
    var e1 := if semi != -1 then Min(|line| - 1, semi - 1) else |line| - 1;
    if comment != -1 then Min(e1, comment - 1) else e1
  }

  /** Lines 219-237. */
  function UnionDetection(line: string): (d: Detection)
    ensures d.env.Union? && DetectionWellFormed(line, d)
    ensures d.scope.Some? ==> UnionRegion(line, d.scope.value)
    ensures d.scope.Some? <==> exists k :: 0 <= k < |line| && line[k] == '|'
  {
    var firstPipe := IndexOf(line, '|', 0);
    var lastPipe := LastIndexOf(line, '|', |line|);
    if firstPipe != -1 && lastPipe != -1 then
      var s := UnionStart(line);
      Detection(Union, Some(NaiveScope(line, s, UnionEnd(line, s))))
    else Detection(Union, None)
  }

  /** Lines 239-246: the whole line, trimmed. */
  function LogicalDetection(line: string): (d: Detection)
    ensures d.env.Logical? && d.scope.Some? && DetectionWellFormed(line, d)
    ensures WholeLine(line, d.scope.value)
  {
    Detection(Logical, Some(NaiveScope(line, 0, |line| - 1)))
  }

  // ---------------------------------------------------------------------------
  // detectEnvironment
  // ---------------------------------------------------------------------------

  /** `detectEnvironment`: the JSX tag, then the enclosing pair, then the
      naive pair, then a union, then a logical expression, then nothing. It
      is total, every scope it reports is well formed, every kind it reports
      rests on its evidence, and the fallbacks answer only when no earlier
      rule did. */
  function DetectEnvironment(line: string, cursor: int): (d: Detection)
    ensures DetectionWellFormed(line, d) && Evidence(line, cursor, d)
    ensures d.env.Union? ==> TagBranch(line, cursor).None? && NoPairList(line, cursor) && NoNaiveList(line, cursor)
    ensures d.env.Simple? <==>
      TagBranch(line, cursor).None? && NoPairList(line, cursor) && NoNaiveList(line, cursor)
      && !UnionPattern(line) && !LogicalPattern(line)
    ensures |line| == 0 ==> d == Detection(Simple, None)
    ensures TagBranch(line, cursor).Some? ==> d == TagBranch(line, cursor).value
    ensures TagBranch(line, cursor).None? && !NoPairList(line, cursor) ==> d == PairDetection(line, cursor).value
    ensures TagBranch(line, cursor).None? && NoPairList(line, cursor) && !NoNaiveList(line, cursor) ==>
      d == NaiveDetection(line, cursor).value
    ensures TagBranch(line, cursor).None? && NoPairList(line, cursor) && NoNaiveList(line, cursor) ==>
      d == Fallback(line, cursor)
  {
    var tag := TagBranch(line, cursor);
    if tag.Some? then tag.value else AfterTag(line, cursor)
  }

  /** The chain once the JSX branch has not answered. */
  function AfterTag(line: string, cursor: int): (d: Detection)
    ensures DetectionWellFormed(line, d) && Evidence(line, cursor, d)
    ensures d.env.Union? ==> NoPairList(line, cursor) && NoNaiveList(line, cursor)
    ensures d.env.Simple? <==>
      NoPairList(line, cursor) && NoNaiveList(line, cursor) && !UnionPattern(line) && !LogicalPattern(line)
    ensures !NoPairList(line, cursor) ==> d == PairDetection(line, cursor).value
    ensures NoPairList(line, cursor) && !NoNaiveList(line, cursor) ==> d == NaiveDetection(line, cursor).value
    ensures NoPairList(line, cursor) && NoNaiveList(line, cursor) ==> d == Fallback(line, cursor)
  {
    var pair := PairDetection(line, cursor);
    if pair.Some? then pair.value else AfterPair(line, cursor)
  }

  /** The chain once neither the JSX branch nor the enclosing pair has answered. */
  function AfterPair(line: string, cursor: int): (d: Detection)
    ensures DetectionWellFormed(line, d) && Evidence(line, cursor, d)
    ensures d.env.Union? ==> NoNaiveList(line, cursor)
    ensures d.env.Simple? <==> NoNaiveList(line, cursor) && !UnionPattern(line) && !LogicalPattern(line)
    ensures !NoNaiveList(line, cursor) ==> d == NaiveDetection(line, cursor).value
    ensures NoNaiveList(line, cursor) ==> d == Fallback(line, cursor)
  {
    var naive := NaiveDetection(line, cursor);
    if naive.Some? then naive.value else Fallback(line, cursor)
  }

  /** The union, logical and simple fallbacks; the cursor plays no part. */
  function Fallback(line: string, cursor: int): (d: Detection)
    ensures DetectionWellFormed(line, d) && Evidence(line, cursor, d)
    ensures d.env.Union? <==> UnionPattern(line)
    ensures d.env.Logical? <==> !UnionPattern(line) && LogicalPattern(line)
    ensures d.env.Simple? <==> !UnionPattern(line) && !LogicalPattern(line)
    ensures UnionPattern(line) ==> d == UnionDetection(line)
    ensures !UnionPattern(line) && LogicalPattern(line) ==> d == LogicalDetection(line)
    ensures d.env.Simple? ==> d.scope.None?
  {
    if UnionPattern(line) then UnionDetection(line)
    else if LogicalPattern(line) then LogicalDetection(line)
    else Detection(Simple, None)
  }
}
