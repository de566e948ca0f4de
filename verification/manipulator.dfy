/**
 * The move engine: find the element under the cursor, move it `delta` places
 * among the elements of its scope, splice the rearranged scope back into the
 * line and put the cursor back on the moved element at the same offset.
 */
module Manipulator {
  import opened JsText
  import opened Chunks
  import opened Splitter
  import opened Detector

  datatype ManipulateResult = ManipulateResult(text: string, cursor: int)

  // ---------------------------------------------------------------------------
  // Where chunks sit in the joined scope
  // ---------------------------------------------------------------------------

  lemma ChunkStartStep(chunks: seq<Chunk>, i: nat)
    requires i < |chunks|
    ensures ChunkStart(chunks, i + 1) == ChunkStart(chunks, i) + |chunks[i].text|
    ensures ElementCount(chunks[..i + 1]) == ElementCount(chunks[..i]) + (if chunks[i].kind == Element then 1 else 0)
  {
    assert chunks[..i + 1][..i] == chunks[..i];
  }

  lemma {:induction false} ChunkStartMono(chunks: seq<Chunk>, i: nat, j: nat)
    requires i <= j <= |chunks|
    ensures ChunkStart(chunks, i) <= ChunkStart(chunks, j)
    decreases j - i
  {
    if i < j {
      ChunkStartStep(chunks, j - 1);
      ChunkStartMono(chunks, i, j - 1);
    }
  }

  lemma {:induction false} ElementCountMono(chunks: seq<Chunk>, i: nat, j: nat)
    requires i <= j <= |chunks|
    ensures ElementCount(chunks[..i]) <= ElementCount(chunks[..j]) <= ElementCount(chunks)
  {
    assert chunks[..|chunks|] == chunks;
    ElementCountUpTo(chunks, i, j);
    ElementCountUpTo(chunks, j, |chunks|);
  }

  lemma {:induction false} ElementCountUpTo(chunks: seq<Chunk>, i: nat, j: nat)
    requires i <= j <= |chunks|
    ensures ElementCount(chunks[..i]) <= ElementCount(chunks[..j])
    decreases j - i
  {
    if i < j {
      ChunkStartStep(chunks, j - 1);
      ElementCountUpTo(chunks, i, j - 1);
    }
  }

  /** Chunk `k` is spelled out in the joined scope from its start offset. */
  lemma ChunkSpan(chunks: seq<Chunk>, k: nat)
    requires k < |chunks|
    ensures ChunkStart(chunks, k) + |chunks[k].text| <= |JoinChunks(chunks)|
    ensures JoinChunks(chunks)[ChunkStart(chunks, k)..ChunkStart(chunks, k) + |chunks[k].text|] == chunks[k].text
  {
    var pre := chunks[..k];
    var rest := chunks[k + 1..];
    assert chunks == (pre + [chunks[k]]) + rest;
    JoinChunksAppend(pre + [chunks[k]], rest);
    JoinChunksAppend(pre, [chunks[k]]);
    var a := JoinChunks(pre);
    var b := chunks[k].text;
    assert JoinChunks(chunks) == a + b + JoinChunks(rest);
    assert (a + b + JoinChunks(rest))[|a|..|a| + |b|] == b;
  }

  /** The element chunk at `k` holds the element numbered by the elements before it. */
  lemma {:induction false} ElementAt(chunks: seq<Chunk>, k: nat)
    requires k < |chunks| && chunks[k].kind == Element
    ensures ElementCount(chunks[..k]) < ElementCount(chunks)
    ensures Elements(chunks)[ElementCount(chunks[..k])] == chunks[k].text
    decreases |chunks|
  {
    var n := |chunks|;
    var init := chunks[..n - 1];
    if k == n - 1 {
      assert init == chunks[..k];
    } else {
      assert init[..k] == chunks[..k];
      ElementAt(init, k);
    }
  }

  /** Every element is held by some element chunk. */
  lemma {:induction false} ElementChunk(chunks: seq<Chunk>, idx: nat) returns (k: nat)
    requires idx < ElementCount(chunks)
    ensures HoldsElement(chunks, k, idx)
    decreases |chunks|
  {
    var n := |chunks|;
    var init := chunks[..n - 1];
    assert chunks[..n - 1] == init;
    if chunks[n - 1].kind == Element && ElementCount(init) == idx {
      k := n - 1;
    } else {
      k := ElementChunk(init, idx);
      assert init[..k] == chunks[..k];
    }
  }

  // ---------------------------------------------------------------------------
  // findElementIndexAt (lines 13-28)
  // ---------------------------------------------------------------------------

  /** Chunk `k` holds the offset `rel` of the joined scope. */
  predicate Covers(chunks: seq<Chunk>, k: nat, rel: int)
    requires k < |chunks|
  {
    ChunkStart(chunks, k) <= rel < ChunkStart(chunks, k) + |chunks[k].text|
  }

  /** The element an offset in chunk `k` belongs to: the element itself, or
      for a separator the element before it (the first if none precedes). */
  function ElementOfChunk(chunks: seq<Chunk>, k: nat): nat
    requires k < |chunks|
  {
    if chunks[k].kind == Separator then Max0(ElementCount(chunks[..k]) - 1) else ElementCount(chunks[..k])
  }

  /** `findElementIndexAt`: the element of the chunk holding `rel`; past the
      end (or before the start), the last element. */
  function FindElementIndexAt(chunks: seq<Chunk>, rel: int): (r: nat)
    ensures r <= Max0(ElementCount(chunks) - 1)
    ensures forall k {:trigger Covers(chunks, k, rel)} :: 0 <= k < |chunks| && Covers(chunks, k, rel) ==> r == ElementOfChunk(chunks, k)
    ensures (forall k :: 0 <= k < |chunks| ==> !Covers(chunks, k, rel)) ==> r == Max0(ElementCount(chunks) - 1)
  {
    assert chunks[..0] == [];
    FindFrom(chunks, rel, 0, 0, 0)
  }

  /** The loop of `findElementIndexAt` from chunk `i`, at offset `pos` with
      `elemIdx` elements passed. */
  function FindFrom(chunks: seq<Chunk>, rel: int, i: nat, pos: nat, elemIdx: nat): (r: nat)
    requires i <= |chunks| && pos == ChunkStart(chunks, i) && elemIdx == ElementCount(chunks[..i])
    ensures r <= Max0(ElementCount(chunks) - 1)
    ensures forall k {:trigger Covers(chunks, k, rel)} :: i <= k < |chunks| && Covers(chunks, k, rel) ==> r == ElementOfChunk(chunks, k)
    ensures (forall k :: i <= k < |chunks| ==> !Covers(chunks, k, rel)) ==> r == Max0(ElementCount(chunks) - 1)
    decreases |chunks| - i
  {
    if i == |chunks| then Max0(ElementCount(chunks) - 1)
    else
      var ch := chunks[i];
      var nextPos := pos + |ch.text|;
      ChunkStartStep(chunks, i);
      ElementCountMono(chunks, i + 1, |chunks|);
      if rel >= pos && rel < nextPos then
        LaterChunksMiss(chunks, i, rel);
        assert Covers(chunks, i, rel);
        if ch.kind == Separator then Max0(elemIdx - 1) else elemIdx
      else
        FindFrom(chunks, rel, i + 1, nextPos, if ch.kind == Element then elemIdx + 1 else elemIdx)
  }

  /** Chunks after `i` start at or after the end of chunk `i`. */
  lemma LaterChunksMiss(chunks: seq<Chunk>, i: nat, rel: int)
    requires i < |chunks| && rel < ChunkStart(chunks, i + 1)
    ensures forall k :: i < k < |chunks| ==> !Covers(chunks, k, rel)
  {
    forall k | i < k < |chunks|
      ensures !Covers(chunks, k, rel)
    {
      ChunkStartMono(chunks, i + 1, k);
    }
  }

  /** An offset inside an element chunk selects that very element. */
  lemma FindElementInElement(chunks: seq<Chunk>, k: nat, rel: int)
    requires k < |chunks| && chunks[k].kind == Element && Covers(chunks, k, rel)
    ensures FindElementIndexAt(chunks, rel) < ElementCount(chunks)
    ensures Elements(chunks)[FindElementIndexAt(chunks, rel)] == chunks[k].text
  {
    ElementAt(chunks, k);
  }

  // ---------------------------------------------------------------------------
  // getElementStartAndLength (lines 62-76)
  // ---------------------------------------------------------------------------

  datatype Location = Location(start: nat, length: nat)

  /** Chunk `k` is the element chunk of element number `idx`. */
  predicate HoldsElement(chunks: seq<Chunk>, k: nat, idx: nat) {
    k < |chunks| && chunks[k].kind == Element && ElementCount(chunks[..k]) == idx
  }

  /** `getElementStartAndLength`: where element `elemIdx` starts in the joined
      scope and how long it is; past the last element, the end of the scope
      with length zero. */
  function ElementLocation(list: seq<Chunk>, elemIdx: nat): (r: Location)
    ensures forall k {:trigger HoldsElement(list, k, elemIdx)} :: 0 <= k < |list| && HoldsElement(list, k, elemIdx) ==> r == Location(ChunkStart(list, k), |list[k].text|)
    ensures elemIdx >= ElementCount(list) ==> r == Location(|JoinChunks(list)|, 0)
  {
    assert list[..0] == [];
    LocateFrom(list, elemIdx, 0, 0, 0)
  }

  function LocateFrom(list: seq<Chunk>, elemIdx: nat, i: nat, pos: nat, seen: nat): (r: Location)
    requires i <= |list| && pos == ChunkStart(list, i) && seen == ElementCount(list[..i]) && seen <= elemIdx
    ensures forall k {:trigger HoldsElement(list, k, elemIdx)} :: i <= k < |list| && HoldsElement(list, k, elemIdx) ==> r == Location(ChunkStart(list, k), |list[k].text|)
    ensures elemIdx >= ElementCount(list) ==> r == Location(|JoinChunks(list)|, 0)
    decreases |list| - i
  {
    if i == |list| then
      assert list[..i] == list;
      Location(pos, 0)
    else
      var c := list[i];
      ChunkStartStep(list, i);
      ElementCountMono(list, i + 1, |list|);
      LaterElementsCount(list, i);
      if c.kind == Element && seen == elemIdx then Location(pos, |c.text|)
      else LocateFrom(list, elemIdx, i + 1, pos + |c.text|, if c.kind == Element then seen + 1 else seen)
  }

  /** The elements before a later chunk include those up to and including chunk `i`. */
  lemma LaterElementsCount(list: seq<Chunk>, i: nat)
    requires i < |list|
    ensures forall k :: i < k <= |list| ==> ElementCount(list[..i + 1]) <= ElementCount(list[..k])
  {
    forall k | i < k <= |list|
      ensures ElementCount(list[..i + 1]) <= ElementCount(list[..k])
    {
      ElementCountMono(list, i + 1, k);
    }
  }

  /** The location of an element spells that element in the joined scope. */
  lemma ElementLocationSpans(list: seq<Chunk>, elemIdx: nat)
    requires elemIdx < ElementCount(list)
    ensures ElementLocation(list, elemIdx).length == |Elements(list)[elemIdx]|
    ensures ElementLocation(list, elemIdx).start + ElementLocation(list, elemIdx).length <= |JoinChunks(list)|
    ensures JoinChunks(list)[ElementLocation(list, elemIdx).start..ElementLocation(list, elemIdx).start
      + ElementLocation(list, elemIdx).length] == Elements(list)[elemIdx]
  {
    var k := ElementChunk(list, elemIdx);
    ChunkSpan(list, k);
    ElementAt(list, k);
  }

  // ---------------------------------------------------------------------------
  // The two splices of reorderByMoving (lines 37-39)
  // ---------------------------------------------------------------------------

  function Remove<T>(s: seq<T>, i: nat): (r: seq<T>)
    requires i < |s|
    ensures |r| == |s| - 1
  {
    s[..i] + s[i + 1..]
  }

  function Insert<T>(s: seq<T>, i: nat, x: T): (r: seq<T>)
    requires i <= |s|
    ensures |r| == |s| + 1
  {
    s[..i] + [x] + s[i..]
  }

  lemma RemoveInsert<T>(s: seq<T>, i: nat, x: T)
    requires i <= |s|
    ensures Insert(s, i, x)[i] == x
    ensures Remove(Insert(s, i, x), i) == s
  {
    var t := Insert(s, i, x);
    assert t[..i] == s[..i];
    assert t[i + 1..] == s[i..];
  }

  lemma InsertRemove<T>(s: seq<T>, i: nat)
    requires i < |s|
    ensures Insert(Remove(s, i), i, s[i]) == s
  {
    var r := Remove(s, i);
    assert r[..i] == s[..i];
    assert r[i..] == s[i + 1..];
  }

  /** `order.splice(from, 1)` then `order.splice(to, 0, moved)`: the element
      at `from` ends up at `to`, and the others keep their relative order. */
  function Move<T>(s: seq<T>, from: nat, to: nat): (r: seq<T>)
    requires from < |s| && to < |s|
    ensures |r| == |s| && r[to] == s[from]
    ensures Remove(r, to) == Remove(s, from)
  {
    RemoveInsert(Remove(s, from), to, s[from]);
    Insert(Remove(s, from), to, s[from])
  }

  /** Moving back from `to` to `from` undoes a move. */
  lemma MoveInverse<T>(s: seq<T>, from: nat, to: nat)
    requires from < |s| && to < |s|
    ensures Move(Move(s, from, to), to, from) == s
  {
    var m := Move(s, from, to);
    calc {
      Move(m, to, from);
      Insert(Remove(m, to), from, m[to]);
      Insert(Remove(s, from), from, s[from]);
      { InsertRemove(s, from); }
      s;
    }
  }

  /** A move is a permutation. */
  lemma MovePermutes<T>(s: seq<T>, from: nat, to: nat)
    requires from < |s| && to < |s|
    ensures multiset(Move(s, from, to)) == multiset(s)
  {
    var rest := Remove(s, from);
    assert s == s[..from] + [s[from]] + s[from + 1..];
    assert multiset(s) == multiset(rest) + multiset{s[from]};
    assert rest == rest[..to] + rest[to..];
    assert multiset(Move(s, from, to)) == multiset(rest) + multiset{s[from]};
  }

  /** Moving an element to where it already is changes nothing. */
  lemma MoveInPlace<T>(s: seq<T>, i: nat)
    requires i < |s|
    ensures Move(s, i, i) == s
  {
    InsertRemove(s, i);
  }

  // ---------------------------------------------------------------------------
  // reorderByMoving (lines 30-42)
  // ---------------------------------------------------------------------------

  /** `a` and `b` have the same length, the same kinds position by position
      and the same separator chunks. */
  predicate SameShape(a: seq<Chunk>, b: seq<Chunk>) {
    |a| == |b|
    && (forall k :: 0 <= k < |a| ==> a[k].kind == b[k].kind)
    && (forall k :: 0 <= k < |a| && a[k].kind == Separator ==> a[k] == b[k])
  }

  lemma SameShapeAppend(a: seq<Chunk>, b: seq<Chunk>, x: Chunk, y: Chunk)
    requires SameShape(a, b) && x.kind == y.kind && (x.kind == Separator ==> x == y)
    ensures SameShape(a + [x], b + [y])
  {
    var a', b' := a + [x], b + [y];
    forall k | 0 <= k < |a'|
      ensures a'[k].kind == b'[k].kind && (a'[k].kind == Separator ==> a'[k] == b'[k])
    {
      if k < |a| {
        assert a'[k] == a[k] && b'[k] == b[k];
      }
    }
  }

  lemma SameShapeTrans(a: seq<Chunk>, b: seq<Chunk>, c: seq<Chunk>)
    requires SameShape(a, b) && SameShape(b, c)
    ensures SameShape(a, c)
  {
  }

  /** The `map` of `reorderByMoving`: element chunks take the next text in
      order, separators are kept as they are. */
  function ReplaceElements(chunks: seq<Chunk>, texts: seq<string>): (r: seq<Chunk>)
    requires |texts| == ElementCount(chunks)
    ensures SameShape(chunks, r)
    ensures Elements(r) == texts
    decreases |chunks|
  {
    if |chunks| == 0 then []
    else
      var n := |chunks|;
      var init := chunks[..n - 1];
      var last := chunks[n - 1];
      assert chunks == init + [last];
      if last.kind == Element then
        var front := ReplaceElements(init, texts[..|texts| - 1]);
        var r := front + [Chunk(Element, texts[|texts| - 1])];
        SameShapeAppend(init, front, last, r[n - 1]);
        assert r[..n - 1] == front;
        assert texts == texts[..|texts| - 1] + [texts[|texts| - 1]];
        r
      else
        var front := ReplaceElements(init, texts);
        var r := front + [last];
        SameShapeAppend(init, front, last, last);
        assert r[..n - 1] == front;
        r
  }

  lemma SameShapeInit(a: seq<Chunk>, b: seq<Chunk>)
    requires SameShape(a, b) && |a| > 0
    ensures SameShape(a[..|a| - 1], b[..|b| - 1])
  {
    var a', b' := a[..|a| - 1], b[..|b| - 1];
    forall k | 0 <= k < |a'|
      ensures a'[k].kind == b'[k].kind && (a'[k].kind == Separator ==> a'[k] == b'[k])
    {
      assert a'[k] == a[k] && b'[k] == b[k];
    }
  }

  /** Chunk lists of the same shape with the same element texts are equal. */
  lemma {:induction false} ChunksEqual(a: seq<Chunk>, b: seq<Chunk>)
    requires SameShape(a, b) && Elements(a) == Elements(b)
    ensures a == b
    decreases |a|
  {
    if |a| > 0 {
      var n := |a|;
      var a', b' := a[..n - 1], b[..n - 1];
      SameShapeInit(a, b);
      assert a[n - 1].kind == b[n - 1].kind;
      if a[n - 1].kind == Element {
        var ea := Elements(a);
        assert ea == Elements(a') + [a[n - 1].text];
        assert ea == Elements(b') + [b[n - 1].text];
        assert Elements(a') == ea[..|ea| - 1] == Elements(b');
      } else {
        assert Elements(a) == Elements(a') + [] == Elements(a');
        assert Elements(b) == Elements(b') + [] == Elements(b');
      }
      ChunksEqual(a', b');
      assert a == a' + [a[n - 1]];
      assert b == b' + [b[n - 1]];
    }
  }

  /** Total length of a list of texts. */
  function TotalLength(texts: seq<string>): nat
    decreases |texts|
  {
    if |texts| == 0 then 0 else TotalLength(texts[..|texts| - 1]) + |texts[|texts| - 1]|
  }

  lemma {:induction false} TotalLengthAppend(a: seq<string>, b: seq<string>)
    ensures TotalLength(a + b) == TotalLength(a) + TotalLength(b)
    decreases |b|
  {
    if |b| == 0 {
      assert a + b == a;
    } else {
      assert (a + b)[..|a + b| - 1] == a + b[..|b| - 1];
      TotalLengthAppend(a, b[..|b| - 1]);
    }
  }

  lemma TotalLengthOne(x: string)
    ensures TotalLength([x]) == |x|
  {
    assert [x][..0] == [];
  }

  lemma TotalLengthInsert(s: seq<string>, i: nat, x: string)
    requires i <= |s|
    ensures TotalLength(Insert(s, i, x)) == TotalLength(s) + |x|
  {
    assert s[..i] + s[i..] == s;
    TotalLengthAppend(s[..i] + [x], s[i..]);
    TotalLengthAppend(s[..i], [x]);
    TotalLengthAppend(s[..i], s[i..]);
    TotalLengthOne(x);
  }

  /** Moving texts around keeps their total length. */
  lemma TotalLengthMove(s: seq<string>, from: nat, to: nat)
    requires from < |s| && to < |s|
    ensures TotalLength(Move(s, from, to)) == TotalLength(s)
  {
    InsertRemove(s, from);
    TotalLengthInsert(Remove(s, from), from, s[from]);
    TotalLengthInsert(Remove(s, from), to, s[from]);
  }

  /** The joined scope is as long as its elements and separators together. */
  lemma {:induction false} JoinLength(chunks: seq<Chunk>)
    ensures |JoinChunks(chunks)| == TotalLength(Elements(chunks)) + TotalLength(Separators(chunks))
    decreases |chunks|
  {
    if |chunks| > 0 {
      var n := |chunks|;
      var last := chunks[n - 1];
      JoinLength(chunks[..n - 1]);
      TotalLengthOne(last.text);
      assert JoinChunks(chunks) == JoinChunks(chunks[..n - 1]) + last.text;
      if last.kind == Element {
        TotalLengthAppend(Elements(chunks[..n - 1]), [last.text]);
        assert Elements(chunks) == Elements(chunks[..n - 1]) + [last.text];
        assert Separators(chunks) == Separators(chunks[..n - 1]) + [] == Separators(chunks[..n - 1]);
      } else {
        TotalLengthAppend(Separators(chunks[..n - 1]), [last.text]);
        assert Separators(chunks) == Separators(chunks[..n - 1]) + [last.text];
        assert Elements(chunks) == Elements(chunks[..n - 1]) + [] == Elements(chunks[..n - 1]);
      }
    }
  }

  /** `reorderByMoving`: `None` (the input list itself, in the source) when
      the target index is outside the elements; otherwise the element at
      `from` moved to `to`, separators in place. */
  function ReorderByMoving(chunks: seq<Chunk>, from: nat, to: int): (r: Option<seq<Chunk>>)
    requires from <= Max0(ElementCount(chunks) - 1)
    ensures r.None? <==> to < 0 || to >= ElementCount(chunks)
    ensures r.Some? ==> SameShape(chunks, r.value)
    ensures r.Some? ==> Elements(r.value) == Move(Elements(chunks), from, to)
  {
    var elements := Elements(chunks);
    if to < 0 || to >= |elements| then None
    else Some(ReplaceElements(chunks, Move(elements, from, to)))
  }

  /** A reorder keeps the element count, the separators, the multiset of
      element texts and the length of the joined scope, and puts the moved
      element at the target index. */
  lemma ReorderKeeps(chunks: seq<Chunk>, from: nat, to: int)
    requires from <= Max0(ElementCount(chunks) - 1)
    requires ReorderByMoving(chunks, from, to).Some?
    ensures var r := ReorderByMoving(chunks, from, to).value;
      ElementCount(r) == ElementCount(chunks)
      && Separators(r) == Separators(chunks)
      && multiset(Elements(r)) == multiset(Elements(chunks))
      && Elements(r)[to] == Elements(chunks)[from]
      && |JoinChunks(r)| == |JoinChunks(chunks)|
  {
    var r := ReorderByMoving(chunks, from, to).value;
    SeparatorsKept(chunks, r);
    MovePermutes(Elements(chunks), from, to);
    TotalLengthMove(Elements(chunks), from, to);
    JoinLength(chunks);
    JoinLength(r);
  }

  /** Lists that agree in kinds and separators have the same separators. */
  lemma {:induction false} SeparatorsKept(a: seq<Chunk>, b: seq<Chunk>)
    requires SameShape(a, b)
    ensures Separators(a) == Separators(b)
    decreases |a|
  {
    if |a| > 0 {
      SameShapeInit(a, b);
      SeparatorsKept(a[..|a| - 1], b[..|b| - 1]);
    }
  }

  /** Moving the element back restores the original chunks. */
  lemma ReorderInverse(chunks: seq<Chunk>, from: nat, to: int)
    requires from <= Max0(ElementCount(chunks) - 1)
    requires ReorderByMoving(chunks, from, to).Some?
    ensures var r := ReorderByMoving(chunks, from, to).value;
      to <= Max0(ElementCount(r) - 1) && ReorderByMoving(r, to, from) == Some(chunks)
  {
    var r := ReorderByMoving(chunks, from, to).value;
    MoveInverse(Elements(chunks), from, to);
    var back := ReorderByMoving(r, to, from).value;
    SameShapeTrans(chunks, r, back);
    ChunksEqual(chunks, back);
  }

  // ---------------------------------------------------------------------------
  // manipulateLine (lines 44-97)
  // ---------------------------------------------------------------------------

  /** `manipulateLine`: move the element under the cursor by `delta` places
      within the scope the detector reports for the line. */
  function ManipulateLine(line: string, cursor: int, delta: int): (r: ManipulateResult)
    ensures ManipulatedBy(line, cursor, delta, DetectEnvironment(line, cursor), r)
  {
    ManipulateIn(line, cursor, delta, DetectEnvironment(line, cursor))
  }

  /** The body of `manipulateLine` once the detector has answered `detection`. */
  function ManipulateIn(line: string, cursor: int, delta: int, detection: Detection): (r: ManipulateResult)
    requires DetectionWellFormed(line, detection)
    ensures ManipulatedBy(line, cursor, delta, detection, r)
    ensures Scoped(detection) ==> r == MoveInScope(line, cursor, delta, detection.scope.value.start, detection.scope.value.end,
      ScopeChunks(line, detection))
  {
    var env := detection.env;
    if env.Simple? || detection.scope.None? then ManipulateResult(line, cursor)
    else
      var s := detection.scope.value.start;
      var e := detection.scope.value.end;
      ScopedManipulated(line, cursor, delta, detection);
      MoveInScope(line, cursor, delta, s, e, ScopeChunks(line, detection))
  }

  lemma ScopedManipulated(line: string, cursor: int, delta: int, d: Detection)
    requires DetectionWellFormed(line, d) && Scoped(d)
    ensures ManipulatedBy(line, cursor, delta, d,
      MoveInScope(line, cursor, delta, d.scope.value.start, d.scope.value.end, ScopeChunks(line, d)))
  {
    MoveInScopeMovesOrKeeps(line, cursor, delta, d.scope.value.start, d.scope.value.end, ScopeChunks(line, d));
  }

  /** What `manipulateLine` does once the detector has answered `d`: the line
      comes back unchanged for a simple environment, a missing scope or a
      target outside the scope's elements; otherwise the element under the
      cursor is moved `delta` places as `MovedWithin` describes. */
  predicate ManipulatedBy(line: string, cursor: int, delta: int, d: Detection, r: ManipulateResult)
    requires DetectionWellFormed(line, d)
  {
    if !Scoped(d) then r == ManipulateResult(line, cursor)
    else MovedOrKept(line, cursor, delta, d.scope.value.start, d.scope.value.end, ScopeChunks(line, d), r)
  }

  /** A move within the scope `[s, e]` split into `chunks`: the element under
      the cursor is moved as `MovedWithin` describes when its target is among
      the elements, and the line is kept otherwise. */
  predicate MovedOrKept(line: string, cursor: int, delta: int, s: nat, e: int, chunks: seq<Chunk>, r: ManipulateResult)
    requires s <= |line| && -1 <= e < |line|
  {
    if InRange(chunks, cursor - s, delta) then MovedWithin(line, cursor, delta, s, e, chunks, r)
    else r == ManipulateResult(line, cursor)
  }

  /** The rest of `manipulateLine` once the scope `line[s..e]` has been split
      into `chunks`: find the cursor's element, move it, splice the scope back
      and place the cursor. A target outside the elements changes nothing. */
  function MoveInScope(line: string, cursor: int, delta: int, s: nat, e: int, chunks: seq<Chunk>): (r: ManipulateResult)
    requires s <= |line| && -1 <= e < |line|
    ensures !InRange(chunks, cursor - s, delta) ==> r == ManipulateResult(line, cursor)
  {
    var relativeCursor := cursor - s;
    var fromElemIdx := FindElementIndexAt(chunks, relativeCursor);
    var fromElemLoc := ElementLocation(chunks, fromElemIdx);
    var withinOffset := Max0(Min(relativeCursor - fromElemLoc.start, fromElemLoc.length));
    var toElemIdx := fromElemIdx + delta;
    match ReorderByMoving(chunks, fromElemIdx, toElemIdx)
    case None => ManipulateResult(line, cursor)
    case Some(afterMove) =>
      var newScope := JoinChunks(afterMove);
      var newLine := Slice(line, 0, s) + newScope + Slice(line, e + 1, |line|);
      var movedIdx := Max0(Min(toElemIdx, ElementCount(afterMove) - 1));
      var movedLoc := ElementLocation(afterMove, movedIdx);
      var newRelative := movedLoc.start + Min(withinOffset, movedLoc.length);
      ManipulateResult(newLine, s + newRelative)
  }

  /** Moving the element at offset `rel` by `delta` lands among the elements. */
  predicate InRange(chunks: seq<Chunk>, rel: int, delta: int) {
    0 <= FindElementIndexAt(chunks, rel) + delta < ElementCount(chunks)
  }

  /** A move rewrites only the scope: the text before `s` and after `e` is
      kept and the scope is replaced by the joined reordered chunks (which
      `ReorderKeeps` relates to the old ones). */
  lemma MoveKeepsOutside(line: string, cursor: int, delta: int, s: nat, e: int, chunks: seq<Chunk>)
    requires s <= |line| && -1 <= e < |line| && InRange(chunks, cursor - s, delta)
    ensures var from := FindElementIndexAt(chunks, cursor - s);
      var moved := ReorderByMoving(chunks, from, from + delta);
      moved.Some?
      && MoveInScope(line, cursor, delta, s, e, chunks).text == line[..s] + JoinChunks(moved.value) + line[e + 1..]
  {
    var from := FindElementIndexAt(chunks, cursor - s);
    var moved := ReorderByMoving(chunks, from, from + delta);
    assert moved.Some?;
    assert Slice(line, 0, s) == line[..s];
    assert Slice(line, e + 1, |line|) == line[e + 1..];
  }

  /** In chunks whose elements are those of `chunks` with `from` moved to
      `to`, the moved element sits at index `to` with its text and length. */
  lemma MovedSpan(chunks: seq<Chunk>, moved: seq<Chunk>, from: nat, to: nat)
    requires from < ElementCount(chunks) && to < ElementCount(chunks)
    requires Elements(moved) == Move(Elements(chunks), from, to)
    ensures var loc := ElementLocation(moved, to);
      ElementCount(moved) == ElementCount(chunks)
      && loc.length == |Elements(chunks)[from]|
      && loc.start + loc.length <= |JoinChunks(moved)|
      && JoinChunks(moved)[loc.start..loc.start + loc.length] == Elements(chunks)[from]
  {
    SpanAtTarget(moved, Elements(chunks), from, to);
  }

  /** In chunks whose elements are `elements` with `from` moved to `to`, the
      element at `to` is spelled where its location says. */
  lemma SpanAtTarget(moved: seq<Chunk>, elements: seq<string>, from: nat, to: nat)
    requires from < |elements| && to < |elements| && Elements(moved) == Move(elements, from, to)
    ensures var loc := ElementLocation(moved, to);
      loc.length == |elements[from]|
      && loc.start + loc.length <= |JoinChunks(moved)|
      && JoinChunks(moved)[loc.start..loc.start + loc.length] == elements[from]
  {
    ElementLocationSpans(moved, to);
  }

  /** After a move the cursor sits on the moved element, at the offset it
      had inside that element before (clamped into the element). */
  lemma MovePlacesCursor(line: string, cursor: int, delta: int, s: nat, e: int, chunks: seq<Chunk>)
    requires s <= |line| && -1 <= e < |line| && InRange(chunks, cursor - s, delta)
    ensures var from := FindElementIndexAt(chunks, cursor - s);
      var moved := ReorderByMoving(chunks, from, from + delta).value;
      var element := Elements(chunks)[from];
      var offset := Max0(Min(cursor - s - ElementLocation(chunks, from).start, |element|));
      MoveInScope(line, cursor, delta, s, e, chunks).cursor == s + ElementLocation(moved, from + delta).start + offset
      && offset <= |element|
  {
    var from := FindElementIndexAt(chunks, cursor - s);
    var to := from + delta;
    var moved := ReorderByMoving(chunks, from, to).value;
    var within := Max0(Min(cursor - s - ElementLocation(chunks, from).start, ElementLocation(chunks, from).length));
    var loc := ElementLocation(moved, Max0(Min(to, ElementCount(moved) - 1)));
    assert MoveInScope(line, cursor, delta, s, e, chunks).cursor == s + (loc.start + Min(within, loc.length)) by {
      MoveInScopeCursor(line, cursor, delta, s, e, chunks);
    }
    assert Elements(moved) == Move(Elements(chunks), from, to);
    MovedSpan(chunks, moved, from, to);
    ElementLocationSpans(chunks, from);
    assert Max0(Min(to, ElementCount(moved) - 1)) == to;
  }

  /** Where `MoveInScope` puts the cursor when the target is among the elements. */
  lemma MoveInScopeCursor(line: string, cursor: int, delta: int, s: nat, e: int, chunks: seq<Chunk>)
    requires s <= |line| && -1 <= e < |line| && InRange(chunks, cursor - s, delta)
    ensures var from := FindElementIndexAt(chunks, cursor - s);
      var moved := ReorderByMoving(chunks, from, from + delta).value;
      var within := Max0(Min(cursor - s - ElementLocation(chunks, from).start, ElementLocation(chunks, from).length));
      var loc := ElementLocation(moved, Max0(Min(from + delta, ElementCount(moved) - 1)));
      MoveInScope(line, cursor, delta, s, e, chunks).cursor == s + (loc.start + Min(within, loc.length))
  {
  }

  /** After a move the new line spells the moved element where the cursor's
      element now starts. */
  lemma MoveSpellsElement(line: string, cursor: int, delta: int, s: nat, e: int, chunks: seq<Chunk>)
    requires s <= |line| && -1 <= e < |line| && InRange(chunks, cursor - s, delta)
    ensures var from := FindElementIndexAt(chunks, cursor - s);
      var moved := ReorderByMoving(chunks, from, from + delta).value;
      var element := Elements(chunks)[from];
      SpellsAt(MoveInScope(line, cursor, delta, s, e, chunks).text, s + ElementLocation(moved, from + delta).start, element)
  {
    var from := FindElementIndexAt(chunks, cursor - s);
    var moved := ReorderByMoving(chunks, from, from + delta).value;
    var text := MoveInScope(line, cursor, delta, s, e, chunks).text;
    MoveKeepsOutside(line, cursor, delta, s, e, chunks);
    assert text == line[..s] + JoinChunks(moved) + line[e + 1..];
    assert Elements(moved) == Move(Elements(chunks), from, from + delta);
    SplicedSpells(text, line, s, e, moved, Elements(chunks), from, from + delta);
  }

  /** The line with `moved` spliced in between `s` and `e` spells the moved
      element where its location in `moved` says. */
  lemma SplicedSpells(text: string, line: string, s: nat, e: int, moved: seq<Chunk>, elements: seq<string>, from: nat, to: nat)
    requires s <= |line| && -1 <= e < |line| && text == line[..s] + JoinChunks(moved) + line[e + 1..]
    requires from < |elements| && to < |elements| && Elements(moved) == Move(elements, from, to)
    ensures SpellsAt(text, s + ElementLocation(moved, to).start, elements[from])
  {
    SpanAtTarget(moved, elements, from, to);
    SpellsInside(text, line[..s], JoinChunks(moved), line[e + 1..], ElementLocation(moved, to).start, elements[from]);
  }

  /** The detection names a list kind and a scope to rewrite. */
  predicate Scoped(d: Detection) {
    !d.env.Simple? && d.scope.Some?
  }

  /** The chunks of the scope's text. */
  function ScopeChunks(line: string, d: Detection): seq<Chunk>
    requires Scoped(d)
  {
    SplitScope(Slice(line, d.scope.value.start, d.scope.value.end + 1), d.env)
  }

  /** What a move within the scope `line[s..e]` split into `chunks` gives,
      when the cursor's element has a neighbour `delta` places away: the
      scope is replaced by the reordered chunks and nothing else changes, the
      cursor keeps its offset inside the moved element, and the new text
      spells that element at its new place. */
  predicate MovedWithin(line: string, cursor: int, delta: int, s: nat, e: int, chunks: seq<Chunk>, r: ManipulateResult)
    requires s <= |line| && -1 <= e < |line| && InRange(chunks, cursor - s, delta)
  {
    var from := FindElementIndexAt(chunks, cursor - s);
    var moved := ReorderByMoving(chunks, from, from + delta);
    var element := Elements(chunks)[from];
    moved.Some?
    && r.text == line[..s] + JoinChunks(moved.value) + line[e + 1..]
    && r.cursor == s + ElementLocation(moved.value, from + delta).start
                     + Max0(Min(cursor - s - ElementLocation(chunks, from).start, |element|))
    && SpellsAt(r.text, s + ElementLocation(moved.value, from + delta).start, element)
  }

  lemma MoveInScopeMovesOrKeeps(line: string, cursor: int, delta: int, s: nat, e: int, chunks: seq<Chunk>)
    requires s <= |line| && -1 <= e < |line|
    ensures MovedOrKept(line, cursor, delta, s, e, chunks, MoveInScope(line, cursor, delta, s, e, chunks))
  {
    if InRange(chunks, cursor - s, delta) {
      MoveInScopeMoves(line, cursor, delta, s, e, chunks);
    }
  }

  lemma MoveInScopeMoves(line: string, cursor: int, delta: int, s: nat, e: int, chunks: seq<Chunk>)
    requires s <= |line| && -1 <= e < |line| && InRange(chunks, cursor - s, delta)
    ensures MovedWithin(line, cursor, delta, s, e, chunks, MoveInScope(line, cursor, delta, s, e, chunks))
  {
    MoveKeepsOutside(line, cursor, delta, s, e, chunks);
    MovePlacesCursor(line, cursor, delta, s, e, chunks);
    MoveSpellsElement(line, cursor, delta, s, e, chunks);
  }

}
