/**
 * The move engine on the input of one of its unit tests
 * (src/lib/manipulator.test.ts). The chunk arithmetic is done once, over a
 * scope of four abstract elements; the test then only supplies the line,
 * the detector's answer and the splitter's chunks.
 */
module ManipulatorExamples {
  import opened JsText
  import opened Chunks
  import opened Brackets
  import opened Detector
  import opened Manipulator
  import opened DetectorExamples
  import opened SplitterExamples

  /** Four elements with the separator `x` between each two. */
  function Four(a: string, b: string, c: string, d: string, x: string): seq<Chunk> {
    [Chunk(Element, a), Chunk(Separator, x), Chunk(Element, b), Chunk(Separator, x),
     Chunk(Element, c), Chunk(Separator, x), Chunk(Element, d)]
  }

  /** A single chunk holds its own text, as an element when it is one. */
  lemma Single(ch: Chunk)
    ensures Elements([ch]) == if ch.kind == Element then [ch.text] else []
    ensures JoinChunks([ch]) == ch.text
  {
    assert [ch][..0] == [];
  }

  /** An element followed by a separator. */
  lemma PairParts(a: string, x: string)
    ensures Elements([Chunk(Element, a), Chunk(Separator, x)]) == [a]
    ensures JoinChunks([Chunk(Element, a), Chunk(Separator, x)]) == a + x
  {
    Single(Chunk(Element, a));
    Single(Chunk(Separator, x));
    ElementsAppend([Chunk(Element, a)], [Chunk(Separator, x)]);
    JoinChunksAppend([Chunk(Element, a)], [Chunk(Separator, x)]);
    assert [Chunk(Element, a)] + [Chunk(Separator, x)] == [Chunk(Element, a), Chunk(Separator, x)];
  }

  lemma FourElements(a: string, b: string, c: string, d: string, x: string)
    ensures Elements(Four(a, b, c, d, x)) == [a, b, c, d]
  {
    var pa, pb, pc, pd := [Chunk(Element, a), Chunk(Separator, x)], [Chunk(Element, b), Chunk(Separator, x)],
      [Chunk(Element, c), Chunk(Separator, x)], [Chunk(Element, d)];
    assert Four(a, b, c, d, x) == pa + pb + pc + pd;
    PairParts(a, x);
    PairParts(b, x);
    PairParts(c, x);
    Single(Chunk(Element, d));
    ElementsAppend(pa, pb);
    ElementsAppend(pa + pb, pc);
    ElementsAppend(pa + pb + pc, pd);
  }

  lemma FourJoin(a: string, b: string, c: string, d: string, x: string)
    ensures JoinChunks(Four(a, b, c, d, x)) == a + x + b + x + c + x + d
  {
    var pa, pb, pc, pd := [Chunk(Element, a), Chunk(Separator, x)], [Chunk(Element, b), Chunk(Separator, x)],
      [Chunk(Element, c), Chunk(Separator, x)], [Chunk(Element, d)];
    assert Four(a, b, c, d, x) == pa + pb + pc + pd;
    assert JoinChunks(pa + pb) == a + x + b + x by {
      PairParts(a, x);
      PairParts(b, x);
      JoinChunksAppend(pa, pb);
    }
    assert JoinChunks(pa + pb + pc) == a + x + b + x + c + x by {
      PairParts(c, x);
      JoinChunksAppend(pa + pb, pc);
    }
    Single(Chunk(Element, d));
    JoinChunksAppend(pa + pb + pc, pd);
  }

  /** The cursor at offset zero selects the first element. */
  lemma FourFirst(a: string, b: string, c: string, d: string, x: string)
    requires |a| > 0
    ensures FindElementIndexAt(Four(a, b, c, d, x), 0) == 0
    ensures ElementLocation(Four(a, b, c, d, x), 0) == Location(0, |a|)
  {
    var l := Four(a, b, c, d, x);
    assert l[..0] == [];
    assert Covers(l, 0, 0);
    assert HoldsElement(l, 0, 0);
  }

  /** The second element starts past the first and its separator. */
  lemma FourSecond(a: string, b: string, c: string, d: string, x: string)
    ensures ElementLocation(Four(a, b, c, d, x), 1) == Location(|a| + |x|, |b|)
  {
    var l := Four(a, b, c, d, x);
    assert l[..2] == [Chunk(Element, a), Chunk(Separator, x)];
    PairParts(a, x);
    assert HoldsElement(l, 2, 1);
  }

  /** Moving the first element one place right swaps the first two. */
  lemma FourMoveFirst(a: string, b: string, c: string, d: string, x: string)
    ensures ReorderByMoving(Four(a, b, c, d, x), 0, 1) == Some(Four(b, a, c, d, x))
  {
    var l, m := Four(a, b, c, d, x), Four(b, a, c, d, x);
    FourElements(a, b, c, d, x);
    FourElements(b, a, c, d, x);
    assert Move([a, b, c, d], 0, 1) == [b, a, c, d];
    var r := ReplaceElements(l, [b, a, c, d]);
    assert SameShape(l, m);
    SameShapeTrans(r, l, m) by {
      assert SameShape(r, l);
    }
    ChunksEqual(r, m);
  }

  /** With the cursor at the start of the first of four elements, a move
      right swaps the first two and keeps the cursor at the start of the
      moved element. */
  lemma MoveFirstRight(line: string, s: nat, e: int, a: string, b: string, c: string, d: string, x: string)
    requires s <= |line| && -1 <= e < |line| && |a| > 0
    ensures MoveInScope(line, s, 1, s, e, Four(a, b, c, d, x))
      == ManipulateResult(Slice(line, 0, s) + (b + x + a + x + c + x + d) + Slice(line, e + 1, |line|), s + |b| + |x|)
  {
    FourFirst(a, b, c, d, x);
    FourSecond(b, a, c, d, x);
    FourMoveFirst(a, b, c, d, x);
    FourElements(b, a, c, d, x);
    FourJoin(b, a, c, d, x);
  }

  /** The characters of the `MovesFirstRight` input the step lemmas need. */
  lemma MovesFirstRightShape(line: string)
    requires line == "const a = [1, 2, 3, 4]"
    ensures forall k :: 0 <= k < |line| ==> line[k] != '<'
    ensures PairCloser(line[10]) == Some(']') && line[21] == ']'
    ensures forall m :: 10 < m < 21 ==> line[m] != line[10] && line[m] != line[21]
    ensures forall k :: 10 < k <= 11 && k < |line| ==> PairCloser(line[k]).None?
    ensures PairScope(line, 11, 20) == Scope(11, 20)
    ensures Slice(line, 11, 21) == "1, 2, 3, 4"
    ensures Slice(line, 0, 11) + ("2" + ", " + "1" + ", " + "3" + ", " + "4") + Slice(line, 21, |line|)
      == "const a = [2, 1, 3, 4]"
  {
    assert !WsAt(line, 11) && !WsAt(line, 20);
  }

  /** manipulator.test.ts: in `const a = [1, 2, 3, 4]` with the cursor on
      the `1`, a move right gives `const a = [2, 1, 3, 4]` with the cursor
      on the `1` again. */
  lemma MovesFirstRight(line: string)
    requires line == "const a = [1, 2, 3, 4]"
    ensures ManipulateLine(line, 11, 1) == ManipulateResult("const a = [2, 1, 3, 4]", 14)
  {
    MovesFirstRightShape(line);
    NoAngleNoTag(line, 11);
    NearestFlatPair(line, 11, 10, 21);
    assert DetectEnvironment(line, 11) == Detection(Array, Some(Scope(11, 20)));
    ArrayOfFour(Slice(line, 11, 21));
    MoveFirstRight(line, 11, 20, "1", "2", "3", "4", ", ");
  }
}
