/**
 * The shared vocabulary of the engine: the environment kinds the detector
 * reports and the element/separator chunks the splitter produces.
 */
module Chunks {
  import opened JsText

  /** The syntactic context around the cursor. */
  datatype EnvKind =
    | Simple
    | Array
    | Object
    | ReactComponent
    | FunctionParams
    | Logical
    | Union
    | TypeParams
    | ClassList

  datatype ChunkKind = Element | Separator

  /** A piece of a scope: a reorderable element or the verbatim text between two. */
  datatype Chunk = Chunk(kind: ChunkKind, text: string)

  /** `joinChunks`: the chunk texts concatenated in order. */
  function JoinChunks(chunks: seq<Chunk>): string
    decreases |chunks|
  {
    if |chunks| == 0 then ""
    else JoinChunks(chunks[..|chunks| - 1]) + chunks[|chunks| - 1].text
  }

  /** Joining distributes over concatenation, and a single chunk joins to its
      own text: together these pin `JoinChunks` down as in-order concatenation. */
  lemma {:induction false} JoinChunksAppend(a: seq<Chunk>, b: seq<Chunk>)
    ensures JoinChunks(a + b) == JoinChunks(a) + JoinChunks(b)
    ensures |b| == 1 ==> JoinChunks(b) == b[0].text
    decreases |b|
  {
    if |b| == 0 {
      assert a + b == a;
    } else {
      var init := b[..|b| - 1];
      var last := b[|b| - 1].text;
      calc {
        JoinChunks(a + b);
        { assert (a + b)[..|a + b| - 1] == a + init; }
        JoinChunks(a + init) + last;
        { JoinChunksAppend(a, init); }
        (JoinChunks(a) + JoinChunks(init)) + last;
        JoinChunks(a) + (JoinChunks(init) + last);
        JoinChunks(a) + JoinChunks(b);
      }
      if |b| == 1 {
        assert init == [];
      }
    }
  }

  /** The texts of the element chunks, in order. */
  function Elements(chunks: seq<Chunk>): seq<string>
    decreases |chunks|
  {
    if |chunks| == 0 then []
    else
      var last := chunks[|chunks| - 1];
      Elements(chunks[..|chunks| - 1]) + (if last.kind == Element then [last.text] else [])
  }

  function ElementCount(chunks: seq<Chunk>): nat {
    |Elements(chunks)|
  }

  lemma {:induction false} ElementsAppend(a: seq<Chunk>, b: seq<Chunk>)
    ensures Elements(a + b) == Elements(a) + Elements(b)
    decreases |b|
  {
    if |b| == 0 {
      assert a + b == a;
    } else {
      assert (a + b)[..|a + b| - 1] == a + b[..|b| - 1];
      ElementsAppend(a, b[..|b| - 1]);
    }
  }

  /** The texts of the separator chunks, in order. */
  function Separators(chunks: seq<Chunk>): seq<string>
    decreases |chunks|
  {
    if |chunks| == 0 then []
    else
      var last := chunks[|chunks| - 1];
      Separators(chunks[..|chunks| - 1]) + (if last.kind == Separator then [last.text] else [])
  }

  /** Offset of chunk `k` within the joined scope. */
  function ChunkStart(chunks: seq<Chunk>, k: nat): nat
    requires k <= |chunks|
  {
    |JoinChunks(chunks[..k])|
  }
}
