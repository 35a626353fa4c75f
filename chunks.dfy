/**
 * The raw-text chunking shared by the Python raw-text sheet and the browser's
 * raw-text data: the text is cut into consecutive pieces of 1000 characters, the
 * last one shorter, numbered from 1 by the piece's start divided by 1000.
 */
module Chunks {
  import opened Text

  const ChunkSize: nat := 1000

  /** One row of the raw-text sheet: `{'Chunk': number, 'Text': text}`. */
  datatype Chunk = Chunk(number: nat, text: String)

  /** Where the chunk starting at `i` ends: `i + 1000`, cut off at the end of the text. */
  function ChunkEnd(t: String, i: nat): (e: nat)
    requires i < |t|
    ensures i < e <= |t| && e - i <= ChunkSize
  {
    if i + ChunkSize <= |t| then i + ChunkSize else |t|
  }

  /** The chunks of the text from `i` on, as the loop produces them. */
  function ChunksFrom(t: String, i: nat): seq<Chunk>
    decreases |t| - i
  {
    if i >= |t| then [] else [Chunk(i / ChunkSize + 1, t[i..ChunkEnd(t, i)])] + ChunksFrom(t, i + ChunkSize)
  }

  /** All the chunks of the text. */
  function Chunked(t: String): seq<Chunk>
  {
    ChunksFrom(t, 0)
  }

  /**
   * The loop `for i in range(0, len(raw_text), 1000)` of `_create_raw_text_sheet`,
   * and the loop `for (let i = 0; i < text.length; i += 1000)` of `createRawTextData`.
   */
  method SplitIntoChunks(t: String) returns (chunks: seq<Chunk>)
    ensures chunks == Chunked(t)
  {
    chunks := [];
    var i := 0;
    while i < |t|
      invariant chunks + ChunksFrom(t, i) == Chunked(t)
      decreases |t| - i
    {
      var chunk := Chunk(i / ChunkSize + 1, t[i..ChunkEnd(t, i)]);
      assert ChunksFrom(t, i) == [chunk] + ChunksFrom(t, i + ChunkSize);
      chunks := chunks + [chunk];
      i := i + ChunkSize;
    }
  }

  function Concat(chunks: seq<Chunk>): String
  {
    if chunks == [] then [] else chunks[0].text + Concat(chunks[1..])
  }

  /** The chunks put back together are the text. */
  lemma {:induction false} ConcatChunksFrom(t: String, i: nat)
    requires i <= |t|
    decreases |t| - i
    ensures Concat(ChunksFrom(t, i)) == t[i..]
  {
    if i < |t| {
      var e := ChunkEnd(t, i);
      var rest := ChunksFrom(t, i + ChunkSize);
      if e == |t| {
        assert rest == [];
      } else {
        ConcatChunksFrom(t, e);
      }
      assert ([Chunk(i / ChunkSize + 1, t[i..e])] + rest)[1..] == rest;
      assert t[i..] == t[i..e] + t[e..];
    }
  }

  /** There are ⌈(|t| - i) / 1000⌉ chunks from `i` on. */
  lemma {:induction false} ChunksFromCount(t: String, i: nat)
    requires i <= |t|
    decreases |t| - i
    ensures |ChunksFrom(t, i)| == (|t| - i + ChunkSize - 1) / ChunkSize
  {
    if i < |t| && i + ChunkSize <= |t| {
      ChunksFromCount(t, i + ChunkSize);
    }
  }

  /** The `k`-th chunk from a multiple of 1000 is numbered by its start and holds the text from there. */
  lemma {:induction false} ChunksFromAt(t: String, i: nat, k: nat)
    requires i % ChunkSize == 0 && k < |ChunksFrom(t, i)|
    decreases k
    ensures i + k * ChunkSize < |t|
    ensures ChunksFrom(t, i)[k] == Chunk(i / ChunkSize + k + 1, t[i + k * ChunkSize..ChunkEnd(t, i + k * ChunkSize)])
  {
    if k > 0 {
      ChunksFromAt(t, i + ChunkSize, k - 1);
    }
  }

  /**
   * The chunks concatenate back to the text, there are ⌈|t| / 1000⌉ of them, they
   * are numbered 1, 2, ... in order, each is the next 1000 characters of the text,
   * and only the last may be shorter (but never empty).
   */
  lemma {:induction false} ChunkedShape(t: String)
    ensures Concat(Chunked(t)) == t
    ensures |Chunked(t)| == (|t| + ChunkSize - 1) / ChunkSize
    ensures forall k :: 0 <= k < |Chunked(t)| ==>
      Chunked(t)[k].number == k + 1
      && 0 < |Chunked(t)[k].text| <= ChunkSize
      && (k + 1 < |Chunked(t)| ==> |Chunked(t)[k].text| == ChunkSize)
      && Chunked(t)[k].text == t[k * ChunkSize..ChunkEnd(t, k * ChunkSize)]
  {
    ConcatChunksFrom(t, 0);
    ChunksFromCount(t, 0);
    forall k | 0 <= k < |Chunked(t)|
      ensures Chunked(t)[k].number == k + 1
      ensures 0 < |Chunked(t)[k].text| <= ChunkSize
      ensures k + 1 < |Chunked(t)| ==> |Chunked(t)[k].text| == ChunkSize
      ensures Chunked(t)[k].text == t[k * ChunkSize..ChunkEnd(t, k * ChunkSize)]
    {
      ChunksFromAt(t, 0, k);
      if k + 1 < |Chunked(t)| {
        ChunksFromAt(t, 0, k + 1);
      }
    }
  }
}
