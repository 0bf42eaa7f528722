/** The stride loop that splits a token list into windows the model accepts. */
module Chunking {
  import opened Basics

  /** INPUT_LENGTH: the model's fixed window size. */
  const InputLength: nat := 128

  /** Concatenation of a list of chunks, in order. */
  function Flatten<T>(chunks: seq<seq<T>>): seq<T> {
    if |chunks| == 0 then [] else chunks[0] + Flatten(chunks[1..])
  }

  /** The window that starts at offset `start`: tokens[start ..< min(start + INPUT_LENGTH, count)]. */
  function Window<T>(tokens: seq<T>, start: nat): (r: seq<T>)
    requires start <= |tokens|
    ensures |r| == Min(start + InputLength, |tokens|) - start
    ensures |r| <= InputLength
    ensures start < |tokens| ==> 1 <= |r|
    ensures start + |r| <= |tokens|
    ensures forall j :: 0 <= j < |r| ==> r[j] == tokens[start + j]
  {
    tokens[start .. Min(start + InputLength, |tokens|)]
  }

  /** The chunks visited by `stride(from: 0, to: tokens.count, by: INPUT_LENGTH)`. */
  function Chunks<T>(tokens: seq<T>): (r: seq<seq<T>>)
    ensures Flatten(r) == tokens
    ensures forall i :: 0 <= i < |r| ==> 1 <= |r[i]| <= InputLength
    ensures |r| == 0 <==> |tokens| == 0
    decreases |tokens|
  {
    if |tokens| == 0 then []
    else
      var w := Window(tokens, 0);
      assert tokens == w + tokens[|w|..];
      [w] + Chunks(tokens[|w|..])
  }

  /** Number of chunks of a list of n tokens: ceil(n / INPUT_LENGTH). */
  function ChunkCount(n: nat): nat {
    (n + InputLength - 1) / InputLength
  }

  lemma ChunkCountStep(n: nat)
    requires n > InputLength
    ensures ChunkCount(n) == ChunkCount(n - InputLength) + 1
  {
    assert n + InputLength - 1 == (n - InputLength + InputLength - 1) + InputLength;
  }

  /** The number of chunks is ceil(count / INPUT_LENGTH). */
  lemma {:induction false} ChunksCount<T>(tokens: seq<T>)
    ensures |Chunks(tokens)| == ChunkCount(|tokens|)
    decreases |tokens|
  {
    if |tokens| > 0 {
      var w := Window(tokens, 0);
      ChunksCount(tokens[|w|..]);
      if |tokens| > InputLength {
        ChunkCountStep(|tokens|);
      }
    }
  }

  lemma WindowShift<T>(tokens: seq<T>, k: nat, s: nat)
    requires k + s <= |tokens|
    ensures Window(tokens[k..], s) == Window(tokens, k + s)
  {
  }

  /** Chunk c is the window the stride loop visits at offset c * INPUT_LENGTH. */
  lemma {:induction false} ChunksStride<T>(tokens: seq<T>, c: nat)
    requires c < |Chunks(tokens)|
    ensures c * InputLength < |tokens|
    ensures Chunks(tokens)[c] == Window(tokens, c * InputLength)
    decreases c
  {
    if c > 0 {
      var w := Window(tokens, 0);
      var rest := tokens[|w|..];
      assert Chunks(tokens) == [w] + Chunks(rest);
      assert Chunks(tokens)[c] == Chunks(rest)[c - 1];
      ChunksStride(rest, c - 1);
      var s: nat := (c - 1) * InputLength;
      assert |w| == InputLength;
      assert c * InputLength == InputLength + s;
      WindowShift(tokens, InputLength, s);
    }
  }

  /** No chunk is longer than the token list it was cut from. */
  lemma ChunksWithinTokens<T>(tokens: seq<T>)
    ensures forall i :: 0 <= i < |Chunks(tokens)| ==> |Chunks(tokens)[i]| <= |tokens|
  {
    forall i | 0 <= i < |Chunks(tokens)|
      ensures |Chunks(tokens)[i]| <= |tokens|
    {
      ChunksStride(tokens, i);
    }
  }
}
