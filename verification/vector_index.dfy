/** The FAISS FlatIndex as the engine uses it: an append-only sequence of vectors
    whose ordinals are their insertion positions. */
module VectorIndex {
  import opened Wrappers
  import opened Collaborators

  /** index.add: appends the vectors, in order, after the stored ones. */
  function Add(index: seq<Vec>, vectors: seq<Vec>): seq<Vec> {
    index + vectors
  }

  /** index.reconstruct: the vector stored under an ordinal, or OutOfRange. */
  function Reconstruct(index: seq<Vec>, ordinal: int): (r: Result<Vec, Error>)
    ensures r.Success? <==> 0 <= ordinal < |index|
    ensures r.Success? ==> r.value == index[ordinal]
    ensures r.Failure? ==> r.error == OutOfRange(ordinal, |index|)
  {
    if 0 <= ordinal < |index| then Success(index[ordinal]) else Failure(OutOfRange(ordinal, |index|))
  }

  /** Ordinals are stable: after an add, old ordinals reconstruct the same vectors and the
      new ordinals reconstruct the added vectors in order. */
  lemma AddThenReconstruct(index: seq<Vec>, vectors: seq<Vec>, ordinal: int)
    ensures 0 <= ordinal < |index| ==> Reconstruct(Add(index, vectors), ordinal) == Reconstruct(index, ordinal)
    ensures |index| <= ordinal < |index| + |vectors| ==>
              Reconstruct(Add(index, vectors), ordinal) == Success(vectors[ordinal - |index|])
    ensures ordinal < 0 || ordinal >= |index| + |vectors| ==> Reconstruct(Add(index, vectors), ordinal).Failure?
  {
  }

  /** The loop of retrieveEmbeddingsFromIndex, after its first n iterations: reconstruct ordinals 0 ..< n in order. */
  function ReconstructPrefix(index: seq<Vec>, n: nat): (r: Result<seq<Vec>, Error>)
    requires n <= |index|
    ensures r == Success(index[..n])
  {
    if n == 0 then Success([])
    else
      match (ReconstructPrefix(index, n - 1), Reconstruct(index, n - 1))
      case (Failure(e), _) => Failure(e)
      case (_, Failure(e)) => Failure(e)
      case (Success(prev), Success(v)) =>
        assert index[..n] == index[..n - 1] + [index[n - 1]];
        Success(prev + [v])
  }

  /** retrieveEmbeddingsFromIndex: reconstructing every ordinal 0 ..< count gives back the
      whole index, in order, and never fails. */
  function RetrieveEmbeddings(index: seq<Vec>): (r: Result<seq<Vec>, Error>)
    ensures r == Success(index)
  {
    assert index[..|index|] == index;
    ReconstructPrefix(index, |index|)
  }
}
