/** The foreign collaborators of the engine: the BERT tokenizer, the DistilBERT
    model, k-means clustering and the flat L2 index search. Their internals are
    not modelled; each is a function value the engine is handed, and the few
    facts the engine relies on are stated as predicates over those values. */
module Collaborators {
  import opened Wrappers

  /** An embedding vector (the source's [Float]); the model only compares vectors for equality. */
  type Vec = seq<real>

  /** The errors the engine's own code throws. */
  datatype Error =
    | InputTooLong(actualLength: nat, maxLength: nat)  // EmbeddingError.inputTooLong
    | OutOfRange(ordinal: int, count: nat)            // index.reconstruct outside [0, count)

  datatype Services = Services(
    /** The tokenizer's subword segmentation of a text, in order. */
    tokenize: string -> seq<string>,
    /** The tokenizer's vocabulary lookup; None for a token without an id. */
    tokenToId: string -> Option<int>,
    /** Row `row` of the model's last hidden state for the given id and mask windows. */
    predict: (seq<int>, seq<int>, nat) -> Vec,
    /** k-means over the points with k clusters; the centroids. */
    kMeans: (seq<Vec>, nat) -> seq<Vec>,
    /** The label of the single nearest stored vector to the query (k = 1 search). */
    search: (seq<Vec>, Vec) -> int)

  /** Clustering yields exactly k centroids whenever k does not exceed the number of points. */
  ghost predicate KMeansExact(kMeans: (seq<Vec>, nat) -> seq<Vec>) {
    forall pts, k: nat :: k <= |pts| ==> |kMeans(pts, k)| == k
  }

  /** A 1-NN search on a non-empty index returns a valid ordinal of that index. */
  ghost predicate SearchInRange(search: (seq<Vec>, Vec) -> int) {
    forall index, query :: |index| > 0 ==> 0 <= search(index, query) < |index|
  }
}
