/** Keyword extraction: getGlobalKeywords clusters the stored vectors and names each
    centroid by the word of its nearest stored vector; getLocalKeywords clusters one
    text's vectors and names each centroid through intToWord, a map nothing fills. */
module Keywords {
  import opened Wrappers
  import opened Basics
  import opened Collaborators
  import opened Chunking
  import opened Embedding
  import opened Tokenization
  import opened VectorIndex
  import opened EmbeddingEngine

  /** The number of clusters both keyword paths ask for: at most five. */
  function ClusterCount(n: nat): (k: nat)
    ensures k <= 5 && k <= n
    ensures k == 5 || k == n
  {
    Min(5, n)
  }

  /** The word of the stored vector nearest to one centroid, when that vector is recorded. */
  function NearestWord(search: (seq<Vec>, Vec) -> int, index: seq<Vec>,
                       embeddingToWord: map<Vec, string>, centroid: Vec): Option<string>
    requires 0 <= search(index, centroid) < |index|
  {
    var v := index[search(index, centroid)];
    if v in embeddingToWord then Some(embeddingToWord[v]) else None
  }

  /** The loop of getGlobalKeywords over the centroids, in order: search for the nearest
      stored vector, reconstruct it (throwing on a label outside the index) and append
      its recorded word if there is one. */
  function ResolveClusters(search: (seq<Vec>, Vec) -> int, index: seq<Vec>,
                           embeddingToWord: map<Vec, string>, clusters: seq<Vec>): (r: Result<seq<string>, Error>)
    ensures r.Success? <==> forall i :: 0 <= i < |clusters| ==> 0 <= search(index, clusters[i]) < |index|
    ensures r.Failure? ==>
              exists i ::
                && 0 <= i < |clusters|
                && !(0 <= search(index, clusters[i]) < |index|)
                && r.error == OutOfRange(search(index, clusters[i]), |index|)
                && forall j :: 0 <= j < i ==> 0 <= search(index, clusters[j]) < |index|
    ensures r.Success? ==> |r.value| <= |clusters|
    ensures r.Success? ==> forall j :: 0 <= j < |r.value| ==> r.value[j] in embeddingToWord.Values
    decreases |clusters|
  {
    if |clusters| == 0 then Success([])
    else
      var n := |clusters| - 1;
      assert forall j :: 0 <= j < n ==> clusters[..n][j] == clusters[j];
      var prev :-ResolveClusters(search, index, embeddingToWord, clusters[..n]);
      var ordinal := search(index, clusters[n]);
      var embedding :- Reconstruct(index, ordinal);
      if embedding in embeddingToWord then Success(prev + [embeddingToWord[embedding]]) else Success(prev)
  }

  /** When every centroid's nearest stored vector has a recorded word, there is one keyword
      per centroid, in centroid order, and it is that word. */
  lemma {:induction false} ResolveClustersComplete(search: (seq<Vec>, Vec) -> int, index: seq<Vec>,
                                                  embeddingToWord: map<Vec, string>, clusters: seq<Vec>)
    requires forall i :: 0 <= i < |clusters| ==> 0 <= search(index, clusters[i]) < |index|
    requires forall i :: 0 <= i < |index| ==> index[i] in embeddingToWord
    ensures var r := ResolveClusters(search, index, embeddingToWord, clusters);
            && r.Success?
            && |r.value| == |clusters|
            && forall i :: 0 <= i < |clusters| ==>
                 Some(r.value[i]) == NearestWord(search, index, embeddingToWord, clusters[i])
    decreases |clusters|
  {
    if |clusters| > 0 {
      var n := |clusters| - 1;
      var pre := clusters[..n];
      assert forall i :: 0 <= i < n ==> pre[i] == clusters[i];
      ResolveClustersComplete(search, index, embeddingToWord, pre);
    }
  }

  /** getGlobalKeywords: k = min(5, count) clusters of the whole index, each named by the
      word of its nearest stored vector. */
  function GlobalKeywords(svc: Services, e: EngineState): (r: Result<seq<string>, Error>)
    ensures r.Success? ==> forall j :: 0 <= j < |r.value| ==> r.value[j] in e.embeddingToWord.Values
    ensures r.Failure? ==> r.error.OutOfRange? && r.error.count == |e.index|
  {
    var k := ClusterCount(|e.index|);
    match RetrieveEmbeddings(e.index)
    case Failure(err) => Failure(err)
    case Success(embeddings) =>
      var clusters := svc.kMeans(embeddings, k);
      ResolveClusters(svc.search, e.index, e.embeddingToWord, clusters)
  }

  /** On a valid engine whose collaborators keep their promises, getGlobalKeywords never
      throws and names min(5, count) centroids, each by the word of its nearest stored vector. */
  lemma GlobalKeywordsComplete(svc: Services, e: EngineState)
    requires Valid(e) && KMeansExact(svc.kMeans) && SearchInRange(svc.search)
    ensures var r := GlobalKeywords(svc, e);
            var clusters := svc.kMeans(e.index, ClusterCount(|e.index|));
            && r.Success?
            && |r.value| == ClusterCount(|e.index|) == |clusters|
            && forall i :: 0 <= i < |clusters| ==>
                 Some(r.value[i]) == NearestWord(svc.search, e.index, e.embeddingToWord, clusters[i])
  {
    var clusters := svc.kMeans(e.index, ClusterCount(|e.index|));
    assert |clusters| == ClusterCount(|e.index|);
    forall i | 0 <= i < |e.index|
      ensures e.index[i] in e.embeddingToWord
    {
      assert e.index[i] in (set v | v in e.index);
    }
    if |clusters| > 0 {
      forall i | 0 <= i < |clusters|
        ensures 0 <= svc.search(e.index, clusters[i]) < |e.index|
      {
      }
    }
    ResolveClustersComplete(svc.search, e.index, e.embeddingToWord, clusters);
  }

  /** Over a non-empty corpus with at least one vector, global keywords are never empty,
      the property the unit test of getGlobalKeywords expects. */
  lemma GlobalKeywordsNonEmpty(svc: Services, e: EngineState)
    requires Valid(e) && KMeansExact(svc.kMeans) && SearchInRange(svc.search)
    requires |e.index| > 0
    ensures GlobalKeywords(svc, e).Success? && |GlobalKeywords(svc, e).value| > 0
  {
    GlobalKeywordsComplete(svc, e);
  }

  /** An empty index yields no keywords. */
  lemma GlobalKeywordsEmptyIndex(svc: Services, e: EngineState)
    requires KMeansExact(svc.kMeans) && |e.index| == 0
    ensures GlobalKeywords(svc, e) == Success([])
  {
    assert |svc.kMeans(e.index, 0)| == 0;
  }

  /** The loop of getLocalKeywords AS WRITTEN: the nearest label is looked up in intToWord. */
  function ResolveByOrdinal(search: (seq<Vec>, Vec) -> int, index: seq<Vec>,
                            intToWord: map<int, string>, clusters: seq<Vec>): (r: seq<string>)
    ensures |r| <= |clusters|
    ensures forall j :: 0 <= j < |r| ==> r[j] in intToWord.Values
    ensures |r| == |clusters| <==> forall i :: 0 <= i < |clusters| ==> search(index, clusters[i]) in intToWord
    decreases |clusters|
  {
    if |clusters| == 0 then []
    else
      var n := |clusters| - 1;
      var prev := ResolveByOrdinal(search, index, intToWord, clusters[..n]);
      assert forall i :: 0 <= i < n ==> clusters[..n][i] == clusters[i];
      var ordinal := search(index, clusters[n]);
      if ordinal in intToWord then prev + [intToWord[ordinal]] else prev
  }

  /** With intToWord empty, no centroid is named. */
  lemma {:induction false} ResolveByOrdinalNone(search: (seq<Vec>, Vec) -> int, index: seq<Vec>, clusters: seq<Vec>)
    ensures ResolveByOrdinal(search, index, map[], clusters) == []
    decreases |clusters|
  {
    if |clusters| > 0 {
      ResolveByOrdinalNone(search, index, clusters[..|clusters| - 1]);
    }
  }

  /** getLocalKeywords AS WRITTEN: the text's vectors come from the same stride loop as in
      addDocument (which cannot throw); k = min(5, vector count) clusters of them, each named
      through intToWord. */
  function LocalKeywords(svc: Services, e: EngineState, text: string): (r: Result<seq<string>, Error>)
    ensures r.Success?
    ensures forall j :: 0 <= j < |r.value| ==> r.value[j] in e.intToWord.Values
  {
    var embeddings := DocumentVectors(svc, text);
    var clusters := svc.kMeans(embeddings, ClusterCount(|embeddings|));
    Success(ResolveByOrdinal(svc.search, e.index, e.intToWord, clusters))
  }

  /** Since intToWord is never written, getLocalKeywords as written returns no keyword for
      any text on any engine built by init and addDocument. */
  lemma LocalKeywordsAlwaysEmpty(svc: Services, e: EngineState, text: string)
    requires Valid(e)
    ensures LocalKeywords(svc, e, text) == Success([])
  {
    var embeddings := DocumentVectors(svc, text);
    ResolveByOrdinalNone(svc.search, e.index, svc.kMeans(embeddings, ClusterCount(|embeddings|)));
  }

  /** getLocalKeywords with each centroid resolved the way getGlobalKeywords does it:
      reconstruct the nearest stored vector and look up its word. */
  function LocalKeywordsFixed(svc: Services, e: EngineState, text: string): (r: Result<seq<string>, Error>)
    ensures r.Success? ==> forall j :: 0 <= j < |r.value| ==> r.value[j] in e.embeddingToWord.Values
    ensures r.Failure? ==> r.error.OutOfRange? && r.error.count == |e.index|
  {
    var embeddings := DocumentVectors(svc, text);
    var clusters := svc.kMeans(embeddings, ClusterCount(|embeddings|));
    ResolveClusters(svc.search, e.index, e.embeddingToWord, clusters)
  }

  /** On a valid, non-empty engine the corrected path names min(5, token count) centroids of
      the text, each by the word of its nearest stored vector; so a text with a known token
      gets a keyword. */
  lemma LocalKeywordsFixedComplete(svc: Services, e: EngineState, text: string)
    requires Valid(e) && |e.index| > 0 && KMeansExact(svc.kMeans) && SearchInRange(svc.search)
    ensures var r := LocalKeywordsFixed(svc, e, text);
            var embeddings := DocumentVectors(svc, text);
            var clusters := svc.kMeans(embeddings, ClusterCount(|embeddings|));
            && r.Success?
            && |r.value| == ClusterCount(|TokenizeText(svc, text).0|) == |clusters|
            && (|TokenizeText(svc, text).0| > 0 ==> |r.value| > 0)
            && forall i :: 0 <= i < |clusters| ==>
                 Some(r.value[i]) == NearestWord(svc.search, e.index, e.embeddingToWord, clusters[i])
  {
    var embeddings := DocumentVectors(svc, text);
    var clusters := svc.kMeans(embeddings, ClusterCount(|embeddings|));
    assert |clusters| == ClusterCount(|embeddings|);
    forall i | 0 <= i < |e.index|
      ensures e.index[i] in e.embeddingToWord
    {
      assert e.index[i] in (set v | v in e.index);
    }
    ResolveClustersComplete(svc.search, e.index, e.embeddingToWord, clusters);
  }
}
