/** Concrete collaborators and engines on which the two defects of the source show:
    the chunk-local word counter of addDocument and the unfilled intToWord of
    getLocalKeywords. */
module Witnesses {
  import opened Wrappers
  import opened Basics
  import opened Collaborators
  import opened Chunking
  import opened Embedding
  import opened Tokenization
  import opened EmbeddingEngine
  import opened Keywords

  /** A tokenizer that splits every text into 128 tokens "a" followed by one "b". */
  function SampleTokens(text: string): (r: seq<string>)
    ensures |r| == InputLength + 1
    ensures forall j :: 0 <= j < InputLength ==> r[j] == "a"
    ensures r[InputLength] == "b"
  {
    seq(InputLength, j => "a") + ["b"]
  }

  /** Collaborators for a 129-token document: "a" has id 1, every other token id 2, and the
      model's row is [first id of the window, row number]. */
  const Sample: Services := Services(
    SampleTokens,
    t => Some(if t == "b" then 2 else 1),
    (ids: seq<int>, mask: seq<int>, row: nat) => [if |ids| > 0 then ids[0] as real else 0.0, row as real],
    (pts: seq<Vec>, k: nat) => pts[..Min(k, |pts|)],
    (index: seq<Vec>, query: Vec) => 0)

  /** The misaligned reverse map on a concrete input: the vector of token 128 (the "b" that
      opens the second chunk) is recorded against "a" by the as-written loop, and against its
      own word "b" by the corrected one. */
  lemma MisalignedReverseMap(e: EngineState)
    ensures var v: Vec := [2.0, 0.0];
            && v in AddDocumentAsWritten(Sample, e, "").value.embeddingToWord
            && AddDocumentAsWritten(Sample, e, "").value.embeddingToWord[v] == "a"
            && v in AddDocument(Sample, e, "").value.embeddingToWord
            && AddDocument(Sample, e, "").value.embeddingToWord[v] == "b"
  {
    var tokens := Sample.tokenize("");
    KnownTokensAllKnown(Sample.tokenToId, tokens);
    var (ids, words) := TokenizeText(Sample, "");
    assert words == tokens;
    assert ids[InputLength] == 2;
    var p := InputLength;
    EmbedTokensRow(Sample.predict, ids, p);
    var w := Window(ids, InputLength);
    assert w[0] == 2;
    assert PaddedIds(w)[0] == 2;
    var vectors := DocumentVectors(Sample, "");
    assert vectors[p] == [2.0, 0.0];
    assert vectors[p + 1..] == [];
    AsWrittenChunkLocalWord(Sample, e, "", p);
    AddDocumentOwnWord(Sample, e, "", p);
  }

  /** The empty local keywords on a concrete input: an engine built from one 129-token document
      gets no local keyword for that same text as written, and five with the corrected lookup. */
  lemma LocalKeywordsMissed()
    ensures Init(Sample, [""]).Success?
    ensures LocalKeywords(Sample, Init(Sample, [""]).value, "") == Success([])
    ensures LocalKeywordsFixed(Sample, Init(Sample, [""]).value, "").Success?
    ensures |LocalKeywordsFixed(Sample, Init(Sample, [""]).value, "").value| == 5
  {
    var e := Init(Sample, [""]).value;
    assert KMeansExact(Sample.kMeans);
    assert SearchInRange(Sample.search);
    KnownTokensAllKnown(Sample.tokenToId, Sample.tokenize(""));
    assert |TokenizeText(Sample, "").0| == InputLength + 1;
    assert |e.index| == |DocumentVectors(Sample, "")| > 0;
    LocalKeywordsAlwaysEmpty(Sample, e, "");
    LocalKeywordsFixedComplete(Sample, e, "");
  }
}
