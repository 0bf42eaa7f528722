/** The EmbeddingEngine's state and its ingestion path: init, addDocument and the
    chunk loop that appends vectors to the index and records their words. */
module EmbeddingEngine {
  import opened Wrappers
  import opened Basics
  import opened Collaborators
  import opened Chunking
  import opened Embedding
  import opened Tokenization
  import opened VectorIndex
  import opened ReverseMap

  /** The engine's mutable fields. The tokenizer and the model are the `Services` value the
      operations are handed; wordToInt is never read and is not kept. */
  datatype EngineState = EngineState(
    documents: seq<string>,
    index: seq<Vec>,
    embeddingToWord: map<Vec, string>,
    intToWord: map<int, string>)

  /** The index/map invariant: the reverse map has an entry for exactly the stored vectors,
      and intToWord, which no live code writes, stays empty. */
  ghost predicate Valid(e: EngineState) {
    && e.embeddingToWord.Keys == (set v | v in e.index)
    && e.intToWord == map[]
  }

  /** The vectors addDocument appends for one text: its known tokens, embedded window by window. */
  function DocumentVectors(svc: Services, text: string): (r: seq<Vec>)
    ensures |r| == |TokenizeText(svc, text).0|
  {
    EmbedTokens(svc.predict, TokenizeText(svc, text).0).value
  }

  /** Reference formula for the words the as-written loop pairs with a document's vectors:
      position p receives words[p % INPUT_LENGTH]. LocalWordsOfChunks shows the loop computes it. */
  function ChunkLocalWords(words: seq<string>, n: nat): (r: seq<string>)
    requires n <= |words|
    ensures |r| == n
    ensures forall p :: 0 <= p < n ==> r[p] == words[p % InputLength]
  {
    seq(n, p requires 0 <= p < n => words[p % InputLength])
  }

  /** The words each batch is recorded with by the source loop: the prefix of `words` as long
      as the batch, since the counter restarts at 0 for every chunk. */
  function LocalWords<T>(batches: seq<seq<T>>, words: seq<string>): (r: seq<string>)
    requires forall i :: 0 <= i < |batches| ==> |batches[i]| <= |words|
    ensures |r| == |Flatten(batches)|
    decreases |batches|
  {
    if |batches| == 0 then []
    else words[..|batches[0]|] + LocalWords(batches[1..], words)
  }

  /** Only the batch lengths matter to the words recorded. */
  lemma {:induction false} LocalWordsShape<T, U>(a: seq<seq<T>>, b: seq<seq<U>>, words: seq<string>)
    requires |a| == |b| && forall i :: 0 <= i < |a| ==> |a[i]| == |b[i]| <= |words|
    ensures LocalWords(a, words) == LocalWords(b, words)
    decreases |a|
  {
    if |a| > 0 {
      LocalWordsShape(a[1..], b[1..], words);
    }
  }

  /** Past the first window the chunk-local words start over from words[0]. */
  lemma ChunkLocalWordsStep(words: seq<string>, n: nat)
    requires InputLength <= n <= |words|
    ensures ChunkLocalWords(words, n) == words[..InputLength] + ChunkLocalWords(words, n - InputLength)
  {
    var l := words[..InputLength] + ChunkLocalWords(words, n - InputLength);
    forall p | 0 <= p < n
      ensures ChunkLocalWords(words, n)[p] == l[p]
    {
      if p >= InputLength {
        assert (p - InputLength) % InputLength == p % InputLength;
      }
    }
  }

  /** Within the first window the chunk-local words are the words themselves. */
  lemma ChunkLocalWordsShort(words: seq<string>, n: nat)
    requires n <= InputLength && n <= |words|
    ensures ChunkLocalWords(words, n) == words[..n]
  {
    forall p | 0 <= p < n
      ensures ChunkLocalWords(words, n)[p] == words[p]
    {
      assert p % InputLength == p;
    }
  }

  /** Over a document's chunks, the chunk-local words are words[p % INPUT_LENGTH]. */
  lemma {:induction false} LocalWordsOfChunks(ids: seq<int>, words: seq<string>)
    requires |ids| <= |words|
    ensures forall i :: 0 <= i < |Chunks(ids)| ==> |Chunks(ids)[i]| <= |words|
    ensures LocalWords(Chunks(ids), words) == ChunkLocalWords(words, |ids|)
    decreases |ids|
  {
    ChunksWithinTokens(ids);
    if |ids| > 0 {
      var w := Window(ids, 0);
      var rest := ids[|w|..];
      assert Chunks(ids) == [w] + Chunks(rest);
      assert Chunks(ids)[1..] == Chunks(rest);
      LocalWordsOfChunks(rest, words);
      assert LocalWords(Chunks(ids), words) == words[..|w|] + ChunkLocalWords(words, |rest|);
      if |ids| <= InputLength {
        assert rest == [];
        ChunkLocalWordsShort(words, |ids|);
      } else {
        assert |w| == InputLength;
        ChunkLocalWordsStep(words, |ids|);
      }
    }
  }

  /** The bookkeeping of addDocument's chunk loop AS WRITTEN (index.add, then the inner loop writing embeddingToWord): each chunk's
      vectors are appended to the index and recorded against words[i] with the chunk-local
      counter i. */
  function RecordBatchesAsWritten(e: EngineState, batches: seq<seq<Vec>>, words: seq<string>): EngineState
    requires forall i :: 0 <= i < |batches| ==> |batches[i]| <= |words|
    decreases |batches|
  {
    if |batches| == 0 then e
    else
      var b := batches[0];
      RecordBatchesAsWritten(
        e.(index := Add(e.index, b), embeddingToWord := RecordWords(e.embeddingToWord, b, words[..|b|])),
        batches[1..], words)
  }

  /** The as-written loop appends the batches in order and records them, all together, against
      the chunk-local words. */
  lemma {:induction false} RecordBatchesAsWrittenEffect(e: EngineState, batches: seq<seq<Vec>>, words: seq<string>)
    requires forall i :: 0 <= i < |batches| ==> |batches[i]| <= |words|
    ensures RecordBatchesAsWritten(e, batches, words).documents == e.documents
    ensures RecordBatchesAsWritten(e, batches, words).intToWord == e.intToWord
    ensures RecordBatchesAsWritten(e, batches, words).index == e.index + Flatten(batches)
    ensures RecordBatchesAsWritten(e, batches, words).embeddingToWord
              == RecordWords(e.embeddingToWord, Flatten(batches), LocalWords(batches, words))
    decreases |batches|
  {
    if |batches| == 0 {
      assert e.index + [] == e.index;
    } else {
      var b := batches[0];
      var w1 := words[..|b|];
      var next := e.(index := Add(e.index, b), embeddingToWord := RecordWords(e.embeddingToWord, b, w1));
      RecordBatchesAsWrittenEffect(next, batches[1..], words);
      var rest := Flatten(batches[1..]);
      var w2 := LocalWords(batches[1..], words);
      RecordWordsAppend(e.embeddingToWord, b, w1, rest, w2);
      AppendAssoc(e.index, b, rest);
      assert Flatten(batches) == b + rest;
      assert LocalWords(batches, words) == w1 + w2;
      calc {
        RecordBatchesAsWritten(e, batches, words).embeddingToWord;
        RecordBatchesAsWritten(next, batches[1..], words).embeddingToWord;
        RecordWords(RecordWords(e.embeddingToWord, b, w1), rest, w2);
        RecordWords(e.embeddingToWord, b + rest, w1 + w2);
      }
    }
  }

  /** The same bookkeeping with the chunk's offset added to the word counter: the vector of
      token `offset + i` is recorded against words[offset + i]. */
  function RecordBatches(e: EngineState, batches: seq<seq<Vec>>, words: seq<string>, offset: nat): EngineState
    requires offset + |Flatten(batches)| <= |words|
    decreases |batches|
  {
    if |batches| == 0 then e
    else
      var b := batches[0];
      RecordBatches(
        e.(index := Add(e.index, b), embeddingToWord := RecordWords(e.embeddingToWord, b, words[offset .. offset + |b|])),
        batches[1..], words, offset + |b|)
  }

  /** The corrected loop appends the batches to the index in order and touches neither the
      documents nor intToWord. */
  lemma {:induction false} RecordBatchesIndex(e: EngineState, batches: seq<seq<Vec>>, words: seq<string>, offset: nat)
    requires offset + |Flatten(batches)| <= |words|
    ensures RecordBatches(e, batches, words, offset).documents == e.documents
    ensures RecordBatches(e, batches, words, offset).intToWord == e.intToWord
    ensures RecordBatches(e, batches, words, offset).index == e.index + Flatten(batches)
    decreases |batches|
  {
    if |batches| == 0 {
      assert e.index + [] == e.index;
    } else {
      var b := batches[0];
      var n := |b|;
      var next := e.(index := Add(e.index, b),
                     embeddingToWord := RecordWords(e.embeddingToWord, b, words[offset .. offset + n]));
      RecordBatchesIndex(next, batches[1..], words, offset + n);
      AppendAssoc(e.index, b, Flatten(batches[1..]));
    }
  }

  /** The corrected loop records every vector against the word at its own position. */
  lemma {:induction false} RecordBatchesMap(e: EngineState, batches: seq<seq<Vec>>, words: seq<string>, offset: nat)
    requires offset + |Flatten(batches)| <= |words|
    ensures RecordBatches(e, batches, words, offset).embeddingToWord
              == RecordWords(e.embeddingToWord, Flatten(batches), words[offset .. offset + |Flatten(batches)|])
    decreases |batches|
  {
    if |batches| > 0 {
      var b := batches[0];
      var rest := Flatten(batches[1..]);
      assert Flatten(batches) == b + rest;
      var n := |b|;
      var end := offset + n + |rest|;
      var w1 := words[offset .. offset + n];
      var w2 := words[offset + n .. end];
      var m1 := RecordWords(e.embeddingToWord, b, w1);
      RecordBatchesMap(e.(index := Add(e.index, b), embeddingToWord := m1), batches[1..], words, offset + n);
      RecordWordsAppend(e.embeddingToWord, b, w1, rest, w2);
      SliceSplit(words, offset, offset + n, end);
    }
  }

  /** Recording a whole word list from offset 0: every vector against its own word. */
  lemma RecordAllBatches(e: EngineState, batches: seq<seq<Vec>>, words: seq<string>)
    requires |Flatten(batches)| == |words|
    ensures RecordBatches(e, batches, words, 0).documents == e.documents
    ensures RecordBatches(e, batches, words, 0).intToWord == e.intToWord
    ensures RecordBatches(e, batches, words, 0).index == e.index + Flatten(batches)
    ensures RecordBatches(e, batches, words, 0).embeddingToWord
              == RecordWords(e.embeddingToWord, Flatten(batches), words)
  {
    SliceWhole(words);
    RecordBatchesIndex(e, batches, words, 0);
    RecordBatchesMap(e, batches, words, 0);
  }

  /** The per-chunk outputs of the model for a document's ids. */
  function DocumentBatches(svc: Services, ids: seq<int>): (r: seq<seq<Vec>>)
    ensures |r| == |Chunks(ids)|
    ensures forall i :: 0 <= i < |r| ==> |r[i]| == |Chunks(ids)[i]|
    ensures Flatten(r) == EmbedTokens(svc.predict, ids).value
  {
    EmbedChunks(svc.predict, Chunks(ids)).value
  }

  /** addDocument as written: tokenize, embed every chunk (which cannot throw, no chunk being
      longer than INPUT_LENGTH), then the as-written bookkeeping. */
  function AddDocumentAsWritten(svc: Services, e: EngineState, text: string): (r: Result<EngineState, Error>)
    ensures r.Success?
    ensures r.value.index == e.index + DocumentVectors(svc, text)
    ensures r.value.embeddingToWord == RecordWords(e.embeddingToWord, DocumentVectors(svc, text),
              ChunkLocalWords(TokenizeText(svc, text).1, |TokenizeText(svc, text).0|))
    ensures r.value.documents == e.documents && r.value.intToWord == e.intToWord
  {
    var (ids, words) := TokenizeText(svc, text);
    var batches := DocumentBatches(svc, ids);
    LocalWordsOfChunks(ids, words);
    LocalWordsShape(batches, Chunks(ids), words);
    RecordBatchesAsWrittenEffect(e, batches, words);
    Success(RecordBatchesAsWritten(e, batches, words))
  }

  /** The corrected addDocument, with the word counter offset by the chunk start, used by
      InitCorrected and AddDocumentLoop. The index grows by the document's vectors in token
      order, each vector is recorded against its own token's word (the last occurrence
      winning for equal vectors), and documents is untouched. */
  function AddDocument(svc: Services, e: EngineState, text: string): (r: Result<EngineState, Error>)
    ensures r.Success?
    ensures r.value.index == e.index + DocumentVectors(svc, text)
    ensures r.value.embeddingToWord == RecordWords(e.embeddingToWord, DocumentVectors(svc, text), TokenizeText(svc, text).1)
    ensures r.value.documents == e.documents && r.value.intToWord == e.intToWord
  {
    var ids := TokenizeText(svc, text).0;
    var words := TokenizeText(svc, text).1;
    var batches := DocumentBatches(svc, ids);
    RecordAllBatches(e, batches, words);
    Success(RecordBatches(e, batches, words, 0))
  }

  /** Ingestion grows the index by one vector per known token, keeps every stored ordinal,
      and keeps the index/map invariant. */
  lemma AddDocumentGrowsIndex(svc: Services, e: EngineState, text: string)
    ensures var e' := AddDocument(svc, e, text).value;
            && |e'.index| == |e.index| + |TokenizeText(svc, text).0|
            && e'.index[..|e.index|] == e.index
            && (Valid(e) ==> Valid(e'))
  {
    var e' := AddDocument(svc, e, text).value;
    assert e'.index[..|e.index|] == e.index;
    RecordWordsSpec(e.embeddingToWord, DocumentVectors(svc, text), TokenizeText(svc, text).1);
  }

  /** A vector that does not recur later in the document maps to its own token's word. */
  lemma AddDocumentOwnWord(svc: Services, e: EngineState, text: string, p: nat)
    requires p < |DocumentVectors(svc, text)|
    requires DocumentVectors(svc, text)[p] !in DocumentVectors(svc, text)[p + 1..]
    ensures DocumentVectors(svc, text)[p] in AddDocument(svc, e, text).value.embeddingToWord
    ensures AddDocument(svc, e, text).value.embeddingToWord[DocumentVectors(svc, text)[p]]
              == TokenizeText(svc, text).1[p]
  {
    RecordWordsSpec(e.embeddingToWord, DocumentVectors(svc, text), TokenizeText(svc, text).1);
    LastIndexOfUnique(DocumentVectors(svc, text), p);
  }

  /** Up to one window the two loops coincide: the as-written ingestion is right for short documents. */
  lemma AsWrittenShortDocument(svc: Services, e: EngineState, text: string)
    requires |TokenizeText(svc, text).0| <= InputLength
    ensures AddDocumentAsWritten(svc, e, text) == AddDocument(svc, e, text)
  {
    var (ids, words) := TokenizeText(svc, text);
    var local := ChunkLocalWords(words, |ids|);
    forall p | 0 <= p < |ids|
      ensures local[p] == words[p]
    {
      assert p % InputLength == p;
    }
    assert local == words;
  }

  /** The as-written loop records a vector that does not recur later in the document against
      the word at its position modulo INPUT_LENGTH, a word of the first chunk. */
  lemma AsWrittenChunkLocalWord(svc: Services, e: EngineState, text: string, p: nat)
    requires p < |DocumentVectors(svc, text)|
    requires DocumentVectors(svc, text)[p] !in DocumentVectors(svc, text)[p + 1..]
    ensures DocumentVectors(svc, text)[p] in AddDocumentAsWritten(svc, e, text).value.embeddingToWord
    ensures AddDocumentAsWritten(svc, e, text).value.embeddingToWord[DocumentVectors(svc, text)[p]]
              == TokenizeText(svc, text).1[p % InputLength]
  {
    var (ids, words) := TokenizeText(svc, text);
    RecordWordsSpec(e.embeddingToWord, DocumentVectors(svc, text), ChunkLocalWords(words, |ids|));
    LastIndexOfUnique(DocumentVectors(svc, text), p);
  }

  /** The as-written addDocument keeps the same promises about the index and the invariant as
      the corrected one: only the words it records differ. */
  lemma AddDocumentAsWrittenGrowsIndex(svc: Services, e: EngineState, text: string)
    ensures var e' := AddDocumentAsWritten(svc, e, text).value;
            && |e'.index| == |e.index| + |TokenizeText(svc, text).0|
            && e'.index[..|e.index|] == e.index
            && (Valid(e) ==> Valid(e'))
  {
    var (ids, words) := TokenizeText(svc, text);
    var e' := AddDocumentAsWritten(svc, e, text).value;
    assert e'.index[..|e.index|] == e.index;
    RecordWordsSpec(e.embeddingToWord, DocumentVectors(svc, text), ChunkLocalWords(words, |ids|));
  }

  /** The words one document's vectors are recorded against: chunk-local as written, the
      token's own word once corrected. */
  function DocumentWords(svc: Services, text: string, corrected: bool): (r: seq<string>)
    ensures |r| == |DocumentVectors(svc, text)|
  {
    var (ids, words) := TokenizeText(svc, text);
    if corrected then words else ChunkLocalWords(words, |ids|)
  }

  /** One addDocument call, as written or corrected. */
  function Ingest(svc: Services, e: EngineState, text: string, corrected: bool): (r: Result<EngineState, Error>)
    ensures r.Success?
    ensures r.value.index == e.index + DocumentVectors(svc, text)
    ensures r.value.embeddingToWord == RecordWords(e.embeddingToWord, DocumentVectors(svc, text), DocumentWords(svc, text, corrected))
    ensures r.value.documents == e.documents && r.value.intToWord == e.intToWord
    ensures Valid(e) ==> Valid(r.value)
  {
    if corrected then
      AddDocumentGrowsIndex(svc, e, text);
      AddDocument(svc, e, text)
    else
      AddDocumentAsWrittenGrowsIndex(svc, e, text);
      AddDocumentAsWritten(svc, e, text)
  }

  /** The loop at the end of init: ingest each document in list order, the first failure
      aborting. It never fails, appends the documents' vectors in order, and keeps the invariant. */
  function IngestDocuments(svc: Services, e: EngineState, docs: seq<string>, corrected: bool): (r: Result<EngineState, Error>)
    ensures r.Success?
    ensures r.value.documents == e.documents && r.value.intToWord == e.intToWord
    ensures r.value.index == e.index + CorpusVectors(svc, docs)
    ensures Valid(e) ==> Valid(r.value)
    decreases |docs|
  {
    if |docs| == 0 then Success(e)
    else
      match Ingest(svc, e, docs[0], corrected)
      case Failure(err) => Failure(err)
      case Success(next) =>
        AppendAssoc(e.index, DocumentVectors(svc, docs[0]), CorpusVectors(svc, docs[1..]));
        IngestDocuments(svc, next, docs[1..], corrected)
  }

  /** The vectors of a list of documents, document after document. */
  function CorpusVectors(svc: Services, docs: seq<string>): seq<Vec> {
    if |docs| == 0 then [] else DocumentVectors(svc, docs[0]) + CorpusVectors(svc, docs[1..])
  }

  /** The words of a list of documents, document after document. */
  function CorpusWords(svc: Services, docs: seq<string>, corrected: bool): (r: seq<string>)
    ensures |r| == |CorpusVectors(svc, docs)|
  {
    if |docs| == 0 then [] else DocumentWords(svc, docs[0], corrected) + CorpusWords(svc, docs[1..], corrected)
  }

  /** Ingesting a list records the whole corpus's vectors, in order, against the corpus's
      words: a vector that recurs keeps the word of its last occurrence across documents. */
  lemma {:induction false} IngestDocumentsWords(svc: Services, e: EngineState, docs: seq<string>, corrected: bool)
    ensures IngestDocuments(svc, e, docs, corrected).value.embeddingToWord
              == RecordWords(e.embeddingToWord, CorpusVectors(svc, docs), CorpusWords(svc, docs, corrected))
    decreases |docs|
  {
    if |docs| > 0 {
      var d := docs[0];
      var next := Ingest(svc, e, d, corrected).value;
      IngestDocumentsWords(svc, next, docs[1..], corrected);
      RecordWordsAppend(e.embeddingToWord, DocumentVectors(svc, d), DocumentWords(svc, d, corrected),
                        CorpusVectors(svc, docs[1..]), CorpusWords(svc, docs[1..], corrected));
    }
  }

  /** init(documents:) as written: documents is the given list, the maps start empty, and
      every document goes through the as-written addDocument in order. The index holds the
      documents' vectors in order, each recorded against its chunk-local word, and the
      invariant holds. */
  function Init(svc: Services, documents: seq<string>): (r: Result<EngineState, Error>)
    ensures r.Success?
    ensures r.value.documents == documents
    ensures r.value.index == CorpusVectors(svc, documents)
    ensures r.value.embeddingToWord == RecordWords(map[], CorpusVectors(svc, documents), CorpusWords(svc, documents, false))
    ensures Valid(r.value)
  {
    var empty := EngineState(documents, [], map[], map[]);
    assert Valid(empty);
    IngestDocumentsWords(svc, empty, documents, false);
    IngestDocuments(svc, empty, documents, false)
  }

  /** init with the corrected addDocument: the same, except that every vector is recorded
      against its own token's word. */
  function InitCorrected(svc: Services, documents: seq<string>): (r: Result<EngineState, Error>)
    ensures r.Success?
    ensures r.value.documents == documents
    ensures r.value.index == CorpusVectors(svc, documents)
    ensures r.value.embeddingToWord == RecordWords(map[], CorpusVectors(svc, documents), CorpusWords(svc, documents, true))
    ensures Valid(r.value)
  {
    var empty := EngineState(documents, [], map[], map[]);
    assert Valid(empty);
    IngestDocumentsWords(svc, empty, documents, true);
    IngestDocuments(svc, empty, documents, true)
  }

  /** What the corrected chunk loop still has to do once the tokens before `i` are ingested. */
  function IngestFrom(predict: (seq<int>, seq<int>, nat) -> Vec, cur: EngineState,
                      ids: seq<int>, words: seq<string>, i: nat): EngineState
    requires i <= |ids| <= |words|
  {
    var batches := EmbedChunks(predict, Chunks(ids[i..])).value;
    FlattenSameShape(batches, Chunks(ids[i..]));
    RecordBatches(cur, batches, words, i)
  }

  /** One turn of the stride loop: embed the window at i, append it, record it, move on. */
  lemma IngestFromStep(predict: (seq<int>, seq<int>, nat) -> Vec, cur: EngineState,
                       ids: seq<int>, words: seq<string>, i: nat)
    requires i < |ids| <= |words|
    ensures var end := Min(i + InputLength, |ids|);
            var embeddings := GetEmbedding(predict, ids[i..end]).value;
            && |embeddings| == end - i
            && IngestFrom(predict, cur, ids, words, i)
               == IngestFrom(predict, cur.(index := Add(cur.index, embeddings),
                                           embeddingToWord := RecordWords(cur.embeddingToWord, embeddings, words[i..end])),
                             ids, words, end)
  {
    var end := Min(i + InputLength, |ids|);
    var chunk := ids[i..end];
    assert Window(ids[i..], 0) == chunk;
    assert ids[i..][|chunk|..] == ids[end..];
    assert Chunks(ids[i..]) == [chunk] + Chunks(ids[end..]);
    var embeddings := GetEmbedding(predict, chunk).value;
    assert EmbedChunks(predict, Chunks(ids[i..])).value == [embeddings] + EmbedChunks(predict, Chunks(ids[end..])).value;
  }

  lemma AddDocumentIsIngestFrom(svc: Services, e: EngineState, text: string)
    ensures |TokenizeText(svc, text).0| <= |TokenizeText(svc, text).1|
    ensures AddDocument(svc, e, text).value
            == IngestFrom(svc.predict, e, TokenizeText(svc, text).0, TokenizeText(svc, text).1, 0)
  {
    var ids := TokenizeText(svc, text).0;
    assert ids[0..] == ids;
  }

  /** The inner loop of addDocument's chunk loop with the corrected counter: record each vector of one
      chunk against its word, in order, the later entry overwriting an earlier equal key. */
  method RecordChunk(m0: map<Vec, string>, embeddings: seq<Vec>, words: seq<string>) returns (m: map<Vec, string>)
    requires |embeddings| == |words|
    ensures m == RecordWords(m0, embeddings, words)
  {
    m := m0;
    for j := 0 to |embeddings|
      invariant m == RecordWords(m0, embeddings[..j], words[..j])
    {
      assert embeddings[..j + 1][..j] == embeddings[..j];
      assert words[..j + 1][..j] == words[..j];
      m := m[embeddings[j] := words[j]];
    }
    assert embeddings[..|embeddings|] == embeddings;
    assert words[..|words|] == words;
  }

  /** addDocument written as the source's stride loop over the token list.
      getEmbedding cannot throw here, since no window exceeds INPUT_LENGTH. */
  method AddDocumentLoop(svc: Services, e: EngineState, text: string) returns (r: Result<EngineState, Error>)
    ensures r == AddDocument(svc, e, text)
  {
    var tokenized := TokenizeText(svc, text);
    var ids, words := tokenized.0, tokenized.1;
    AddDocumentIsIngestFrom(svc, e, text);
    ghost var target := AddDocument(svc, e, text).value;
    var cur := e;
    var i := 0;
    while i < |ids|
      invariant i <= |ids| <= |words|
      invariant IngestFrom(svc.predict, cur, ids, words, i) == target
      decreases |ids| - i
    {
      var endIndex := Min(i + InputLength, |ids|);
      IngestFromStep(svc.predict, cur, ids, words, i);
      var embeddings := GetEmbedding(svc.predict, ids[i..endIndex]).value;
      var m := RecordChunk(cur.embeddingToWord, embeddings, words[i..endIndex]);
      cur := cur.(index := Add(cur.index, embeddings), embeddingToWord := m);
      i := endIndex;
    }
    assert ids[i..] == [];
    r := Success(cur);
  }
}
