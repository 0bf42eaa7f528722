# EmbeddingEngine in Dafny

A Dafny model of `EmbeddingEngine`, the class at the centre of the EmbeddingManager
package. The engine does four things:

- It tokenizes text with a BERT tokenizer.
- It embeds the known tokens with DistilBERT, in windows of `INPUT_LENGTH` = 128 tokens.
- It appends the per-token vectors to a flat FAISS index and records, in the reverse map
  `embeddingToWord`, which word each vector came from.
- It derives keywords by k-means clustering. Each centroid is named by the word of the
  stored vector nearest to it.

The modules follow the source's structure:

| module | file | models |
|---|---|---|
| `Wrappers` | wrappers.dfy | `Option` and `Result`; a Swift `throws` is a `Result` |
| `Collaborators` | collaborators.dfy | the foreign pieces as function values, and the error cases |
| `Chunking` | chunking.dfy | the stride loop over the token list (`stride(from: 0, to: count, by: 128)`) |
| `Embedding` | embedding.dfy | `getEmbedding`: length check, padded ids, attention mask, one vector per token |
| `Tokenization` | tokenization.dfy | `tokenizeText` |
| `VectorIndex` | vector_index.dfy | the flat index as the engine uses it: add, reconstruct, `retrieveEmbeddingsFromIndex` |
| `ReverseMap` | reverse_map.dfy | writing `embeddingToWord`, where a later write overwrites an earlier one |
| `EmbeddingEngine` | engine.dfy | the engine state, `addDocument` and `init` (each as written and corrected), and the loop form of `addDocument` |
| `Keywords` | keywords.dfy | `getGlobalKeywords`; `getLocalKeywords` as written and corrected |
| `Witnesses` | witnesses.dfy | concrete collaborators on which the two defects below show |
| `Basics` | basics.dfy | `min` and small sequence facts |

The foreign collaborators are fields of a `Services` value handed to every operation:
- the tokenizer's `tokenize` and `convertTokenToId`;
- row `i` of DistilBERT's `last_hidden_state`;
- `kMeansClustering`;
- the 1-nearest-neighbour `index.search`.

Two predicates state the only facts the engine relies on from them:
- `KMeansExact`: clustering n ≥ k points gives exactly k centroids.
- `SearchInRange`: a search on a non-empty index returns a valid ordinal.

Lemmas that need these facts take them as `requires`.

Two facts about the code shape the model:
- `addDocument` does not append its text to `documents`; only `init` sets that list.
- When two tokens produce equal vectors, the later dictionary write to `embeddingToWord` wins.

## Model

| member | source | states |
|---|---|---|
| Chunking.Window | EmbeddingManager/EmbeddingEngine.swift:146-147 | the chunk at offset i holds tokens i ..< min(i+128, count) in order: at most 128 tokens, at least one when i < count, never past the end |
| Chunking.Chunks | EmbeddingManager/EmbeddingEngine.swift:144-147 | the stride loop's chunks concatenate back to the token list; every chunk has 1 to 128 tokens; there are no chunks exactly when there are no tokens |
| Chunking.ChunksCount | EmbeddingManager/EmbeddingEngine.swift:144 | the loop runs ceil(count / 128) times |
| Chunking.ChunksStride | EmbeddingManager/EmbeddingEngine.swift:144-147 | the c-th chunk is the window starting at offset 128·c, and that offset is inside the list |
| Chunking.ChunksWithinTokens | EmbeddingManager/EmbeddingEngine.swift:146-147 | no chunk is longer than the token list |
| Embedding.PaddedIds | EmbeddingManager/EmbeddingEngine.swift:73-81 | the input array has 128 slots: the ids in order, then zeros |
| Embedding.AttentionMask | EmbeddingManager/EmbeddingEngine.swift:73-81 | the mask has 128 slots: 1 for each real token, then zeros |
| Embedding.PaddingRoundTrip | EmbeddingManager/EmbeddingEngine.swift:73-81 | the positions the mask marks as active hold exactly the original ids, so padding loses nothing |
| Embedding.BuildModelInput | EmbeddingManager/EmbeddingEngine.swift:74-81 | the loop that fills the zero-initialised input and mask arrays builds the padded ids and the mask |
| Embedding.GetEmbedding | EmbeddingManager/EmbeddingEngine.swift:68-95 | throws inputTooLong(count, 128) exactly when there are more than 128 tokens; otherwise one vector per token, vector i being row i of the model's output on the padded ids and mask |
| Embedding.EmbedChunks | EmbeddingManager/EmbeddingEngine.swift:144-149 | embedding a chunk list succeeds exactly when no chunk exceeds 128 tokens, with one batch per chunk; a failure is inputTooLong(|chunk|, 128) for the first chunk longer than 128 |
| Embedding.EmbedTokens | EmbeddingManager/EmbeddingEngine.swift:144-149 | the stride loop never throws and yields one vector per token |
| Embedding.EmbedTokensRow | EmbeddingManager/EmbeddingEngine.swift:144-149 | vector p is row p mod 128 of the model's output on the window that holds token p |
| Embedding.SingleWindow | EmbeddingManager/EmbeddingEngine.swift:144-149 | for at most 128 tokens the stride loop is one getEmbedding call |
| Tokenization.KnownTokens | EmbeddingManager/EmbeddingEngine.swift:127-132 | ids and words have equal length; each id is the vocabulary id of its word; a token is kept exactly when it has an id |
| Tokenization.KnownTokensAppend | EmbeddingManager/EmbeddingEngine.swift:127-132 | tokens are kept in tokenizer order: filtering a concatenation concatenates the filtered parts |
| Tokenization.KnownTokensAllKnown | EmbeddingManager/EmbeddingEngine.swift:127-132 | when every token has an id, the words are exactly the tokens and the ids are their ids |
| Tokenization.TokenizeText | EmbeddingManager/EmbeddingEngine.swift:121-134 | parallel id and word arrays, no longer than the tokenizer's output, holding exactly the tokens the vocabulary knows |
| VectorIndex.Reconstruct | EmbeddingManager/EmbeddingEngine.swift:162 | reconstruct succeeds exactly for ordinals in [0, count) and returns the vector stored there; otherwise it fails with OutOfRange |
| VectorIndex.AddThenReconstruct | EmbeddingManager/EmbeddingEngine.swift:151 | after an add, old ordinals still reconstruct their vectors, new ordinals reconstruct the added vectors in order, and nothing else reconstructs |
| VectorIndex.ReconstructPrefix | EmbeddingManager/EmbeddingEngine.swift:161-164 | after n iterations the loop has collected the first n stored vectors, in order, without throwing |
| VectorIndex.RetrieveEmbeddings | EmbeddingManager/EmbeddingEngine.swift:158-167 | retrieveEmbeddingsFromIndex returns the whole index in ordinal order and never throws |
| ReverseMap.LastIndexOf | EmbeddingManager/EmbeddingEngine.swift:152-154 | the position of the last occurrence of a vector: it holds that vector, and the vector does not occur after it |
| ReverseMap.LastIndexOfUnique | EmbeddingManager/EmbeddingEngine.swift:152-154 | a vector that does not occur after position j has its last occurrence at j |
| ReverseMap.RecordWordsSpec | EmbeddingManager/EmbeddingEngine.swift:152-154 | after recording, the keys are the old keys plus the recorded vectors; untouched keys keep their words; a recorded vector maps to the word at its last occurrence |
| ReverseMap.RecordWordsValues | EmbeddingManager/EmbeddingEngine.swift:152-154 | every word in the map afterwards was already a value or is one of the recorded words |
| ReverseMap.RecordWordsAppend | EmbeddingManager/EmbeddingEngine.swift:144-155 | recording two batches one after the other is the same as recording their concatenation |
| EmbeddingEngine.DocumentVectors | EmbeddingManager/EmbeddingEngine.swift:139-149 | a document contributes one vector per known token |
| EmbeddingEngine.LocalWordsOfChunks | EmbeddingManager/EmbeddingEngine.swift:144-154 | over a document's chunks, restarting the word counter at 0 in every chunk pairs position p with words[p mod 128] |
| EmbeddingEngine.RecordBatchesAsWrittenEffect | EmbeddingManager/EmbeddingEngine.swift:144-155 | the as-written loop appends the batches to the index in order; it records them together against the chunk-local words; it leaves documents and intToWord alone |
| EmbeddingEngine.RecordBatchesIndex | EmbeddingManager/EmbeddingEngine.swift:151 | the corrected loop appends the batches to the index in order and leaves documents and intToWord alone |
| EmbeddingEngine.RecordBatchesMap | EmbeddingManager/EmbeddingEngine.swift:152-154 | the corrected loop, starting at token `offset`, records each vector against the word of its own token |
| EmbeddingEngine.RecordAllBatches | EmbeddingManager/EmbeddingEngine.swift:144-155 | recording a whole document from token 0 appends its vectors and maps each one to its own word |
| EmbeddingEngine.DocumentBatches | EmbeddingManager/EmbeddingEngine.swift:144-149 | the model's per-chunk outputs have the chunks' shape and concatenate to the document's vectors |
| EmbeddingEngine.AddDocumentAsWritten | EmbeddingManager/EmbeddingEngine.swift:138-156 | addDocument as written: it never throws and appends the document's vectors to the index. Vector p is recorded against words[p mod 128]. documents and intToWord are untouched |
| EmbeddingEngine.AddDocument | EmbeddingManager/EmbeddingEngine.swift:138-156 | corrected addDocument: never throws, appends the document's vectors to the index, records vector p against words[p], and leaves documents and intToWord untouched |
| EmbeddingEngine.AddDocumentGrowsIndex | EmbeddingManager/EmbeddingEngine.swift:151 | the index grows by exactly the number of known tokens; earlier ordinals are kept; the invariant "map keys = stored vectors, intToWord empty" is preserved |
| EmbeddingEngine.AddDocumentOwnWord | EmbeddingManager/EmbeddingEngine.swift:152-154 | after the corrected addDocument, a vector that does not recur later in the document is a key, mapped to its own token's word |
| EmbeddingEngine.AsWrittenShortDocument | EmbeddingManager/EmbeddingEngine.swift:144-154 | for documents of at most 128 known tokens the as-written and corrected addDocument agree |
| EmbeddingEngine.AsWrittenChunkLocalWord | EmbeddingManager/EmbeddingEngine.swift:152-154 | after the as-written addDocument, a vector that does not recur later is mapped to words[p mod 128] rather than its own word |
| EmbeddingEngine.AddDocumentAsWrittenGrowsIndex | EmbeddingManager/EmbeddingEngine.swift:151-154 | the as-written addDocument grows the index by exactly the number of known tokens, keeps earlier ordinals, and preserves the invariant "map keys = stored vectors, intToWord empty" |
| EmbeddingEngine.IngestDocuments | EmbeddingManager/EmbeddingEngine.swift:61-63 | ingesting a list (as written or corrected) never throws; the index grows by the documents' vectors, document after document; documents and intToWord are untouched; the invariant is preserved |
| EmbeddingEngine.IngestDocumentsWords | EmbeddingManager/EmbeddingEngine.swift:61-63 | after ingesting a list, the reverse map is the old one with the whole corpus's vectors recorded in order against the corpus's words (chunk-local as written, own words corrected) |
| EmbeddingEngine.Init | EmbeddingManager/EmbeddingEngine.swift:32-63 | init as written stores the given documents; its index holds their vectors in order; its reverse map records them, starting from empty, against the chunk-local words of the as-written addDocument; the invariant holds |
| EmbeddingEngine.InitCorrected | EmbeddingManager/EmbeddingEngine.swift:32-63 | init with the corrected addDocument: the same documents and index, with every vector recorded against its own token's word; the invariant holds |
| EmbeddingEngine.IngestFromStep | EmbeddingManager/EmbeddingEngine.swift:144-155 | one turn of the stride loop embeds the window at i (one vector per token), appends and records it, and leaves the rest of the work starting at min(i+128, count) |
| EmbeddingEngine.AddDocumentIsIngestFrom | EmbeddingManager/EmbeddingEngine.swift:138-144 | addDocument is the whole stride loop started at token 0 |
| EmbeddingEngine.RecordChunk | EmbeddingManager/EmbeddingEngine.swift:152-154 | the inner loop records each vector of a chunk against its word, in order |
| EmbeddingEngine.AddDocumentLoop | EmbeddingManager/EmbeddingEngine.swift:138-156 | the imperative stride loop, with the word counter offset by the chunk start, computes exactly AddDocument |
| Keywords.ClusterCount | EmbeddingManager/EmbeddingEngine.swift:181 | k = min(5, n): at most 5, at most n, and equal to one of them |
| Keywords.ResolveClusters | EmbeddingManager/EmbeddingEngine.swift:186-194 | the centroid loop succeeds exactly when every nearest label is a valid ordinal, and otherwise throws OutOfRange(label, count) for the first centroid whose label is out of range. It returns at most one word per centroid, each a word of the reverse map |
| Keywords.ResolveClustersComplete | EmbeddingManager/EmbeddingEngine.swift:186-194 | when every label is in range and every stored vector has a word, there is exactly one keyword per centroid, in order: the word of its nearest stored vector |
| Keywords.GlobalKeywords | EmbeddingManager/EmbeddingEngine.swift:180-196 | every global keyword is a recorded word; any failure is an out-of-range reconstruct on the index |
| Keywords.GlobalKeywordsComplete | EmbeddingManager/EmbeddingEngine.swift:180-196 | on a valid engine, when kMeans and search keep their promises, getGlobalKeywords never throws and returns min(5, count) keywords: the words of the stored vectors nearest to the centroids |
| Keywords.GlobalKeywordsNonEmpty | EmbeddingEngineTests/EmbeddingEngineTests.swift:68-75 | a valid engine with at least one stored vector yields at least one global keyword |
| Keywords.GlobalKeywordsEmptyIndex | EmbeddingManager/EmbeddingEngine.swift:180-183 | an empty index yields the empty keyword list, not an error |
| Keywords.ResolveByOrdinal | EmbeddingManager/EmbeddingEngine.swift:222-227 | the local loop returns at most one word per centroid, each a value of intToWord; it names every centroid exactly when every nearest label is a key of intToWord |
| Keywords.ResolveByOrdinalNone | EmbeddingManager/EmbeddingEngine.swift:224 | with an empty intToWord the local loop names no centroid |
| Keywords.LocalKeywords | EmbeddingManager/EmbeddingEngine.swift:199-230 | getLocalKeywords as written never throws, and every keyword it returns is a value of intToWord |
| Keywords.LocalKeywordsAlwaysEmpty | EmbeddingManager/EmbeddingEngine.swift:222-227 | on any engine built by init and addDocument, getLocalKeywords as written returns no keywords |
| Keywords.LocalKeywordsFixed | EmbeddingManager/EmbeddingEngine.swift:199-230 | corrected getLocalKeywords: every keyword is a recorded word, and any failure is an out-of-range reconstruct |
| Keywords.LocalKeywordsFixedComplete | EmbeddingEngineTests/EmbeddingEngineTests.swift:77-84 | on a valid non-empty engine the corrected version never throws. It returns min(5, token count) keywords, so at least one for a text with a known token, each the word of the stored vector nearest to a centroid of the text |
| Witnesses.MisalignedReverseMap | EmbeddingManager/EmbeddingEngine.swift:152-154 | on a concrete 129-token document, the vector of token 128 ("b") is mapped to "a" as written and to "b" once corrected |
| Witnesses.LocalKeywordsMissed | EmbeddingManager/EmbeddingEngine.swift:222-227 | on an engine built by the as-written init from one 129-token document, getLocalKeywords of that text returns no keyword as written and five once corrected |

## Left out

- The CoreML model, `MLMultiArray` and the `DistilBERT` output are not modelled.
  - A prediction is a function value giving one row of the last hidden state.
  - The 768-wide hidden size, and the Float values themselves, are not modelled. A vector is a `seq<real>` that is only compared for equality.
  - A prediction failure (`try bertModel.prediction`) is not modelled.
- The int32 storage of token ids in the input array is not modelled. Ids are unbounded integers, so an id above 2^31-1 is not truncated.
- FAISS internals are not modelled: L2 distance, the `search` result layout, the `d` dimension, and errors the library itself may throw.
  - Search is a function value returning one label.
  - `add` and `reconstruct` are modelled on a sequence.
- `kMeansClustering` is not part of this model. It is a function value; its failures and its use of `d` are not modelled.
- The tokenizer's subword algorithm is not modelled. Loading the vocabulary file in `init` (file I/O with a hard-coded path) is left out.
- Model or tokenizer loading failures in `init` are not modelled. `Init` therefore always succeeds.
- `wordToInt` is left out. It is initialised empty and never read by live code.
  - `intToWord` is kept, because `getLocalKeywords` reads it.
- The `print(bestMatch)` in `getGlobalKeywords` is left out (console output).
- The commented-out `tokenizeText` variant (lines 99-119) is left out. So are the commented-out `IVFFlatIndex`, vocabulary-decoding and `index.add(embedding, ids:)` lines.
- `GeneralError.tokenizerError` is left out: no code throws it.
- EmbeddingManager/EmbeddingManager.swift is not part of this model.
- The XCTest test class is left out. Two test expectations are stated as lemmas:
  - `GlobalKeywordsNonEmpty`;
  - `LocalKeywordsFixedComplete`.
- Keywords.GlobalKeywords: the function's own contract does not say the result has min(5, count) entries, because that needs the collaborators' promises. `GlobalKeywordsComplete` states it under those promises.

## Findings

| source | as written | input that shows it | evidently intended | confidence | as-written member | corrected member |
|---|---|---|---|---|---|---|
| EmbeddingManager/EmbeddingEngine.swift:152-154 | the inner loop's counter `i` shadows the stride offset, so the vector of token p is recorded against `words[p mod 128]` | one document of 129 known tokens, 128 × "a" then "b"; the model's row for token 128 differs from every other row | record vector p against `words[p]`, the word it was computed from | not executed | EmbeddingEngine.AsWrittenChunkLocalWord | EmbeddingEngine.AddDocumentOwnWord |
| EmbeddingManager/EmbeddingEngine.swift:222-227 | each centroid is named through `intToWord[label]`, but nothing ever writes `intToWord`, so getLocalKeywords always returns [] | an engine built from any document with a known token, asked for the local keywords of the same text (the unit test at EmbeddingEngineTests/EmbeddingEngineTests.swift:77-84 expects at least one) | name each centroid as getGlobalKeywords does: reconstruct the nearest stored vector and look up its word in `embeddingToWord` | not executed | Keywords.LocalKeywordsAlwaysEmpty | Keywords.LocalKeywordsFixedComplete |

`Witnesses.MisalignedReverseMap` and `Witnesses.LocalKeywordsMissed` work both rows on the
concrete inputs above.
- `EmbeddingEngine.AddDocumentAsWritten` and `EmbeddingEngine.Init` are the code as written.
- `EmbeddingEngine.AddDocument` is the corrected `addDocument`. `EmbeddingEngine.InitCorrected` ingests with it.
