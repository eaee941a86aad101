# Venture retrieval core in Dafny

This project models the retrieval core of a venture-research assistant. The
core has three parts:

- **Chunker** (`app/retrieval/chunker.py`): splits a source document's text
  into overlapping, whitespace-trimmed windows and tags each chunk with
  `chunk_index` and `chunk_count`.
- **Hybrid search** (`app/retrieval/search.py`): fuses vector-similarity
  hits with BM25 keyword scores over the chunk corpus. Both score lists are
  min-max normalised and weighted 0.7 / 0.3. Documents failing the metadata
  filter or scoring zero or less are dropped. The rest are sorted by score,
  descending and stably, and cut to `top_k`.
- **Vector store** (`app/retrieval/qdrant_client.py`): `VentureQdrant`
  chooses a qdrant client when one can be built, and otherwise falls back to
  an in-memory store. The in-memory store appends points on upsert. It
  answers a search by a linear scan: it filters on metadata, scores each
  point by cosine similarity, sorts descending and slices to `top_k`.

Modules:

- `Documents` (documents.dfy) holds `SourceDocument` and metadata values.
  It models Python's `dict.get` and `!=` on metadata values: `True == 1`,
  and `1 == 1.0`. It also holds the metadata filter shared by both search
  paths.
- `Text` (text.dfy) holds `str.strip()` over the characters `str.isspace()`
  accepts.
- `Chunker` (chunker.dfy) holds `chunk_text` and `chunk_documents`. Each is
  an imperative method proved equal to a specification function. Lemmas
  prove the properties of that function.
- `Ranking` (ranking.dfy) holds `list.sort(key=..., reverse=True)` as a
  stable descending insertion sort. It has an algorithm-free specification
  and a proof that the specification determines the result. The module also
  holds the slice `list[:k]`, including negative `k`.
- `Fusion` (fusion.dfy) holds `_normalize`, `keyword_scores` and
  `hybrid_search`.
- `VectorStore` (vector_store.dfy) holds `VentureQdrant` as the class
  `VentureStore`, with a local point list and a fresh-id counter.

Two behaviours of the code that a caller might not expect, modelled as
written:

- **Upsert.** `upsert_documents` does not check that there are as many
  vectors as documents, nor that each vector has the collection's
  dimension. On the local backend it zips the two lists, appends the
  pairs, and returns `len(vectors)`. On qdrant it sends the zipped points
  to the client and returns `len(points)`, the number of pairs; nothing
  is stored locally.
- **Overlap at least as large as the window.** When `overlap >=
  max_chunk_size`, `chunk_text` never moves the window start forward.
  This is the finding below.

## Model

| member | source | states |
|---|---|---|
| Documents.PyEqIsEquivalence | app/retrieval/search.py:72 | Python `==` on metadata values, with `True == 1 == 1.0`, is reflexive, symmetric and transitive |
| Documents.MatchesOwnMetadata | app/retrieval/search.py:69-76 | a document always matches a filter equal to its own metadata |
| Documents.MatchesSubFilter | app/retrieval/search.py:69-76 | a document that matches a filter also matches every filter made of some of its entries |
| Documents.PyEq | app/retrieval/search.py:72 | Python `==` on metadata values as a definition; `Documents.PyEqIsEquivalence` states its properties |
| Documents.MatchesFilter | app/retrieval/search.py:69-76 | the filter condition as a definition; `Documents.CheckFilter`, `Documents.MatchesOwnMetadata` and `Documents.MatchesSubFilter` state its properties |
| Documents.CheckFilter | app/retrieval/search.py:69-76 | the loop over the filter's items answers true exactly when every filter key's value equals the metadata's value under Python equality; no filter or an empty filter always matches; a mismatch names a key that differs |
| Text.TrimStart | app/retrieval/chunker.py:5 | left strip is never longer than its input; `Text.TrimStartShape` states what it keeps |
| Text.TrimEnd | app/retrieval/chunker.py:5 | right strip is never longer than its input; `Text.TrimEndShape` states what it keeps |
| Text.Strip | app/retrieval/chunker.py:5 | `strip()` is never longer than its input; `Text.StripShape`, `Text.StripEmptyIff` and `Text.StripIdempotent` state what it keeps |
| Text.TrimStartShape | app/retrieval/chunker.py:5 | left strip keeps a suffix, everything it drops is whitespace, and what it keeps does not begin with whitespace |
| Text.TrimEndShape | app/retrieval/chunker.py:5 | right strip keeps a prefix, everything it drops is whitespace, and what it keeps does not end with whitespace |
| Text.StripShape | app/retrieval/chunker.py:5 | `strip()` returns one contiguous slice of its input; the slice has no whitespace at either end; every dropped character is whitespace |
| Text.StripEmptyIff | app/retrieval/chunker.py:5-7 | a text strips to empty exactly when it is all whitespace |
| Text.StripIsStripped | app/retrieval/chunker.py:18 | a stripped window has no whitespace at either end |
| Text.StripIdempotent | app/retrieval/chunker.py:5 | stripping twice is the same as stripping once |
| Chunker.DefaultStepIsWritten | app/retrieval/chunker.py:17-21 | with the configured 800-character window and 120-character overlap, a window short of the end is 800 long and the next starts 680 later, by both the written and the corrected step |
| Chunker.WindowEnd | app/retrieval/chunker.py:17 | `min(start + max_chunk_size, text_len)` as a definition; `Chunker.SpansFromShape` states that every window ends there and stays inside the text |
| Chunker.SourceNextStart | app/retrieval/chunker.py:21 | the step as written, `max(0, end - overlap)`, as a definition; `Chunker.SourceLoopNeverAdvances` and `Chunker.NextStartAgreesWithSource` state its properties |
| Chunker.NextStart | app/retrieval/chunker.py:21 | the corrected next window start is strictly past the current start and no earlier than `end - overlap` |
| Chunker.SpansFromShape | app/retrieval/chunker.py:13-21 | every window lies inside the text, is non-empty, starts at or after the first start, and ends at `min(start + size, len)`; there is a window exactly when the start is inside the text; the first window begins at the start; with a non-negative overlap the last window reaches the end of the text |
| Chunker.SpansFromSteps | app/retrieval/chunker.py:16-21 | every window except the last ends before the end of the text, and the next window starts at the step computed from it |
| Chunker.WindowsMatchSpans | app/retrieval/chunker.py:17-18 | the i-th window is exactly the text slice `[lo:hi]` of the i-th span |
| Chunker.StripEach | app/retrieval/chunker.py:18 | one stripped piece per window; `Chunker.StripEachAt` states that piece i is window i stripped |
| Chunker.StripEachAt | app/retrieval/chunker.py:18 | each emitted piece is its window stripped |
| Chunker.KeepNonEmpty | app/retrieval/chunker.py:23 | the list comprehension keeps no more pieces than it is given; `Chunker.KeepNonEmptyMembers` states which |
| Chunker.KeepNonEmptyMembers | app/retrieval/chunker.py:23 | the final filter keeps exactly the non-empty pieces |
| Chunker.ChunkText | app/retrieval/chunker.py:4-23 | the window loop returns exactly the specification: strip the text; nothing for blank text; the whole stripped text when the size is not positive; otherwise the stripped, non-empty windows |
| Chunker.ChunkTextDegenerateCases | app/retrieval/chunker.py:5-10 | all-whitespace text gives no chunks; a non-positive size gives the stripped text as the single chunk |
| Chunker.ChunksAreBoundedAndStripped | app/retrieval/chunker.py:4-23 | every chunk is non-empty, has no whitespace at either end, and is no longer than a positive `max_chunk_size` |
| Chunker.SpansOverlapExactly | app/retrieval/chunker.py:16-21 | with `0 <= overlap < size`, the windows start at 0, end at the end of the text, and each starts exactly `overlap` characters before the previous one ends |
| Chunker.RejoinFrom | app/retrieval/chunker.py:13-21 | from any start inside the text, the first window followed by each later window minus its first `overlap` characters rebuilds the rest of the text |
| Chunker.WindowsReconstructText | app/retrieval/chunker.py:5-21 | with `0 <= overlap < size`, the windows, with their overlaps removed, concatenate back to the stripped text, so no character is lost |
| Chunker.SourceLoopNeverAdvances | app/retrieval/chunker.py:16-21 | as written, with `overlap >= size` and a stripped text longer than `size`, the start stays 0 after any number of steps and the window never reaches the end |
| Chunker.NextStartAgreesWithSource | app/retrieval/chunker.py:21 | whenever `overlap < size` and the window does not reach the end, the corrected step equals the written step, `end - overlap` |
| Chunker.ChunkMetadata | app/retrieval/chunker.py:33-35 | a chunk's metadata has the parent's keys plus `chunk_index` and `chunk_count`, holding the index and the count; every other key keeps the parent's value |
| Chunker.PieceDocuments | app/retrieval/chunker.py:32-43 | one chunk document per piece |
| Chunker.AppendPieces | app/retrieval/chunker.py:32-43 | the inner loop appends exactly the piece documents of one parent, in piece order, after what was already collected |
| Chunker.ChunkDocuments | app/retrieval/chunker.py:26-44 | the nested loops return exactly the per-document chunks, concatenated in document order; documents with no pieces contribute nothing |
| Chunker.ChunkDocumentsCount | app/retrieval/chunker.py:26-44 | the number of chunk documents is the sum of the piece counts of the inputs |
| Chunker.ChunkDocumentsConcat | app/retrieval/chunker.py:28-43 | chunking a concatenation of batches equals concatenating the chunks of each batch |
| Chunker.ChunkDocumentsProvenance | app/retrieval/chunker.py:28-43 | every chunk document is the piece at some index of some input document, with that document's source and type |
| Ranking.StableSortDesc | app/retrieval/search.py:95 | the sort returns one element per input element; `Ranking.StableSortDescCorrect` states the order |
| Ranking.StableSortDescSorted | app/retrieval/search.py:95 | the sorted list's scores never increase |
| Ranking.StableSortDescMultiset | app/retrieval/search.py:95 | sorting neither adds nor loses elements |
| Ranking.StableSortDescGroups | app/retrieval/search.py:95 | for each score value, the elements carrying it appear in the sorted list in their input order |
| Ranking.StableSortDescCorrect | app/retrieval/search.py:95 | the insertion sort yields a permutation whose scores never increase; elements with equal scores keep their input order |
| Ranking.StableSortDescUnique | app/retrieval/search.py:95 | two results that both meet the stable descending sort specification are equal |
| Ranking.SortedPairStays | app/retrieval/search.py:95 | two elements already in descending order stay in place |
| Ranking.PySliceTo | app/retrieval/search.py:96 | `s[:k]` is a prefix of `s`, of length `min(k, len)` for `k >= 0` and `max(len + k, 0)` for negative `k` |
| Ranking.PrefixNonIncreasing | app/retrieval/search.py:96 | slicing a descending list keeps it descending and takes nothing new |
| Fusion.SeqMin | app/retrieval/search.py:29 | `min(values)` is an element and no element is smaller |
| Fusion.SeqMax | app/retrieval/search.py:30 | `max(values)` is an element and no element is larger |
| Fusion.Normalize | app/retrieval/search.py:26-33 | one normalised value per input value; the lemmas below state which |
| Fusion.NormalizeAllEqual | app/retrieval/search.py:31-32 | when all values are equal, every normalised value is 1.0 |
| Fusion.MinBelowMax | app/retrieval/search.py:29-31 | values that are not all equal have a minimum strictly below their maximum |
| Fusion.NormalizeSpread | app/retrieval/search.py:33 | otherwise every normalised value lies in [0, 1], the minimum maps to 0 and the maximum to 1 |
| Fusion.NormalizeMonotone | app/retrieval/search.py:33 | otherwise normalisation keeps order in both directions |
| Fusion.NormalizeInUnit | app/retrieval/search.py:26-33 | every normalised value lies in [0, 1], whether or not the values are all equal |
| Fusion.ScaleBounds | app/retrieval/search.py:33 | `(v - min) / (max - min)` lies in [0, 1] and hits 0 and 1 at the ends |
| Fusion.ScaleMonotone | app/retrieval/search.py:33 | `(v - min) / (max - min)` preserves and reflects order |
| Fusion.KeywordScores | app/retrieval/search.py:20-23 | one keyword score per document whenever BM25 gives one per document |
| Fusion.HitKey | app/retrieval/search.py:53-54 | a vector hit's `(source, content)` join key, with `"unknown"` and `""` for a missing payload entry, as a definition; `Fusion.BuildNormMap` and `Fusion.VectorComponentIsLast` are stated in its terms |
| Fusion.DocKey | app/retrieval/search.py:78 | a corpus document's `(source, content)` join key, with `"unknown"` for a missing source, as a definition; `Fusion.FusedScore` reads the vector component at this key, so `Fusion.FusedScoreWithin` and `Fusion.ExampleFused` are stated in its terms |
| Fusion.RawScores | app/retrieval/search.py:52-57 | one raw vector score per hit |
| Fusion.VectorComponent | app/retrieval/search.py:59-79 | `vector_norm_map.get(key, 0.0)` after the map loop, as a definition; `Fusion.VectorComponentIsLast`, `Fusion.VectorComponentAbsent` and `Fusion.BuildNormMap` state its properties |
| Fusion.VectorComponentAbsent | app/retrieval/search.py:79 | a document whose (source, content) key matches no vector hit gets vector component 0.0 |
| Fusion.VectorComponentIsLast | app/retrieval/search.py:59-64 | a key carried by several hits takes the normalised score of the last such hit |
| Fusion.VectorComponentBounded | app/retrieval/search.py:79 | a vector component read from norms in [0, 1] lies in [0, 1] |
| Fusion.BuildNormMap | app/retrieval/search.py:59-64 | the map's keys are exactly the hits' keys, and a lookup with default 0.0 gives the vector component of each key |
| Fusion.FusedScore | app/retrieval/search.py:78-81 | `vector_weight * vector_component + keyword_weight * keyword_component` as a definition; `Fusion.FusedScoreWithin`, `Fusion.FusedScoreBounded` and `Fusion.ExampleFused` state its properties |
| Fusion.Survivors | app/retrieval/search.py:66-93 | the candidates number at most the documents scanned; `Fusion.SurvivorsProvenance` and `Fusion.SurvivorsComplete` state which they are |
| Fusion.Combine | app/retrieval/search.py:66-93 | the loop over documents returns exactly the filtered, positively scored candidates in corpus order |
| Fusion.HybridSearch | app/retrieval/search.py:36-96 | the whole procedure returns exactly the stable descending sort of the candidates, sliced to `top_k` |
| Fusion.SurvivorsProvenance | app/retrieval/search.py:66-93 | every candidate is some corpus document with its fused score, passes the filter, and scores above zero |
| Fusion.HybridHitsAreFilteredAndPositive | app/retrieval/search.py:36-96 | every returned hit is a corpus document with its fused score, passes the filter, and scores above zero |
| Fusion.HybridOrdered | app/retrieval/search.py:95-96 | the result is a prefix of a stable descending sort of the candidates, its scores never increase, and it is no longer than the corpus or a non-negative `top_k` |
| Fusion.SurvivorsComplete | app/retrieval/search.py:66-93 | every document that passes the filter with a positive fused score is a candidate, with that score |
| Fusion.HybridKeepsBest | app/retrieval/search.py:66-96 | a document passing the filter with a positive fused score is returned, unless the result already holds `top_k` hits (for `top_k >= 0`) that all score at least as high |
| Fusion.WeightedSumBounds | app/retrieval/search.py:81 | weights at least 0 and components in [0, 1] give a weighted sum between 0 and the sum of the weights |
| Fusion.VectorComponentInUnit | app/retrieval/search.py:59-79 | the vector component of any document lies in [0, 1] |
| Fusion.KeywordComponentInUnit | app/retrieval/search.py:47-80 | the keyword component of any document lies in [0, 1], also past the end of the score list |
| Fusion.FusedScoreWithin | app/retrieval/search.py:81 | with weights at least 0 and components in [0, 1], a fused score lies between 0 and the sum of the weights |
| Fusion.FusedScoreBounded | app/retrieval/search.py:78-81 | with weights at least 0, every document's fused score lies between 0 and the sum of the weights |
| Fusion.DefaultScoresInUnit | app/retrieval/search.py:42-96 | with the default weights 0.7 and 0.3, every returned score lies in (0, 1] |
| Fusion.HybridEmptyCorpus | app/retrieval/search.py:17-22 | an empty corpus gives no hits, whatever the vector hits |
| Fusion.ExampleNorms | app/retrieval/search.py:26-33 | BM25 scores [0, 5, 10] normalise to [0, 0.5, 1]; a single vector score normalises to 1 |
| Fusion.ExampleFused | app/retrieval/search.py:78-81 | in the worked case the fused scores are 0, 0.85 and 0.3 |
| Fusion.ExampleSurvivors | app/retrieval/search.py:83-93 | in the worked case the zero-score document is dropped and the other two are kept in corpus order |
| Fusion.HybridExample | app/retrieval/search.py:36-96 | in the worked case with `top_k = 2` the result is doc2 (0.85) then doc3 (0.3) |
| VectorStore.NewPoints | app/retrieval/qdrant_client.py:78-90 | one point per zipped (document, vector) pair, that is `min(len(docs), len(vectors))` points |
| VectorStore.UpsertCountMatchesAppended | app/retrieval/qdrant_client.py:78-91 | the returned `len(vectors)` equals the number of appended points exactly when there are no more vectors than documents |
| VectorStore.NonZeroOr | app/retrieval/qdrant_client.py:111 | `float(x) or 1.0` is never zero, so the cosine quotient never divides by zero; its other two clauses spell out the definition (`x` when non-zero, 1.0 otherwise) |
| VectorStore.Cosine | app/retrieval/qdrant_client.py:126-128 | the score `dot / ((norm(q) or 1.0) * (norm(v) or 1.0))`, defined for vectors of equal length; `VectorStore.CosineSymmetric`, `VectorStore.ZeroVectorScoresZero` and `VectorStore.SelfSimilarity` state its properties |
| VectorStore.Dot | app/retrieval/qdrant_client.py:128 | `np.dot` of two equal-length vectors as a definition; `VectorStore.DotSymmetric` and `VectorStore.DotZero` state its properties |
| VectorStore.DotSymmetric | app/retrieval/qdrant_client.py:128 | the dot product is symmetric |
| VectorStore.CosineSymmetric | app/retrieval/qdrant_client.py:126-128 | the cosine score is symmetric in query and stored vector |
| VectorStore.DotZero | app/retrieval/qdrant_client.py:128 | the dot product with a zero vector is 0 |
| VectorStore.ZeroVectorScoresZero | app/retrieval/qdrant_client.py:110-128 | a zero query or a zero stored vector scores 0 and does not divide by zero |
| VectorStore.SelfSimilarity | app/retrieval/qdrant_client.py:126-128 | a non-zero vector scores 1 against itself when `norm` is the Euclidean norm |
| VectorStore.Passing | app/retrieval/qdrant_client.py:114-124 | the points that pass the filter, never more than there are points; `VectorStore.PassingMembers` states which |
| VectorStore.PassingMembers | app/retrieval/qdrant_client.py:114-124 | a point is among the passing points exactly when it is a stored point that matches the filter |
| VectorStore.ScanPoints | app/retrieval/qdrant_client.py:114-129 | the scan as a function; `VectorStore.ScanPointsExact` and `VectorStore.NoneStaysNone` state its properties |
| VectorStore.ScanPointsExact | app/retrieval/qdrant_client.py:114-129 | the scan fails exactly when a point passing the filter has a vector of another length than the query; otherwise hit k is the k-th passing point, in stored order, with its cosine score and payload |
| VectorStore.NoneStaysNone | app/retrieval/qdrant_client.py:114-129 | once the scan has failed, scanning further points does not recover |
| VectorStore.ScanLocal | app/retrieval/qdrant_client.py:112-129 | the scan loop returns exactly the scan specification |
| VectorStore.LocalSearch | app/retrieval/qdrant_client.py:110-132 | the local search as a definition: scan, stable descending sort, slice to `top_k`; `VectorStore.LocalSearchRanked` states its properties |
| VectorStore.LocalSearchRanked | app/retrieval/qdrant_client.py:110-132 | a successful local search returns a prefix of a stable descending sort of the scored points; every hit passes the filter; there are no more hits than passing points or a non-negative `top_k` |
| VectorStore.VentureStore.constructor | app/retrieval/qdrant_client.py:23-49 | the store starts empty; it is on qdrant exactly when the import, the client construction and the collection check all succeed; the client is built by URL when one is given and by location otherwise; on the local backend there is no client |
| VectorStore.VentureStore.UpsertDocuments | app/retrieval/qdrant_client.py:63-91 | on the local backend the zipped points are appended after the old ones with fresh increasing ids, and `len(vectors)` is returned; on qdrant the local points are unchanged and the pair count is returned; the backend and client never change, and ids stay distinct |
| VectorStore.VentureStore.Search | app/retrieval/qdrant_client.py:93-132 | on qdrant the query is delegated to the client; on the local backend the outcome is exactly the local search over the stored points |

## Left out

- The remote qdrant calls: `_ensure_collection`, the client's `upsert` and `search`, and the `FieldCondition` filter translation (qdrant_client.py:51-61, 65-75 and 95-108) are calls into a library. The model records only whether construction succeeded (`RemoteAttempt`) and which client configuration was chosen.
- `self._models` (qdrant_client.py:40, 49): a handle to library types with no behaviour of its own.
- `VectorStore.VentureStore.Search`: on qdrant it returns only `Delegated`, because the hits come from the remote service.
- `VectorStore.VentureStore.UpsertDocuments`: on qdrant the model states only the returned count; the points sent to the service are not modelled.
- Point ids are `str(uuid4())` in the code. The model uses a counter, which gives distinct ids without randomness.
- `np.float32` storage and floating-point rounding: scores and vectors are exact reals.
- `np.linalg.norm` is a parameter `norm`, because a square root is not available on reals. `VectorStore.SelfSimilarity` assumes that `norm` squares to the dot product.
- `np.dot` raising `ValueError` on vectors of different lengths is the outcome `ShapeMismatch`.
- That cosine scores lie in [-1, 1] is not proved; it needs the Cauchy–Schwarz inequality over an abstract `norm`.
- BM25 (`rank_bm25.BM25Okapi`) and the lowercase whitespace tokenisation (search.py:17, 23) belong to an external library. The BM25 scores are an input sequence.
- A corpus document without a `"content"` key makes search.py:17 raise `KeyError`. The model's corpus documents always carry content.
- `id_to_vector_score` (search.py:49, 56) is written and never read, so it is not modelled.
- Vector hits: only the payload's `source` and `content` are modelled, each as an optional string. A hit with no payload has neither.
- Metadata values are scalars (`None`, bool, int, real, string). Nested lists and dicts are not modelled.
- Dictionaries are values. Python shares the metadata dict between a point's payload and the caller's document; that aliasing is not modelled.
- The upsert performs no length or dimension check, so none is modelled (see the note above the table).
- The composition of these parts in `app/services/pipeline.py`, including its over-fetch of vector hits, is not part of this model.

## Findings

| source | as written | input that shows it | evidently intended | confidence | as-written member | corrected member |
|---|---|---|---|---|---|---|
| app/retrieval/chunker.py:21 | the next start is `max(0, end - overlap)`, which is at most the current start when `overlap >= max_chunk_size` | `chunk_text("abc", 2, 2)`: the first window is [0, 2), the next start is `max(0, 2 - 2) = 0`, and the loop never ends | each step moves the start strictly forward, so the loop ends for every overlap | high (not executed) | Chunker.SourceLoopNeverAdvances | Chunker.NextStart |

`Chunker.SourceNextStart` is the step as written. `Chunker.NextStart`, the
corrected step, is `max(start + 1, end - overlap)`. It is the step
`Chunker.ChunkText` uses, so the method has no precondition on `overlap`.
For `0 <= overlap < max_chunk_size` it coincides with the written step, and
all results for that range describe the code as written.
