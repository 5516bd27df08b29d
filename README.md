# RAG backend core in Dafny

A Dafny model of the retrieval core of a retrieval-augmented generation backend. It has two parts.

- **The in-memory vector store** (`backend/src/lib/vector-store.ts`). This is a class over a list of stored documents. It supports append, count, clear, and a similarity search over a full linear scan. The search scores every stored document against a query vector, stable-sorts the scores in descending order, and keeps a prefix of the result.
- **The RAG service glue** (`backend/src/services/rag.service.ts`).
  - `ingestDocuments` zips documents with their embeddings, fills in default ids and metadata, appends to the store and reports counts.
  - `answerQuery` makes one store lookup. It then builds numbered context blocks, asks the chat provider for an answer, and returns a source list whose indices match the citation numbers.

Modules:

- `Common` (common.dfy): `Option` for optional TypeScript properties and the `??` operator, and `Result` for awaited calls that can throw.
- `Ranking` (ranking.dfy): the order a stable sort by descending score produces. Equal scores keep storage order. This module has:
  - a reference insertion ranking `Rank`;
  - a proof that the ranking is a strictly ordered permutation of the positions;
  - a proof that any two lists meeting that ranking contract are equal (`RankingUnique`).
- `VectorStore` (vector_store.dfy): the `InMemoryVectorStore` class and the reference search function `Search`.
  - `SimilaritySearch` scores the documents and hands the scores to `SortPositions`, which runs a stable insertion sort on a local array of positions. The comparator looks at the score only, as the source's `(a, b) => b.score - a.score` does.
  - The method is proved equal to `Search`.
  - The lemmas state sortedness, stable ties, selection of distinct stored documents, and the top-K property.
- `Text` (text.dfy): how integers appear inside template strings (decimal), reading a decimal back, and `Array.prototype.join`.
- `RagService` (rag_service.dfy): `IngestDocuments` and `AnswerQuery`, and the pure steps they are built from.

External collaborators are parameters:

- `cosineSimilarity` is a total function `score: (Vector, Vector) -> real`.
- `embedMany` is a function from a list of texts to a `Result` holding the list of vectors.
- `generateText` is a function from the system prompt and the user prompt to a `Result` holding the text.
- `uuid()` is a function `nat -> string`: `uuid(c)` is the value the call numbered `c` returns during one ingestion.

The module-level singleton store is passed to the service methods as an explicit `InMemoryVectorStore`.

In these cases the model follows what the code does:

- A negative `topK` is not an empty result. `slice(0, Math.min(topK, n))` with a negative end drops that many results from the tail (`SliceEnd`).
- Ids are not made unique. A caller-supplied id is kept even if it is already stored.
- No dimension check is made before similarity.
- The source tag is `metadata.source`, falling back to the id.

## Model

| member | source | states |
|---|---|---|
| `VectorStore.InMemoryVectorStore.constructor` | backend/src/lib/vector-store.ts:18 | a new store holds no documents |
| `VectorStore.InMemoryVectorStore.Count` | backend/src/lib/vector-store.ts:24-26 | the count is the number of stored documents |
| `VectorStore.InMemoryVectorStore.AddDocuments` | backend/src/lib/vector-store.ts:20-22 | the new documents follow the old ones in call order, with no deduplication; the count grows by exactly the number added |
| `VectorStore.InMemoryVectorStore.Clear` | backend/src/lib/vector-store.ts:28-30 | afterwards the store is empty and the count is 0 |
| `VectorStore.InMemoryVectorStore.SimilaritySearch` | backend/src/lib/vector-store.ts:32-39 | the in-place stable sort of a local array returns exactly the reference search result; for topK >= 0 its length is min(topK, count); no modifies clause, so the stored documents are only read |
| `VectorStore.Scores` | backend/src/lib/vector-store.ts:33-36 | one score per stored document, in storage order: the similarity of the query to that document's embedding |
| `VectorStore.SortPositions` | backend/src/lib/vector-store.ts:37 | sorting the positions 0 .. n-1 in place by score alone yields exactly the reference ranking Rank, so equal scores keep storage order |
| `VectorStore.InsertLast` | backend/src/lib/vector-store.ts:37 | one insertion pass keeps the sorted prefix in stable descending order and the array a permutation |
| `VectorStore.SliceEnd` | backend/src/lib/vector-store.ts:38 | the number of results kept is at most the store size: min(topK, n) for topK >= 0, and n + topK floored at 0 for negative topK |
| `VectorStore.Search` | backend/src/lib/vector-store.ts:33-38 | the reference search returns SliceEnd(n, topK) results |
| `VectorStore.SearchPositions` | backend/src/lib/vector-store.ts:37-38 | the storage positions of the results number SliceEnd(n, topK) |
| `VectorStore.SearchIsSelection` | backend/src/lib/vector-store.ts:33-38 | every result pairs a stored document with its similarity to the query, and no storage position appears twice |
| `VectorStore.SearchOrdered` | backend/src/lib/vector-store.ts:37 | scores do not increase along the results, and equal scores keep storage order |
| `VectorStore.SearchSelectsTop` | backend/src/lib/vector-store.ts:37-38 | a document left out scores no higher than any returned one, and on a tie it was stored later |
| `VectorStore.SearchReturnsAll` | backend/src/lib/vector-store.ts:38 | when topK is at least the store size, every stored document is returned |
| `VectorStore.TopOneOfTwo` | backend/src/lib/vector-store.ts:32-39 | with scores 1 and 0 and topK 1, the result is the first document alone with score 1 |
| `Ranking.Insert` | backend/src/lib/vector-store.ts:37 | inserting a position adds exactly that position to the list |
| `Ranking.RankPrefix` | backend/src/lib/vector-store.ts:37 | the reference ranking of the first n positions lists exactly those positions |
| `Ranking.Rank` | backend/src/lib/vector-store.ts:37 | the reference ranking has one entry per scored document |
| `Ranking.InsertRanked` | backend/src/lib/vector-store.ts:37 | inserting a new position keeps a list in stable descending order |
| `Ranking.RankPrefixRanked` | backend/src/lib/vector-store.ts:37 | the reference ranking is in stable descending order |
| `Ranking.RankRanked` | backend/src/lib/vector-store.ts:37 | the full ranking is ordered and lists every position exactly once |
| `Ranking.RankingUnique` | backend/src/lib/vector-store.ts:37 | two lists over the same positions, both in stable descending order, are equal, so the ranking contract fixes the output |
| `Text.NatToString` | backend/src/services/rag.service.ts:51 | the citation number is rendered as a non-empty digit string with no leading zero |
| `Text.IntToString` | backend/src/services/rag.service.ts:50-51 | an integer metadata value is rendered in decimal, with a leading minus sign exactly when it is negative, and the digits read back as its magnitude |
| `Text.ParseNatToString` | backend/src/services/rag.service.ts:51 | reading back the decimal text of n gives n |
| `Text.LeadingDigits` | backend/src/services/rag.service.ts:51 | the result is the longest all-digit prefix |
| `Text.LeadingDigitsStop` | backend/src/services/rag.service.ts:51 | a digit string followed by a non-digit is read back as exactly that digit string |
| `Text.Join` | backend/src/services/rag.service.ts:64 | joining no parts gives the empty string; the joined length is the offset of the last part plus its length |
| `Text.JoinPartAt` | backend/src/services/rag.service.ts:64 | every part appears unchanged in the joined string, at the offset after the earlier parts and their separators |
| `Text.JoinSepAt` | backend/src/services/rag.service.ts:64 | exactly one separator stands between part i and part i+1, and part i+1 starts right after it |
| `RagService.Texts` | backend/src/services/rag.service.ts:14 | the values sent for embedding are the documents' texts, one per document, in order |
| `RagService.MissingIdsBefore` | backend/src/services/rag.service.ts:23 | the uuid calls made before document i, plus its own if it has no id, never exceed the calls of the whole batch |
| `RagService.IdFor` | backend/src/services/rag.service.ts:23 | a supplied id is kept; a missing one takes the value of the uuid call numbered by the id-less documents before it, a call that is made during the batch |
| `RagService.ToStored` | backend/src/services/rag.service.ts:22-27 | one stored document per input, in order: the text is copied, the embedding is the i-th vector, metadata defaults to an empty record, and a supplied id is kept |
| `RagService.FreshIdsInOrder` | backend/src/services/rag.service.ts:23 | documents without an id receive uuid values 0, 1, 2, ..., one per document, in document order |
| `RagService.IdsOf` | backend/src/services/rag.service.ts:34 | the reported ids are the stored documents' ids, one each, in order |
| `RagService.IngestDocuments` | backend/src/services/rag.service.ts:12-36 | on provider failure the error propagates and the store is unchanged. Otherwise: the prepared documents are appended after the old ones; ingested is the input length; totalDocuments is the old count plus that length; ids are the stored ids in input order |
| `RagService.Render` | backend/src/services/rag.service.ts:51 | a non-null metadata source is interpolated as itself for a string, `true` or `false` for a boolean, and its decimal text for an integer |
| `RagService.SourceTag` | backend/src/services/rag.service.ts:50 | the tag is the rendered `metadata.source` when metadata is present and its source is neither absent nor null; otherwise it is the document id |
| `RagService.BlockHeader` | backend/src/services/rag.service.ts:51 | the header ends with ` (source: `, the source tag and `)` |
| `RagService.HeaderCited` | backend/src/services/rag.service.ts:51 | the header of block n reads back as citation n |
| `RagService.CitationKept` | backend/src/services/rag.service.ts:51 | text after a complete `[n]` tag does not change the citation number read from it |
| `RagService.ContextBlock` | backend/src/services/rag.service.ts:51 | block n is its header, a newline, and the document text |
| `RagService.BlockCitation` | backend/src/services/rag.service.ts:51 | block n reads back as citation n, whatever the tag and the text |
| `RagService.UserPrompt` | backend/src/services/rag.service.ts:61-66 | the prompt opens with the question and the context heading and ends with the citation instruction; with no blocks the context section between them is empty |
| `RagService.PromptContainsBlocks` | backend/src/services/rag.service.ts:61-66 | every context block appears unchanged in the user prompt, at its offset after the question, the context heading and the earlier blocks |
| `RagService.PromptSeparatesBlocks` | backend/src/services/rag.service.ts:64 | in the user prompt the two characters right after block i are `"\n\n"`, and block i+1 starts after them |
| `RagService.Respond` | backend/src/services/rag.service.ts:54-83 | the generator is asked with the fixed system prompt and the user prompt built from the results. Its failure propagates; its success gives an answer with its text and the source list of the results |
| `RagService.ContextBlocks` | backend/src/services/rag.service.ts:49-52 | exactly one context block per search result; block i is block number i+1 built from result i |
| `RagService.BlockCited` | backend/src/services/rag.service.ts:49-52 | block i of the context reads back as citation i+1 |
| `RagService.Sources` | backend/src/services/rag.service.ts:77-82 | exactly one source entry per search result |
| `RagService.CitationsMatchSources` | backend/src/services/rag.service.ts:49-82 | Block i is context block i+1 built from result i (its header, then its text) and reads back as citation i+1. Source entry i has index i+1 and the result's id, score and metadata (defaulting to an empty record) |
| `RagService.NoResultsStillGenerates` | backend/src/services/rag.service.ts:61-73 | with no results the generator is still called, with an empty context section, and a successful answer has an empty source list |
| `RagService.AnswerQuery` | backend/src/services/rag.service.ts:38-84 | Embeds the question alone; an embedding failure propagates. Otherwise it answers from the search with the caller's topK and the first returned vector. The source list is as long as the search result. No modifies clause, so the store is only read |

## Left out

- `cosineSimilarity` (backend/src/lib/cosine.ts) is a parameter. Floating-point arithmetic, `Math.sqrt` and the zero-denominator case are not modelled. `dot` loops over the query's length only: a query shorter than a stored embedding is silently truncated to a finite score, which an arbitrary `score` covers; a longer query gives NaN, which would make the sort comparator inconsistent and is not modelled, since scores are real numbers here.
- The embedding and chat providers, and the choice of model names (`getEmbeddingModel`, `getChatModel` in backend/src/lib/ai.ts), are parameters. Network failures appear only as a `Failure` result.
- `uuid()` is an id supplier indexed by call number. Nothing is claimed about global uniqueness.
- Concurrency: the shared singleton store is used by one caller at a time; interleaving of concurrent requests is not modelled.
- Chunking, batch embedding, pacing between batches and the oversized-chunk guard are not modelled. No code for them exists in these files, and the `ingestFromFile` that the controller calls is not defined in backend/src/services/rag.service.ts.
- HTTP routing, zod validation, environment configuration and error middleware are not modelled. The controller's bounds on `topK` (an integer from 1 to 50, default 5) are not needed: every integer `topK` is modelled, negative ones included. Non-integer `topK` values are not.
- Metadata values are limited to null, booleans, integers and strings. Nested objects, arrays and non-integer numbers (and how template strings render them) are not modelled.
- The system prompt is a constant holding the trimmed text. The trimming itself is not modelled.
- Results are Dafny sequences, not fresh JavaScript arrays; aliasing of the returned document objects with the stored ones is not modelled.
- Text.IntToString: renders every integer in plain decimal. JavaScript switches to exponent form (such as `1e+21`) from magnitude 10^21 on, and integers beyond 2^53 are not exact JavaScript numbers; a numeric `metadata.source` that large is not modelled.
- RagService.IngestDocuments: requires the provider to return at least one vector per document. The source would otherwise store `undefined` as an embedding.
- RagService.AnswerQuery: requires the provider to return at least one vector. The source would otherwise fail with a type error, and only when the store is not empty.
