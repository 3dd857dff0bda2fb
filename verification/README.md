# rag-api core in Dafny

A model of the retrieval-augmented question answering pipeline of rag-api,
with proofs about it:

- **Answer assembly** (`buildAnswer`), module `Answer` in `answer.dfy`. It keeps
  the ranked chunks whose score reaches the inclusive similarity threshold
  (0.4). It then builds either a labelled context for the language model with
  its citation list, or one of two distinct "not grounded" messages.
- **Retrieval** (`class Retrieval`), module `Retrieval` in `retrieval.dfy`. It
  scores every stored chunk against the query embedding and sorts the scored
  list by descending score with a stable sort, then keeps the first `topK`
  entries (5). `search` copies the scores into a fresh array. The array is
  sorted in place by an insertion sort (module `StableSort`, `stable_sort.dfy`),
  which is proved equal to a functional stable sort.
- **Orchestration** (`RAGFacade.ask`), module `RagFacade` in `rag_facade.dfy`.
  It embeds the question, retrieves, assembles, and calls the language model.
  The result is 200, 422 or 500. The embedder and the model are parameters
  that either answer or fail. The result also records the calls made, so the
  proofs can state which collaborators are and are not invoked.
- **Word-window chunking** (`chunkText` in the index builder), module
  `BuildIndex` in `build_index.dfy`. It splits the text on runs of whitespace
  exactly as `split(/\s+/)` does, with the full JavaScript `\s` character set.
  The split is tied to its input: joined by single spaces, its words are the
  text with each whitespace run collapsed to one space.
  It then emits every `size` consecutive words joined by single spaces. The
  method runs the same loop (`i += size`) and is proved equal to a recursive
  definition.

Supporting modules:

- `Config` (`config.dfy`) holds the threshold and `topK`.
- `Types` (`types.dfy`) holds `Chunk`, `Retrieved`, `Result` and `Min`.
- `Text` (`text.dfy`) holds `Array.prototype.join`, with lemmas on where each
  part lands, and the decimal rendering of a natural number.

Every model operation except the in-place sort works on values, so answer
assembly cannot modify its input.

## Model

| member | source | states |
|---|---|---|
| Answer.BuildAnswer | src/core/rag/Answer.ts:18-58 | Empty input gives "No chunks found.". The result is grounded exactly when some input reaches the threshold. Otherwise a non-empty input gets the "not available" message, and the two messages are told apart by whether the input was empty. On success there is one citation per survivor, and at least one. |
| Answer.Relevant | src/core/rag/Answer.ts:25-27 | The survivors are exactly the inputs whose score is at least the threshold, in both directions, and there are no more of them than inputs. |
| Answer.RelevantPositions | src/core/rag/Answer.ts:25-27 | One strictly increasing, in-range position per survivor, each of a relevant input. |
| Answer.RelevantPositionsExact | src/core/rag/Answer.ts:25-27 | An input's position is listed exactly when that input is relevant. |
| Answer.RelevantKeepsOrder | src/core/rag/Answer.ts:25-27 | The filter never reorders: survivor k is the input at the k-th relevant position. |
| Answer.GroundedCitations | src/core/rag/Answer.ts:47-50 | On success there are as many citations as relevant positions. Citation k is the source and chunk index of the k-th relevant input. |
| Answer.GroundedParts | src/core/rag/Answer.ts:40-50 | On success the content is the blank-line join of the survivors' blocks, and the citations are the survivors' citations. |
| Answer.GroundedContentLayout | src/core/rag/Answer.ts:40-44 | On success the content is exactly as long as the blocks plus one blank line between each pair of neighbours. Block k of the content sits at its offset. It holds the 1-based label k + 1, the formatted score of survivor k and that survivor's text, and a blank line follows it unless it is the last block. Survivor k is the input at the k-th relevant position. |
| Answer.BlocksLayout | src/core/rag/Answer.ts:40-44 | The joined blocks are as long as the blocks plus the separators. Block k (labelled k + 1) starts at its offset and is followed by the "\n\n" separator unless it is last. |
| Answer.ThresholdIsInclusive | src/core/rag/Answer.ts:25-27 | A single chunk scoring exactly the threshold is kept, with one block labelled 1 and its citation. |
| Answer.BelowThresholdIsNotGrounded | src/core/rag/Answer.ts:29-36 | A single chunk below the threshold gives the "not available" message. |
| Text.JoinLayout | src/core/rag/Answer.ts:44 | `join` gives the total length of the parts plus one separator between each pair of neighbours. Part k sits at its offset, and a separator follows every part but the last. |
| Text.JoinLength | src/core/rag/Answer.ts:44 | The joined length is the sum of the part lengths plus one separator per gap. |
| Text.NatToString | src/core/rag/Answer.ts:42 | The rendered label index is a non-empty run of decimal digits with no leading zero. |
| Text.NatToStringRoundTrip | src/core/rag/Answer.ts:42 | Reading the rendered digits back gives the number. |
| StableSort.Insert | src/core/rag/Retrieval.ts:20 | One insertion step of the sort adds exactly one element. |
| StableSort.InsertPermutes | src/core/rag/Retrieval.ts:20 | An insertion step adds the element and loses nothing (multiset). |
| StableSort.InsertKeepsOrder | src/core/rag/Retrieval.ts:20 | Inserting into a non-increasing list keeps it non-increasing. |
| StableSort.InsertIsStable | src/core/rag/Retrieval.ts:20 | Among entries of any one score, the inserted one goes after those already there. |
| StableSort.InsertAt | src/core/rag/Retrieval.ts:20 | The insertion point is after the last entry scoring at least the new one. |
| StableSort.SortByScore | src/core/rag/Retrieval.ts:20 | The sort keeps the length. |
| StableSort.SortByScorePermutes | src/core/rag/Retrieval.ts:20 | The sorted list is a permutation of its input. |
| StableSort.SortByScoreIsSorted | src/core/rag/Retrieval.ts:20 | The sorted list is non-increasing in score (comparator `b.score - a.score`). |
| StableSort.SortByScoreIsStable | src/core/rag/Retrieval.ts:20 | For every score value, the entries with that score keep their input order. |
| StableSort.SortedInputUnchanged | src/core/rag/Retrieval.ts:20 | A list that is already non-increasing comes out unchanged. |
| StableSort.InsertInPlace | src/core/rag/Retrieval.ts:20 | Shifting a[i] left into the sorted prefix a[..i] leaves the prefix equal to the functional insertion, and the rest of the array untouched. |
| StableSort.SortInPlace | src/core/rag/Retrieval.ts:20 | The in-place sort leaves the array equal to the stable functional sort of its old contents. |
| Retrieval.RankedSpec | src/core/rag/Retrieval.ts:14-22 | The search result holds min(topK, number of chunks) entries in non-increasing score order. It is a sub-multiset of the scored list, and every entry is a stored chunk paired with its own score. |
| Retrieval.RankedIsTopK | src/core/rag/Retrieval.ts:20-21 | The result and the dropped entries partition the scored list, and no dropped entry scores above any returned one. |
| Retrieval.SortedSplit | src/core/rag/Retrieval.ts:21 | Cutting a sorted list partitions it, and nothing behind the cut outscores anything before it. |
| Retrieval.RankedIsStable | src/core/rag/Retrieval.ts:20 | For every score value, the returned entries with that score are the first ones with that score in corpus order. |
| Retrieval.RankedOfSortedCorpus | src/core/rag/Retrieval.ts:20-21 | A corpus already in ranked order comes back as its first topK entries. |
| Retrieval.Retrieval.constructor | src/core/rag/Retrieval.ts:9 | The instance holds the given chunk list. |
| Retrieval.Retrieval.GetChunks | src/core/rag/Retrieval.ts:24-26 | Returns the stored chunk list itself. |
| Retrieval.Retrieval.Search | src/core/rag/Retrieval.ts:14-22 | Scores into a fresh array, sorts it in place and returns its prefix. The result equals the ranked specification: min(topK, number of chunks) entries, non-increasing, each a stored chunk with its own score, and empty for an empty corpus. The corpus is outside the method's frame. |
| Retrieval.SearchKeepsCorpus | src/core/rag/Retrieval.ts:9-26 | `getChunks` returns the same list before and after a search. |
| RagFacade.Ask | src/core/rag/RAGFacade.ts:28-64 | The status is 200, 422 or 500. The embedder is called first with the question. Retrieval is reached only after a successful embedding, and is called with that embedding and the configured topK. A 500 always carries the generic message. A 200 exactly when the body is an answer, and only after three calls. The embedder failing is exactly the case where it is the only call. |
| RagFacade.EmbedFailure | src/core/rag/RAGFacade.ts:31-63 | A failed embedding gives the generic 500, with no search and no model call. |
| RagFacade.NotGroundedOutcome | src/core/rag/RAGFacade.ts:38-43 | When assembly is not grounded, the response is 422 with assembly's own message and the model is never called. |
| RagFacade.GroundedOutcome | src/core/rag/RAGFacade.ts:46-63 | When assembly succeeds, the model is called with the original question and exactly the assembled content. Its failure gives the generic 500 with no answer or citations. Its success gives 200 with its text and assembly's citations unchanged. |
| RagFacade.SuccessIsGrounded | src/core/rag/RAGFacade.ts:46-54 | A 200 follows a model call on the assembled context, and every returned citation names a retrieved chunk that met the threshold. |
| RagFacade.NothingRelevantIsNotGrounded | src/core/rag/RAGFacade.ts:34-43 | A non-empty corpus with no chunk reaching the threshold always gives 422 "not available". |
| RagFacade.SingleRelevantChunk | src/core/rag/RAGFacade.ts:28-54 | A one-chunk corpus whose chunk reaches the threshold gives 200 with exactly that chunk's citation when the model answers that one assembled context. |
| BuildIndex.WordEnd | scripts/build-index.ts:25 | The leading word run is free of whitespace and ends at whitespace or at the end of the text. |
| BuildIndex.SpaceEnd | scripts/build-index.ts:25 | The leading whitespace run is maximal. |
| BuildIndex.Words | scripts/build-index.ts:25 | The split always yields at least one, possibly empty, word. |
| BuildIndex.WordsWellFormed | scripts/build-index.ts:25 | No word holds whitespace, only the first and the last word can be empty, and the first is non-empty when the text starts with a non-space. |
| BuildIndex.WordsJoinToCollapse | scripts/build-index.ts:25 | The split's words joined by single spaces are the text with each maximal whitespace run replaced by one space, as an independent character-by-character rewrite computes. No non-whitespace character is lost, added or moved. |
| BuildIndex.SplitIsUnique | scripts/build-index.ts:25 | The split's result is the only well-formed word list whose single-space join is the collapsed text. |
| BuildIndex.WordsOfJoin | scripts/build-index.ts:25-28 | Splitting well-formed words joined by single spaces gives the words back. |
| BuildIndex.WordsCons | scripts/build-index.ts:25 | Splitting a word, a space and a rest that does not start with a space gives that word followed by the words of the rest. |
| BuildIndex.WordsOfWord | scripts/build-index.ts:25 | A string without whitespace splits into itself. |
| BuildIndex.WindowsConcat | scripts/build-index.ts:27-30 | The word windows laid end to end give back the words: none is lost, duplicated or reordered. |
| BuildIndex.WindowCount | scripts/build-index.ts:27-30 | There are ceil(number of words / size) windows. |
| BuildIndex.WindowAt | scripts/build-index.ts:27-28 | Window k starts inside the words, at its offset, and runs to the next offset or the end of the words. |
| BuildIndex.WindowSizes | scripts/build-index.ts:27-29 | Every window but the last holds exactly `size` words, and the last holds 1 to `size`. |
| BuildIndex.OffsetIsProduct | scripts/build-index.ts:27 | The window-offset recurrence (each window starts `size` words after the previous one) has the closed form k * size. |
| BuildIndex.ChunksFromAreJoinedWindows | scripts/build-index.ts:27-30 | The chunks from word i on are, one to one, the windows of the words from i on, joined by single spaces. |
| BuildIndex.ChunkTextsAreJoinedWindows | scripts/build-index.ts:27-30 | Chunk k is window k joined by single spaces, with one chunk per window. |
| BuildIndex.ChunkAt | scripts/build-index.ts:27-30 | There are ceil(number of words / size) chunks. Chunk k joins words k * size up to (k + 1) * size, cut at the end of the words. |
| BuildIndex.ChunkText | scripts/build-index.ts:24-32 | The loop that steps `i` by `size` and pushes each joined slice returns exactly the chunk texts of the split words. |
| BuildIndex.IndexBuilderChunks | scripts/build-index.ts:16-52 | With the builder's chunk size of 300, a document gives ceil(number of words / 300) chunks, and always at least one. |
| BuildIndex.AtLeastOneChunk | scripts/build-index.ts:25-30 | Every text gives at least one chunk, and the empty text gives the single empty chunk. |
| BuildIndex.ChunksRoundTrip | scripts/build-index.ts:24-32 | Splitting chunk k again gives back window k exactly, so the chunks' words read in order are the words of the text. |

## Left out

- The cosine similarity (src/utils/cosine.ts) is the `score` parameter of
  retrieval and `ask`. The model says nothing about its value, and all the
  results hold for any scoring function.
- `toFixed(3)` on the score is the `fmt` parameter. The block label uses
  whatever it returns.
- Scores are mathematical reals. Floating-point rounding, NaN and infinities
  are not modelled, and neither are their effects on the comparator
  `b.score - a.score`.
- Retrieval.Retrieval.Search: `topK` is a natural number. JavaScript's
  `slice(0, topK)` counts from the end for a negative `topK`, and the model does
  not capture that. The configuration only ever passes 5.
- Retrieval.Retrieval.Search: the fresh array is built from the corpus in one
  step and then sorted in place. Aliasing of the stored chunk objects is not
  modelled; chunks are values.
- RagFacade.Ask: it takes the chunk list held by the `Retrieval` instance,
  not the instance itself, and runs the same specification that `Search` is
  proved to compute.
- RagFacade.Ask: only the embedder and the language model can fail. `search`
  and `buildAnswer` cannot throw in the source, so the catch block is reached
  only from those two calls.
- The embedder, the OpenAI chat and client adapters, the index store, the
  Express server and its trim check are not part of this model. They are
  network, file I/O and transport code, and are represented only by the
  succeed-or-fail parameters of `Ask`.
- `async`/`await` sequencing and the `console.error` logging in the catch
  block are not modelled.
- BuildIndex.ChunkText: requires `size > 0`. For any other size the loop in
  the source never ends, because `i += size` does not advance. The index
  builder passes `ChunkSize`, 300.
- BuildIndex.ChunkText: its own contract ties the result to the chunk texts.
  The chunk count, the window contents and the round trip are stated in
  ChunkAt, AtLeastOneChunk and ChunksRoundTrip.
- `readPdfText`, `embed` and `main` in scripts/build-index.ts are not part of
  this model: PDF parsing, OpenAI calls and writing the index file are I/O.
