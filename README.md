# Repository embeddings and model routing, modelled in Dafny

The backend keeps a vector index of a repository's source files so that a
prompt can be answered with relevant code. It splits a file's content into
fixed-size chunks. Each chunk is hashed and embedded, and the index receives
only the chunks that are not already stored for the same file, content,
commit and repository tag. Every ingestion and deletion is written to an
audit log. Chunks can be deleted for a whole commit or for a list of changed
files, and the chunks nearest to a query can be retrieved. A separate
rule-based router takes a task prompt and an optional target location. It
estimates token counts, infers a location from the prompt when none is
given, classifies the task and suggests one or more language models with
their profiles.

The model has these modules:

- `Wrappers` holds `Option` and `Result`.
- `Services` holds the embedding provider, the vector type and the failure
  kinds of the external services.
- `Chunker` holds `ChunkText` and its specification `Chunks`.
- `Index` holds the stored records, the metadata filters and the
  `VectorIndex` class. The class keeps its records in a field that `Query`,
  `Upsert` and `DeleteMany` read and replace.
- `Audit` holds the `AuditLog` class and its entries.
- `Ingestion` holds `EmbedAndStoreFileChunks`, the id source and the
  specification functions for the records an ingestion adds.
- `Deletion` holds `DeleteChunksByCommit`, `DeleteChunksByFileList` and the
  specification of the ids each one collects.
- `Retrieval` holds `GetRelevantChunks`.
- `LlmRouter` holds the model profiles, the task classification and
  `RecommendModels`.

Every remote service (the vector index, the audit log store and the
embedding provider) has an `up` flag. When a service is down, a call to it
fails. The hash function and the embedding are function parameters, so they
are deterministic by construction. Fresh record ids come from a counter
(`IdSource`) instead of random UUIDs. The index answers a query with the
matching records in stored order, and the query vector plays no part.

Two behaviours of the code are kept as written. A
deletion whose audit log write fails reports zero deletions and an error,
although the records were already removed. Listing the same file twice in a
file-list deletion collects its ids twice, and the reported count includes
both copies.

## Model

| member | source | states |
|---|---|---|
| Chunker.Chunks | backend/embeddingService.js:15-21 | The chunk list is empty exactly when the text is empty, and there are never more chunks than characters. |
| Chunker.ChunkText | backend/embeddingService.js:15-21 | The chunks are the `Chunks` specification of the text, and joined together they give back the text. |
| Chunker.ChunksReassemble | backend/embeddingService.js:15-21 | Concatenating the chunks of any text gives back that text. |
| Chunker.ChunkCount | backend/embeddingService.js:15-21 | The number of chunks is the ceiling of the length over the chunk size; it is zero exactly when the text is empty. |
| Chunker.ChunkBounds | backend/embeddingService.js:17 | `n` chunks cover the text, while `n - 1` full-size chunks would not. |
| Chunker.ChunkLengths | backend/embeddingService.js:18 | Every chunk but the last has exactly the chunk size; the last is non-empty and at most the chunk size. |
| Chunker.ChunkAt | backend/embeddingService.js:17-18 | Chunk `k` is the slice from `k * size` to `min(k * size + size, length)`. |
| Index.Matching | backend/embeddingService.js:37-42 | A filter keeps exactly the stored records whose metadata agrees on every field the filter sets. |
| Index.MatchingAppend | backend/embeddingService.js:37-42 | Filtering distributes over concatenation of stored records. |
| Index.MatchingNoFilter | backend/embeddingService.js:175-179 | A query without a filter sees every stored record. |
| Index.MatchingEmpty | backend/embeddingService.js:37-46 | A filter matches nothing exactly when no stored record agrees with it. |
| Index.ProbeIsComplete | backend/embeddingService.js:37-42 | When at most `topK` records match, a probe returns all of them. |
| Index.Probe | backend/embeddingService.js:37-42 | A query with page size `topK` returns the first `min(topK, matches)` matching records, each stored and matching; when at most `topK` match, it returns all of them. |
| Index.IdsOf | backend/embeddingService.js:105 | The ids of the matches, position by position, and their set is the set of the matches' ids. |
| Index.RemoveIds | backend/embeddingService.js:107 | Deleting ids keeps exactly the records whose id is not listed. |
| Index.RemoveNoIds | backend/embeddingService.js:106-108 | Deleting no ids changes nothing. |
| Index.RemoveIdsKeepsIds | backend/embeddingService.js:106-108 | Deleting records keeps the remaining ids distinct and below every bound the old ids were below. |
| Index.VectorIndex.Query | backend/embeddingService.js:37-42 | When the index is up, a query returns at most `topK` matching records, in stored order; otherwise it fails. |
| Index.VectorIndex.Upsert | backend/embeddingService.js:74-76 | Fresh records are appended to the index; nothing changes when the index is down. |
| Index.VectorIndex.DeleteMany | backend/embeddingService.js:106-108 | The listed ids are removed; nothing changes when the index is down. |
| Audit.AuditLog.Append | backend/embeddingService.js:78-85 | The entry is appended and its position is returned as the log id; nothing changes when the log store is down. |
| Ingestion.IdSource.Reserve | backend/embeddingService.js:59 | Hands out the next `n` counter values and moves the counter past them, so later ids never repeat them. |
| Ingestion.ScopeFilter | backend/embeddingService.js:41 | The existence probe matches a record exactly when its tag, commit, file hash and content hash equal the call's; the file path itself is not compared. |
| Ingestion.RecordFor | backend/embeddingService.js:58-70 | A stored record carries the chunk, the chunk's hash, the chunk's vector, the file path, and matches the existence probe of its own call. |
| Ingestion.ExistingHashes | backend/embeddingService.js:44-46 | Every reported hash is the hash of a stored record in the scope; when the scope fits in one 1000-record page, the reported set is exactly the hashes of the scope's records. |
| Ingestion.NewRecords | backend/embeddingService.js:53-72 | Each new record belongs to a chunk whose hash is not already stored and carries that chunk's embedding and metadata; the ids rise with the chunk position. |
| Ingestion.PlannedRecords | backend/embeddingService.js:33-72 | An ingestion plans at most one record per chunk of the content. |
| Ingestion.EmbedAndStoreFileChunks | backend/embeddingService.js:27-94 | Index, provider and log failures each abort at their own step. On success the new records are appended, one audit entry is logged, and the report's counts add up to the number of chunks. |
| Ingestion.ProbeExisting | backend/embeddingService.js:37-46 | When the index is up, the probe returns the scope's stored chunk hashes; otherwise it fails with the index failure. |
| Ingestion.StoreAndLog | backend/embeddingService.js:53-93 | Keeps the index consistent with the id source, appends the new records, and logs and reports the embedded and skipped counts; a log failure propagates after the records were stored. |
| Ingestion.StoreNew | backend/embeddingService.js:53-76 | Reserves one id per chunk, appends the records of the chunks not found by the probe, and keeps stored ids distinct and below the id counter. |
| Ingestion.AppendFresh | backend/embeddingService.js:59 | Records with ids from a newly reserved range keep all stored ids distinct. |
| Ingestion.NewRecordsAreUnseenChunks | backend/embeddingService.js:53-72 | The texts of the new records are exactly the chunks whose hash was not stored, in chunk order. |
| Ingestion.TextsOfAppend | backend/embeddingService.js:181 | The texts of two record lists concatenated are the texts of each, concatenated. |
| Ingestion.CountsAccount | backend/embeddingService.js:83-84 | Embedded plus skipped equals the number of chunks. |
| Ingestion.UnseenChunkRecorded | backend/embeddingService.js:55-56 | Every chunk whose hash was not stored has a new record with that hash. |
| Ingestion.NothingNewWhenAllStored | backend/embeddingService.js:56 | When every chunk hash is already stored, nothing is added. |
| Ingestion.EveryChunkNewWhenNoneStored | backend/embeddingService.js:53-72 | When no chunk hash is stored, every chunk gets a record, in order. |
| Ingestion.UnseenAll | backend/embeddingService.js:56 | With no stored hash, the chunks left to store are all the chunks. |
| Ingestion.IdenticalChunksBothStored | backend/embeddingService.js:44-72 | Two identical unseen chunks in one file are both stored, under different ids, because only previously stored hashes are skipped. |
| Ingestion.MatchingAll | backend/embeddingService.js:41 | A filter that every record satisfies keeps them all. |
| Ingestion.PlannedInScope | backend/embeddingService.js:37-69 | Every planned record carries the file path and matches the duplicate-check filter of its own ingestion. |
| Ingestion.ReingestStoresNothing | backend/embeddingService.js:37-72 | Ingesting the same file content again adds nothing, provided the scope's stored records plus the records the first call adds fit in one 1000-record probe page. |
| Ingestion.FreshScopeStoresEveryChunk | backend/embeddingService.js:37-72 | When nothing is stored for the scope, every chunk of the content is stored, in order. |
| Ingestion.ReingestIsIdempotent | backend/embeddingService.js:27-94 | After a successful ingestion, a second ingestion of the same file succeeds with zero embedded and every chunk skipped, provided the scope's stored records plus the records the first call adds fit in one probe page. |
| Deletion.CommitDeletionIds | backend/embeddingService.js:98-105 | A commit probe collects `min(matches, 1000)` ids, each the id of a stored record in that tag and commit. |
| Deletion.PathIds | backend/embeddingService.js:132-139 | A file probe collects `min(matches, 1000)` ids, each the id of a stored record of that file in that tag and commit. |
| Deletion.FileListDeletionIds | backend/embeddingService.js:131-143 | The ids collected for a list of paths number at most 1000 per path. |
| Deletion.FileListDeletionCount | backend/embeddingService.js:131-153 | The number of ids a file-list deletion collects, and so its `deletedCount`, is the sum over the listed paths of each path's match count capped at 1000. |
| Deletion.CollectedAppend | backend/embeddingService.js:131-143 | Collecting over two path lists one after the other gives the two collections concatenated. |
| Deletion.DeleteChunksByCommit | backend/embeddingService.js:96-125 | Deletes the first page (at most 1000) of the commit's records and logs the count; any failure reports zero and an error. Stored ids stay distinct and bounded. |
| Deletion.DeleteChunksByFileList | backend/embeddingService.js:127-166 | Collects every listed file's first page of records in the commit, deletes them, and logs the count and the number of files; any failure reports zero and an error. Stored ids stay distinct and bounded. |
| Deletion.IdOfMember | backend/embeddingService.js:105 | A record's id is among the ids of a list holding it. |
| Deletion.ProbedIdsMatch | backend/embeddingService.js:98-105 | Every id a 1000-record probe collects belongs to a stored record that matches the probe's filter. |
| Deletion.RemoveSparesOthers | backend/embeddingService.js:107 | Removing ids that all belong to selected records keeps every unselected record. |
| Deletion.CommitDeletionSparesOthers | backend/embeddingService.js:96-108 | A commit deletion keeps every record of other commits or tags. |
| Deletion.CommitDeletionEmptiesScope | backend/embeddingService.js:96-108 | When the commit has at most 1000 records, none is left afterwards. |
| Deletion.CommitDeletionCoversScope | backend/embeddingService.js:98-105 | When the commit has at most 1000 records, the probe collects the id of every one of them. |
| Deletion.FileListIdsAppend | backend/embeddingService.js:131-143 | The collected ids for two path lists are the collected ids of each, concatenated. |
| Deletion.RepeatedPathCountedTwice | backend/embeddingService.js:131-153 | A path listed twice contributes its ids twice. |
| Deletion.FileListIdsScoped | backend/embeddingService.js:131-143 | Every collected id belongs to a record of a listed file in that tag and commit. |
| Deletion.FileListDeletionSparesOthers | backend/embeddingService.js:127-147 | A file-list deletion keeps every record outside the listed files of that commit and tag. |
| Deletion.FileListDeletionComplete | backend/embeddingService.js:127-147 | When each listed file has at most 1000 records in the commit, all of them are collected. |
| Deletion.DeleteThenReembed | backend/routes/processInput.js:120-188 | Deleting a changed file's records and then embedding it again keeps the index consistent with the id source; with the index up, the deletion succeeds unless the log store is down. |
| Retrieval.GetRelevantChunks | backend/embeddingService.js:168-182 | Provider and index failures propagate. Otherwise the result is the text of the first `min(topK, stored)` records. |
| LlmRouter.FindIn | backend/routes/llmRouter.js:93 | The profile lookup finds a profile with the name exactly when one exists. |
| LlmRouter.PickedModelsHaveProfiles | backend/routes/llmRouter.js:1-29 | Every model a rule can pick has a profile in the table. |
| LlmRouter.Suggest | backend/routes/llmRouter.js:92-102 | A suggestion carries its rule's reason and model, and the model has a profile whose fields the suggestion copies. |
| LlmRouter.SuggestionRank | backend/routes/llmRouter.js:62-88 | A suggestion keeps its rule's position, and different rules give different suggestions. |
| LlmRouter.SuggestAllFaithful | backend/routes/llmRouter.js:92-103 | A rule's suggestion appears exactly when the rule fired; profiles are copied and rule order is kept. |
| LlmRouter.ReasonsDistinct | backend/routes/llmRouter.js:64-85 | The four reasons are pairwise different. |
| LlmRouter.Lower | backend/routes/llmRouter.js:52 | Lower-casing keeps the length and leaves no ASCII capital letter. |
| LlmRouter.TrimStartDropsLeadingWhitespace | backend/routes/llmRouter.js:52 | Trimming the start removes exactly the leading whitespace run. |
| LlmRouter.TrimEndDropsTrailingWhitespace | backend/routes/llmRouter.js:52 | Trimming the end removes exactly the trailing whitespace run. |
| LlmRouter.Trim | backend/routes/llmRouter.js:52 | The trimmed text is a slice of the text with only whitespace around it, and it neither starts nor ends with whitespace. |
| LlmRouter.ContainsOccurrence | backend/routes/llmRouter.js:54-56 | A substring test holds exactly when the part occurs at some position. |
| LlmRouter.IsDocEdit | backend/routes/llmRouter.js:52-56 | The task is a document edit exactly when the lower-cased, trimmed location contains `readme`, `.md`, `doc/` or `docs/`. |
| LlmRouter.IsCode | backend/routes/llmRouter.js:58 | The task is on code exactly when the untrimmed location has a dot followed, up to its end, by `js`, `ts`, `jsx`, `tsx`, `css`, `scss` or `html` in any letter case. |
| LlmRouter.CodeByExtension | backend/routes/llmRouter.js:58 | Testing the lower-cased location for a `.`-prefixed code extension suffix is the same as finding a dot followed by such an extension. |
| LlmRouter.ExtensionHasDot | backend/routes/llmRouter.js:58 | A lower-cased location ending in `.e`, for a code extension `e`, has a dot followed by `e` in some letter case. |
| LlmRouter.DotHasExtension | backend/routes/llmRouter.js:58 | A dot followed by a code extension in any letter case makes the lower-cased location end in that extension. |
| LlmRouter.DotSuffix | backend/routes/llmRouter.js:58 | The lower-cased location ends in `.e` exactly when the location has a dot followed by `e` up to a change of letter case. |
| LlmRouter.IsComplex | backend/routes/llmRouter.js:60 | A prompt is complex exactly when it is over 300 characters or contains `analyze`, `refactor`, `redesign` or `multi-step` in any letter case. |
| LlmRouter.ClassificationIgnoresCase | backend/routes/llmRouter.js:52-60 | Lower-casing is idempotent, and the document, code and complexity classifications do not change when the input is lower-cased. |
| LlmRouter.PickRules | backend/routes/llmRouter.js:62-88 | Each rule fires exactly under its condition, the fallback fires exactly when no other rule does, and the rules come in push order. |
| LlmRouter.RecommendModels | backend/routes/llmRouter.js:39-107 | Gives the ceiling token estimate, echoes the output estimate and infers a location only when none is given. Each rule's suggestion is present exactly under its classification, and there are one to three suggestions in rule order, each copying its model's profile. A prompt over 300 characters never gets the simple-code suggestion, and gets the complex-code one exactly when the location is code. |

## Left out

- The SHA-256 digest is a function parameter `hash`, so collisions are not modelled.
- The embedding service is a function parameter of `Provider`. The model name and the batching are not modelled.
- Nearest-neighbour ranking is not modelled: a query returns the matching records in stored order. `GetRelevantChunks` therefore states which records come back only relative to that order.
- Index.VectorIndex.Upsert: an upsert of an id that is already stored would overwrite it. The model appends and requires fresh ids, which every caller in the core supplies.
- Index.VectorIndex.DeleteMany: the model takes the bulk deletes at embeddingService.js:107 and :146 as deletes by id. Those calls pass the client an object that holds the id list rather than the id list itself, and the client may read that object as a metadata filter instead; the client library is not part of this model, and the deletion lemmas (`CommitDeletionEmptiesScope`, `CommitDeletionSparesOthers`, `FileListDeletionSparesOthers`) rest on the delete-by-id reading.
- Random UUIDs are modelled by the `IdSource` counter. An ingestion reserves one id per chunk, including the skipped ones.
- Timestamps, the database write of the log document and console error messages are not modelled. The log id is the entry's position in the log.
- Failures are modelled as one `up` flag per service. A service that fails part-way through a batch, or whose state changes between two calls, is not modelled.
- Chunker.ChunkText requires a positive chunk size for non-empty text, because with size 0 the source loops forever.
- `estimateCost` and the `estimatedCost` field use floating-point arithmetic and string formatting. The per-1k costs are kept in the profile table, but cost is not part of a suggestion.
- The regular expression that infers a location from the prompt (`update|edit|modify` followed by a target) is the parameter `inferLocation`.
- LlmRouter.RecommendModels: `location` is always a string. A null or non-string location or prompt is not modelled.
- Chunker.ChunkText: the source's `text.length` and `text.slice` count UTF-16 code units, so a 1000-unit slice can split a surrogate pair; the model counts characters, so for text outside the Basic Multilingual Plane its chunk boundaries and chunk counts differ from the source's.
- LlmRouter.Lower folds ASCII letters only. For the patterns the router matches, this is equivalent to full Unicode lower-casing. String lengths count code points, not UTF-16 units.
- Ingestion.ReingestIsIdempotent states only the counts of the second ingestion, not its log entry or log id.
- Ingestion.ReingestStoresNothing: when the scope's stored records and the first call's records exceed one 1000-record probe page, the second probe sees only the first page and may store chunks again; the lemma does not cover that case.
- The HTTP routes' request validation and responses (`backend/routes/processInput.js`) are not modelled; `DeleteThenReembed` only composes the two service calls the delete and embed routes make. The server, the initial-embedding scripts, the database models and the frontend are not part of this model.
- Concurrency between calls that are in flight at the same time is not modelled. Every call runs to completion before the next one starts.
