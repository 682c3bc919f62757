# PenineMate core, modelled in Dafny

PenineMate answers questions about movies and recommends films. Its core is
the part between the HTTP routes and the outside services (PostgreSQL, a FAISS
vector index, TMDb, an LLM). This project models that core and proves
properties of the model:

- **Hybrid search** (`SearchOrchestrator`, `search.dfy`):
  - synonym expansion of the query, a first match in an ordered table;
  - the keyword query and its ordering (exact titles first, then popularity
    with nulls last);
  - the semantic filter (similarity `1/(1+d)`, threshold 0.4, valid ordinals
    only, top five);
  - re-ranking by `0.7·similarity + 0.3·min(popularity/100, 1)` with a stable
    descending sort;
  - the hybrid merge: keyword results first, then semantic results with new
    `tmdb_id`s, truncated to the limit.
- **TTL cache** (`Cache`, `cache.dfy`): the `SimpleCache` class with lazy
  expiry on `get`, FIFO eviction on `set`, hit and miss counters, `clear`
  and `get_stats`.
- **Vector-index maintenance** (`VectorIndex`, `vector_index.dfy`):
  - the builder's lockstep loop over vectors and metadata;
  - the rebuild of both files;
  - the append-if-absent update `add_movie_to_faiss`, including the failure
    between its two file writes.
- **Record-store writes**:
  - `save_movie_to_db` (`MovieSave`, `store_save.dfy`): movies, people and
    credits written in one transaction;
  - `upsert_movie` (`MovieUpsert`, `store_upsert.dfy`): a keyed insert or
    update, last write wins.
- **Q&A text shaping** (`QaService`, `qa.dfy`):
  - the search-query extraction of the TMDb fallback (quoted span, three
    case-insensitive patterns, the whole question);
  - shaping of the TMDb result;
  - the context builder;
  - the conversation-history window.
- **Recommendation** (`Recommendation`, `recommendation.dfy`):
  - the SQL text and parameter list of the database search;
  - the genre-name to TMDb-id mapping;
  - the discover arguments;
  - the database-then-TMDb fallthrough.
- **Enrichment script** (`Enrichment`, `enrich.dfy`): `format_time`, the
  rate-limit backoff, and the overview back-fill loop with its counters.

Shared modules:

- `Text` (`text.dfy`) gives the fragment of Python string handling the code
  relies on: `lower`, `capitalize`, `strip`, `in`, `join`, `int()` and
  `str()`.
- `Ranking` (`ranking.dfy`) defines a stable sort over a total preorder, the
  behaviour of Python's `sorted`.
- `Records` (`records.dfy`) holds the `movies` row shared by several modules.
- `Wrappers` (`wrappers.dfy`) holds `Option`.

Outside services are parameters of the model:

- the database's answer to a query;
- the TMDb replies;
- the embedding function;
- the index's nearest-neighbour search;
- the file reads and writes, and whether each succeeds;
- the current time;
- the value of `random.choice`.

Where the source mutates state, the model mutates it too:

- `SimpleCache`, `IndexFiles`, `MovieStore` and `MovieTable` are classes.
  Their methods are proved against pure step functions, and the properties
  are lemmas about those functions.
- Loops that build lists or strings are methods with invariants, proved
  equal to a reference function: the re-ranking, the keyword result list,
  the semantic filter, the hybrid merge, the builder loop, the context and
  history strings, the query builder, the genre mapping and the enrichment
  loop.

An observation the proofs make explicit: the expansion table is searched in
order for a key contained in the lower-cased query. As a result, its
`star wars` entry can never apply. Any query that contains `star wars` also
contains the earlier key `war` (`SearchOrchestrator.ExpandStarWars`). In the
same way, the third extraction pattern `tell me about …` never decides the
search query. The first pattern, `about …`, already matches wherever it does
(`QaService.ThirdPatternRedundant`). The model keeps both behaviours as
written.

Another observation, also read from the code and not executed. The
enrichment script's progress report (`backend/enrich_movies.py:126-157`)
slices the movie's title, and a null title makes the slice raise. This
happens after the row was updated and counted as enriched. The handler then
counts the same movie as an error, so the three counters can add up to more
than the number of movies processed. `Enrichment.RunCounts` states the sum
as the program computes it, and `Enrichment.DoubleCountedZero` states when
no turn is counted twice.

A second observation, read from the code and not executed: the cast lookup
of the database recommendation
(`backend/peninemate/core_logic/recommendation_service.py:118-124`) selects
`DISTINCT p.name` but orders by `c.cast_order`, a column outside the select
list. PostgreSQL refuses such a query, and the surrounding handler then makes
the database search return nothing. The model leaves the cast lookup as a
parameter (`castOf`) that may return none, so this outcome is covered.

## Model

| member | source | states |
|---|---|---|
| Text.Lower | backend/peninemate/core_logic/search_orchestrator.py:122-123 | lower-casing keeps the length and maps each character through ASCII lower-casing |
| Text.Capitalize | backend/peninemate/core_logic/qa_service.py:71 | `str.capitalize`: the first character upper-cased and the rest lower-cased, length kept |
| Text.StripLeft | backend/peninemate/core_logic/qa_service.py:116 | removes exactly the leading run of white space: the result is a suffix and does not start with white space |
| Text.StripRight | backend/peninemate/core_logic/qa_service.py:116 | removes exactly the trailing run of white space: the result is a prefix and does not end with white space |
| Text.Strip | backend/peninemate/core_logic/qa_service.py:116 | the result neither starts nor ends with white space |
| Text.StripInfix | backend/peninemate/core_logic/qa_service.py:116 | the stripped text occurs in the input right after its leading white space |
| Text.StripEmpty | backend/peninemate/core_logic/qa_service.py:116-121 | a strip is empty exactly when the text is all white space (so that case falls back to the whole question) |
| Text.StripNoSpace | backend/peninemate/core_logic/qa_service.py:116 | a text that neither starts nor ends with white space is its own strip |
| Text.StripKeepsHeading | backend/peninemate/core_logic/qa_service.py:216-229 | stripping a context block keeps its heading line at the front |
| Text.ConcatAppend | backend/peninemate/core_logic/qa_service.py:66-71 | concatenating two runs of lines is concatenating their texts |
| Text.NatToString | backend/peninemate/core_logic/recommendation_service.py:135 | the decimal rendering of a natural number is a non-empty run of digits |
| Text.NatToStringValue | backend/peninemate/core_logic/recommendation_service.py:135 | the digits of the rendering denote the number |
| Text.IntToStringRoundTrip | backend/peninemate/core_logic/recommendation_service.py:91 | `int(str(n)) == n` for every integer |
| Records.ReleaseYearOfDate | backend/peninemate/core_logic/qa_service.py:142-148 | a date that starts with a four-digit year yields that year from `int(date[:4])` |
| Ranking.SortSortedPermutation | backend/peninemate/core_logic/search_orchestrator.py:153 | the sort returns its input reordered (same multiset) and ordered by the preorder |
| Ranking.SortStable | backend/peninemate/core_logic/search_orchestrator.py:153 | equally ranked elements keep their input order (Python's `sorted` is stable) |
| Ranking.InsertSorted | backend/peninemate/core_logic/search_orchestrator.py:153 | one insertion step keeps a sorted list sorted and adds exactly the inserted element |
| Ranking.Take | backend/peninemate/core_logic/search_orchestrator.py:261 | `s[:n]` is a prefix of `s` of length `min(n, len(s))` |
| SearchOrchestrator.FirstKeyFrom | backend/peninemate/core_logic/search_orchestrator.py:122-124 | the table scan returns the first entry, from a position on, whose key occurs in the query, and no earlier one matches |
| SearchOrchestrator.ExpandQuery | backend/peninemate/core_logic/search_orchestrator.py:80-126 | the expanded query starts with the original query in its own casing, and is either the query or the query plus one table expansion |
| SearchOrchestrator.ExpandFirstMatch | backend/peninemate/core_logic/search_orchestrator.py:122-124 | when entry `k` is the first whose key occurs in the lower-cased query, exactly its expansion is appended |
| SearchOrchestrator.ExpandNoMatch | backend/peninemate/core_logic/search_orchestrator.py:126 | with no key in the lower-cased query, the query is returned unchanged |
| SearchOrchestrator.ExpandStarWars | backend/peninemate/core_logic/search_orchestrator.py:99-118 | "star wars", in any casing, receives the expansion of the earlier `war` entry |
| SearchOrchestrator.ExpandSciFiAction | backend/peninemate/core_logic/search_orchestrator.py:99-118 | "sci-fi action", in any casing, receives the `sci-fi` expansion, not the `action` one |
| SearchOrchestrator.Similarity | backend/peninemate/core_logic/search_orchestrator.py:243 | the similarity of a non-negative distance lies in (0, 1], and is 1 exactly at distance 0 |
| SearchOrchestrator.SimilarityThreshold | backend/peninemate/core_logic/search_orchestrator.py:246-250 | similarity ≥ 0.4 holds exactly when the distance is at most 1.5 |
| SearchOrchestrator.SimilarityAntitone | backend/peninemate/core_logic/search_orchestrator.py:243 | nearer hits are never less similar |
| SearchOrchestrator.NormalizedPopularity | backend/peninemate/core_logic/search_orchestrator.py:145 | the normalised popularity is at most 1, non-negative for non-negative popularity, and popularity/100 up to 100 |
| SearchOrchestrator.FinalScore | backend/peninemate/core_logic/search_orchestrator.py:150 | for a similarity in (0, 1] and a non-negative popularity the score lies in (0, 1] |
| SearchOrchestrator.FinalScoreMonotone | backend/peninemate/core_logic/search_orchestrator.py:150 | the score never decreases when similarity or popularity grows |
| SearchOrchestrator.FinalScorePopularityCap | backend/peninemate/core_logic/search_orchestrator.py:145 | popularity beyond 100 adds nothing to the score |
| SearchOrchestrator.Scored | backend/peninemate/core_logic/search_orchestrator.py:140-150 | scoring sets `final_score` and changes no other field |
| SearchOrchestrator.ScoreFirstTotal | backend/peninemate/core_logic/search_orchestrator.py:153 | "higher score first, a missing score counting as 0" is a total preorder |
| SearchOrchestrator.ScoredAll | backend/peninemate/core_logic/search_orchestrator.py:140-150 | every result is scored, in place and in order |
| SearchOrchestrator.Rerank | backend/peninemate/core_logic/search_orchestrator.py:138-153 | the re-ranked list is the scored input sorted by score descending: a permutation of it, sorted, with ties in input order |
| SearchOrchestrator.ExactTitleMatches | backend/peninemate/core_logic/search_orchestrator.py:177-179 | an exact case-insensitive title is also a keyword match |
| SearchOrchestrator.KeywordOrderTotal | backend/peninemate/core_logic/search_orchestrator.py:178-180 | exact titles first, then popularity descending with nulls last, is a total preorder |
| SearchOrchestrator.Matching | backend/peninemate/core_logic/search_orchestrator.py:177 | the `WHERE` clause keeps exactly the rows whose title contains the query, ignoring case |
| SearchOrchestrator.KeywordRowsAnswer | backend/peninemate/core_logic/search_orchestrator.py:173-182 | the keyword rows are at most `limit` matching rows, all matches when fewer, in keyword order, and every dropped match ranks after every kept row |
| SearchOrchestrator.KeywordResults | backend/peninemate/core_logic/search_orchestrator.py:185-196 | one result per keyword row, in order, at most `limit` |
| SearchOrchestrator.SearchKeyword | backend/peninemate/core_logic/search_orchestrator.py:155-198 | the loop returns the keyword results: at most `limit`, all tagged `keyword` |
| SearchOrchestrator.Load | backend/peninemate/core_logic/search_orchestrator.py:37-68 | semantic search is ready exactly when both files exist and the model, index and metadata all load |
| SearchOrchestrator.Candidate | backend/peninemate/core_logic/search_orchestrator.py:249-252 | a candidate copies its metadata entry and is tagged `semantic` |
| SearchOrchestrator.Candidates | backend/peninemate/core_logic/search_orchestrator.py:248-252 | the candidates are the surviving hits, in index order, each with a valid ordinal and similarity ≥ 0.4 |
| SearchOrchestrator.CandidatesComplete | backend/peninemate/core_logic/search_orchestrator.py:248-252 | no surviving hit is lost |
| SearchOrchestrator.CandidatesSound | backend/peninemate/core_logic/search_orchestrator.py:248-252 | every candidate comes from a surviving hit |
| SearchOrchestrator.SemanticResultsShape | backend/peninemate/core_logic/search_orchestrator.py:216-265 | at most five results, sorted by score, each tagged `semantic` with similarity ≥ 0.4 and a score |
| SearchOrchestrator.SemanticResultsFromIndex | backend/peninemate/core_logic/search_orchestrator.py:226-261 | a semantic result exists only when search is ready and the index answered for the expanded query, and it is a candidate from that answer |
| SearchOrchestrator.SearchSemantic | backend/peninemate/core_logic/search_orchestrator.py:204-265 | the filtering loop returns exactly the semantic results |
| SearchOrchestrator.FreshById | backend/peninemate/core_logic/search_orchestrator.py:294-301 | the merge never yields more fresh results than there are semantic results |
| SearchOrchestrator.FreshIds | backend/peninemate/core_logic/search_orchestrator.py:294-301 | the ids of the fresh results are exactly the semantic ids not already seen |
| SearchOrchestrator.FreshPositionsExact | backend/peninemate/core_logic/search_orchestrator.py:294-301 | the fresh results are the semantic results at exactly the positions that first carry an unseen id, in increasing position order |
| SearchOrchestrator.FreshComplete | backend/peninemate/core_logic/search_orchestrator.py:294-301 | every semantic result whose id is new is kept |
| SearchOrchestrator.FreshDistinct | backend/peninemate/core_logic/search_orchestrator.py:294-301 | the fresh results have distinct ids, none already seen, and each comes from the input |
| SearchOrchestrator.FreshPrefix | backend/peninemate/core_logic/search_orchestrator.py:296-304 | stopping the scan early yields a prefix of the fresh results |
| SearchOrchestrator.HybridShape | backend/peninemate/core_logic/search_orchestrator.py:284-306 | at most `limit` results; the keyword results form a prefix; a semantic result never repeats an earlier id; every later result is a semantic result |
| SearchOrchestrator.HybridMerge | backend/peninemate/core_logic/search_orchestrator.py:284-306 | with enough keyword results, their first `limit`; otherwise the keyword results followed by every semantic result with a new id, in semantic order, cut at `limit` |
| SearchOrchestrator.SearchHybrid | backend/peninemate/core_logic/search_orchestrator.py:267-306 | the method returns the hybrid results: the keyword prefix when it fills the limit, the merge otherwise |
| SearchOrchestrator.AppendFresh | backend/peninemate/core_logic/search_orchestrator.py:294-306 | the merge loop with its early exit equals the full merge truncated to the limit |
| SearchOrchestrator.MergeFull | backend/peninemate/core_logic/search_orchestrator.py:303-304 | leaving the loop once the limit is reached gives the same result as scanning all |
| Cache.NewEntry | backend/peninemate/infrastructure/cache_client.py:11-13 | an entry keeps its data and expires `ttl` seconds after `now` |
| Cache.ExpiredStays | backend/peninemate/infrastructure/cache_client.py:15-16 | once expired, an entry stays expired |
| Cache.NewEntryLifetime | backend/peninemate/infrastructure/cache_client.py:13-16 | a new entry is live exactly up to and including `now + ttl` |
| Cache.Remove | backend/peninemate/infrastructure/cache_client.py:53 | deleting a key removes it and nothing else from the key order |
| Cache.GetCounts | backend/peninemate/infrastructure/cache_client.py:47-63 | a hit adds one to hits and nothing to misses, a miss one to misses and nothing to hits; a hit exactly when the key holds a live entry, returning its data; a hit or a miss on an absent key leaves keys, entries and key order unchanged (no promotion); an expired key is removed from the order and from the entries, and nothing else changes |
| Cache.GetWellFormed | backend/peninemate/infrastructure/cache_client.py:47-63 | `get` keeps the cache well formed |
| Cache.EffectiveTtl | backend/peninemate/infrastructure/cache_client.py:82 | a given non-zero ttl is used as it is; a missing or zero ttl falls back to the default |
| Cache.SetWellFormed | backend/peninemate/infrastructure/cache_client.py:74-83 | `set` fails exactly when the size bound is zero (nothing to evict); otherwise it keeps the cache well formed and within `maxsize` |
| Cache.SetThenGet | backend/peninemate/infrastructure/cache_client.py:74-83 | a stored value is returned by `get` until its ttl runs out |
| Cache.SetEvictsOldest | backend/peninemate/infrastructure/cache_client.py:76-79 | a new key in a full cache evicts exactly the earliest-inserted key and goes last |
| Cache.SetExistingKeepsOrder | backend/peninemate/infrastructure/cache_client.py:76-83 | storing under a present key evicts nothing and keeps the key's position |
| Cache.SetKeepsOthers | backend/peninemate/infrastructure/cache_client.py:74-83 | every other key keeps its entry, except the one evicted |
| Cache.SimpleCache.constructor | backend/peninemate/infrastructure/cache_client.py:24-35 | a new cache is empty with zero counters |
| Cache.SimpleCache.Get | backend/peninemate/infrastructure/cache_client.py:47-63 | `get` performs the get step on the cache's contents |
| Cache.SimpleCache.Set | backend/peninemate/infrastructure/cache_client.py:74-83 | `set` performs the set step, or leaves the cache unchanged when eviction from an empty cache fails |
| Cache.SimpleCache.Clear | backend/peninemate/infrastructure/cache_client.py:85-90 | `clear` empties the cache and resets both counters |
| Cache.SimpleCache.GetStats | backend/peninemate/infrastructure/cache_client.py:92-103 | size, capacity and counters as stored; hit rate is 100·hits/(hits+misses), 0 with no lookups |
| VectorIndex.WithOverview | backend/peninemate/core_logic/faiss_builder.py:32-40 | the builder's query keeps only rows with a non-empty overview |
| VectorIndex.IndexableRowsOrdered | backend/peninemate/core_logic/faiss_builder.py:32-40 | the queried rows come in ascending `tmdb_id` and all have an overview |
| VectorIndex.BuildEntry | backend/peninemate/core_logic/faiss_builder.py:56-66 | a metadata entry carries the movie's id, and a null or zero popularity is stored as 0.0 |
| VectorIndex.IndexedRows | backend/peninemate/core_logic/faiss_builder.py:52-54 | only movies with a non-empty stripped text get a vector |
| VectorIndex.BuildEntries | backend/peninemate/core_logic/faiss_builder.py:48-66 | vectors and metadata grow in lockstep: entry `i` describes the movie whose text produced vector `i` |
| VectorIndex.IndexedRowsOrder | backend/peninemate/core_logic/faiss_builder.py:48-66 | the indexed movies are drawn from the queried ones |
| VectorIndex.IndexedRowsSorted | backend/peninemate/core_logic/faiss_builder.py:48-66 | the indexed movies keep the query order |
| VectorIndex.BuildOrderAscending | backend/peninemate/core_logic/faiss_builder.py:36 | the metadata a rebuild writes is in ascending `tmdb_id` |
| VectorIndex.IndexFiles.constructor | backend/peninemate/core_logic/faiss_ops.py:50-58 | the files as found on disk |
| VectorIndex.IndexFiles.Rebuild | backend/peninemate/core_logic/faiss_builder.py:48-96 | it succeeds exactly when some movie qualifies and both writes succeed; with no qualifying movie or a failed index write nothing changes; once the index is written, vector `i` is the embedding of the `i`-th qualifying movie's text, in query order; a failed metadata write then leaves the old metadata file beside the new index; on success entry `i` is the metadata of that movie |
| VectorIndex.IndexFiles.AddMovie | backend/peninemate/core_logic/faiss_ops.py:15-85 | the files and the returned flag are those of the append-if-absent update |
| VectorIndex.AddText | backend/peninemate/core_logic/faiss_ops.py:33-39 | the embedded text starts with the title, the overview and the genres label |
| VectorIndex.AddAppendOnly | backend/peninemate/core_logic/faiss_ops.py:60-85 | whatever the outcome, the files after the update extend the files before |
| VectorIndex.AddAppendsNewMovie | backend/peninemate/core_logic/faiss_ops.py:65-78 | a stored movie that is absent from the metadata gets exactly one vector and one entry at the end |
| VectorIndex.AddIdempotent | backend/peninemate/core_logic/faiss_ops.py:60-62 | after a successful add, adding the same movie again changes nothing and succeeds |
| VectorIndex.AddAlignment | backend/peninemate/core_logic/faiss_ops.py:76-85 | equal lengths before give equal lengths after when both writes succeed; a failed metadata write leaves the index one entry longer |
| MovieSave.SaveRefused | backend/peninemate/core_logic/db_ops.py:27-29 | missing details, or a failing call, returns false and writes nothing |
| MovieSave.SaveTwice | backend/peninemate/core_logic/db_ops.py:59-65 | saving a movie already stored returns true and writes nothing, so a second save is a no-op |
| MovieSave.PeopleAfterKeeps | backend/peninemate/core_logic/db_ops.py:96-100 | an existing person row is never overwritten; the people after the writes are the old ones plus those written |
| MovieSave.SaveInserts | backend/peninemate/core_logic/db_ops.py:43-83 | a new movie gets its row, with the year read from its release date; no other movie row changes, existing people are kept and credits are only added |
| MovieSave.CastWritesPositions | backend/peninemate/core_logic/db_ops.py:86-109 | cast credits come from identified members among the first twenty, each at its position in the list |
| MovieSave.DirectorWritesFromDirectors | backend/peninemate/core_logic/db_ops.py:112-133 | crew credits are exactly the identified directors |
| MovieSave.SaveCredits | backend/peninemate/core_logic/db_ops.py:86-133 | every added credit names the movie, and is a cast credit at a position below twenty or a director's crew credit |
| MovieSave.SaveConsistent | backend/peninemate/core_logic/db_ops.py:9-143 | every credit keeps naming a stored movie and a stored person |
| MovieSave.MovieStore.constructor | backend/peninemate/core_logic/db_ops.py:9-143 | the store holds the given tables |
| MovieSave.MovieStore.SaveMovie | backend/peninemate/core_logic/db_ops.py:9-143 | the method's result and tables are those of the save, committed together |
| MovieSave.SaveCast | backend/peninemate/core_logic/db_ops.py:86-109 | the cast loop applies the cast writes in order |
| MovieSave.SaveDirectors | backend/peninemate/core_logic/db_ops.py:112-133 | the crew loop continues the transaction with the director writes |
| MovieUpsert.Overwrite | backend/peninemate/infrastructure/db_ops.py:27-45 | the listed columns are replaced; id, `tmdb_id`, `genres_csv` and runtime stay |
| MovieUpsert.UpsertMissingId | backend/peninemate/infrastructure/db_ops.py:21-24 | with neither id usable the upsert raises and the table is unchanged |
| MovieUpsert.UpsertWrites | backend/peninemate/infrastructure/db_ops.py:21-64 | success exactly with a key and an accepted year; the row under the key holds the data's columns with year from `release_date[:4]`; other rows untouched; failure changes nothing |
| MovieUpsert.UpsertIdempotent | backend/peninemate/infrastructure/db_ops.py:27-45 | upserting the same data twice equals once and returns the same row id |
| MovieUpsert.UpsertLastWriteWins | backend/peninemate/infrastructure/db_ops.py:36-45 | after two upserts for the same key the row holds the second's columns and keeps its id |
| MovieUpsert.UpsertKeyed | backend/peninemate/infrastructure/db_ops.py:27-45 | the table stays keyed by `tmdb_id` |
| MovieUpsert.MovieTable.constructor | backend/peninemate/infrastructure/db_ops.py:9-20 | the table and serial counter as given |
| MovieUpsert.MovieTable.UpsertMovie | backend/peninemate/infrastructure/db_ops.py:9-71 | the method's result, table and counter are those of the upsert |
| QaService.NextQuote | backend/peninemate/core_logic/qa_service.py:101 | the next `"` at or after a position, with none before it |
| QaService.QuotedFrom | backend/peninemate/core_logic/qa_service.py:101 | a capture of `"([^"]+)"` is non-empty, holds no quote and occurs in the text |
| QaService.QuotedSkip | backend/peninemate/core_logic/qa_service.py:101 | scanning past characters that are not quotes changes nothing |
| QaService.NoQuoteNoSpan | backend/peninemate/core_logic/qa_service.py:101-102 | a question without quotes has no quoted span |
| QaService.QuotedSpanFound | backend/peninemate/core_logic/qa_service.py:101-103 | the first quoted non-empty span is found, whatever follows it |
| QaService.FirstKeyAt | backend/peninemate/core_logic/qa_service.py:106-110 | the first alternative that matches at a position, none earlier matching there |
| QaService.MatchFrom | backend/peninemate/core_logic/qa_service.py:114 | `re.search` finds the leftmost position where an alternative matches |
| QaService.CaptureEnd | backend/peninemate/core_logic/qa_service.py:107-109 | the lazy capture stops at the first `?` or `(`, or at the end |
| QaService.Capture | backend/peninemate/core_logic/qa_service.py:107-109 | the capture is the shortest non-empty run from the match that ends before `?`, `(` or the end |
| QaService.PatternCapture | backend/peninemate/core_logic/qa_service.py:113-116 | no capture when no alternative matches; otherwise the lazy capture right after the leftmost case-insensitive match, non-empty and inside the question |
| QaService.FirstPatternDecides | backend/peninemate/core_logic/qa_service.py:113-117 | the first pattern, in list order, that matches decides the capture |
| QaService.ExtractSearchQuery | backend/peninemate/core_logic/qa_service.py:101-121 | the search query is the whole question or a non-empty part of it; `QaService.ExtractQuoted`, `QaService.ExtractPattern` and `QaService.ExtractWholeQuestion` say which part |
| QaService.ExtractPattern | backend/peninemate/core_logic/qa_service.py:104-121 | without a quote, the query is the stripped capture of the first matching pattern, or the whole question when that strip is empty |
| QaService.ExtractQuoted | backend/peninemate/core_logic/qa_service.py:101-103 | a quoted span decides the query, whatever the patterns would say |
| QaService.ExtractWholeQuestion | backend/peninemate/core_logic/qa_service.py:119-121 | with no quote and no pattern match the whole question is used |
| QaService.ThirdPatternRedundant | backend/peninemate/core_logic/qa_service.py:107-109 | wherever the third pattern matches the first does, so dropping it changes no result |
| QaService.ExtractTellMeAbout | backend/peninemate/core_logic/qa_service.py:106-117 | "Tell me about Inception?", in any casing, yields the title without the question mark |
| QaService.Directors | backend/peninemate/core_logic/qa_service.py:156-158 | the directors are exactly the names of the crew members whose job is `Director` |
| QaService.DirectorsAppend | backend/peninemate/core_logic/qa_service.py:158 | the directors keep crew order: the list for a crew is the lists for its parts in turn |
| QaService.DirectorsOne | backend/peninemate/core_logic/qa_service.py:158 | one crew member contributes its name exactly when its job is `Director` |
| QaService.ShapeFallback | backend/peninemate/core_logic/qa_service.py:137-181 | a record exists exactly when details do; it carries the hit's id, the year `int(release_date[:4])` or none, the first ten cast names, and the directors of the crew |
| QaService.TmdbFallbackFirstHit | backend/peninemate/core_logic/qa_service.py:85-185 | the fallback succeeds exactly when the search for the extracted query has a first hit with details, and describes that hit |
| QaService.SelectMovies | backend/peninemate/core_logic/qa_service.py:46-56 | the fallback is used only when the search found nothing; the list is empty only when both fail |
| QaService.Blocks | backend/peninemate/core_logic/qa_service.py:204-229 | one block per shown movie |
| QaService.BlocksNumbered | backend/peninemate/core_logic/qa_service.py:204-229 | block `i` describes movie `i` under the number `i + 1` |
| QaService.BuildContext | backend/peninemate/core_logic/qa_service.py:188-231 | the context is the placeholder text for no movies, otherwise the blocks of at most three movies joined by a blank line |
| QaService.BlockTexts | backend/peninemate/core_logic/qa_service.py:204-229 | the loop produces the stripped blocks in order |
| QaService.BlockStartsWithHeader | backend/peninemate/core_logic/qa_service.py:216-229 | each block begins with its number, the title and the year |
| QaService.BlockShowsFewNames | backend/peninemate/core_logic/qa_service.py:222-227 | only the first three directors and first five cast members can appear |
| QaService.ContextFirstThree | backend/peninemate/core_logic/qa_service.py:204 | movies after the third do not change the context |
| QaService.HistoryLines | backend/peninemate/core_logic/qa_service.py:68-71 | one line per message, in order |
| QaService.Recent | backend/peninemate/core_logic/qa_service.py:68 | `[-5:]`: the last at most five messages, all of them when there are fewer |
| QaService.HistoryString | backend/peninemate/core_logic/qa_service.py:66-71 | the loop produces the lines of the recent messages, in order |
| QaService.HistoryTextAppend | backend/peninemate/core_logic/qa_service.py:68-71 | the history text of two runs is the two texts in turn |
| QaService.HistoryOnlyRecent | backend/peninemate/core_logic/qa_service.py:68 | messages older than the last five never reach the model |
| QaService.HistoryDefaultRole | backend/peninemate/core_logic/qa_service.py:69-71 | a message without a role is shown as the user's |
| Recommendation.Repeat | backend/peninemate/core_logic/recommendation_service.py:100 | `[x] * n`: n copies of x |
| Recommendation.JoinRepeatCount | backend/peninemate/core_logic/recommendation_service.py:84-100 | joining n copies of a one-slot condition gives n placeholders |
| Recommendation.ParsedYearsSound | backend/peninemate/core_logic/recommendation_service.py:87-93 | every year in the list comes from an input text that `int()` accepts |
| Recommendation.ParsedYearsComplete | backend/peninemate/core_logic/recommendation_service.py:87-93 | every input text that parses contributes its year |
| Recommendation.ParsedYearsEmpty | backend/peninemate/core_logic/recommendation_service.py:94-96 | the year filter is dropped exactly when no text parses |
| Recommendation.GenreFilterCount | backend/peninemate/core_logic/recommendation_service.py:79-84 | the genre clause has one placeholder per genre |
| Recommendation.ExcludeFilterCount | backend/peninemate/core_logic/recommendation_service.py:99-102 | the exclusion clause has one placeholder per excluded title |
| Recommendation.DbQueryParams | backend/peninemate/core_logic/recommendation_service.py:79-102 | the parameters are the `%genre%` patterns, the parsed year list when non-empty, then the excluded titles |
| Recommendation.DbQueryPlaceholders | backend/peninemate/core_logic/recommendation_service.py:79-107 | the query has exactly one `%s` per parameter |
| Recommendation.DbQueryFrame | backend/peninemate/core_logic/recommendation_service.py:74-105 | every query keeps the rating filter in front and ends with the ordering and `LIMIT 20` |
| Recommendation.GenreConditions | backend/peninemate/core_logic/recommendation_service.py:80-83 | the genre loop yields one condition and one pattern per genre |
| Recommendation.ParseYears | backend/peninemate/core_logic/recommendation_service.py:88-93 | the year loop yields the years that parse, in order |
| Recommendation.BuildDbQuery | backend/peninemate/core_logic/recommendation_service.py:63-105 | the built query and parameters are the reference query and parameters |
| Recommendation.AddFilters | backend/peninemate/core_logic/recommendation_service.py:78-102 | the genre, year and exclusion filters are appended in that order, each with its parameters |
| Recommendation.GenreClause | backend/peninemate/core_logic/recommendation_service.py:78-84 | no filter and no parameter without genres; otherwise the conditions joined by `OR` and one pattern per genre |
| Recommendation.YearClause | backend/peninemate/core_logic/recommendation_service.py:86-95 | the year filter and the list of parsed years when some year parses; otherwise nothing |
| Recommendation.ExcludeClause | backend/peninemate/core_logic/recommendation_service.py:97-101 | one placeholder and one parameter per excluded title, nothing without exclusions |
| Recommendation.MapGenres | backend/peninemate/core_logic/recommendation_service.py:193-197 | the genre loop yields the id texts of the recognised genres |
| Recommendation.IdTextsExact | backend/peninemate/core_logic/recommendation_service.py:193-197 | every id text comes from a recognised stripped name of the input, and every recognised name contributes one |
| Recommendation.GenreCaseSensitive | backend/peninemate/core_logic/recommendation_service.py:170-195 | names are matched exactly: a name starting with a lower-case letter is never recognised |
| Recommendation.DiscoverFirstYearOnly | backend/peninemate/core_logic/recommendation_service.py:203-207 | only the first year feeds the discover call; the later ones change nothing |
| Recommendation.DiscoverGenres | backend/peninemate/core_logic/recommendation_service.py:199-200 | `with_genres` is set exactly when some name is recognised |
| Recommendation.Pick | backend/peninemate/core_logic/recommendation_service.py:115 | the random pick is one of the candidates |
| Recommendation.PickReachesAll | backend/peninemate/core_logic/recommendation_service.py:115 | every candidate can be picked |
| Recommendation.SearchFromDbPicksRow | backend/peninemate/core_logic/recommendation_service.py:107-145 | a database recommendation describes one row the built query returned: that row's id and overview, its title with the year (0 when missing) or "Unknown Movie", its genres or "N/A", its rating or 0, and the cast found for it |
| Recommendation.SearchFromTmdbTopTen | backend/peninemate/core_logic/recommendation_service.py:210-246 | a TMDb recommendation is one of the first ten discover hits, with at most five cast names |
| Recommendation.Recommend | backend/peninemate/core_logic/recommendation_service.py:38-49 | the database result when there is one, otherwise the TMDb result, otherwise nothing |
| Enrichment.Decompose | backend/enrich_movies.py:92-94 | minutes and seconds are below 60 and the three fields add back up to the duration |
| Enrichment.FormatTime | backend/enrich_movies.py:96-101 | hours shown when non-zero, minutes when hours are zero and minutes are not, seconds alone otherwise |
| Enrichment.FormatTimeInjective | backend/enrich_movies.py:90-101 | different durations never format the same |
| Enrichment.BackoffBounds | backend/enrich_movies.py:171-175 | from the first rate-limit reply on, the wait is between 5 and 30 seconds and never decreases |
| Enrichment.RunCounts | backend/enrich_movies.py:110-197 | every movie processed is counted once as enriched, skipped or an error, except that an enriched movie whose progress report raises on a null title is also counted as an error: the three counters add up to the number of movies plus those turns |
| Enrichment.DoubleCountedZero | backend/enrich_movies.py:126-157 | with fewer than one hundred movies, or with no null title, no turn is counted twice |
| Enrichment.RunFrame | backend/enrich_movies.py:115-128 | rows are neither added nor removed; rows outside the worklist are untouched; a stored popularity is kept and a non-empty overview stays non-empty |
| Enrichment.RunEnrichedHasOverview | backend/enrich_movies.py:115-128 | a movie whose details have an overview ends with a non-empty overview |
| Enrichment.RunTurn | backend/enrich_movies.py:115-164 | a turn with usable details sets the overview to the reply's and fills a null popularity from it (a stored one is kept); otherwise the row is unchanged; it counts as enriched exactly with usable details, as skipped exactly when a reply lacked an overview, and as an error exactly when a raising call gave no usable details or the progress report at a multiple of one hundred met a null title |
| Enrichment.RunSplit | backend/enrich_movies.py:110-197 | running a worklist is running its prefix, then the rest |
| Enrichment.EnrichMovies | backend/enrich_movies.py:110-197 | the loop, including the error its progress report adds on a null title, yields the reference table and counters, and waits `min(30, 5n)` after the n-th rate-limit reply |

## Left out

- The HTTP layer (routes, request and response schemas, middleware) is not part of this model.
- The network and library clients are parameters: the database driver, TMDb, the LLM, the sentence-embedding model and the FAISS library. The LLM answer itself is not modelled.
- `search_with_context`, which supplies the Q&A service's movie list, is not defined in the modelled sources. `QaService.SelectMovies` takes that list as a parameter.
- `embedding_client.get_embedding` (used by `add_movie_to_faiss`) and `tmdb.search_movies` (used by the Q&A fallback) are abstracted as function parameters.
- The threading lock of the cache and the lazily created module singletons are not modelled, because the model is sequential.
- Scores, similarities and popularities are exact reals, so float rounding is not modelled.
- The hit-rate text of `get_stats` (`f"{hit_rate:.2f}%"`) is modelled as the percentage before formatting.
- The enrichment script's printed progress report is not modelled. The one exception is that its title slice raises on a null title.
- `random.choice` is modelled as the candidate at `choice % n` for an arbitrary `choice`, which can reach every candidate.
- Exceptions raised by TMDb or database calls are modelled as the call answering `None`, or as a `fails` flag.
- JSON `null` and an absent key are both `None`.
- `MovieUpsert`: the database's coercion of the four-character year text into the integer `year` column is modelled as Python's `int()`. A text it refuses is the `BadYear` outcome.
- `MovieUpsert`: a serial id is consumed only by an insert. PostgreSQL also consumes one on a conflicting insert, and the model does not track that.
- The enrichment script's selection query, its confirmation prompt and its batched commits are not modelled. The table after the loop is the table after the final commit. A failing `UPDATE` would abort the PostgreSQL transaction. The later `UPDATE`s would then fail as well, and the final `commit` would roll back every turn since the last batch commit. The model assumes every `UPDATE` succeeds, so `Enrichment.RunEnrichedHasOverview` does not cover that rollback. Neither is its tuple-valued `MAX_MOVIES_TO_ENRICH`, which is a configuration defect. The loop runs over a given worklist.
- `SearchOrchestrator.KeywordRowsAnswer`: `%` and `_` in the user's query are taken literally, not as SQL `LIKE` wildcards.
- Case-insensitive matching is ASCII lower-casing. Unicode case folding is not modelled.
- Regular-expression matching is over the whole question as one line. `$` before a trailing newline is not modelled.
- The base `SELECT` of the recommendation query has its white space condensed. The database's evaluation of the query text is a parameter (`run`).
- `MovieSave.Save`: `if not movie` also refuses an empty details object `{}`. The model cannot tell `{}` apart from details whose keys are all null, so it refuses only missing details. An empty reply is saved as a row with null fields.
- `VectorIndex.IndexFiles.Rebuild` and `VectorIndex.IndexFiles.AddMovie`: a failed write leaves the old file. A file left half-written by a failed `json.dump` is not modelled.
- `VectorIndex.IndexFiles.AddMovie`: the movie is read through a record-store lookup that returns no directors or cast. The embedded text therefore has empty director and cast lists, and the model fixes them as empty.
- The keyword results do not carry the box-office columns (`box_office_worldwide`, `box_office_domestic`, `box_office_foreign`) that the keyword query also selects, because only the HTTP layer, which is not part of this model, reads them.
