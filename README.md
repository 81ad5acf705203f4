# Kinic memory service on Monad: a verified model

This project models the core of a memory service that has two halves. Text memories are stored as vector embeddings in a Kinic canister on the Internet Computer. Their metadata is logged on the Monad blockchain:

- title, summary, comma-separated tags and content hash;
- user, operation code (0 = insert, 1 = search) and timestamp.

The model covers five pieces of the service:

- **Metadata extraction** (`MetadataExtractor`, metadata.dfy): the title, summary and keyword tags derived from a text, and its `0x`-prefixed SHA-256 content hash.
- **Ledger client** (`MonadLogger`, monad_logger.dfy):
  - how title, summary and hash are normalised before `logMemory` is called;
  - which operation code each entry point submits;
  - how the transaction outcome is reported;
  - how a stored record is read back by `get_memory`.
- **Cache** (`Cache.MonadCache`, cache.dfy, with the values it is specified by in `CacheIndex`, cache_index.dfy):
  - an in-memory mirror of the ledger, filled by a sequential fold over ledger ids;
  - two inverted indices, from lower-cased tag and from lower-cased user to positions in the record list;
  - tag, title, summary, user and recency queries, gated by the `synced` flag;
  - tag statistics, trending tags and cache statistics.
- **Kinic client** (`KinicClient`, kinic_client.dfy):
  - the `principal|tag: content` text that `insert` stores;
  - how `search` decodes that text, keeps only the caller's own entries and stops at `top_k`.
- **API-key check** (`Auth`, auth.dfy).

Shared modules:

- `Text`: Python's `str` operations, with CPython's exact whitespace set for `strip()` and ASCII `lower()`.
- `Seqs`:
  - Python slicing `s[:n]` for every integer `n`;
  - the stable `sort(reverse=True)`;
  - dictionary key order;
  - `max(key=)`.
- `Bytes`: `bytes.hex()`, `bytes.fromhex` and UTF-8.
- `Wrappers`: `Option`/`Result`.

The parts of the service that talk to the outside world are parameters of the model:

| outside world | modelled as |
|---|---|
| SHA-256 | `seq<Byte> -> Digest` |
| the ledger read by the cache | the total (`None` when reading it raised) and `nat -> Option<RawMemory>` |
| `datetime.now()` | an `int` |
| the fate of a sent transaction | `LogRequest -> TxOutcome` |
| the embedding service | the sequence of vectors it returned |
| the canister calls | `Result`/`Option`-valued functions |

Float scores and vectors are an opaque type parameter `F`.

Query limits are modelled over all integers, with the source's own behaviour for small values:

- the loop-then-break queries (`search_by_tags`, `search_by_title`, `search_by_summary`, the `top_k` loop of `search`) append before they test the limit. They therefore keep `max(limit, 1)` results (`Seqs.LoopLimit`).
- the slicing queries (`get_recent`, `get_by_user`, `get_trending_tags`) use Python's `[:limit]`, including negative limits.

src/models.py declares bounded request fields (`limit` 1-100 at line 114, `top_k` 1-20 at line 33 and 1-10 at line 76). Nothing in the repository constructs a `MonadCache`, and `MonadSearchRequest` is not passed to any cache call; `KinicClient.search` is called from src/main.py:218-221 and src/main.py:300-303 with a validated `top_k`. The model therefore states every query for all integers and imposes no precondition on the limit.

## Model

| member | source | states |
|---|---|---|
| MetadataExtractor.ExtractMetadata | src/metadata.py:11-38 | title at most 100 and summary at most 200 characters; the hash is "0x" plus 64 lower-case hex digits (66 characters) |
| MetadataExtractor.ExtractTitle | src/metadata.py:41-71 | the title is never longer than 100 characters |
| MetadataExtractor.TitleFromHeading | src/metadata.py:53-63 | the first stripped line starting with '#' gives the title (its leading '#'s removed, then stripped, cut to 100), even when a plain line comes before it |
| MetadataExtractor.TitleFromFirstLine | src/metadata.py:65-69 | without any heading line, the title is the first non-blank line, stripped and cut to 100 |
| MetadataExtractor.UntitledWhenBlank | src/metadata.py:53-71 | a blank text gives "Untitled"; a non-blank text always has a non-blank line |
| MetadataExtractor.BareHashTitle | src/metadata.py:61-63 | a text that is just "#" has the empty title |
| MetadataExtractor.PlainLineTitle | src/metadata.py:53-69 | a single stripped line of at most 100 characters that does not start with '#' is its own title |
| MetadataExtractor.FirstHeadingAt | src/metadata.py:55-63 | the first heading loop returns the text of the first heading line |
| MetadataExtractor.NoHeading | src/metadata.py:55-63 | without a heading line the first loop finds nothing |
| MetadataExtractor.FirstNonBlankAt | src/metadata.py:66-69 | the fallback loop returns the first non-blank line, stripped |
| MetadataExtractor.RemoveHeadingMarks | src/metadata.py:86 | removing heading markers never lengthens the text, and a text without '#' is unchanged |
| MetadataExtractor.ExtractSummary | src/metadata.py:74-105 | the summary is never longer than 200 characters |
| MetadataExtractor.SummaryFromLongParagraph | src/metadata.py:86-101 | the summary is the first cleaned paragraph longer than 20 characters, with newlines turned into spaces, stripped and cut to 200 |
| MetadataExtractor.SummaryWithoutParagraphs | src/metadata.py:92-95 | when no cleaned paragraph is non-blank, the summary is the original content, markup included, with newlines turned into spaces, stripped and cut to 200 |
| MetadataExtractor.SummaryFromFirstParagraph | src/metadata.py:103-105 | when every paragraph is short, the summary is the first one, flattened and cut to 200 |
| MetadataExtractor.FirstLongAt | src/metadata.py:98-101 | the paragraph loop picks the first paragraph longer than 20 characters |
| MetadataExtractor.NoLong | src/metadata.py:98-105 | with only short paragraphs the loop finds nothing |
| MetadataExtractor.WordsShape | src/metadata.py:123 | every word is a non-empty run of word characters taken from the text |
| MetadataExtractor.WordsCount | src/metadata.py:123 | there are exactly as many words as maximal runs of word characters |
| MetadataExtractor.WordsAt | src/metadata.py:123 | every maximal run of word characters is a word, at the index given by the number of runs before it (so in text order) |
| MetadataExtractor.Candidates | src/metadata.py:123-138 | every counted word has at least 4 characters and is not a stopword |
| MetadataExtractor.CandidatesCount | src/metadata.py:123-138 | a word of at least 4 characters that is not a stopword is counted as often as it occurs; any other word is not counted |
| MetadataExtractor.RunIsCandidate | src/metadata.py:120-147 | a run of at least 4 word characters in the lower-cased text without markup that is not a stopword is counted, so the text has at least one keyword |
| MetadataExtractor.RankedShape | src/metadata.py:144-147 | min(5, number of distinct counted words) keywords, pairwise distinct, each one of the counted words |
| MetadataExtractor.RankedOrder | src/metadata.py:144 | keywords are ordered by frequency, most frequent first; words of equal frequency keep their first-occurrence order |
| MetadataExtractor.RankedTop | src/metadata.py:144 | a counted word that was left out occurs no more often than any keyword |
| MetadataExtractor.RankedEmpty | src/metadata.py:125-141 | there are no keywords exactly when no word qualifies |
| MetadataExtractor.KeywordsAreWords | src/metadata.py:120-138 | every keyword is lower-case, made of word characters, at least 4 long and not a stopword |
| MetadataExtractor.KeywordsHaveNoOuterCommas | src/metadata.py:148 | the keyword string has no leading or trailing comma, and is "" exactly when there are no keywords |
| MetadataExtractor.JoinNoOuterCommas | src/metadata.py:148 | joining comma-free words with ',' leaves no outer comma, and gives "" only for no words |
| MetadataExtractor.TagsWithoutUserTags | src/metadata.py:27-28 | without user tags (None or ""), the tags are exactly the keywords |
| MetadataExtractor.TagsWithUserTags | src/metadata.py:27-28 | for any non-empty user tags: with keywords, the user tags minus their leading commas, one ',' and the keywords, or just the keywords when the user tags are only commas; without keywords, the user tags minus the commas at both ends |
| MetadataExtractor.TagsWithPlainUserTags | src/metadata.py:27-28 | user tags without a leading or trailing comma are kept as given, followed by one ',' and the keywords when there are any |
| MetadataExtractor.CombineWithoutUser | src/metadata.py:27-28 | without user tags, combining leaves a string with no outer comma unchanged |
| MetadataExtractor.CombineWithUser | src/metadata.py:27-28 | with non-empty user tags and keywords without outer commas: no keywords gives the user tags with the commas at both ends stripped; otherwise the keywords alone when the user tags are only commas, else the user tags minus their leading commas, ',' and the keywords |
| MetadataExtractor.CombineWithPlainUser | src/metadata.py:27-28 | user tags without outer commas are kept as given, followed by ',' and the keywords when they are not empty |
| MetadataExtractor.ContentHash | src/metadata.py:31 | "0x" followed by 64 lower-case hex digits |
| Bytes.Hex | src/metadata.py:31 | `hexdigest()` gives two lower-case hex digits per byte |
| Bytes.FromHexOfHex | src/monad.py:147 | `bytes.fromhex` of `bytes.hex()` gives the bytes back |
| Bytes.HexOfFromHex | src/monad.py:147 | lower-case hex of even length decodes, and re-encoding the bytes (as `get_memory` does) gives the same text |
| Bytes.Utf8 | src/metadata.py:31 | UTF-8 takes between one and four bytes per character |
| MonadLogger.Truncate | src/monad.py:138-141 | the result is at most `max` long; a string that fits is unchanged; a longer one becomes its first `max - 3` characters followed by "..." (exactly `max`) |
| MonadLogger.TruncateIdempotent | src/monad.py:138-141 | truncating twice is truncating once |
| MonadLogger.StripHexPrefix | src/monad.py:144-145 | removes one leading "0x" when there is one, and changes nothing otherwise |
| MonadLogger.Normalize | src/monad.py:137-147 | the request carries the caller's operation and tags, a title of at most 100 and a summary of at most 200 characters; it fails exactly when the hash without its prefix is not hexadecimal |
| MonadLogger.PrefixedTitleFits | src/monad.py:138-139 | a title with a prefix of at most 97 characters (such as "Search: " in src/main.py:231) still starts with the prefix once normalised, and is unchanged when prefix and title fit in 100 |
| MonadLogger.LogOperations | src/monad.py:74-114 | `log_insert` is `log_search` with the operation code of the submitted request replaced by 0; both return the hex error when the hash is not hexadecimal |
| MonadLogger.LogInsertSubmits | src/monad.py:74-93 | `log_insert` submits operation 0, the title cut to 100, the summary cut to 200, the tags unchanged and the decoded hash bytes, and reports the ledger's outcome (hash, build error or send error) |
| MonadLogger.LogSearchSubmits | src/monad.py:95-114 | `log_search` submits operation 1 with the same normalisation and reports the ledger's outcome the same way |
| MonadLogger.LogMemoryOutcome | src/monad.py:151-193 | once sent, the transaction hash is returned whether the receipt succeeds, fails or times out; a failure to build or send is an error, and a non-hex hash is an error before anything is sent |
| MonadLogger.GetMemoryHash | src/monad.py:195-215 | the read-back hash is "0x" plus the hex of the stored 32 bytes, which decodes back to those bytes |
| MonadLogger.HashRoundTrip | src/monad.py:144-147 | a hash of the form `extract_metadata` produces is logged as 32 bytes, and `get_memory` reads it back as the same string |
| MonadLogger.MetadataHashRoundTrip | src/metadata.py:31 | the logged bytes are the SHA-256 digest of the text, and `get_memory` reports the same hash that `extract_metadata` computed |
| CacheIndex.Fetched | src/monad_cache.py:52-62 | the fetch loop caches at most `total` records, each with an id below `total` |
| CacheIndex.FetchedIdsIncreasing | src/monad_cache.py:54-58 | cached ids are strictly increasing |
| CacheIndex.FetchedRecords | src/monad_cache.py:56-58 | every cached record is what the ledger returned for its id |
| CacheIndex.FetchedComplete | src/monad_cache.py:54-61 | every id whose fetch succeeds is cached; only failed fetches are skipped |
| CacheIndex.FetchedPositions | src/monad_cache.py:54-58 | a record's id is at least its position, and the two are equal when no fetch fails |
| CacheIndex.Add | src/monad_cache.py:93-98 | appending to a `defaultdict(list)` adds the key at the end only when it is new |
| CacheIndex.AddBucket | src/monad_cache.py:93-98 | appending under one key leaves every other list as it was |
| CacheIndex.AddKeys | src/monad_cache.py:93-98 | appending keeps the index well formed, with keys in first-insertion order |
| CacheIndex.TagPieces | src/monad_cache.py:88-92 | the pieces a record is filed under are never empty |
| CacheIndex.TagIndexKeys | src/monad_cache.py:83-93 | the tag index is well formed, and its keys are the distinct tag pieces in first-seen order |
| CacheIndex.TagIndexCounts | src/monad_cache.py:86-93 | position q occurs in the list of tag t once per occurrence of t among record q's pieces, and never beyond the end |
| CacheIndex.TagIndexBounded | src/monad_cache.py:86-93 | every position in a tag's list is below the number of records |
| CacheIndex.TagIndexAscending | src/monad_cache.py:86-93 | each tag's list is in increasing position order |
| CacheIndex.EmptyTagAbsent | src/monad_cache.py:91-92 | nothing is filed under the empty tag |
| CacheIndex.TagCount | src/monad_cache.py:291 | a tag's count (the length of its list in the tag index) is its number of occurrences among all records' pieces |
| CacheIndex.UserIndexKeys | src/monad_cache.py:84-98 | the user index is well formed, and its keys are the distinct non-empty lower-cased users in first-seen order |
| CacheIndex.UserIndexBucket | src/monad_cache.py:96-98 | user u's list holds exactly the positions whose lower-cased user is u, and u is non-empty |
| CacheIndex.UserIndexAscending | src/monad_cache.py:86-98 | each user's list is strictly increasing |
| CacheIndex.UserIndexBounded | src/monad_cache.py:86-98 | every position in a user's list is below the number of records |
| CacheIndex.UserIndexSelect | src/monad_cache.py:273-274 | reading a user's positions gives that user's records in cache order |
| CacheIndex.Matching | src/monad_cache.py:170-178 | the matches of a scan are cached records that pass the filter, at most all of them |
| CacheIndex.MatchingMembers | src/monad_cache.py:170-178 | a record is among the matches exactly when it is cached and passes the filter |
| CacheIndex.MatchingPrefix | src/monad_cache.py:170-181 | the matches among the first i records are the first matches overall |
| CacheIndex.ScanStep | src/monad_cache.py:170-178 | scanning one more record appends it exactly when it matches |
| CacheIndex.ScanStop | src/monad_cache.py:180-181 | a scan that stops after reaching n matches holds the first n matches overall |
| CacheIndex.ScanDone | src/monad_cache.py:170-181 | a scan that reaches the end below the cap holds every match |
| CacheIndex.EmptyTitleQuery | src/monad_cache.py:167-178 | an empty title query without an operation filter matches every record |
| CacheIndex.EmptySummaryQuery | src/monad_cache.py:206-212 | an empty summary query matches every record |
| CacheIndex.SortByTimestamp | src/monad_cache.py:143 | the sort is a permutation, newest first |
| CacheIndex.ScanFacts | src/monad_cache.py:167-186 | a scanning search returns min(n, matches) records, all matching, newest first, and all matches when there are at most n |
| CacheIndex.TagHitsMeaning | src/monad_cache.py:124-127 | a position is a hit exactly when it is a cached record one of whose pieces is a query tag |
| CacheIndex.TagHitOf | src/monad_cache.py:124-127 | a record that carries a query tag is a hit |
| CacheIndex.TagHitWitness | src/monad_cache.py:124-127 | every hit carries some query tag |
| CacheIndex.TagHitsOrderFree | src/monad_cache.py:124-127 | the hits depend only on the set of query tags, not on their order or repetitions |
| CacheIndex.QueryTagsIgnoreCase | src/monad_cache.py:121 | the query tags do not depend on the case of the query |
| CacheIndex.BlankTagQuery | src/monad_cache.py:121-127 | a query of only whitespace and commas has only empty query tags and hits nothing |
| CacheIndex.TagHitsBounded | src/monad_cache.py:131-132 | every hit is a valid position into the records |
| CacheIndex.EligibleRecord | src/monad_cache.py:131-137 | an eligible hit is a cached record that passes the operation filter and carries a query tag |
| CacheIndex.TagResultsMatch | src/monad_cache.py:130-143 | whatever eligible hits are picked, the results are cached records with a query tag that pass the operation filter |
| CacheIndex.CountOp | src/monad_cache.py:322-323 | a count of one operation never exceeds the number of records |
| CacheIndex.OperationCounts | src/monad_cache.py:322-330 | inserts plus searches are at most the number of records, with equality exactly when every operation is 0 or 1 |
| CacheIndex.RecentFacts | src/monad_cache.py:241-248 | the recent records pass the filter and are newest first; for limit >= 0 there are min(limit, filtered) of them; none left out is newer than one kept |
| CacheIndex.TagStatsCounts | src/monad_cache.py:291 | one entry per distinct tag piece, in first-seen order, with its number of occurrences among all records' pieces |
| CacheIndex.TrendingFacts | src/monad_cache.py:303-305 | for limit >= 0, min(limit, tags) pairs of tag statistics; counts non-increasing; ties in first-seen tag order; no tag left out is used more than one kept |
| CacheIndex.MostActive | src/monad_cache.py:333-334 | None exactly when there are no users; otherwise the first user in key order whose list is longest |
| Cache.MonadCache.constructor | src/monad_cache.py:17-29 | an empty, unsynced cache with empty indices and no last sync |
| Cache.MonadCache.BuildIndices | src/monad_cache.py:81-98 | the indices are rebuilt from the records alone, whatever they held before; records and flags are unchanged |
| Cache.IndexAll | src/monad_cache.py:86-98 | the loop over the records yields exactly the tag index and the user index of all records |
| Cache.IndexRecord | src/monad_cache.py:87-98 | one record is filed under each of its non-empty stripped lower-cased tag pieces, and under its lower-cased user when that is non-empty |
| Cache.MonadCache.SyncFromBlockchain | src/monad_cache.py:31-79 | if reading the total raises, nothing changes; a total of 0 sets synced and the sync time and keeps the old records; otherwise the records become the ordered fetch of ids 0..total-1 with failures skipped, the indices are rebuilt, synced is set and the sync time recorded |
| Cache.MonadCache.Refresh | src/monad_cache.py:337-339 | the same as a sync |
| Cache.MonadCache.SearchByTags | src/monad_cache.py:100-145 | [] when unsynced; otherwise the returned positions are distinct eligible hits, min(max(limit,1), eligible) of them, which ones unspecified, and the answer is their records newest first |
| Cache.MonadCache.SearchByTitle | src/monad_cache.py:147-186 | [] when unsynced; otherwise the first max(limit,1) records in cache order whose lower-cased title contains the lower-cased query and that pass the operation filter, then sorted newest first |
| Cache.MonadCache.SearchBySummary | src/monad_cache.py:188-220 | [] when unsynced; otherwise the first max(limit,1) records whose lower-cased summary contains the lower-cased query, then sorted newest first |
| Cache.ScanMatches | src/monad_cache.py:168-181 | the append-then-break loop of `search_by_title` (and the same loop in `search_by_summary`) keeps exactly the first max(limit,1) matches in cache order |
| Cache.CollectHits | src/monad_cache.py:123-127 | the loop over the query tags collects exactly the union of their positions in the tag index |
| Cache.MonadCache.GetRecent | src/monad_cache.py:222-248 | [] when unsynced; otherwise the filtered records sorted newest first and then cut with `[:limit]` |
| Cache.MonadCache.GetByUser | src/monad_cache.py:250-279 | [] when unsynced; otherwise the user's first `[:limit]` records in cache order, sorted newest first; [] for an unknown user |
| Cache.MonadCache.GetTagStats | src/monad_cache.py:281-291 | {} when unsynced; otherwise each tag with its list length |
| Cache.MonadCache.GetTrendingTags | src/monad_cache.py:293-305 | [] when unsynced; otherwise the tag statistics stably sorted by count, descending, cut with `[:limit]` |
| Cache.MonadCache.GetStats | src/monad_cache.py:307-335 | synced=false with zero totals when unsynced; otherwise the total is the number of records, the insert and search counts are the numbers of records with operation 0 and 1 (their sum is the total exactly when every operation is 0 or 1), `last_sync` is the recorded sync time, the unique tags and users are the numbers of distinct tag pieces and users, and the most active user is the first key with a longest list (None without users) |
| Cache.PickEligible | src/monad_cache.py:130-143 | for any iteration order of the hit set, picks distinct eligible positions, min(max(limit,1), eligible) of them, and returns their records newest first |
| Cache.FetchAll | src/monad_cache.py:52-62 | the fetch loop computes exactly the ordered fetch with failures skipped |
| Cache.AddPieces | src/monad_cache.py:90-93 | the inner loop files the position under each non-empty stripped piece, in order |
| KinicClient.Insert | src/kinic_client.py:117-191 | no embedding gives the "Failed to generate embeddings" error with the caller's tag; otherwise the canister receives the first vector and `final_tag: content`; success reports the id, the vector length and the final tag; failure reports the error with the caller's tag |
| KinicClient.InsertWithoutEmbedding | src/kinic_client.py:136-141 | without an embedding the result is an error that does not depend on the canister |
| KinicClient.FormatOneFacts | src/kinic_client.py:248-271 | without a principal every result is kept, with the stripped text after the first ':' and the stripped tag before it (tag "" and the text unchanged when there is no ':'); with a principal, a result is kept exactly when its tag starts with the principal followed by a vertical bar, and the reported tag is what follows the first vertical bar; the score is carried over |
| KinicClient.Formatted | src/kinic_client.py:247-271 | the principal filter keeps at most as many results as the canister returned |
| KinicClient.UnfilteredFormatting | src/kinic_client.py:247-271 | without a principal, every result yields one entry, in canister order |
| KinicClient.FilteredOrigin | src/kinic_client.py:257-271 | with a principal, every entry comes from a result whose tag carries that principal's scope, with the same score and text |
| KinicClient.FormatResults | src/kinic_client.py:246-275 | the loop returns the first max(top_k,1) entries kept by the filter, in canister order |
| KinicClient.FormatNext | src/kinic_client.py:248-271 | one pass of the loop body appends the hit of the next result exactly when the filter keeps it, and reports whether it did |
| KinicClient.Search | src/kinic_client.py:193-288 | [] without an embedding or when the canister call fails; otherwise the formatted, capped results |
| KinicClient.UntaggedText | src/kinic_client.py:248-254 | without a principal, a text with no ':' comes back unchanged with tag "" |
| KinicClient.TaggedTextRoundTrip | src/kinic_client.py:248-265 | decoding the text `insert` stored gives back the caller's tag and content, when principal and tag have no ':', the principal has no vertical bar, and none of the three has surrounding whitespace |
| KinicClient.SplitTaggedText | src/kinic_client.py:248-254 | the text `insert` stored splits back into the final tag and the content |
| KinicClient.ScopedTag | src/kinic_client.py:259-265 | a principal-scoped tag, as `insert` builds it, passes the principal filter and splits back into the tag |
| Auth.VerifyApiKey | src/auth.py:13-44 | open without a configured key; 401 "Missing API Key…" for a missing or empty header; 401 "Invalid API Key" for a different header; otherwise the header is returned |
| Auth.AcceptedExactly | src/auth.py:30-44 | with a key configured, a request is accepted exactly when the header equals the key, the header is returned, and every refusal is a 401 |
| Auth.OpenWithoutKey | src/auth.py:24-28 | without a configured key the result is Open, whatever the header |
| Text.Strip | src/metadata.py:56 | `strip()` leaves no whitespace at either end, leaves a trimmed string unchanged, and gives "" exactly for blank text |
| Text.Lower | src/monad_cache.py:88 | `lower()` keeps the length and leaves no upper-case letter |
| Text.LowerIdempotent | src/monad_cache.py:121 | lower-casing twice is lower-casing once |
| Text.JoinSplitOn | src/metadata.py:53 | joining `split(sep)` with sep gives the text back |
| Text.SplitFirst | src/kinic_client.py:251 | `split(":", 1)` gives the text before the first occurrence and the text after it |
| Text.SplitFirstAt | src/kinic_client.py:251 | the split at the first occurrence is determined when the first part does not contain the separator |
| Text.StripLower | src/monad_cache.py:88-91 | stripping and lower-casing commute |
| Text.SplitOnLower | src/monad_cache.py:88-90 | splitting a lower-cased text gives the lower-cased pieces |
| Text.NonEmptyStripped | src/monad_cache.py:90-92 | the kept pieces are stripped and non-empty |
| Seqs.PyTake | src/monad_cache.py:248 | Python's `[:n]` gives a prefix of length min(n, len) for n >= 0, and drops -n elements from the end for n < 0 |
| Seqs.LoopLimit | src/monad_cache.py:137-140 | an append-then-break loop keeps at least one result, and exactly `limit` when limit >= 1 |
| Seqs.SortDesc | src/monad_cache.py:304 | the sort is a permutation with non-increasing keys |
| Seqs.SortDescStable | src/monad_cache.py:304 | elements with equal keys keep their input order |
| Seqs.SortedPrefix | src/monad_cache.py:304-305 | a cut of the sort is ordered, stable, and drawn from the input |
| Seqs.TopOfSorted | src/monad_cache.py:247-248 | an element cut off has a key no larger than any element kept |
| Seqs.Dedup | src/monad_cache.py:93-98 | dictionary key order: exactly the elements, each once |
| Seqs.FirstMax | src/monad_cache.py:333 | `max(key=)`: a largest element, and the first one |
| Seqs.SelectTake | src/monad_cache.py:273-274 | cutting the positions or cutting the selected records gives the same records |

## Behaviour worth noting

- Tag search (src/monad_cache.py:129-143) cuts at `limit` while iterating a `set` of positions, and sorts by timestamp afterwards. Which records survive the cut is therefore not determined by the code; the model leaves the iteration order open.
- `get_by_user` (src/monad_cache.py:273-277) keeps the first `limit` positions of the user's list, which is in cache order, and only then sorts them.
- Trending ties (src/monad_cache.py:304): the sort is stable, so tags with equal counts stay in first-seen order. In a ledger whose first record is tagged "zkml,ai", "zkml" comes before any later tag with the same count.
- A sync with a ledger total of zero (src/monad_cache.py:43-47) sets `synced` and the sync time and returns early, keeping whatever records and indices the cache held before.

## Left out

- I/O is not modelled: HTTP calls to the embedding service, candid encoding and decoding, PEM identity parsing, web3 transaction building, signing and receipt polling. The results of these calls are inputs to the model.
- The `asyncio`/`run_in_executor` machinery is left out: a sync is a plain sequential loop, and `refresh` does the same thing as a sync.
- Concurrency is left out: two syncs running at once, or a query during a sync, are not modelled.
- SHA-256 (FIPS 180-4) is an uninterpreted function that returns 32 bytes.
- `datetime.now()` is an opaque integer, and `last_sync.isoformat()` is that value.
- Float scores (`float(score)`) and float32 vectors are an opaque type parameter.
- Python's Unicode `lower()` and `\w` are restricted to ASCII. `strip()` and `\s` use CPython's whitespace set.
- Cache.MonadCache.SearchByTags: which eligible records survive the cut depends on CPython's set iteration order. The model leaves it open (any order), so it promises only that some distinct eligible subset of the stated size is returned.
- KinicClient.Insert: the memory id is a `nat`. The canister's nat32 bound is not modelled.
- The printing (`print`, `traceback`) in every core file is not modelled.
- The parts of MonadLogger that read the chain (`get_user_memory_count`, `get_total_memories`) are left out. They are plain contract calls; the cache receives the total as a parameter.
- get_memory's dictionary keys are modelled as record fields, so `memory.get('tags', '')` always finds its field.
- The request validation bounds of the web layer (limit 1-100, `top_k` 1-10 or 1-20, `op_type` 0-1) are not preconditions. The model covers every integer.
- MetadataExtractor.ContentHash: `content.encode()` (src/metadata.py:31) raises `UnicodeEncodeError` for a lone surrogate. A Dafny `char` cannot hold one, so that error path is not modelled.
