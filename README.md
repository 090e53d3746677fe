# cf-ladder-backend in Dafny

This project models the core of cf-ladder-backend, a Codeforces training ladder. The
Express backend keeps a MongoDB collection of contest documents. It fills the collection
from the Codeforces API in three variants of `POST /api/contests/sync`:

- `routes/contests.ts` probes contest ids after the highest stored one;
- `routes/contests.js` picks the contests that are missing from the store;
- `backend/routes/contests.ts` picks the finished contests that started after a watermark.

The backend also serves:

- the contest read routes, grouped by division, plus the sync status and the per-id lookup and refresh;
- the problem list, joined with the solve statistics and held in a time-limited in-memory cache.

The Next.js front end covers:

- the home page state, the ladder, the problem list with its sorting and paging, the
  rating and tag selectors, and their colours;
- the unsolved grid and the user-info form;
- the applause counter with its per-address rate limit, which lives in Redis;
- the bug-report mailer, which escapes the message as HTML.

A one-off script (`scripts/insert-contest-2169.mjs`) builds one contest document and
merges it into the JSON cache file.

The database is a `map<int, StoredContest>` keyed by contest id. Network answers, the
clock, environment settings and the browser's storage are parameters of the operations
that read them. Each sync route is a method that returns the response and the new store.
Objects that the source updates in place are classes whose methods state their whole new
state; every class here works that way. Those classes are the in-memory problem cache,
the Redis counters, the tag-colour memo and the React components' state. JavaScript's
`Array.prototype.sort` is modelled as a stable insertion sort (module `Sorting`), proved
sorted and a permutation. `localeCompare` is ordinal string order. `toLowerCase` is ASCII
case folding. `parseInt` is a decimal scanner with JavaScript's leading-whitespace, sign
and trailing-garbage rules (module `Strings`).

The script's file name says 2169, but the id its code fetches and stores is 2185; the
model follows the code.

## Model

| member | source | states |
|---|---|---|
| ContestModel.ByIndexTotalPreorder | routes/contests.ts:183-187 | the problem comparator (missing index read as "", ordinal order) is total and transitive, so the sort of a contest's problems is well defined |
| ContestModel.SortProblems | routes/contests.ts:183-187 | the sorted problems are a permutation of the contest's problems, ordered by index |
| ContestModel.CfByIndexTotalPreorder | routes/contests.ts:470-472 | the comparator on raw Codeforces problems used by the refresh route is a total preorder |
| ContestModel.CopyProblems | routes/contests.ts:198-206 | one stored problem per raw problem, in the same order, each a field-by-field copy with missing tags stored as [] |
| ContestModel.InsertThenCopy | routes/contests.ts:183-206 | inserting a raw problem into a sorted list and then copying gives the same result as copying first and inserting the copy |
| ContestModel.SortThenCopy | routes/contests.ts:183-206 | sorting the raw problems in place and then copying them (as the route does) equals sorting the copies |
| ContestModel.SyncDocument | routes/contests.ts:189-217 | the document built for a contest keeps its id, name, type, phase, frozen flag, duration, relative time and the other listed fields, stamps `lastSynced` with the sync time, reads a missing start time as 0, and holds a permutation of the copied problems sorted by index |
| ContestModel.NormalizeProblems | routes/contests.ts:106-114 | one problem per raw problem, in order; each is stamped with the probed contest id, a missing type becomes "PROGRAMMING" and missing tags become [] |
| ContestModel.PlannedInserts | routes/contests.ts:219-226 | every document queued for the batch insert has an id that is not in the store |
| ContestModel.PlannedInsertsAreDocuments | routes/contests.ts:189-226 | every queued document is the sync document of one of the processed contests, and its problems are sorted |
| ContestModel.AppliedUpdates | routes/contests.ts:219-223 | the in-place updates keep the store's set of ids |
| ContestModel.AppliedUpdatesEntries | routes/contests.ts:219-223 | after the updates each entry is either unchanged or the sync document of a processed contest with that id |
| ContestModel.AppliedUpdatesWellKeyed | routes/contests.ts:219-223 | the updates keep every document stored under its own id |
| ContestModel.CountStored | routes/contests.ts:221-223 | the number of updated contests is at most the number processed |
| ContestModel.UpsertAccounting | routes/contests.ts:219-226 | each processed contest is counted exactly once: queued inserts plus updates equal the contests processed |
| ContestModel.PlannedInsertsCover | routes/contests.ts:224-226 | every processed contest whose id is not stored has its document queued |
| ContestModel.NothingStoredNoUpdates | routes/contests.ts:219-226 | when no processed contest is stored, nothing is updated and the store is unchanged |
| ContestModel.NothingStoredAllPlanned | routes/contests.ts:219-226 | when no processed contest is stored, the queue holds every contest's document in the processing order |
| ContestModel.DocumentsSnoc | routes/contests.ts:224-226 | appending the next contest's document to a queue of the documents so far gives the documents of the longer prefix |
| ContestModel.AppliedUpdatesSorted | routes/contests.ts:183-223 | every updated document's problems are sorted by index |
| ContestModel.UpsertStored | routes/contests.ts:220-223 | one step for a stored contest replaces its entry with the new document, queues nothing and counts one update |
| ContestModel.UpsertNew | routes/contests.ts:220-226 | one step for a new contest changes no entry, queues its document at the end and counts no update |
| ContestModel.UpsertOne | routes/contests.ts:179-227 | one iteration of the insert-or-update loop carries the store, the queue and the update count from one prefix of the contests to the next |
| ContestModel.InsertOrUpdate | routes/contests.ts:179-227 | the loop ends with the updated store, the queue of new documents and the update count; queued plus updated equals processed; ids are kept and queued ids are new |
| ContestModel.MaxOrZero | routes/contests.ts:81-82 | the highest of a set of ids, or 0 when the store is empty (`highestContest?.id \|\| 0`) |
| ContestModel.AddAllKeeps | routes/contests.ts:230-233 | a batch insert leaves a stored entry unchanged when no inserted document has its id |
| ContestModel.AddAllHas | routes/contests.ts:230-233 | after a batch insert of documents with fresh ids, each inserted document is stored under its id |
| ContestModel.InsertMany | routes/contests.ts:230-233 | `insertMany` inserts at most the given documents and never changes stored entries; with fresh, distinct ids it adds them all and succeeds, and otherwise it fails |
| ContestModel.InsertManyAddsOnlyDocs | routes/contests.ts:230-233 | every entry the insert adds is one of the given documents, stored under its own id |
| ContestModel.OrderedInsertIsPrefix | routes/contests.ts:230-233 | an ordered insert writes exactly the first `inserted` documents, in order, and all of them when it succeeds |
| ContestModel.OrderedInsertStopsAtDuplicate | routes/contests.ts:230-233 | a failed ordered insert stops at a document whose id is already stored once the documents before it are inserted |
| ContestModel.FailedOrderedInsert | routes/contests.ts:230-233 | a failed ordered insert leaves the store with the documents before the first duplicate id added, and nothing else |
| ContestModel.UpsertStoresSorted | routes/contests.ts:179-233 | after the updates and a successful batch insert, every processed contest is stored with its problems sorted by index |
| ContestQueries.LowerIdempotent | routes/contests.ts:335 | lowering a lowered name changes nothing |
| ContestQueries.CategorizeIgnoresCase | routes/contests.ts:334-367 | the category of a contest name does not depend on letter case |
| ContestQueries.DivisionMarkersWin | routes/contests.ts:334-367 | a name with any division marker is classified by division, never as Global, Educational or Others |
| ContestQueries.Div1Div2Exactly | routes/contests.ts:337-340 | a name is in the combined division exactly when it contains both "div. 1" and "div. 2" |
| ContestQueries.OthersExactly | routes/contests.ts:334-367 | a name falls in Others exactly when it has no division marker and mentions neither "global" nor "educational" |
| ContestQueries.AbsentCharNotContained | routes/contests.ts:334-367 | a substring that uses a character the name lacks is not contained in it |
| ContestQueries.LowerKeepsAbsentChar | routes/contests.ts:335 | lowering does not introduce a non-letter character |
| ContestQueries.EducationalRatedForDiv2 | routes/contests.ts:334-367 | an Educational round marked "(Div. 2)" is bucketed with Div. 2, because the division check comes first |
| ContestQueries.Bucket | routes/contests.ts:381-396 | a category's bucket is no longer than the contest list |
| ContestQueries.BucketsPartition | routes/contests.ts:381-396 | the buckets partition the contests: their sizes sum to the number of contests |
| ContestQueries.SizesOverNoRows | routes/contests.ts:381-396 | with no contests every bucket is empty |
| ContestQueries.SizesOverStep | routes/contests.ts:381-396 | one more contest adds one to exactly the bucket of its category |
| ContestQueries.AllCategoriesOnce | routes/contests.ts:370-379 | the category list names every category exactly once |
| ContestQueries.OnlyAt | routes/contests.ts:370-379 | a value found only at one position of a list occurs once in it |
| ContestQueries.BucketMembership | routes/contests.ts:381-396 | every contest's summary is in the bucket of its own category |
| ContestQueries.CategorizeAll | routes/contests.ts:381-416 | each category's list is its bucket cut to the limit, each count is that list's length, the total is the number of contests, and every summary reports zero problems |
| ContestQueries.BucketCountsZero | routes/contests.ts:315-390 | every summary reports zero problems: the pipeline's `$project` keeps no `problems` field, so `contest.problems?.length \|\| 0` is always 0 |
| ContestQueries.NeedsSyncStaysNeeded | routes/contests.ts:590-592 | once a sync is due it stays due as time passes |
| ContestQueries.NeedsSyncBoundary | routes/contests.ts:11 | a sync exactly one cache duration (6 hours, in milliseconds) after the last one is not yet due; one millisecond later it is |
| ContestQueries.SyncStatus | routes/contests.ts:583-599 | the last sync is absent exactly when the store is empty; otherwise it is the latest `lastSynced` of a stored document; the count is the store's size; `needsSync` is the freshness test |
| ContestQueries.GetContestChecked | routes/contests.ts:525-540 | answers 400 exactly when the id does not parse as an integer, and the stored contest exactly when the parsed id is stored; otherwise 404 |
| ContestQueries.GetContestUnchecked | backend/routes/contests.ts:507-515 | never answers 400; finds a contest exactly when the id parses and is stored |
| ContestQueries.GetContestVariantsAgree | backend/routes/contests.ts:507-515 | the variant without the 400 check answers like the checked one, because an unparsable id finds no document |
| ContestQueries.GetContestOfFormattedId | routes/contests.ts:525-540 | looking up the decimal text of an id finds exactly that id's document |
| ContestQueries.FindById | routes/contests.ts:457 | `find` returns the first contest with the id, and finds one exactly when some contest has it |
| ContestQueries.Refresh | routes/contests.ts:430-521 | 503 without a database, 500 when the contest list fails, 404 exactly when the id is not in the list; a refresh stores, under the id and changing nothing else, the sync document of the first listed contest with that id, which copies its fields, is stamped with the time and holds the sorted standings problems |
| ContestQueries.RefreshFound | routes/contests.ts:463-517 | for a listed contest, the refresh fails exactly when its standings cannot be fetched; otherwise it upserts that contest's sync document with the sorted standings problems |
| ContestQueries.ProblemsAll | routes/contests.ts:615-663 | an unparsable (NaN, `None`) or non-positive limit is an error; otherwise the rows are the first `limit` matching rows of the unwound problems |
| ContestQueries.ProblemsAllSound | routes/contests.ts:626-639 | every returned row matches the rating and tag filters and is a problem of a stored contest |
| ContestQueries.ProblemsAllComplete | routes/contests.ts:626-642 | when the matches are fewer than the limit, every matching problem is returned |
| ContestQueries.Dispatch | routes/contests.ts:52-612 | the router finds a handler exactly when some route matches the method and path |
| ContestQueries.DispatchAppend | routes/contests.ts:52-612 | routes are tried in order: the first table wins when it matches |
| ContestQueries.ParseIntSync | routes/contests.ts:528-530 | "sync" is not a number |
| ContestQueries.DispatchSkip | routes/contests.ts:52-612 | a route that does not match can be dropped from the table |
| ContestQueries.DispatchHead | routes/contests.ts:52-612 | a matching first route handles the request |
| ContestQueries.LeadingRoutesMissSync | routes/contests.ts:52-524 | no route before `GET /:id` matches `GET /sync` |
| ContestQueries.GetSyncShadowed | routes/contests.ts:525-534 | as written, `GET /sync` reaches `GET /:id`, which answers 400, so the 405 route is never used |
| ContestQueries.CorrectedGetSync | routes/contests.ts:607-612 | with the 405 route registered before `GET /:id`, `GET /sync` gets the 405 answer |
| ContestQueries.CorrectedRouteOrder | routes/contests.ts:525-612 | the corrected order dispatches every other request as before |
| ProbeSync.Probe | routes/contests.ts:103-147 | a probe hits exactly when the standings answer is OK, carries a contest, the contest's phase (missing read as "FINISHED") is FINISHED and it has a start time; a hit keeps one normalised problem per raw problem, each stamped with the probed id |
| ProbeSync.MissesAreTrailing | routes/contests.ts:140-150 | the miss counter after `n` probes counts exactly the trailing misses: the last `k` probes missed, and the probe before them hit |
| ProbeSync.HitsAreProbes | routes/contests.ts:94-139 | every discovered contest is the hit of a probed id between `highestId + 1` and `highestId + n` |
| ProbeSync.SnocIncreasing | routes/contests.ts:94-139 | appending a hit with a higher id keeps the hits in increasing id order |
| ProbeSync.HitsIncreasing | routes/contests.ts:94-139 | the hits are discovered in strictly increasing id order |
| ProbeSync.HitsComplete | routes/contests.ts:94-139 | no hit is lost: every probe among the first `n` that hit is among the discovered contests |
| ProbeSync.ProblemsByCid | routes/contests.ts:139 | the problem map has one entry per discovered id |
| ProbeSync.ProbeStep | routes/contests.ts:94-153 | one probe either appends its hit, records its problems and resets the counter, or adds one miss |
| ProbeSync.KeptGoingMeans | routes/contests.ts:94 | the loop ran `n` probes exactly when the miss counter stayed below ten before each of them |
| ProbeSync.ProbeLoop | routes/contests.ts:85-153 | the loop ends after between 1 and 5000 probes, with ten consecutive misses or the probe cap; its counter, hits and problem map are those of the probes run, and the loop condition held before each probe |
| ProbeSync.StoppedOnMisses | routes/contests.ts:94 | a loop stopped by misses has run at least ten probes, and the last ten missed |
| ProbeSync.FoundContestsFinished | routes/contests.ts:136-139 | every discovered contest is FINISHED, has a start time, and its problems carry its id |
| ProbeSync.Contests | routes/contests.ts:138 | the discovered contests, in discovery order |
| ProbeSync.Sync | routes/contests.ts:52-261 | 503 without a database; the probe starts after the highest stored id (0 for an empty store); "Already up to date" exactly when nothing was found; otherwise inserted plus updated equals found contests, the total counts their problems, the new store is the updates plus the batch insert, and every found contest is stored sorted; the answer is a success exactly when the batch has fresh, distinct ids and the cache file was written; a failed batch insert leaves the updates plus the documents before the first duplicate id; no stored id is ever lost |
| MissingSync.MissingContests | routes/contests.js:48-52 | the missing contests are exactly the listed contests that are FINISHED, have a start time and are not stored |
| MissingSync.ByStartTotalPreorder | routes/contests.js:65 | the start-time comparator is a total preorder |
| MissingSync.ToProcessPrefix | routes/contests.js:64-69 | the batch is the first min(50, n) of the n missing contests in start order |
| MissingSync.ToProcessMissing | routes/contests.js:69 | every contest in the batch is listed and missing |
| MissingSync.ToProcessOldest | routes/contests.js:64-69 | the batch is sorted by start time, and no missing contest left out starts before one in the batch |
| MissingSync.ToProcessAll | routes/contests.js:64-69 | with at most 50 missing contests, the batch is a permutation of all of them |
| MissingSync.Remaining | routes/contests.js:188 | the remaining count is `max(0, missing - 50)` |
| MissingSync.FetchAll | routes/contests.js:74-119 | at most one contest per batch entry is discovered, and the problem map has an entry per discovered id |
| MissingSync.FetchAllContests | routes/contests.js:74-119 | a contest is discovered exactly when its standings fetch succeeded, and then as its normalised copy |
| MissingSync.FetchedFinished | routes/contests.js:48-119 | every discovered contest is FINISHED, not stored and has a start time |
| MissingSync.FetchDetails | routes/contests.js:74-119 | the fetch loop computes the discovered contests and problems of the batch, in batch order |
| MissingSync.Documents | routes/contests.js:123-161 | one sync document per discovered contest, in order |
| MissingSync.BuildDocuments | routes/contests.js:123-161 | the document loop builds exactly those documents |
| MissingSync.Sync | routes/contests.js:19-199 | 503 without a database; 500 when the list fails; "Already up to date" exactly when nothing is missing; otherwise the store is the result of the unordered insert of the batch's documents, nothing is reported as updated, the remaining count is given, and stored contests never change |
| MissingSync.DistinctBatchInsertsAll | routes/contests.js:162-173 | when the batch's ids are distinct, the insert succeeds and stores every discovered contest with sorted problems |
| MissingSync.DocumentsFresh | routes/contests.js:48-161 | when the batch's ids are distinct, the documents' ids are fresh and distinct |
| MissingSync.Ids | routes/contests.js:48-52 | the ids of the contests, in order |
| MissingSync.FetchedDistinct | routes/contests.js:74-119 | distinct batch ids give distinct discovered ids, each from the batch |
| WatermarkSync.NewContests | backend/routes/contests.ts:94-99 | the new contests are exactly the listed FINISHED contests that start after the watermark and are not stored |
| WatermarkSync.NewStartsAfterStored | backend/routes/contests.ts:66-99 | when the watermark bounds the stored start times, every new contest starts after every stored contest and has a new id |
| WatermarkSync.ProblemsOf | backend/routes/contests.ts:128-146 | every problem taken from a standings answer carries the contest's id, a type and a tag list |
| WatermarkSync.CollectAll | backend/routes/contests.ts:118-151 | the problem map has one entry per collected key |
| WatermarkSync.CollectedEntries | backend/routes/contests.ts:118-151 | each new contest's entry holds the problems of its own standings answer |
| WatermarkSync.CollectedKeysFromLoop | backend/routes/contests.ts:118-151 | every key of the problem map is the id of a new contest |
| WatermarkSync.CollectedKeysDistinct | backend/routes/contests.ts:118-151 | the map's keys are recorded once each |
| WatermarkSync.CollectProblems | backend/routes/contests.ts:118-151 | the fetch loop builds exactly that map |
| WatermarkSync.Watermark | backend/routes/contests.ts:66-71 | the watermark is 0 for an empty store and otherwise the latest stored start time |
| WatermarkSync.InsertedDocuments | backend/routes/contests.ts:159-215 | when no new contest is stored and the batch insert succeeds, each new contest is stored as its sync document |
| WatermarkSync.Sync | backend/routes/contests.ts:51-243 | 503 without a database; 500 when the list fails; "Already up to date" exactly when there are no new contests; otherwise the new store is the batch insert of the new contests' documents, with the counts of the response; the answer is a success exactly when the new contests' ids are distinct and the cache file was written; a failed batch insert leaves the documents before the first repeated id; stored contests never change |
| WatermarkSync.InsertFailsOnlyOnRepeatedId | backend/routes/contests.ts:94-215 | the batch insert fails exactly when the contest list repeats the id of a new contest |
| WatermarkSync.FreshIffDistinct | backend/routes/contests.ts:201-215 | documents of unstored contests have fresh ids exactly when the contests' ids are distinct |
| WatermarkSync.Ids | backend/routes/contests.ts:90-98 | the ids of the contests, in order |
| ProblemsCache.BuildStatsMap | backend/routes/problems.ts:80-85 | the statistics loop builds the key-to-statistic map, in which a later entry for a key replaces an earlier one and entries without a contest id or index are skipped |
| ProblemsCache.StatsMapJoinsOnPair | backend/routes/problems.ts:80-89 | the lookup by the text key `${contestId}-${index}` is the join on the pair: the key is present exactly when some statistic is for that pair, and it holds the last one |
| ProblemsCache.LastStatForIsLast | backend/routes/problems.ts:80-85 | the joined statistic exists exactly when some entry is for the pair, and no later entry is for it |
| ProblemsCache.RoundPercent | backend/routes/problems.ts:93-94 | `Math.round(solved / attempt * 100)`: the integer nearest to the percentage, with halves rounded up |
| ProblemsCache.PercentBounds | backend/routes/problems.ts:93-94 | a percentage of at most as many solves as attempts lies between 0 and 100 |
| ProblemsCache.PercentExample | backend/routes/problems.ts:93-94 | 10 solves in 20 attempts is 50 percent |
| ProblemsCache.Merge | backend/routes/problems.ts:87-104 | one merged problem per problem, in order, each extending its source problem |
| ProblemsCache.MergeJoins | backend/routes/problems.ts:87-104 | each merged problem keeps its fields, has a tag list, takes solved and attempt counts from its statistic (0 without one), has acceptance equal to the solved count, and has a percentage exactly when the attempt count is positive |
| ProblemsCache.RatedOnly | backend/routes/problems.ts:144 | the rated view holds exactly the problems whose rating is a number |
| ProblemsCache.HitMaxAge | backend/routes/problems.ts:142 | the `max-age` of a hit is never negative, and is the whole seconds of time to live left |
| ProblemsCache.ProblemCache.constructor | backend/routes/problems.ts:25-37 | the cache starts empty with timestamp 0, with the configured time to live and secret |
| ProblemsCache.ProblemCache.LoadFromDisk | backend/routes/problems.ts:49-62 | a cache file with a problem array replaces the cache, with its `ts` or else the current time; any other file leaves the cache as it was |
| ProblemsCache.ProblemCache.FetchAndCache | backend/routes/problems.ts:109-127 | a usable Codeforces answer is merged and replaces the cache, stamped now; a failed one changes nothing |
| ProblemsCache.ProblemCache.Get | backend/routes/problems.ts:135-170 | a fresh cache is served as a HIT with the remaining `max-age`; otherwise a successful fetch is served as a MISS with the whole time to live and becomes the cache; a failed fetch serves the old cache as STALE with `max-age` 0, or answers 500 when there is none; `all=true` selects all problems, otherwise the rated ones |
| ProblemsCache.ProblemCache.Refresh | backend/routes/problems.ts:173-188 | 401 exactly when a secret is set and the first non-empty of header, query and body differs from it; otherwise a successful fetch replaces the cache and reports its size, and a failed one answers 500 and changes nothing |
| CfContests.SkipSpaces | frontend/src/utils/cfContests.ts:58 | `\s*` taken greedily: the scan stops at the first character that is not JavaScript whitespace |
| CfContests.DigitsEnd | frontend/src/utils/cfContests.ts:58 | `\d+` taken greedily: the scan stops at the first non-digit |
| CfContests.SkipDot | frontend/src/utils/cfContests.ts:58 | `\.?` consumes one dot when there is one |
| CfContests.DivNumberStart | frontend/src/utils/cfContests.ts:58 | the division number, when found, starts inside the name |
| CfContests.DivScanLeftmost | frontend/src/utils/cfContests.ts:58-67 | the regular expression's match is the leftmost position where the division pattern matches |
| CfContests.DivScanNone | frontend/src/utils/cfContests.ts:58-64 | there is no match exactly when the pattern matches at no position |
| CfContests.DivAltSubsumed | frontend/src/utils/cfContests.ts:58-70 | wherever the fallback pattern `divAlt` matches, the first pattern already matches, so the `divAlt` branch can never be taken |
| CfContests.ParseDivision | frontend/src/utils/cfContests.ts:55-76 | a missing or empty name gives no label; a name with a division match gives the match's label |
| CfContests.ParseDivisionFallbacks | frontend/src/utils/cfContests.ts:69-75 | without a division match, the label is Educational, Global or Gym by the first whole word found, case-insensitively, or none |
| CfContests.ParseDivisionShape | frontend/src/utils/cfContests.ts:55-76 | every label is none, Educational, Global, Gym, or "Div." followed by a digit |
| CfContests.DivScanFirstDigit | frontend/src/utils/cfContests.ts:64-67 | a division label found by the scan is "Div." followed by a digit |
| CfContests.DivMatchFirstDigit | frontend/src/utils/cfContests.ts:66-67 | a label built at one position is "Div." followed by a digit |
| CfContests.CombinedDivisionLabel | frontend/src/utils/cfContests.ts:58-66 | "Div.1+2" is labelled "Div.1+2" |
| CfContests.SpelledOutCombinedDivision | frontend/src/utils/cfContests.ts:58-67 | "(Div. 1 + Div. 2)" is labelled "Div.1": the optional `+ number` part does not accept a second "Div." |
| CfContests.SpelledOutNoMatchAtZero | frontend/src/utils/cfContests.ts:58 | the pattern does not match at the opening parenthesis |
| CfContests.FirstMatchAtOne | frontend/src/utils/cfContests.ts:58-67 | a name that first matches at its second character is labelled by that match |
| CfContests.SpelledOutFirstMatch | frontend/src/utils/cfContests.ts:58-67 | in "(Div. 1 + Div. 2)" the match at position 1 is "Div.1" |
| CfContests.SpelledOutLabel | frontend/src/utils/cfContests.ts:58-67 | the digits read at position 6 of "(Div. 1 + Div. 2)" give "Div.1", because no `+ number` follows |
| CfContests.BuildContestMap | frontend/src/utils/cfContests.ts:15-22 | the loop builds the id-to-name map of the contests that have a numeric id and a string name |
| CfContests.ContestMapLastWins | frontend/src/utils/cfContests.ts:15-22 | an id is in the map exactly when some usable contest has it, and then it maps to the name of the last such contest |
| CfContests.ContestMapKeys | frontend/src/utils/cfContests.ts:15-22 | the map's ids are exactly the ids of usable contests |
| CfContests.ContestMapLast | frontend/src/utils/cfContests.ts:15-22 | the last usable contest with an id decides the name for that id |
| CfContests.LoadContestMap | frontend/src/utils/cfContests.ts:25-45 | a cached map younger than 24 hours is used unless a refresh is forced; otherwise a fetched list is turned into the map and stored with the current time, and a failed fetch is an error |
| CfContests.ContestDivision | frontend/src/utils/cfContests.ts:79-90 | no contest id gives no label; a failed load gives no label; otherwise the label is that of the contest's name in the map, or none when the id is unknown |
| CfRatingColors.TableColor | frontend/src/utils/cfRatingColors.ts:5-29 | a rating has a colour exactly when it is a multiple of 100 from 800 to 3500 |
| CfRatingColors.RedGradient | frontend/src/utils/cfRatingColors.ts:24-29 | the gradient runs from red 139 at 2400 to red 255 at 3500 and never decreases as the rating rises |
| CfRatingColors.FillStep | frontend/src/utils/cfRatingColors.ts:5-29 | one write stores a new key and extends the filled range by one step of 100 |
| CfRatingColors.FillBand | frontend/src/utils/cfRatingColors.ts:6-21 | one of the six solid-colour loops fills its band of ratings with its colour, one new key per iteration |
| CfRatingColors.FillGradient | frontend/src/utils/cfRatingColors.ts:24-29 | the gradient loop fills the twelve ratings from 2400 to 3500 |
| CfRatingColors.BuildTable | frontend/src/utils/cfRatingColors.ts:3-29 | after the seven loops the table's keys are exactly the 28 ladder ratings, each with its band's colour |
| RatingColors.Table | frontend/src/utils/ratingColors.ts:7-17 | the rank table has nine rows |
| RatingColors.FindFrom | frontend/src/utils/ratingColors.ts:21-30 | the search returns the first row from which on the rating lies in the row's range (an open top for the last row), or none when no row holds it |
| RatingColors.TiersPartition | frontend/src/utils/ratingColors.ts:7-17 | the ranges cover every rating from 0 up and do not overlap, so each such rating has exactly one row |
| RatingColors.SameRow | frontend/src/utils/ratingColors.ts:19-45 | the colour and the rank name of a rating come from the same row; both are the unrated defaults exactly when the rating is missing or in no row |
| RatingColors.NegativeIsUnrated | frontend/src/utils/ratingColors.ts:19-45 | a negative rating is in no row: grey and "Unrated" |
| RatingColors.TierMonotone | frontend/src/utils/ratingColors.ts:7-17 | a higher rating never has a lower row, and from 2900 on the rank is Legendary Grandmaster |
| RatingColors.HandleParts | frontend/src/utils/ratingColors.ts:47-56 | below 2900 (or without a rating) the handle is one part in the rating's colour; from 2900 on it is split into its first character in the special colour and the rest in the rank's red, and the two parts give back the handle |
| RatingSelector.Ratings | frontend/src/components/RatingSelector.tsx:13 | there are 28 ladder ratings |
| RatingSelector.RatingsAreTableKeys | frontend/src/components/RatingSelector.tsx:13 | the ratings run from 800 to 3500 in steps of 100 and are exactly the keys of the colour table |
| RatingSelector.Buttons | frontend/src/components/RatingSelector.tsx:17-37 | one button per rating |
| RatingSelector.OneSelected | frontend/src/components/RatingSelector.tsx:17-37 | at most one button is highlighted; one is exactly when the selected rating is a ladder rating; the highlighted one has that rating's table colour |
| TagColors.HexChar | frontend/src/utils/tagColors.ts:19 | each value below 16 is written as one lowercase hexadecimal digit that reads back as that value |
| TagColors.ToHex | frontend/src/utils/tagColors.ts:19 | `toString(16)` after adding `1 << 24`, then `slice(1)`: exactly `w` lowercase hexadecimal digits |
| TagColors.ParseToHex | frontend/src/utils/tagColors.ts:19 | parsing the written digits gives back the number whenever it fits in `w` digits |
| TagColors.ContrastColor | frontend/src/utils/tagColors.ts:23-31 | the text colour is black exactly when the weighted brightness (299, 587, 114 per mille) exceeds 150, and white otherwise |
| TagColors.Lighten | frontend/src/utils/tagColors.ts:11-20 | the lightened colour is again a 6-digit colour, written in lowercase |
| TagColors.ParsedBelow | frontend/src/utils/tagColors.ts:12 | a string of `n` hexadecimal digits reads as a number below 16^n |
| TagColors.Unpack | frontend/src/utils/tagColors.ts:13-19 | packing three channels into 24 bits and shifting and masking them out again gives back each channel |
| TagColors.ChannelsOf | frontend/src/utils/tagColors.ts:12-13 | a colour's digits read as a 24-bit number whose top byte is the red channel |
| TagColors.LightenChannels | frontend/src/utils/tagColors.ts:11-20 | each channel of the lightened colour is the original channel plus the percent, capped at 255 |
| TagColors.LightenKeepsBlackText | frontend/src/utils/tagColors.ts:11-31 | lightening never lowers the brightness, so a colour with black text keeps black text in dark mode |
| TagColors.Palette | frontend/src/utils/tagColors.ts:3-6 | the palette holds twelve 6-digit colours |
| TagColors.NullTagColor | frontend/src/utils/tagColors.ts:35-36 | the "All" button's grey is a 6-digit colour in both modes |
| TagColors.LightGreyValue | frontend/src/utils/tagColors.ts:36 | the light-mode grey reads as 0x6B7280 |
| TagColors.DarkGreyValue | frontend/src/utils/tagColors.ts:36 | the dark-mode grey reads as 0x9CA3AF |
| TagColors.NullTagText | frontend/src/utils/tagColors.ts:35-37 | the grey takes white text in light mode and black text in dark mode |
| TagColors.TagColorMemo.constructor | frontend/src/utils/tagColors.ts:8 | the memo starts empty |
| TagColors.TagColorMemo.GetTagColor | frontend/src/utils/tagColors.ts:34-49 | no tag gives the grey and leaves the memo alone; a known tag gets its remembered colour; a new tag gets the next palette colour (the memo's size modulo 12), lightened by 20 in dark mode, and the memo records it; the text colour always contrasts with the background |
| TagColors.MemoOnlyGrows | frontend/src/utils/tagColors.ts:40-44 | a call never forgets or changes a remembered colour and adds at most the asked tag |
| TagSelector.TagOrderTotal | frontend/src/components/TagSelector.tsx:24-27 | the comparator (count descending, then name) is a total preorder |
| TagSelector.OrderedTagsSorted | frontend/src/components/TagSelector.tsx:22-29 | the ordered tags are a permutation of the tags, with higher counts first and equal counts in name order |
| TagSelector.Buttons | frontend/src/components/TagSelector.tsx:31-57 | an "All" button with the sum of all counts comes first, then one button per ordered tag with its caption, its count (0 when it has none) and whether it is selected |
| TagSelector.AtMostOneSelected | frontend/src/components/TagSelector.tsx:48-50 | with distinct tags at most one button is marked as selected |
| FrontProblems.AllTags | frontend/src/components/Ladder.tsx:31 | the flattened tag list holds exactly the tags of the problems, with missing tags read as none |
| FrontProblems.TallyOf | frontend/src/app/page.tsx:114-121 | the tally counts exactly the tags of the list |
| FrontProblems.TallyCounts | frontend/src/app/page.tsx:114-121 | each tag's count is its number of occurrences, and the tally's key order is the tags' first-occurrence order |
| FrontProblems.SumOutside | frontend/src/components/TagSelector.tsx:39 | the sum over a key order ignores keys outside it |
| FrontProblems.SumBump | frontend/src/components/TagSelector.tsx:39 | bumping one listed count raises the sum by one |
| FrontProblems.TallySum | frontend/src/components/TagSelector.tsx:39 | the counts sum to the number of tag occurrences |
| FrontProblems.CountTags | frontend/src/app/page.tsx:114-121 | the counting loop counts every tag occurrence of every problem with an array of tags: the keys are exactly those tags, each count is the tag's number of occurrences, and the counts sum to their total |
| FrontProblems.CountEach | frontend/src/app/page.tsx:118 | the inner loop adds one problem's tags to the tally so far |
| Ladder.ProblemsForRating | frontend/src/components/Ladder.tsx:25-28 | exactly the problems rated the selected rating, none repeated more often than in the input |
| Ladder.ForRatingKeepsOrder | frontend/src/components/Ladder.tsx:25-28 | the filter keeps the input order: one more problem is appended exactly when it has the rating |
| Ladder.LadderTags | frontend/src/components/Ladder.tsx:30-33 | the tag list has no duplicates and holds exactly the tags of the rating's problems |
| Ladder.TagCounts | frontend/src/components/Ladder.tsx:36-44 | the counting loop counts, over the rating's problems, each tag's occurrences, and its keys are exactly their tags |
| Ladder.SelectorCountsAgree | frontend/src/components/Ladder.tsx:30-75 | the counts handed to the tag selector fit its tags: the same order, every tag counted at least once, and "All" showing the number of tag occurrences |
| Ladder.FilteredProblems | frontend/src/components/Ladder.tsx:47-53 | without a selected tag all of the rating's problems are shown; with one, exactly those carrying the tag |
| Ladder.LadderState.constructor | frontend/src/components/Ladder.tsx:19-23 | the ladder starts at rating 800, with no tag and no statuses |
| Ladder.LadderState.HandleStatusChange | frontend/src/components/Ladder.tsx:55-57 | a status change records the problem's status and keeps every other status and the selections |
| Ladder.LadderState.SelectRating | frontend/src/components/Ladder.tsx:63-66 | selecting a rating changes only the rating; the tag stays selected |
| Ladder.LadderState.SelectTag | frontend/src/components/Ladder.tsx:70-75 | selecting a tag changes only the tag |
| HomePage.FlattenResponse | frontend/src/app/page.tsx:109-112 | an array answer is the list itself; a grouped answer is the concatenation of all groups |
| HomePage.FlattenKeepsEveryProblem | frontend/src/app/page.tsx:109-112 | a problem is in the flattened list exactly when it is in some group |
| HomePage.SolvedKeys | frontend/src/app/page.tsx:210-214 | the solved keys are exactly the `${contestId}-${index}` keys of the accepted submissions |
| HomePage.SolvedKeysSnoc | frontend/src/app/page.tsx:210-214 | one more submission adds its key exactly when it was accepted |
| HomePage.MergeSolved | frontend/src/app/page.tsx:209-214 | the loop yields the cached solves plus the keys of every accepted submission |
| HomePage.RefreshOnlyAdds | frontend/src/app/page.tsx:209-217 | refreshing never drops a cached solve, and refreshing twice with the same answer adds nothing more |
| HomePage.TotalUnsolved | frontend/src/app/page.tsx:278 | the unsolved total is the problems minus the solves, never below 0; the two add up to the problems when the solves do not outnumber them |
| HomePage.StrLeTotalPreorder | frontend/src/app/page.tsx:281-283 | the default sort order of strings is a total preorder |
| HomePage.SortedTagsAreTheTagSet | frontend/src/app/page.tsx:281-283 | the tag list holds exactly the problems' tags, once each, in strictly increasing order |
| HomePage.HomeState.constructor | frontend/src/app/page.tsx:43-106 | the page starts from storage: the cached problems only while at most an hour old, the cached tag counts, handle, user and solves; it is loading exactly when it has no problems |
| HomePage.HomeState.FetchProblems | frontend/src/app/page.tsx:160-192 | a loaded answer replaces the problems and tag counts and saves both to storage; an unreachable server or an HTTP error sets the error and keeps the problems; a cancelled fetch changes nothing but the loading flag; the user state is never touched |
| HomePage.HomeState.ApplyLoaded | frontend/src/app/page.tsx:169-177 | the loaded list becomes the problems, its tag tally the tag counts, and both are written to storage |
| HomePage.HomeState.FetchAndMergeUserData | frontend/src/app/page.tsx:195-235 | the solves become the merged set when the submissions load, and are saved; the user info is then replaced by the first returned user, or removed when none is returned; a failure leaves the rest, and nothing else changes |
| HomePage.HomeState.HandleSubmit | frontend/src/app/page.tsx:248-260 | the handle is recorded and saved at once, then the user data are refreshed: the solves are merged and saved, and the user is replaced, cleared or kept by the info answer, with the whole new storage stated for each answer; problems, tag counts, loading and error stay as they were |
| HomePage.HomeState.HandleReset | frontend/src/app/page.tsx:263-274 | reset forgets the user, the handle and the solves, and removes exactly their three storage entries |
| HomePage.ResetForgetsUser | frontend/src/app/page.tsx:263-274 | after the removal a reload restores no user, no handle and no solves, and the same problem cache and tag counts |
| Paginate.Paginate | frontend/src/utils/paginate.ts:2-5 | a page is never longer than the list and holds only items of the list |
| Paginate.PageIsSlice | frontend/src/utils/paginate.ts:2-5 | page `p` is the slice from `(p - 1) * perPage` of at most `perPage` items, and is empty once it starts past the end |
| Paginate.PagesConcat | frontend/src/utils/paginate.ts:2-5 | reading pages 1 to `k` in turn gives the first `min(len, k * perPage)` items, in order |
| Paginate.PagesDisjoint | frontend/src/utils/paginate.ts:2-5 | an earlier page ends where or before a later page starts |
| ProblemList.Source | frontend/src/components/ProblemList.tsx:51 | a non-empty local copy wins over the problems passed in |
| ProblemList.StatusOf | frontend/src/components/ProblemList.tsx:57-59 | a recorded status wins; otherwise a problem is solved exactly when its key is in the solved set, and never failed |
| ProblemList.Visible | frontend/src/components/ProblemList.tsx:54-62 | without hiding all problems are visible; with hiding, exactly those whose status is not solved |
| ProblemList.SortLeTotal | frontend/src/components/ProblemList.tsx:64-72 | each of the three comparators is a total preorder |
| ProblemList.FilteredSortedOrder | frontend/src/components/ProblemList.tsx:53-73 | the sorted list is a permutation of the visible problems: newest contest first, oldest first, or most solved first (a missing count read as 0) |
| ProblemList.HideSolvedRemovesExactlySolved | frontend/src/components/ProblemList.tsx:55-62 | hiding removes exactly the solved problems and keeps every other one as often as it occurs |
| ProblemList.FilterCountsKept | frontend/src/components/ProblemList.tsx:56-61 | a filter keeps every occurrence of a kept value |
| ProblemList.TotalPages | frontend/src/components/ProblemList.tsx:75 | at least one page; an empty list has one page; otherwise just enough pages of `perPage` to hold the list |
| ProblemList.LastPageHoldsTheLastProblems | frontend/src/components/ProblemList.tsx:75-76 | the last page is non-empty for a non-empty list, and the page after it is empty |
| ProblemList.Clamp | frontend/src/components/ProblemList.tsx:80-84 | the page number is clamped into 1 to the page count, and a number already in range is kept |
| ProblemList.RowNumberIsPosition | frontend/src/components/ProblemList.tsx:98-103 | the number shown on a row is the problem's 1-based position in the whole sorted list |
| ProblemList.CachedLocal | frontend/src/components/ProblemList.tsx:29-39 | the stored copy is used exactly when it exists and is at most an hour old |
| ProblemList.ProblemListView.constructor | frontend/src/components/ProblemList.tsx:21-27 | the list starts on page 1, newest first, hiding nothing, with no local copy |
| ProblemList.ProblemListView.HandlePageChange | frontend/src/components/ProblemList.tsx:80-84 | a page change sets the clamped page and nothing else |
| ProblemList.ProblemListView.SubmitPageInput | frontend/src/components/ProblemList.tsx:121-126 | Enter in the page box goes to the clamped parsed page, or to page 1 when the text is not a number |
| ProblemList.ProblemListView.SortChange | frontend/src/components/ProblemList.tsx:90-93 | a new sort order goes back to page 1 |
| ProblemList.ProblemListView.HideSolvedChange | frontend/src/components/ProblemList.tsx:95 | toggling hiding changes nothing else; the page is kept |
| ProblemList.ProblemListView.LoadCached | frontend/src/components/ProblemList.tsx:29-39 | a fresh stored copy becomes the local copy; otherwise it is kept |
| ProblemList.ProblemListView.ProblemsChanged | frontend/src/components/ProblemList.tsx:41-49 | a non-empty problem list becomes the local copy and is saved with the time; an empty one changes nothing |
| Unsolved.NewestFirstTotal | frontend/src/components/Unsolved.tsx:33-35 | the comparator by last attempt time (missing read as 0), newest first, is a total preorder |
| Unsolved.Render | frontend/src/components/Unsolved.tsx:9-39 | "No attempted-but-unsolved problems" exactly when the list is missing or empty; "No valid attempted problems" exactly when none has a positive integer contest id and an index of capital letters and digits; otherwise at most 40 valid problems of the list, with "more" exactly when over 40 are valid |
| Unsolved.GridIsNewestPrefix | frontend/src/components/Unsolved.tsx:17-39 | the grid is the first 40 of the valid problems sorted newest first: a permutation of the valid ones, ordered by last attempt, none left out newer than one shown, and all of them when there is no "more" |
| Unsolved.RenderIsGrid | frontend/src/components/Unsolved.tsx:33-39 | with valid problems, the view is the grid of the sorted list's first 40 and the "more" flag |
| Unsolved.PrefixOrder | frontend/src/components/Unsolved.tsx:38 | the first `n` of a newest-first list are newest first and at least as new as the rest |
| Unsolved.NewestOrdered | frontend/src/components/Unsolved.tsx:33-35 | a list sorted by the comparator has non-increasing last attempt times |
| InputHandler.ParseEntry | frontend/src/components/InputHandler.tsx:33-42 | the input is accepted exactly when splitting it at commas gives five fields, that is exactly when it has four commas; the user is the trimmed name and the four numbers read from the other fields |
| InputHandler.AcceptedFieldsAreTheInput | frontend/src/components/InputHandler.tsx:33-35 | an accepted input is its five comma-free fields joined by commas |
| InputHandler.EnterHandle.constructor | frontend/src/components/InputHandler.tsx:17-27 | the form starts with an empty input and the user saved under "cfUserInfo", if any |
| InputHandler.EnterHandle.SetInput | frontend/src/components/InputHandler.tsx:57 | typing changes only the input |
| InputHandler.EnterHandle.HandleSubmit | frontend/src/components/InputHandler.tsx:29-47 | an accepted entry becomes the user, is saved under "cfUserInfo" and clears the input; a rejected one changes nothing |
| Applause.SafeNumber | frontend/src/app/api/applause/route.ts:18-22 | a finite number is kept; a missing, non-numeric or infinite value becomes 0 |
| Applause.DotHead | frontend/src/app/api/applause/route.ts:29-31 | in dotted text the first field is what precedes the first dot, so a prefix test like `^10\.` compares exactly the first field |
| Applause.NoDotInNumber | frontend/src/app/api/applause/route.ts:29-31 | a decimal number has no dot |
| Applause.TwoDigits | frontend/src/app/api/applause/route.ts:31 | a number is written with two digits exactly when it is between 10 and 99, and then as its tens and units digits |
| Applause.Private172OfQuad | frontend/src/app/api/applause/route.ts:31 | `^172\.(1[6-9]\|2[0-9]\|3[0-1])\.` matches "172.b." exactly when b is between 16 and 31 |
| Applause.PrivateQuads | frontend/src/app/api/applause/route.ts:25-35 | an IPv4 address in dotted text is private exactly when it is in 10/8, 172.16/12 or 192.168/16 (the private ranges of section 3 of RFC 1918), or is 127.0.0.1 |
| Applause.QuadTen | frontend/src/app/api/applause/route.ts:29 | an address starts with "10." exactly when its first field is 10 |
| Applause.Quad192 | frontend/src/app/api/applause/route.ts:30 | an address starts with "192.168." exactly when its first two fields are 192 and 168 |
| Applause.PrefixText192 | frontend/src/app/api/applause/route.ts:30 | the text of 192 and 168 with their dots is "192.168." |
| Applause.Quad172 | frontend/src/app/api/applause/route.ts:31 | the 172 pattern matches an address exactly when its first field is 172 and its second is between 16 and 31 |
| Applause.QuadLoopback | frontend/src/app/api/applause/route.ts:28 | an address is the text "127.0.0.1" exactly when its fields are 127, 0, 0, 1 |
| Applause.LoopbackText | frontend/src/app/api/applause/route.ts:28 | the address 127.0.0.1 is written "127.0.0.1" |
| Applause.QuadInjective | frontend/src/app/api/applause/route.ts:25-35 | two addresses have the same dotted text exactly when all four fields agree |
| Applause.Candidates | frontend/src/app/api/applause/route.ts:39 | the header's comma-separated entries are trimmed and the empty ones dropped, so every candidate is non-empty and comma-free |
| Applause.FirstPublic | frontend/src/app/api/applause/route.ts:42 | the first candidate that is not private, or none exactly when all are private |
| Applause.PickClientIp | frontend/src/app/api/applause/route.ts:37-44 | no header or an empty one gives no address; otherwise none exactly when there are no candidates, the first public candidate when there is one, and the first candidate when all are private |
| Applause.IpKeyIsNotCountKey | frontend/src/app/api/applause/route.ts:14-71 | a per-address key never collides with the global counter's key |
| Applause.Redis.constructor | frontend/src/app/api/applause/route.ts:12 | a new database has no counters and no expiries |
| Applause.Redis.Incr | frontend/src/app/api/applause/route.ts:72-85 | `INCR` raises the key's counter by one, a missing counter counting as 0, and returns the new value |
| Applause.Redis.Expire | frontend/src/app/api/applause/route.ts:76 | `EXPIRE` records the key's expiry and changes no counter |
| Applause.GetCount | frontend/src/app/api/applause/route.ts:46-57 | 500 without Redis; otherwise the global counter, 0 when unset |
| Applause.Post | frontend/src/app/api/applause/route.ts:59-92 | 500 without Redis; a client with no public address is not limited and the counter is raised; otherwise its address counter is raised (the expiry set on the first hit), more than the limit answers 429 and leaves the global counter alone, and otherwise the global counter is raised and returned |
| Applause.PostFor | frontend/src/app/api/applause/route.ts:68-87 | the rate limit and the increment once the client address is picked |
| Applause.CountClient | frontend/src/app/api/applause/route.ts:71-81 | the address counter is raised by one, its expiry is set exactly when it reaches 1, and the client is over the limit exactly when the count exceeds it |
| Applause.PostMovesCountByAtMostOne | frontend/src/app/api/applause/route.ts:59-92 | with Redis configured, a request either is rate-limited and leaves the applause count alone, or raises it by exactly one and returns the new count |
| SendBug.ReplaceConcat | frontend/src/app/api/send-bug/route.ts:74-78 | a global one-character `replace` works piece by piece: replacing in a concatenation is the concatenation of the replacements |
| SendBug.ReplaceAbsent | frontend/src/app/api/send-bug/route.ts:74-78 | replacing a character the text lacks changes nothing |
| SendBug.ReplaceSingle | frontend/src/app/api/send-bug/route.ts:74-78 | on one character, the replacement is the substitute exactly when the character matches |
| SendBug.EscapeConcat | frontend/src/app/api/send-bug/route.ts:72-78 | the five chained replacements escape a concatenation piece by piece |
| SendBug.EntitySurvives | frontend/src/app/api/send-bug/route.ts:74-85 | an entity written by an earlier replacement is left alone by the later ones and by the line-break replacement |
| SendBug.EntitiesAreEntityText | frontend/src/app/api/send-bug/route.ts:74-78 | each of the five entities is free of raw markup characters and line breaks, so the later replacements leave it alone |
| SendBug.EscapeOneChar | frontend/src/app/api/send-bug/route.ts:72-78 | the chain turns one character into its own entity, or leaves it as it is |
| SendBug.EscapeCharShape | frontend/src/app/api/send-bug/route.ts:74-78 | an escaped character is itself or an entity, never a raw `<`, `>`, `"` or `'`; only a line break yields a line break |
| SendBug.EscapeHtmlIsSinglePass | frontend/src/app/api/send-bug/route.ts:72-78 | the five passes over the whole text equal one pass that escapes each character, so `&` is escaped first and no entity is escaped twice |
| SendBug.EscapedHasNoRawMarkup | frontend/src/app/api/send-bug/route.ts:72-78 | an escaped text contains no raw `<`, `>`, `"` or `'` |
| SendBug.NoRawMarkupInEscapeOnce | frontend/src/app/api/send-bug/route.ts:72-78 | the per-character escape leaves no raw markup character |
| SendBug.EscapePlain | frontend/src/app/api/send-bug/route.ts:72-78 | a text without `&` and markup characters is left as it is |
| SendBug.EscapeOfEntity | frontend/src/app/api/send-bug/route.ts:74-75 | escaping the text "&lt;" gives "&amp;lt;", because `&` is replaced first |
| SendBug.UnescapeStep | frontend/src/app/api/send-bug/route.ts:72-78 | decoding an escaped character followed by anything gives the character back, then the decoding of the rest |
| SendBug.UnescapeShortEntity | frontend/src/app/api/send-bug/route.ts:74-76 | the same for `&`, `<` and `>` |
| SendBug.UnescapeLongEntity | frontend/src/app/api/send-bug/route.ts:77-78 | the same for `"` and `'` |
| SendBug.UnescapeEscape | frontend/src/app/api/send-bug/route.ts:72-78 | decoding the entities of an escaped text gives the text back |
| SendBug.UnescapeEscapeOnce | frontend/src/app/api/send-bug/route.ts:72-78 | decoding undoes the per-character escape |
| SendBug.EscapeInjective | frontend/src/app/api/send-bug/route.ts:72-78 | different messages are escaped to different texts |
| SendBug.RenderMessageIsPerChar | frontend/src/app/api/send-bug/route.ts:85 | a non-empty message appears character by character: each line break as a `<br/>` tag that is not escaped, every other character escaped |
| SendBug.BreaksAfterEscaping | frontend/src/app/api/send-bug/route.ts:85 | replacing line breaks after the escape gives the per-character rendering |
| SendBug.RenderCharHead | frontend/src/app/api/send-bug/route.ts:85 | a rendered character is never empty, and the only rendering that starts with `<` is the `<br/>` tag |
| SendBug.PlaceholderOnlyForEmpty | frontend/src/app/api/send-bug/route.ts:85 | the "(no message)" placeholder appears exactly when the trimmed message is empty |
| SendBug.OneLineHasNoRawMarkup | frontend/src/app/api/send-bug/route.ts:85 | a one-line message adds no markup character to the mail |
| SendBug.NoBreakInEscapeOnce | frontend/src/app/api/send-bug/route.ts:72-78 | escaping adds no line break |
| SendBug.AttachmentsMatchFiles | frontend/src/app/api/send-bug/route.ts:15-28 | there is one attachment per file entry of the form, in order, made of that file |
| SendBug.BuildAttachments | frontend/src/app/api/send-bug/route.ts:8-31 | the loop collects exactly those attachments |
| SendBug.Post | frontend/src/app/api/send-bug/route.ts:33-114 | a missing user or password answers 500 first; then a failed `verify` answers 500; then a failed `sendMail` answers 500; otherwise the mail is sent from the user to the target (or the user when it is unset) with the subject, the rendered trimmed message and the form's files |
| InsertContest.NormalizeRaw | scripts/insert-contest-2169.mjs:113-124 | a raw problem keeps its index, name, rating, points and solved count and gets the script's contest id; a missing type becomes "PROGRAMMING" and missing tags become the empty list |
| InsertContest.NormalizeAll | scripts/insert-contest-2169.mjs:113-124 | the mapping normalises every problem, one for one and in order |
| InsertContest.ScriptProblemsShape | scripts/insert-contest-2169.mjs:113-125 | the script's problem list is a permutation of the normalised problems, sorted by index, each with the contest id and a non-empty type |
| InsertContest.ContestDocument | scripts/insert-contest-2169.mjs:128-153 | the document keeps the contest's id, name and other fields, holds the problem list and is stamped with the current time; a missing type becomes "CF", a missing phase "FINISHED", and missing duration and start time become 0 |
| InsertContest.MergedContestsShape | scripts/insert-contest-2169.mjs:181 | the cached contests stay as they were, in order; the document is appended exactly when no cached contest has the id, and afterwards the cache has the contest |
| InsertContest.MergedContestsUnique | scripts/insert-contest-2169.mjs:181 | a cache whose contest ids are distinct keeps them distinct after the merge |
| InsertContest.MergedProblemsShape | scripts/insert-contest-2169.mjs:182-188 | the cached problems stay in front, in order; afterwards every problem of the contest is cached by (contest id, index); each appended one comes from the contest and was not cached before |
| InsertContest.NoneNewWhenAllCached | scripts/insert-contest-2169.mjs:182-187 | when every problem is already cached by (contest id, index), none is appended |
| InsertContest.MergeTwiceAddsNothing | scripts/insert-contest-2169.mjs:181-188 | running the merge a second time with the same contest changes neither list: the script is idempotent on the cache |
| InsertContest.ScriptCache.Load | scripts/insert-contest-2169.mjs:165-180 | without a readable cache file the cache is empty with lastSync 0 and timestamp now; otherwise it is the file's contents, with missing lists read as empty |
| InsertContest.ScriptCache.Merge | scripts/insert-contest-2169.mjs:181-190 | the new contests and problems are the merges of the old ones, lastSync is the current time in whole seconds and timestamp the current time in milliseconds |
| InsertContest.Run | scripts/insert-contest-2169.mjs:86-200 | the script stops without writing exactly when the request fails, the status is not OK or there is no contest; otherwise it writes the loaded cache merged with the document of contest 2185 and its sorted problems |
| Keys.ProblemKeyInjective | backend/routes/problems.ts:83-88 | two problems with the same `${contestId}-${index}` key have the same contest id and index, so the statistics join on the key pairs each problem with its own entry |

## Left out

- `GET /api/contests` (the list with search and paging) is not modelled: it is a MongoDB `$regex` query whose matching semantics the model does not define.
- `GET /api/contests/stats/overview` is not modelled: it is a MongoDB aggregation pipeline with no logic of its own.
- The MongoDB connection state is a boolean parameter; the driver and its errors beyond success or failure are not modelled.
- The Codeforces API, the clock, file system reads, environment variables and the browser's `localStorage` are parameters of the operations that use them.
- Console logging is left out, because no result depends on it.
- The contents of the JSON cache files written by the sync routes and the problems cache are not modelled.
- In `routes/contests.ts` and `backend/routes/contests.ts` the cache write runs inside the route's `try`. Its success is the `cacheWritten` parameter of `Sync`, and its failure answers 500 after the database was already changed.
- In `routes/contests.js` and `backend/routes/problems.ts` a failed cache write is only logged, so those models leave the write out.
- ContestModel.AppliedUpdates: `updateOne` with a plain object applies it as `$set`, a field merge in which a field the new object leaves `undefined` keeps its stored value. The model replaces the whole document, so such a stored field is not kept.
- ContestQueries.Refresh: `findOneAndUpdate` with a plain object is modelled as whole-document replacement as well, for the same reason.
- ContestQueries.ProblemsAll: the limit arrives parsed, so the default text '100' for a missing limit is not modelled. `None` stands for a text that parses to NaN.
- The `p-limit` concurrency of the sync routes is modelled as sequential processing in batch order. Interleavings and the order in which concurrent requests finish are not modelled.
- Redis key expiry over time and Redis connection errors are not modelled. The model records only each key's last expiry setting.
- The GET value read from Redis is taken to be a numeric counter.
- The SMTP `verify` and `sendMail` calls are boolean parameters. `String(File)` as message text and the one `now` used for the attachment names are not modelled.
- The MongoDB upsert of the insert script (lines 156-160) is left out: it is one driver call. The model covers the cache-file merge, and `process.exit` becomes the `Outcome` result.
- The floating-point rounding of `Math.round` is modelled as integer round-half-up on exact fractions. The red gradient's `Math.floor` uses exact rational arithmetic.
- Fractional ratings and numbers are modelled as integers, and a `NaN` applause limit is not modelled.
- InputHandler.EnterHandle: `Number()` on the typed rating is an uninterpreted `num` parameter, because JavaScript number parsing is not modelled.
- `localeCompare` is ordinal code-point order, and `toLowerCase` is ASCII-only case folding. Locale collation and Unicode case mapping are not modelled.
- Strings.ParseInt: `parseInt` without a radix reads a "0x" prefix as hexadecimal; the model reads decimal only.
- Keys inherited from `Object.prototype` in the source's plain-object maps are not modelled; maps hold only the keys written to them.
- Cache-file and stored documents are taken to have the document shape the code writes. Malformed JSON is modelled only as an unreadable file.
- AppContext is not part of this model.
- Applause.IsPrivateIp: kept as written, so addresses of 127/8 other than 127.0.0.1 count as public, and upper-case "FC"/"FD" prefixes are not private.
- TagColors.Lighten: the percentage is a `nat`, since the source only ever lightens.
- ProblemList.ProblemListView.HideSolvedChange: kept as written; toggling the switch does not reset the page.

## Findings

| source | as written | input that shows it | evidently intended | confidence | as-written member | corrected member |
|---|---|---|---|---|---|---|
| routes/contests.ts:525-612 | `GET /:id` is registered before `GET /sync`, so `/sync` is taken as an id; the same order appears in `routes/contests.js` (lines 423 and 497) | `GET /api/contests/sync` answers 400 "Invalid contest ID" | the 405 answer of the `GET /sync` route, which tells the caller to use `POST` | not executed | ContestQueries.GetSyncShadowed | ContestQueries.CorrectedGetSync, ContestQueries.CorrectedRouteOrder |
