# Anime-Tracker import reconciliation, modelled in Dafny

Anime-Tracker keeps a catalog of anime (the `animes` table), a personal watch list
(`user_anime_lists`, plus the `ustatus` column of `animes`) and an append-only `system_logs`
table. Users bring their list in as an exported JSON document: category labels such as
"Completed" or "Planning", each holding a list of `{ name, mal, al }` records whose `al` field is
an AniList permalink. Five places in the code base turn such an export into decisions about the
store, and each one re-implements the same small helpers with its own policy:

- **the diff engine** (`calculateDiff`) classifies every record as NEW, STATUS_CHANGE or
  nothing, against snapshots of both tables; the first record of an id wins;
- **the change applier** (`uploadAndDiff`, `applyChange`) guards the upload, then applies one
  change record to two tables (`animes` and `user_anime_lists`) and the log;
- **smart sync** (`smartSyncAction`) writes statuses straight into `animes.ustatus`, falling back
  to a title search when a record has no usable link. It does not de-duplicate, and it writes in
  batches of 50;
- **the ingestion script** builds a first-wins work queue, then fetches the catalog 50 ids at a
  time, counting successes and errors;
- **the archive scraper** builds a last-wins status map, resumes after the highest cached
  `page_N.json` file, maps each catalog entry to a row, and requests two pages per round.

The model is purely functional:

- The export is a sequence of categories, in the order the loops visit the keys.
- Tables are finite maps, and the log is a sequence.
- Everything outside the program is a function parameter: the AniList API, the database's answer
  to an upsert, the title search, the JSON parser and the directory listing.
- The loops that carry the logic are `method`s proved equal to recursive reference
  definitions, and the properties are lemmas about those definitions. The other loops exist
  only as recursive functions or sequence comprehensions, with no loop method:
  - the scraper's status-map loop (`UserStatusMap`);
  - `chunkArray`'s index loop (`Chunks`);
  - the scraper's `filter`/`map` over the cache directory and its `Math.max` (`PageFiles`,
    `ParsedPages`, `MaxPage`);
  - the scraper's `mediaList.map` (`RowsOf`), its `edges.map` (`Relations`) and the loop that
    names the pages of a round (`Round`);
  - the ingestion script's `chunk.map` (`Ids`) and `chunk.find` (`FindWork`).

  The `studios.nodes.map(s => s.name)` projections are not loops here: a studio list is held as
  its names.

Modules, one concept each:

| module | file | models |
|---|---|---|
| `Base` | base.dfy | `Option`, `Outcome` (error results) |
| `Decimal` | decimal.dfy | `String(n)`, `padStart(2, '0')` and decimal values |
| `AniListId` | anilist_id.dfy | `getAniListId`: the regex search written out over the string |
| `WatchStatus` | watch_status.dfy | the status enum, `mapStatus` and `STATUS_MAP` |
| `Dates` | dates.dfy | the strict and the defaulting `formatDate` |
| `ImportData` | import_data.dfy | the export document and the ids its records resolve to |
| `Catalog` | catalog.dfy | the AniList `Media` object, the `animes` row, the or-fallbacks |
| `Chunking` | chunking.dfy | `chunkArray` and the index-stepping batch loop |
| `DiffEngine` | diff_engine.dfy | `calculateDiff` and its snapshot maps |
| `SystemLog` | system_log.dfy | `system_logs` rows |
| `ImportAction` | import_action.dfy | `uploadAndDiff`, `applyChange`, `fetchAniList`'s row |
| `SmartSync` | smart_sync.dfy | `smartSyncAction` |
| `IngestData` | ingest_data.dfy | scripts/ingest-data.ts |
| `ScrapeAnilist` | scrape_anilist.dfy | scripts/scrape-anilist.ts |

The scraper does not retry a rate-limited page. It sleeps, then advances `currentPage` by 2, so
a failed page is never requested again (`ScrapeRequestsConsecutivePages`).

The scripts also resolve a repeated id differently:

- the ingestion queue keeps the first record (`WorkQueueFirstWins`);
- the scraper's status map keeps the last one (`UserStatusMapLastWins`).

`FirstWinsAndLastWinsDiffer` exhibits an export on which the two disagree.

## Model

| member | source | states |
|---|---|---|
| `AniListId.DigitRunLength` | src/lib/diffEngine.ts:89 | the greedy `(\d+)` capture: the run counted is all digits, and it stops at a non-digit or at the end of the string |
| `AniListId.DigitRunIs` | src/lib/diffEngine.ts:89 | any digit run that ends at a non-digit or at the end is exactly the run the capture takes |
| `AniListId.FindMatch` | src/lib/diffEngine.ts:89 | the search result is a match position, and no earlier position matches; no result means no position matches at all |
| `AniListId.ExtractId` | src/lib/diffEngine.ts:87-91 | null for a missing or empty link; null exactly when the pattern matches nowhere; otherwise the value of the digit run after the leftmost match |
| `AniListId.ResolvedId` | src/lib/diffEngine.ts:41-42 | the id the callers keep is positive and is the extracted id; a dropped id was null or 0 |
| `AniListId.ExtractProfileLink` | src/lib/diffEngine.ts:87-91 | round trip: the AniList permalink of n, followed by anything not starting with a digit, extracts to n |
| `AniListId.LinkFirstMatch` | src/lib/diffEngine.ts:89 | in a permalink, the leftmost match is right after the scheme |
| `AniListId.OnePieceExample` | src/lib/diffEngine.ts:87-91 | the link ".../anime/21/one-piece" resolves to 21 |
| `AniListId.ForeignLinkExample` | src/lib/diffEngine.ts:89-90 | a link to another site resolves to null |
| `Decimal.Show` | src/app/actions/import.ts:168 | `String(n)`: a non-empty digit string without a leading zero that reads back as n |
| `Decimal.Pad2` | src/app/actions/import.ts:168 | `padStart(2, '0')`: a shorter string is left-filled with zeros to length 2; a longer one is unchanged |
| `Decimal.Pad2Value` | src/app/actions/import.ts:168 | padding the printed number keeps its value |
| `Decimal.ValueLeadingZero` | src/app/actions/import.ts:168 | a leading zero does not change the value of a digit string |
| `Decimal.ShowSmall` | src/app/actions/import.ts:168 | numbers below 100 pad to exactly two digits |
| `WatchStatus.MapStatus` | src/lib/diffEngine.ts:93-102 | a known status comes only from its own exact label; UNKNOWN exactly when the label is none of the five |
| `WatchStatus.MapStatusOfLabel` | src/lib/diffEngine.ts:94-99 | each of the five labels maps to its own status, so the table reaches every known status |
| `WatchStatus.MapStatusIsCaseSensitive` | src/lib/diffEngine.ts:94-100 | lower-case spellings of a label map to UNKNOWN |
| `WatchStatus.StatusLookup` | src/app/actions/smartSync.ts:12-18 | a present entry is a known status whose label is the key |
| `WatchStatus.StatusLookupAgreesWithMapStatus` | scripts/scrape-anilist.ts:164 | `STATUS_MAP[cat]` is present exactly when `mapStatus` gives a known status, and with UNKNOWN as the fallback it equals `mapStatus(cat)` |
| `WatchStatus.StatusNameInjective` | src/lib/diffEngine.ts:95-100 | two statuses have the same stored name exactly when they are equal, so a status-change line never names one status twice (used by `DiffEngine.DiffStatusChange`) |
| `Dates.DateTextRoundTrip` | src/app/actions/import.ts:168 | the `Y-MM-DD` text reads back as its three numbers when month and day are below 100 |
| `Dates.FormatDateStrict` | scripts/ingest-data.ts:37-41 | a date exactly when year, month and day are all present and non-zero, and then the text of those three numbers |
| `Dates.FormatDateDefaulting` | src/app/actions/import.ts:166-169 | a date exactly when the year is present and non-zero; a missing or zero month or day reads back as 1 |
| `Dates.StrictAndDefaultingDates` | scripts/ingest-data.ts:37-41 | where the strict policy gives a date, the defaulting one gives the same date; they differ exactly when the year is given but the month or the day is not |
| `Dates.YearOnlyExample` | scripts/scrape-anilist.ts:86-89 | year 2004 alone formats as "2004-01-01" under the defaulting policy and as null under the strict one |
| `ImportData.IdsOfMembers` | src/lib/diffEngine.ts:44-45 | an id is in the processed set exactly when some record resolves to it |
| `ImportData.IdsOfHas` | src/lib/diffEngine.ts:45 | the id of every resolved record is in the processed set |
| `Chunking.ConcatAppend` | src/app/actions/smartSync.ts:95-101 | laying out two lists of batches end to end is laying out each and joining them |
| `Chunking.Chunks` | src/app/actions/smartSync.ts:95-101 | the batches joined give the input back; each is 1..size long; all but the last have exactly size elements; there are none only for an empty input |
| `Chunking.ChunkIsSlice` | scripts/ingest-data.ts:148-149 | batch i is the slice from i·size to min((i+1)·size, length), as the index loop takes it |
| `Chunking.ChunkCount` | src/app/actions/smartSync.ts:97 | the number of batches is the length divided by the size, rounded up |
| `DiffEngine.IndexLastWins` | src/lib/diffEngine.ts:29-30 | `Map.set` in a loop: every key is present, and each maps to the last row carrying it |
| `DiffEngine.StatusIndex` | src/lib/diffEngine.ts:32-33 | the list snapshot map holds exactly the listed anime ids, each with the status of its last row |
| `DiffEngine.Classify` | src/lib/diffEngine.ts:47-80 | for one id: a record exactly when the title is not stored, or the list holds a different non-null status; NEW exactly when the title is not stored; the record carries the category's status |
| `DiffEngine.FirstPos` | src/lib/diffEngine.ts:44-45 | the position of the record that decides an id: it resolves to the id and no earlier record does |
| `DiffEngine.FirstPosUnique` | src/lib/diffEngine.ts:44-45 | every first occurrence of an id is the one `FirstPos` finds |
| `DiffEngine.DiffOfStep` | src/lib/diffEngine.ts:40-60 | one more record adds its classification when its id is new, and nothing otherwise |
| `DiffEngine.DiffItemsClassified` | src/lib/diffEngine.ts:40-80 | every emitted record is the classification of the first record of its id |
| `DiffEngine.DiffCoversFirstRecords` | src/lib/diffEngine.ts:40-80 | the first record of every id that classifies to a change is emitted |
| `DiffEngine.DiffOfGrows` | src/lib/diffEngine.ts:44-60 | one more record adds at most one change, for that record's id and only if the id is new |
| `DiffEngine.DiffItemsOrdered` | src/lib/diffEngine.ts:37-45 | the output follows input order: the deciding positions of the emitted ids strictly increase |
| `DiffEngine.DiffIdsUnique` | src/lib/diffEngine.ts:44-45 | no id is emitted twice: later duplicates are dropped |
| `DiffEngine.DiffKinds` | src/lib/diffEngine.ts:40-74 | only NEW and STATUS_CHANGE are produced, and only for positive ids some record resolves to |
| `DiffEngine.DiffNewEntry` | src/lib/diffEngine.ts:51-60 | an id missing from the catalog snapshot yields exactly one NEW record: the import name, ["New Entry"], the bare id, the mapped status |
| `DiffEngine.DiffStatusChange` | src/lib/diffEngine.ts:63-73 | a stored id whose listed status differs yields exactly one STATUS_CHANGE record: titled English-or-romaji, with the single "Status: OLD -> NEW" line, whose two names differ |
| `DiffEngine.DiffNoRecord` | src/lib/diffEngine.ts:63-80 | nothing is emitted for a stored id whose list status is missing, null or equal to the imported one, nor for an id no record resolves to |
| `DiffEngine.CalculateDiff` | src/lib/diffEngine.ts:20-85 | the one-pass loop with its running "seen" set computes the reference diff of the indexed snapshots; an empty import gives no records |
| `DiffEngine.VisitCategory` | src/lib/diffEngine.ts:37-81 | the inner loop extends the processed set and the diff by one category's records |
| `DiffEngine.VisitRecord` | src/lib/diffEngine.ts:41-74 | one loop iteration extends the processed set and the diff by one record |
| `DiffEngine.BuildAnimeMap` | src/lib/diffEngine.ts:29-30 | the `forEach` loop builds the last-wins catalog index |
| `DiffEngine.BuildListMap` | src/lib/diffEngine.ts:32-33 | the `forEach` loop builds the last-wins status index |
| `ImportAction.RichRow` | src/app/actions/import.ts:135-159 | the fetched row: id, romaji and native titles copied; English falls back to romaji; cover is the filled extra-large image, else the large one; dates are the defaulting format, present only with a year; missing studios give []; no adult flag, ustatus or relations |
| `ImportAction.ApplyChangeEffects` | src/app/actions/import.ts:72-119 | NEW with a failed fetch errors and writes nothing. A failed title upsert inserts one ERROR row. A failed list upsert keeps the title row. STATUS_CHANGE ignores its upsert error. UPDATE/NO_CHANGE only log. Each log row is present only if the database accepted it |
| `ImportAction.ApplyChangeLogsOnce` | src/app/actions/import.ts:100-118 | each call appends at most one log row: APPLY_CHANGE on success, ERROR on a failed upsert, none after a failed fetch; a refused insert leaves the log as it was and the result unchanged; when every insert is accepted, the log is unchanged only after a failed fetch |
| `ImportAction.ApplyChangeIdempotent` | src/app/actions/import.ts:83-97 | applying a change twice leaves both tables as once did; the log grows by at most one row |
| `ImportAction.StatusChangeTwice` | src/app/actions/import.ts:94-97 | a STATUS_CHANGE applied twice leaves the list as once; the catalog is untouched; the log gains one more row |
| `ImportAction.DiffIsDistinctChanges` | src/lib/diffEngine.ts:44-74 | the diff engine's output has distinct ids, and every record is NEW or STATUS_CHANGE |
| `ImportAction.ApplyChangeKeepsAnimes` | src/app/actions/import.ts:83 | no change removes a stored title |
| `ImportAction.ApplyAllKeepsAnimes` | src/app/actions/import.ts:72-98 | applying a sequence of changes never removes a stored title |
| `ImportAction.ApplyChangeKeepsOtherStatus` | src/app/actions/import.ts:87-97 | a change leaves the list entry of every other id as it was |
| `ImportAction.ApplyAllKeepsOtherStatuses` | src/app/actions/import.ts:87-97 | the list entry of an id no change names is unchanged after a sequence of changes |
| `ImportAction.ReliableApplyChange` | src/app/actions/import.ts:74-98 | with nothing failing, NEW and STATUS_CHANGE set the list entry to the new status, and NEW stores the title |
| `ImportAction.ApplyAllSettles` | src/app/actions/import.ts:72-98 | with nothing failing and distinct ids, every change's id ends with that change's status |
| `ImportAction.SettledAfterApply` | src/app/actions/import.ts:72-98 | after applying the whole diff, the first record of every id classifies to nothing |
| `ImportAction.UntouchedIdNotEmitted` | src/lib/diffEngine.ts:63-80 | an id whose deciding record classifies to nothing has no change record |
| `ImportAction.TouchedIdEmitted` | src/lib/diffEngine.ts:50-73 | an id whose deciding record classifies to a change has a record carrying that record's status |
| `ImportAction.DiffThenApplyConverges` | src/app/actions/import.ts:72-98 | diff, then apply every change with nothing failing, then diff again: the second diff is empty |
| `ImportAction.NothingToDoWhenSettled` | src/lib/diffEngine.ts:40-84 | the diff is empty exactly when the first record of every id classifies to nothing |
| `ImportAction.UploadAndDiff` | src/app/actions/import.ts:38-69 | the errors in source order: no file, over 5 MB, not JSON, failed table read, then JSON the diff cannot walk; none of them writes the log; otherwise the diff of the parsed export, and one IMPORT_SCAN row with its size if the database accepts it |
| `SmartSync.CleanName` | src/app/actions/smartSync.ts:50 | the query has no quote and is no longer than the name; a single quote character is removed, any other single character kept |
| `SmartSync.CleanNameAppend` | src/app/actions/smartSync.ts:50 | cleaning works character by character: cleaning a joined name is joining the cleaned parts, so the kept characters stay in order |
| `SmartSync.CleanNameKeepsQuoteFree` | src/app/actions/smartSync.ts:50 | a name without quotes is searched for unchanged |
| `SmartSync.CleanNameIdempotent` | src/app/actions/smartSync.ts:50 | cleaning twice is cleaning once |
| `SmartSync.CleanNameDropsOnlyQuotes` | src/app/actions/smartSync.ts:50 | every character other than a quote occurs as often as in the name |
| `SmartSync.PlanEntryCounts` | src/app/actions/smartSync.ts:39-60 | one record: each title search leaves one note; a known record gives an update unless its search found nothing |
| `SmartSync.PlanCounts` | src/app/actions/smartSync.ts:33-62 | whole export: one note per title search; updates ≤ known records ≤ updates + searches; equality exactly when every search succeeds; no UNKNOWN; no query has a quote |
| `SmartSync.PlanUsesLinkedIds` | src/app/actions/smartSync.ts:40-44 | a record in a known category with a usable link yields an update of that id with that category's status, and no title search or note |
| `SmartSync.PlanUpdatesSourced` | src/app/actions/smartSync.ts:33-60 | every update comes from a record under a known category, by its link or else by its cleaned name |
| `SmartSync.RepeatedLinkIsNotMerged` | src/app/actions/smartSync.ts:30-44 | the same link listed twice yields two identical updates |
| `SmartSync.ApplyUpdatesAppend` | src/app/actions/smartSync.ts:72-75 | writing two update lists one after the other is writing their concatenation |
| `SmartSync.ApplyUpdatesLastWins` | src/app/actions/smartSync.ts:72-75 | upserting the updates in order leaves each id with its last update; ids not named keep their value |
| `SmartSync.SyncEntry` | src/app/actions/smartSync.ts:79-83 | the SMART_SYNC row counts the updates and keeps a prefix of the notes: exactly 50 when there are more, all of them otherwise |
| `SmartSync.SmartSyncAction` | src/app/actions/smartSync.ts:26-93 | an export the loop throws on (a known label holding something it cannot iterate, a null record, a record with no usable link and no name) answers with the thrown message and writes nothing; otherwise success exactly when every batch is written; it then returns the update count, the column holds every update, and one SMART_SYNC row is logged if the database accepts it; otherwise the error of the first failed batch, earlier batches kept, nothing logged |
| `SmartSync.WriteBatches` | src/app/actions/smartSync.ts:72-75 | batches are written in order; the first failure stops the loop, leaving exactly the earlier batches written |
| `SmartSync.PlanLoop` | src/app/actions/smartSync.ts:33-62 | the nested loop collects exactly the reference plan |
| `IngestData.ClearList` | scripts/ingest-data.ts:71-72 | after a successful delete only rows with id 0 remain, and all of them do; a failed delete changes nothing. The later steps never read the list table, so this step stands alone |
| `IngestData.WorkQueueIsFreshDiff` | scripts/ingest-data.ts:76-90 | the work queue is the diff against empty snapshots: the same ids, the same order, the same statuses |
| `IngestData.WorkQueueFirstWins` | scripts/ingest-data.ts:76-90 | the queue has each id once, only positive ids that records resolve to, and every such id with the status of its first record |
| `IngestData.IngestRow` | scripts/ingest-data.ts:166-187 | none without a studio list (the map throws); otherwise id, romaji title, studios and details copied; English falls back to romaji; the extra-large cover only; strict start and end dates; no native title, release, adult flag, ustatus or relations |
| `IngestData.IngestRowIsStrictRichRow` | scripts/ingest-data.ts:166-187 | the script's row is the import action's row with no native title, no cover fallback, strict dates and no release fields; where the strict date exists the two rows agree on it |
| `IngestData.FindWork` | scripts/ingest-data.ts:160 | `chunk.find`: a batch item with that id, and none exactly when the batch has no item with that id |
| `IngestData.ForeignMediaSkipped` | scripts/ingest-data.ts:160-161 | a returned title that is not in the batch changes nothing |
| `IngestData.MediaStepCounts` | scripts/ingest-data.ts:189-207 | a success is counted only when both upserts succeed; a failed title upsert attempts no list upsert |
| `IngestData.MediaStepAccounted` | scripts/ingest-data.ts:159-207 | one returned title keeps the counters consistent with the upserts attempted |
| `IngestData.MediaLoopAccounted` | scripts/ingest-data.ts:159-208 | the media loop keeps the counters consistent with the upserts attempted |
| `IngestData.BatchStepAccounted` | scripts/ingest-data.ts:154-213 | a batch, failed or not, keeps the counters consistent with the upserts attempted |
| `IngestData.ChunkMembers` | scripts/ingest-data.ts:148-149 | every item of a batch is an item of the queue |
| `IngestData.IngestAllAccounted` | scripts/ingest-data.ts:148-216 | the batch loop keeps the counters consistent with the upserts attempted |
| `IngestData.IngestAccounted` | scripts/ingest-data.ts:144-216 | whole run: successes ≤ list upserts ≤ title upserts ≤ successes + errors; every upsert is for a queued id, with that item's status |
| `IngestData.MediaLoopCounts` | scripts/ingest-data.ts:159-208 | the counters grow by one per attempted title upsert; neither goes down; earlier writes stay |
| `IngestData.BatchCounts` | scripts/ingest-data.ts:154-213 | a batch adds one per attempted title upsert, plus the batch size when its query failed or it threw |
| `IngestData.SmoothMediaLoop` | scripts/ingest-data.ts:159-208 | with nothing failing, the media loop does not throw and counts only successes |
| `IngestData.SmoothRunHasNoErrors` | scripts/ingest-data.ts:148-216 | with nothing failing, the run counts no error, and every attempted pair of upserts is a success |
| `IngestData.RequestsCoverQueue` | scripts/ingest-data.ts:148-150 | the id lists sent, joined, are the queue's ids in order |
| `IngestData.BuildWorkQueue` | scripts/ingest-data.ts:76-90 | the nested loop with its "processed" set builds the reference work queue |
| `IngestData.QueueCategory` | scripts/ingest-data.ts:79-89 | the inner loop extends the queue by one category's records |
| `IngestData.QueueRecord` | scripts/ingest-data.ts:84-88 | one iteration queues an id only when it resolves and is not yet processed |
| `IngestData.IngestBatches` | scripts/ingest-data.ts:148-216 | the index loop runs the reference batch fold; it sends one request per batch of 1..50 ids, covering the queue's ids in order |
| `IngestData.ProcessBatch` | scripts/ingest-data.ts:154-213 | one batch: a failed query or a thrown mapping charges the whole batch as errors |
| `IngestData.MediaLoopStops` | scripts/ingest-data.ts:154-213 | once the media loop has thrown, the rest of the response is not processed |
| `ScrapeAnilist.UserStatusMapKeys` | scripts/scrape-anilist.ts:163-169 | the status map holds exactly the ids some record resolves to; null and 0 are skipped |
| `ScrapeAnilist.UserStatusMapLastWins` | scripts/scrape-anilist.ts:163-169 | each id maps to the status of its last record, UNKNOWN for an unknown category |
| `ScrapeAnilist.UserStatusMapOf` | scripts/scrape-anilist.ts:159-171 | a missing or unreadable export gives an empty map |
| `ScrapeAnilist.FirstWinsAndLastWinsDiffer` | scripts/scrape-anilist.ts:163-169 | one link under Planning, then under Completed: the ingestion queue keeps Planning, the scraper's map keeps Completed |
| `ScrapeAnilist.RemoveFirst` | scripts/scrape-anilist.ts:177 | `replace` with a string pattern removes only the first occurrence, and nothing when there is none |
| `ScrapeAnilist.ParseDigits` | scripts/scrape-anilist.ts:177 | NaN exactly when the text does not start with a digit; otherwise the value of the leading digit run, whatever follows it |
| `ScrapeAnilist.ParseInt` | scripts/scrape-anilist.ts:177 | an optional sign, then the leading digits: a plus sign changes nothing, a minus sign negates, no digit gives NaN; an all-digit text gives its value |
| `ScrapeAnilist.ParseIgnoresTail` | scripts/scrape-anilist.ts:177 | digits followed by a non-digit tail parse to the digits' value, with or without a plus sign, and negated under a minus sign |
| `ScrapeAnilist.MaxPage` | scripts/scrape-anilist.ts:177 | `Math.max`: NaN exactly when some argument is NaN; otherwise one of the arguments, bounding them all |
| `ScrapeAnilist.PageFiles` | scripts/scrape-anilist.ts:174 | the filter keeps exactly the listing's `page_*.json` names, and no more names than the listing has; a single name is kept when it is a page file and dropped otherwise |
| `ScrapeAnilist.PageFilesAppend` | scripts/scrape-anilist.ts:174 | the filter works name by name, so the page files keep their listing order |
| `ScrapeAnilist.PageFilesSkipOthers` | scripts/scrape-anilist.ts:174 | names that are not page files change nothing, wherever they sit in the listing |
| `ScrapeAnilist.PageFilesKeepAll` | scripts/scrape-anilist.ts:174 | a listing of page files only is kept whole |
| `ScrapeAnilist.PageFileNameRoundTrip` | scripts/scrape-anilist.ts:101 | the name page n is cached under is a page file, and its number parses back to n |
| `ScrapeAnilist.MaxOfNumbers` | scripts/scrape-anilist.ts:177 | the maximum of parsed page numbers with no NaN is one of them and bounds them all |
| `ScrapeAnilist.ResumeFromNames` | scripts/scrape-anilist.ts:174-178 | with numbered page files, the run resumes one past the largest number |
| `ScrapeAnilist.ResumeAfterCachedPages` | scripts/scrape-anilist.ts:174-178 | for any listing whose page files are exactly the names of some cached pages: page 1 with none cached, otherwise one past the highest, in any order and with any other files |
| `ScrapeAnilist.UnnumberedPageFileGivesNaN` | scripts/scrape-anilist.ts:177 | a file named `page_.json` makes the start page NaN |
| `ScrapeAnilist.RelationOf` | scripts/scrape-anilist.ts:130-139 | a related title keeps its id, relation type, medium cover, status, format, season and season year; its title is English else romaji |
| `ScrapeAnilist.ScrapeRow` | scripts/scrape-anilist.ts:104-141 | a row exactly when the studio list is present; ustatus is the map's entry or null; adult flag and studios copied; the relations are the entry's edges mapped one by one, none when it has no edges |
| `ScrapeAnilist.ScrapeRowRelation` | scripts/scrape-anilist.ts:130-139 | relation `i` of a scraped row is edge `i`: its id, relation type and medium cover, titled English else romaji |
| `ScrapeAnilist.ScrapeRowExtendsRichRow` | scripts/scrape-anilist.ts:104-128 | apart from the adult flag, ustatus and relations, the scraper's row equals the import action's row |
| `ScrapeAnilist.RowsOf` | scripts/scrape-anilist.ts:104 | the page maps exactly when every entry has a studio list, and then maps entry by entry |
| `ScrapeAnilist.FetchPage` | scripts/scrape-anilist.ts:91-151 | a null or empty page is success with count 0 and no next page, nothing cached; otherwise cached first, then mapped and upserted; success exactly when both went through, with the page's count and next flag; errors name the page |
| `ScrapeAnilist.PageEndsRun` | scripts/scrape-anilist.ts:196-207 | a page ends the run exactly when it was fetched and was empty, or was stored with no next page; a failed page never ends it |
| `ScrapeAnilist.FailedPageStillCached` | scripts/scrape-anilist.ts:100-145 | a non-empty page is cached even when mapping or upserting it fails |
| `ScrapeAnilist.ScrapeRequestsConsecutivePages` | scripts/scrape-anilist.ts:183-212 | the run requests consecutive pages from its start, whole rounds of two, with no page retried or skipped |
| `ScrapeAnilist.ScrapeEndsAtFirstFinalPage` | scripts/scrape-anilist.ts:187-209 | no earlier round held a page that ends the run; the run ended exactly when its last round did; a run that did not end used all its rounds |
| `ScrapeAnilist.CheckRound` | scripts/scrape-anilist.ts:196-207 | the result loop clears `hasMore` exactly when some page of the round ends the run |
| `ScrapeAnilist.ScrapeLoop` | scripts/scrape-anilist.ts:183-212 | the `while (hasMore)` loop requests exactly the pages of the reference run, consecutive from the start page |

## Left out

- The React pages and components, `revalidatePath`, console output and `src/app/actions.ts`. These are presentation code or single-row updates with no logic of their own.
- Network, database, file system and `JSON.parse` are parameters: fetch and query oracles, upsert functions that return an error or nothing, a `system_logs` insert oracle saying whether the row was stored (the source ignores that insert's error), and a parser that tells non-JSON text, JSON that is not an export, and an export apart. The SQL `ilike` title search is an opaque `string -> Option<int>`.
- Timing and concurrency: `setTimeout` delays, the 15-second cooldown after a 429 response, and `Promise.all`. The two pages of a round are modelled as requested together, and their results are read in page order.
- Iteration order of object keys is not modelled. The export is the sequence of categories in the order the loops visit them.
- The regex engine is replaced by a hand-written leftmost search for the pattern followed by a digit.
- `parseInt` leading whitespace and radix prefixes are not modelled. Number precision above 2^53 is not modelled either, because integers are unbounded here.
- Upsert is modelled as whole-row replacement. PostgreSQL would keep the columns a writer omits. The ingestion script's list upsert with `onConflict: 'anime_id, status'` is modelled as a write keyed by anime id.
- How the database treats one upsert call that names the same id twice is not modelled. This can happen in smart sync, which does not de-duplicate. Such a call is one call to the upsert oracle, and its answer is whatever the oracle returns.
- The scraper's `raw_data` column and the cache file's JSON text are not modelled. The cache is modelled as the media list it holds.
- ScrapeAnilist.FetchPage: a missing studio list makes the whole page fail with a fixed stand-in for the JavaScript `TypeError` text. A missing `title`, `coverImage` or `Page` object, which would also throw, is not modelled; those fields are always present in the model. The cache write is assumed to succeed: a failing `writeFileSync`, which makes the source return a failed page with nothing cached and nothing upserted, is not modelled.
- IngestData.IngestRow: only a missing studio list throws. The other missing-object errors are left out, as above.
- ScrapeAnilist.UserStatusMapOf: an export that fails part-way through the loop is not modelled. The source swallows that error and keeps the partial map; the model has either the whole map or, for an unreadable export, the empty one.
- ScrapeAnilist.Scrape: the run is bounded by a `fuel` number of rounds. A run that would never see a final page is represented only by its first `fuel` rounds. A NaN start page is not run.
- ScrapeAnilist.ScrapeLoop: the same `fuel` bound as `Scrape`.
- WatchStatus.StatusLookup: `STATUS_MAP` is a plain object, so a category named after an inherited property (`constructor`, `toString`, `__proto__`) finds a truthy value there. Smart sync would then push an update carrying that value, and the scraper would store it as the status. The model treats every key other than the five labels as absent. Inherited object properties are outside what the model represents.
- WatchStatus.StatusLookupAgreesWithMapStatus: for the same inherited keys the source's `STATUS_MAP[cat] || 'UNKNOWN'` is not `mapStatus(cat)`; the agreement is proved for every other key.
- IngestData.WorkQueueFirstWins: the queue is built from a well-formed export. On a category holding something it cannot iterate (under any label, since the script skips none) or on a null record, the script's loop throws and the run ends, after the list has already been cleared; no model member composes the clearing step with that crash.
- The UPDATE and NO_CHANGE kinds exist in the type but are never produced by the engine. `applyChange` accepts them and only logs.
