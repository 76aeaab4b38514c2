# Webhook mock server — a Dafny model

This project models the core of a small webhook mock server. The server
receives arbitrary HTTP webhooks. It stores each one as an event with a
sequential id and a timestamp, and sends each new event to the open live-feed
connections. It serves paged listings, lookup by id, free-text search,
pruning of old events and a full export. A separate script keeps rolling
backups of the database file.

The model has six modules:

- `Options` (options.dfy): the `Option` type. `None` stands for a JavaScript
  `null`, and for the `NaN` that `parseInt` returns on a missing or
  non-numeric parameter.
- `Sequences` (sequences.dfy): the collection operations the store's queries
  are built from.
  - `Filter`.
  - A sort by a numeric key in either direction, with sortedness and
    permutation proved.
  - Skip/limit paging with the JavaScript `slice` index rules.
  - Distinctness of elements, or of a key of them, kept by filtering.
- `Text` (text.dfy): ASCII lower-casing, substring containment, prefix and
  suffix tests, blankness after trimming (with JavaScript's full set of white
  space and line terminator characters) and decimal rendering.
- `EventStore` (event_store.dfy): the `WebhookDatabase` class of database.js.
  - The collection is the field `events: seq<Event>`.
  - The read-only queries are functions over that sequence.
  - `insertEvent`, `clearAllEvents` and `clearOldEvents` are methods that
    update the field.
- `Server` (server.js): the handlers' logic, as pure functions where the
  handler only computes. This covers:
  - page and limit defaulting, the `skip` translation and `totalPages`;
  - the 404 rule;
  - the prune-days default;
  - the export bundle and its file name.

  Three parts are imperative:
  - The `clients` registry of live-feed connections is the `LiveFeed` class.
    Each connection has a delivery log that stands for what was written to it.
  - The ingest handler `HandleWebhook` inserts, then broadcasts, then answers.
  - The prune handler `DeleteOldEvents` prunes the store, then answers.
- `Backup` (scripts/backup-db.js): the backup file name and the retention
  rule. The rule keeps the five most recent `webhooks-backup-*.db` files and
  deletes the others. It runs as a loop over a `BackupDirectory` whose entries
  are name/mtime pairs.

Time is an explicit parameter `now` in milliseconds. A day is
`DAY = 86400000`. Timestamps are integers in milliseconds that stand for the
stored ISO strings. For times in years 0 to 9999, which is every time a
present-day clock reads, the order of those strings is the order of the
times. The pruning cutoff can fall outside that range, and there the string
order differs: a cutoff after year 9999 is written `+YYYYYY-…`, which sorts
before every four-digit year. So pruning compares the ISO order of the two
times (`EventStore.IsoBefore`), not their numeric order. Where the handler
reads the clock as ISO text (the export date, the backup name), the text is
a parameter.

Two behaviours of the code are easy to miss, and the model keeps both:

- The search text of a document contains its member names. So the query `b`
  matches every event, because every document has a `body` member (lemma
  `EventStore.EveryEventMatchesB`).
- The next id is computed from the ids currently stored. After a full clear,
  ids start again at 1 (`EventStore.NextId`, `EventStore.SequentialIdsFromEmpty`).
  So ids are unique among the events stored at one time, not across clears.

## Model

| member | source | states |
|---|---|---|
| EventStore.NextId | database.js:44-55 | The next id is 1 on an empty store. Otherwise it is the largest stored id plus one: some stored id is one less, and every stored id is smaller. |
| EventStore.NewEvent | database.js:22-28 | The new document has the next id, carries the request fields and the time `now`, and differs from every stored event. |
| EventStore.InsertKeepsIdsUnique | database.js:20-41 | Inserting keeps the stored ids pairwise distinct. |
| EventStore.SequentialIdsFromEmpty | database.js:44-55 | Inserting n events one after another into an empty store assigns the ids 1..n in order. |
| EventStore.GetEventById | database.js:91-101 | A found event is stored and has the requested id. The lookup finds nothing exactly when the id did not parse or no stored event has it. |
| EventStore.LookupFindsStored | database.js:91-101 | When ids are distinct, looking up a stored event's id yields that event. |
| EventStore.InsertThenLookup | database.js:20-41 | Looking up the id an insert assigned yields the new document: that id, the time `now` and the request fields. |
| EventStore.InsertThenLookupAny | database.js:91-101 | Looking up an appended event whose id exceeds every earlier id finds it. |
| EventStore.GetEvents | database.js:58-75 | The page holds stored events sorted by the requested field and direction. For a non-negative skip and positive limit it holds max(0, min(limit, count - skip)) events, and these are positions skip, skip+1, … of the whole sorted collection. |
| EventStore.PagesPartitionListing | database.js:58-75 | The first n pages of one size, concatenated, are exactly the first n·limit events of the sorted store. Pages neither overlap nor skip events. |
| EventStore.GetEventCount | database.js:78-88 | The count is the number of stored events. |
| EventStore.IsBlankQuery | database.js:106 | A missing query, or one made only of the characters JavaScript's `trim()` removes (`Text.IsWhitespace`: tab, vertical tab, form feed, U+FEFF, the space separators and the line terminators), is blank and lists like `getEvents`; the count uses the same test (database.js:143). |
| EventStore.Matches | database.js:115-125 | The search predicate: the lower-cased query occurs in the lower-cased document text, in the id's digits, or in the lower-cased method or url when present. |
| EventStore.SearchEvents | database.js:104-138 | A blank or missing query lists exactly like `getEvents(skip, limit)`. A non-blank query fails exactly when some stored event has a missing or empty url and matches nothing else, because the search callback then returns that url instead of a boolean. Otherwise the result is the skip/limit window of the matching events in newest-first order, so every result is stored and matches. A page never exceeds the search count. |
| EventStore.GetSearchCount | database.js:141-166 | The count fails exactly when the search fails. Otherwise it is at most the store size, and for a blank query it equals the event count. |
| EventStore.SearchCountIsUnpagedSearch | database.js:141-166 | The count and the unpaged search fail together. Otherwise the count equals the length of the unpaged search, and for a non-blank query the unpaged search is exactly the matching events, with multiplicity. |
| EventStore.NotBoolean | database.js:121-124 | The search callback's value is not a boolean exactly when the document fails the text, id and method tests and its url is missing or empty, because the callback then returns the url itself. The count's callback is the same (database.js:153-156). |
| EventStore.SearchFails | database.js:115-125 | A non-blank search, and its count (database.js:151-157), fail exactly when some stored document makes the callback's value not a boolean. |
| EventStore.UrlsKeepSearchWorking | database.js:115-125 | When every stored event has a non-empty url, as every event stored by the webhook handler does, neither the search nor the count fails. |
| EventStore.MissingUrlFailsSearch | database.js:115-125 | A stored event with a missing or empty url that matches nothing else makes a non-blank search and its count fail. |
| EventStore.IdMatchImpliesTextMatch | database.js:118-122 | A query found in the id's decimal text is also found in the lower-cased document text. |
| EventStore.EveryEventMatchesB | database.js:118-121 | The query `b` matches every event, whatever its body holds. |
| EventStore.ExportEvents | database.js:205-215 | The export is a permutation of the whole store, sorted newest first. |
| EventStore.GetOldestEvent | database.js:237-247 | The result is absent exactly when the store is empty. Otherwise it is a stored event with the minimal timestamp. |
| EventStore.GetNewestEvent | database.js:250-260 | The result is absent exactly when the store is empty. Otherwise it is a stored event with the maximal timestamp. |
| EventStore.GetStats | database.js:218-234 | `totalEvents` is the event count, and the oldest and newest events are those of `GetOldestEvent` and `GetNewestEvent`. They are absent exactly when the store is empty, and the oldest is never newer than the newest. |
| EventStore.EpochYear | database.js:186-187 | The calendar behind the ISO text puts the epoch in 1970. |
| EventStore.YearZeroStart | database.js:186-187 | Year 0 starts at -62167219200000 ms: the millisecond before it is in year -1. |
| EventStore.YearTenThousandStart | database.js:186-187 | Year 10000 starts at 253402300800000 ms: the millisecond before it is in year 9999. |
| EventStore.IsoBefore | database.js:187-190 | The order of two times' ISO texts, which the model does not hold as text. The first character decides when it differs: `+` (years after 9999) before `-` (years before 0) before a digit (years 0 to 9999). With the same first character the earlier time sorts first, except before year 0, where the later year sorts first and the earlier time breaks a tie within a year. |
| EventStore.IsoBeforeIsStrictTotalOrder | database.js:187-190 | `IsoBefore` is a strict total order, as a text order is: irreflexive, transitive, and one of two different times sorts first. |
| EventStore.IsoOrderIsChronological | database.js:187-190 | From `IsoBefore`'s case split: for two times in years 0 to 9999 the ISO order is the time order. |
| EventStore.FarFutureSortsFirst | database.js:187-190 | From `IsoBefore`'s case split: a time after year 9999 is later than every time in years 0 to 9999, yet sorts before them in ISO order. |
| EventStore.Cutoff | database.js:185-187 | The cutoff is `daysOld` whole days before `now`, so a negative day count puts it after `now`. |
| EventStore.DaysOrDefault | database.js:183 | A missing day count means 7; a given one, even 0, is used as it is. |
| EventStore.PruneBeforeOldestRemovesNothing | database.js:183-202 | With every stamp in years 0 to 9999, a cutoff no later than the oldest event keeps every event and removes none. |
| EventStore.FarFutureCutoffRemovesNothing | database.js:183-202 | With every stamp in years 0 to 9999, a cutoff after year 9999 keeps every event and removes none. |
| EventStore.FilterKeepsUniqueIds | database.js:189-191 | Removing events keeps the remaining ids pairwise distinct. |
| EventStore.WebhookDatabase.constructor | database.js:5-17 | The store opens holding the events already persisted. |
| EventStore.WebhookDatabase.InsertEvent | database.js:20-41 | On success, exactly one event is appended, with the next id and time `now`, and the earlier events stay as they were. On failure the store is unchanged. Distinct ids stay distinct, and so does the property that every stamp lies in years 0 to 9999 when `now` does. |
| EventStore.WebhookDatabase.ClearAllEvents | database.js:169-180 | The store becomes empty, and the result is the previous count. |
| EventStore.WebhookDatabase.ClearOldEvents | database.js:183-202 | It removes exactly the events whose ISO timestamp sorts before the ISO text of `now - days·DAY` (default 7 days), and keeps the rest in order. The result equals both the number of removed events and the drop in size. When the cutoff lies outside the range of JavaScript dates (more than 8.64·10¹⁵ ms from the epoch), the call fails and nothing is removed. Stamps in years 0 to 9999 stay so. |
| Server.OrDefault | server.js:47-48 | The value is the parsed number, or the fallback when parsing gave `NaN` or 0. With a non-zero fallback it is never 0. |
| Server.TotalPages | server.js:61 | For a positive limit: `totalPages·limit >= total`, and `(totalPages-1)·limit < total` when total > 0. It is 0 when total is 0. |
| Server.ListEvents | server.js:45-62 | Page and limit default to 1 and 1000. The events are the listing window at skip = (page-1)·limit, so they are stored and newest first. The total is the event count. For a positive page and limit, at most `limit` events are returned, and there are events exactly when page <= totalPages. |
| Server.PageExistsIffWithinTotal | server.js:49-61 | For a positive page and limit, the window starting at (page-1)·limit is non-empty exactly when page <= totalPages. |
| Server.ListedPagesStep | server.js:45-62 | Page n of `GET /events` (n ≥ 1, positive page size) is the n-th window of that size in newest-first order, appended after pages 1..n-1. |
| Server.ListedPagesAreFirstPages | server.js:45-62 | Pages 1..n of `GET /events` with one page size are, one after the other, the first n pages of the newest-first order. |
| Server.PagesCoverExport | server.js:45-62 | The events of pages 1..totalPages of `GET /events`, one after the other, are exactly the full export, newest first. |
| Server.GetEventReply | server.js:72-81 | The reply is 404 exactly when the id did not parse or no stored event has it. Otherwise it is a stored event with that id. |
| Server.DeleteOldEvents | server.js:166-182 | `days` is the parsed value, or 7 for a missing, non-numeric or zero value. The store is pruned at that many days, and the echoed count is the number removed. When the cutoff is not a valid date, the answer is a 500 and nothing is removed. |
| Server.PruneSevenDays | server.js:168-169 | At a time in years 0 to 9999, with the default 7 days, an event 10 days old is removed and one 3 days old is kept. |
| Server.FarFutureDaysPruneNothing | server.js:166-175 | With `days=-3000000` at any time from 1970 to 9999, the cutoff is a valid date after year 9999. So no event stamped in years 0 to 9999 is removed, Together with the contract of `DeleteOldEvents`, whose count is the drop in size, the reply is `Pruned(0, -3000000)`. |
| Server.DatePart | server.js:195 | The date part is the prefix of the ISO text before the first `T`. It contains no `T`, and is the whole text when there is no `T`. |
| Server.ExportFilename | server.js:195 | The file name is `webhook-export-`, then the date part, then `.json`. |
| Server.ExportReplyOf | server.js:184-199 | The bundle carries the export date, the store's statistics, and all events newest first as a permutation of the store. The statistics count exactly those events, and the attachment name is the export file name. |
| Server.LiveFeed.constructor | server.js:8 | The registry starts with no connections and no deliveries. |
| Server.LiveFeed.Subscribe | server.js:107-115 | A new, unregistered connection is appended to `clients` with an empty delivery log. The registry stays duplicate-free. |
| Server.LiveFeed.Close | server.js:117-119 | Every occurrence of the connection is filtered out of `clients`, and nothing already delivered changes. |
| Server.Deliver | server.js:28-30 | What a broadcast to the connections `to` leaves behind: each of them has the event appended to its log, and every other log is unchanged. |
| Server.LiveFeed.Broadcast | server.js:28-30 | The event is appended to the log of every registered connection, and to no other. The registry is unchanged. |
| Server.CloseKeepsOthersInOrder | server.js:117-119 | Closing a connection removes it and keeps all other connections in their order. |
| Server.CloseUnregisteredIsNoOp | server.js:117-119 | Closing a connection that is not registered leaves `clients` unchanged. |
| Server.EventData | server.js:16-22 | The stored fields are exactly the request's headers, body, method, url and query. |
| Server.HandleWebhook | server.js:14-43 | On success, the event is stored with the next id and sent to every connection registered at that moment, and the reply carries its id. On failure, nothing is stored, nothing is sent, and the reply is a 500. |
| Backup.IsBackupName | scripts/backup-db.js:51 | A name is a backup name when it starts with `webhooks-backup-` and ends with `.db`. |
| Backup.FileSafeTimestamp | scripts/backup-db.js:17 | Every `:` and `.` becomes `-` and every other character is kept. No `:` or `.` remains. |
| Backup.BackupFilename | scripts/backup-db.js:17-18 | The name is `webhooks-backup-`, then the file-safe timestamp, then `.db`. It contains no `:` and passes the backup-name filter. |
| Backup.Candidates | scripts/backup-db.js:50-57 | The candidates are exactly the directory entries with a backup name, ordered newest first by mtime. |
| Backup.BackupsToDelete | scripts/backup-db.js:57-60 | There are max(0, candidates - 5) doomed files, and each is a directory entry with a backup name. |
| Backup.KeptAreNewest | scripts/backup-db.js:57-60 | Kept and doomed backups together are exactly the candidates, and no doomed backup is newer than a kept one. |
| Backup.AfterCleanup | scripts/backup-db.js:60-65 | Every entry whose name is not doomed remains, so files that are not backups always remain. No file is added, and every doomed backup is gone. |
| Backup.KeptNotDoomed | scripts/backup-db.js:57-60 | In a directory with distinct names, no backup is both kept and doomed. |
| Backup.CleanupKeepsExactlyKept | scripts/backup-db.js:57-65 | In a directory with distinct names, every kept backup remains after the cleanup, and the backups that remain are exactly the kept ones. |
| Backup.CleanupKeepsDistinctNames | scripts/backup-db.js:62-65 | Deleting files keeps the names in the directory distinct. |
| Backup.FewBackupsDeleteNothing | scripts/backup-db.js:59-69 | With five backups or fewer, the directory is left unchanged. |
| Backup.NewestNotDeleted | scripts/backup-db.js:57-60 | A backup strictly newer than every other entry is never doomed. |
| Backup.WithCopy | scripts/backup-db.js:29 | After the copy, the directory holds the new backup, and every entry of another name is still there. |
| Backup.WithCopyKeepsDistinctNames | scripts/backup-db.js:29 | A copy replaces any entry of its name, so the names stay distinct. |
| Backup.FreshBackupSurvives | scripts/backup-db.js:17-40 | A backup just made, newer than everything already there, survives the cleanup that follows it. |
| Backup.BackupDirectory.constructor | scripts/backup-db.js:50 | The directory starts with the listed entries, whose names are distinct. |
| Backup.BackupDirectory.CleanupOldBackups | scripts/backup-db.js:48-74 | Deleting the doomed backups one by one leaves exactly the cleaned directory, with names still distinct. The result is the number of deletions. |
| Backup.BackupDirectory.BackupDatabase | scripts/backup-db.js:6-46 | Without a database file, nothing changes. Otherwise the copy is written under the backup name, replacing any file of that name, and then the cleanup runs. Names stay distinct. |

## Left out

- NeDB itself is not part of this model: the file format, autoload, indexes,
  the `_id`/`createdAt`/`updatedAt` fields, `compactDatabase` and
  `getDatabaseSize`. Paging follows `Array.prototype.slice` index rules, with
  limit 0 meaning no limit.
- Concurrency: each insert reads the next id and stores the event in one
  step, so the read-then-insert race of `insertEvent` is not modelled.
- Store failures on reads, counts and removals are not modelled, apart from the
  invalid cutoff date of `clearOldEvents` and the search callback that
  returns a value other than a boolean. For inserts, failure is the
  `storeOk` parameter.
- HTTP and SSE transport, body parsing, response headers and event-stream
  framing. A broadcast is an append to each connection's delivery log.
- `/api/webhook-url` (an external call), the `/` banner, `/dashboard`,
  `DELETE /events` and `/api/stats`. The last two only forward
  `ClearAllEvents` and `GetStats`.
- The scripts clear-db.js, db-stats.js and export-db.js: prompts, console
  output and file writing.
- In the backup script: the file-system calls, creating the backups directory,
  failures that abort the backup or skip the cleanup, and file sizes.
- Console logging everywhere.
- `JSON.stringify` escaping and key order for headers, body and query. Each of
  these is held as its already-serialised text, and `DocText` joins them
  without escaping. The method and url are written between quotes without
  escaping, so a url holding `"` or `\` appears in the model's document
  text as it is, where the code's text has it escaped.
- EventStore.Matches: the document the search stringifies also carries the
  storage library's `_id`, `createdAt` and `updatedAt` members, and its
  timestamp is quoted ISO text. The model's document text has neither. So in
  the code, queries such as `z` (every ISO time ends in `Z`), `created` or
  `_id` match every event, while in the model they match only events whose
  own fields contain them. The ISO rendering of a time is modelled only
  through its ordering (`EventStore.IsoBefore`).
- `toLowerCase` beyond ASCII: only `A`..`Z` are folded.
- Date arithmetic with `setDate`, which follows local-time daylight-saving
  shifts. It is modelled as subtracting whole 24-hour days.
- ISO text formatting beyond its ordering, and JavaScript number precision.
- EventStore.GetEvents, EventStore.GetOldestEvent, EventStore.GetNewestEvent:
  they sort and compare timestamps by time, while the store compares the ISO
  texts. The two agree for stamps in years 0 to 9999
  (`EventStore.IsoOrderIsChronological`). A stamp outside that range can only
  come from a clock that reads such a time, or from a file edited by hand.
- `parseInt` itself: handlers receive its result as `Option<int>`.
- EventStore.GetEvents: NeDB's order among events with equal keys is not
  promised. The model sorts stably, and its contract states only sortedness
  and the positions in the model's own sorted order.
- EventStore.GetStats: the `databaseSize` member is not modelled.
- Server.TotalPages: for a negative limit the body follows `Math.ceil` of the
  negative quotient, but the contract states bounds only for a positive limit.
- Server.ListEvents: the page size and page existence are stated only for a
  positive page and limit. A zero or negative value yields an unbounded or
  empty page, following the slice index rules.
