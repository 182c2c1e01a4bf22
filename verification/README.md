# Backloggr offline store, sync engine and multipart body — a Dafny model

Backloggr is an Android client for a game-backlog service. It keeps the user's library in a local
SQLite database so that it works offline. Every change made offline is also written to a
`pending_sync` queue. `SyncManager` drains that queue against the REST API when the device is
online, and it can also pull the whole library down into the local store.
`VolleyMultipartRequest` serialises `multipart/form-data` upload bodies.

The model has these files:

- `store.dfy` (module `Store`): the four tables `user_games`, `game_cache`, `user_statistics`
  and `pending_sync`, each a map from primary key to row. It also has one function per
  statement, saying what that statement does to a table. This covers `insertOrUpdateGame`'s
  update-or-insert paths, `updateGameField`'s column write and re-key, and the queue's
  `synced` flag. It also covers the JSON that `cursorToGameJson` emits, which `searchGames`
  reads.
- `database_helper.dfy` (module `DatabaseHelper`): the class `LocalStore`. Its fields are the
  four tables and the AUTOINCREMENT sequence of `pending_sync`. Each `DatabaseHelper` method
  updates these fields in place and is proved against the function in `Store`. The readers
  walk the table in a loop and place each selected row into the list in `ORDER BY` order. They
  are proved to return exactly the selected rows, sorted.
- `ordering.dfy` (modules `Ordering`, `Filtering`, `SetFacts`): the BINARY collation on TEXT
  used by `ORDER BY updated_at DESC` and `ORDER BY timestamp ASC`. It defines what a sorted
  listing of a set of rows is, and proves that an order-preserving filter of such a listing is
  again one.
- `sync_manager.dfy` (module `SyncManager`): `syncPendingChanges` in two halves.
  - The dispatch loop builds the requests and fires `onComplete` once, after the last record.
  - The response callbacks run afterwards, in dispatch order. Each one is given the server's
    outcome for its request.
  - The module also holds `syncLibraryFromServer`'s upsert loop.
  - Connectivity, the saved token and the server's answers are parameters.
- `multipart.dfy` (module `Multipart`): the body bytes and the content type. The stream is a
  byte buffer, and `writeBytes` keeps the low eight bits of each character. The module proves
  the part framing of section 4 of RFC 7578 and the delimiter rules of section 5.1.1 of
  RFC 2046.
- `game_detail.dfy` (module `GameDetail`): the two offline writes in `GameDetailActivity` that
  fill the queue (add a game under a temporary id, change a game's status), and the temporary-id
  finding below.
- `wrappers.dfy` and `text.dfy`: `Option`/`Result`, decimal rendering of integers, ASCII
  lower-casing and substring search.

## Model

| member | source | states |
|---|---|---|
| `Store.RowFromJson` | app/src/main/java/com/project/backloggr/DatabaseHelper.kt:128-140 | an entry without `igdb_game_id` or `status` is an error (the missing one is named, `igdb_game_id` first); otherwise the row keeps the entry's id (0 when absent), IGDB id and status, and every optional member that is present (user id, rating, hours, notes, the three dates, `updated_at`, and the `game_details` object) is stored as given |
| `Store.RowDefaults` | app/src/main/java/com/project/backloggr/DatabaseHelper.kt:128-140 | absent optional members default to 0, 0.0, "" and the empty details object |
| `Store.Upsert` | app/src/main/java/com/project/backloggr/DatabaseHelper.kt:126-150 | an error leaves the table as it was; otherwise either the row is written under the entry's id and that id is returned, or (id <= 0 already taken) -1 is returned and the table is unchanged; rows stay keyed by their id |
| `Store.UpsertPositiveUpdates` | app/src/main/java/com/project/backloggr/DatabaseHelper.kt:143-147 | a positive id is written over any existing row with that id and returned |
| `Store.UpsertNonPositiveInserts` | app/src/main/java/com/project/backloggr/DatabaseHelper.kt:143-149 | an id <= 0 always takes the insert path: -1 and no change when taken, a new row otherwise |
| `Store.UpsertTwice` | app/src/main/java/com/project/backloggr/DatabaseHelper.kt:61-149 | two upserts with the same positive id leave exactly one row under it, holding the second entry |
| `Store.ColumnNamed` | app/src/main/java/com/project/backloggr/DatabaseHelper.kt:60-73 | a field name resolves only to the column of that name |
| `Store.ColumnNameRoundTrip` | app/src/main/java/com/project/backloggr/DatabaseHelper.kt:60-73 | every `user_games` column is found by its own name |
| `Store.SetColumn` | app/src/main/java/com/project/backloggr/DatabaseHelper.kt:232-237 | the written column holds the value (as text in a TEXT column) and every other column is unchanged |
| `Store.UpdateField` | app/src/main/java/com/project/backloggr/DatabaseHelper.kt:230-241 | fails exactly on an unknown column or an impossible re-key; returns 1 when the row exists and 0 (table unchanged) when it does not; other rows are untouched; rows stay keyed |
| `Store.UpdateFieldWritesColumn` | app/src/main/java/com/project/backloggr/DatabaseHelper.kt:230-241 | writing an ordinary column changes only that column and `updated_at` of the one row |
| `Store.UpdateFieldOtherValue` | app/src/main/java/com/project/backloggr/DatabaseHelper.kt:232-238 | a value that is not a String, Double, Float or Int changes only `updated_at` |
| `Store.UpdateFieldRekeys` | app/src/main/java/com/project/backloggr/DatabaseHelper.kt:230-241 | putting an Int into `id` moves the row to the new key with its other columns kept, and fails when another row holds that key |
| `Store.DeleteGame` | app/src/main/java/com/project/backloggr/DatabaseHelper.kt:402-405 | removes only the row with that id and returns 1 if there was one, else 0 |
| `Store.RowJson` | app/src/main/java/com/project/backloggr/DatabaseHelper.kt:373-390 | the JSON of a row has exactly the twelve members `cursorToGameJson` puts, the details under "game_details" (never "game_details_json"), with the row's id and status |
| `Store.GameDetailsRoundTrip` | app/src/main/java/com/project/backloggr/DatabaseHelper.kt:140 | the `game_details` object an entry is stored with is read back under member "game_details" of the row's JSON |
| `Store.SearchNameAlwaysEmpty` | app/src/main/java/com/project/backloggr/DatabaseHelper.kt:219-221 | reading member `game_details_json` of a row's JSON always gives the name "", so a row matches exactly when the query is empty |
| `Store.StatsRowFrom` | app/src/main/java/com/project/backloggr/DatabaseHelper.kt:332-344 | the statistics row is keyed by the JSON's user id, or 1 when absent; each of the six counts is the JSON's value or 0 when absent, the hours the JSON's value or 0.0, and `updated_at` the clock |
| `Store.EnqueueAddsUnsynced` | app/src/main/java/com/project/backloggr/DatabaseHelper.kt:277-287 | a new record under a fresh key adds exactly that record to the unsynced set |
| `Store.MarkComplete` | app/src/main/java/com/project/backloggr/DatabaseHelper.kt:317-323 | sets the flag of that one record only; no record is removed |
| `Store.MarkCompleteHides` | app/src/main/java/com/project/backloggr/DatabaseHelper.kt:317-323 | a completed record leaves the unsynced set and nothing else does |
| `Store.DeleteRecordRemoves` | app/src/main/java/com/project/backloggr/DatabaseHelper.kt:326-329 | deleting a record removes exactly it from the unsynced set |
| `DatabaseHelper.LocalStore.constructor` | app/src/main/java/com/project/backloggr/DatabaseHelper.kt:57-115 | a new database has four empty tables and a zero sequence |
| `DatabaseHelper.LocalStore.InsertOrUpdateGame` | app/src/main/java/com/project/backloggr/DatabaseHelper.kt:126-150 | the result and the new `user_games` are those of `Upsert`; the other tables are unchanged |
| `DatabaseHelper.LocalStore.GetGame` | app/src/main/java/com/project/backloggr/DatabaseHelper.kt:153-171 | the row with that id when there is one, null otherwise |
| `DatabaseHelper.LocalStore.SelectGames` | app/src/main/java/com/project/backloggr/DatabaseHelper.kt:174-204 | the cursor loop returns each selected row once, sorted by `updated_at` descending |
| `DatabaseHelper.LocalStore.GetAllGames` | app/src/main/java/com/project/backloggr/DatabaseHelper.kt:174-184 | exactly the rows of the table, once each, most recently updated first |
| `DatabaseHelper.LocalStore.GetGamesByStatus` | app/src/main/java/com/project/backloggr/DatabaseHelper.kt:187-204 | exactly the rows with that status, once each, most recently updated first |
| `DatabaseHelper.LocalStore.SearchGames` | app/src/main/java/com/project/backloggr/DatabaseHelper.kt:207-227 | as written: the whole base listing when the query is empty, and nothing otherwise |
| `DatabaseHelper.LocalStore.SearchGamesByName` | app/src/main/java/com/project/backloggr/DatabaseHelper.kt:207-227 | corrected: exactly the base rows whose details name contains the query (ASCII case-insensitive), in listing order |
| `DatabaseHelper.FilterRows` | app/src/main/java/com/project/backloggr/DatabaseHelper.kt:218-224 | the search loop keeps, in order, exactly the rows that pass the test |
| `DatabaseHelper.SearchFindsAllOrNothing` | app/src/main/java/com/project/backloggr/DatabaseHelper.kt:218-224 | filtering on member `game_details_json` keeps all rows or none |
| `DatabaseHelper.LocalStore.UpdateGameField` | app/src/main/java/com/project/backloggr/DatabaseHelper.kt:230-242 | the result and the new `user_games` are those of `UpdateField`; an error changes nothing |
| `DatabaseHelper.LocalStore.DeleteGame` | app/src/main/java/com/project/backloggr/DatabaseHelper.kt:402-405 | the count and the new `user_games` are those of `Store.DeleteGame` |
| `DatabaseHelper.LocalStore.InsertGameCache` | app/src/main/java/com/project/backloggr/DatabaseHelper.kt:245-253 | the entry for the game is replaced by the new payload and time |
| `DatabaseHelper.LocalStore.GetGameCache` | app/src/main/java/com/project/backloggr/DatabaseHelper.kt:256-274 | the last stored payload for the game, or null |
| `DatabaseHelper.LocalStore.InsertPendingSync` | app/src/main/java/com/project/backloggr/DatabaseHelper.kt:277-287 | a new unsynced record under the next never-used key, which is returned; nothing else changes |
| `DatabaseHelper.LocalStore.GetPendingSyncs` | app/src/main/java/com/project/backloggr/DatabaseHelper.kt:290-314 | exactly the unsynced records, once each, oldest timestamp first |
| `DatabaseHelper.LocalStore.MarkSyncComplete` | app/src/main/java/com/project/backloggr/DatabaseHelper.kt:317-323 | the queue becomes `MarkComplete` of the old queue |
| `DatabaseHelper.LocalStore.DeleteSyncRecord` | app/src/main/java/com/project/backloggr/DatabaseHelper.kt:326-329 | the record is gone and every other record is unchanged |
| `DatabaseHelper.LocalStore.UpdateStatistics` | app/src/main/java/com/project/backloggr/DatabaseHelper.kt:332-347 | the row for the user id is replaced and other users' rows are kept |
| `DatabaseHelper.LocalStore.GetStatistics` | app/src/main/java/com/project/backloggr/DatabaseHelper.kt:350-370 | null exactly when the table is empty; otherwise the counts of the row with the smallest user id |
| `DatabaseHelper.LocalStore.ClearAllData` | app/src/main/java/com/project/backloggr/DatabaseHelper.kt:393-399 | all four tables are empty; the AUTOINCREMENT sequence is kept |
| `SyncManager.RequestFor` | app/src/main/java/com/project/backloggr/SyncManager.kt:37-131 | a request exactly for UPDATE, ADD and DELETE records when a token is saved: a PATCH of `api/library/<id>` with the payload, a POST of `api/library` with the payload, or a DELETE of `api/library/<id>`, each with the bearer token |
| `SyncManager.Dispatched` | app/src/main/java/com/project/backloggr/SyncManager.kt:12-47 | the events always end with `onComplete` |
| `SyncManager.CompletesExactlyOnce` | app/src/main/java/com/project/backloggr/SyncManager.kt:12-47 | `onComplete` fires exactly once per call, after every request, whether offline, idle or busy |
| `SyncManager.Requests` | app/src/main/java/com/project/backloggr/SyncManager.kt:31-47 | at most one request per listed record; `RequestsCount` says which and in what order |
| `SyncManager.RequestsCount` | app/src/main/java/com/project/backloggr/SyncManager.kt:31-47 | no token means no request; otherwise request `k` is the request of the `k`-th record of a known action type (`Filtering.WhereIndices`, strictly increasing): every such record gets exactly one request, in listing order |
| `SyncManager.Dispatch` | app/src/main/java/com/project/backloggr/SyncManager.kt:29-47 | the loop sends the listed records' requests in order and fires `onComplete` when the count reaches the list size |
| `SyncManager.DeliverOne` | app/src/main/java/com/project/backloggr/SyncManager.kt:58-101 | an error changes nothing; a response to UPDATE or DELETE deletes that record only; an ADD answer without `data.game.id`, or whose payload lacks `local_library_id`, throws inside the `try` and changes nothing; only an ADD changes `user_games`, and only together with deleting its record |
| `SyncManager.AddTargetGoneDeletesRecord` | app/src/main/java/com/project/backloggr/SyncManager.kt:88-95 | an ADD answered with a server id whose local row is gone changes no row (count 0, unchecked) and still deletes the record |
| `SyncManager.Deliver` | app/src/main/java/com/project/backloggr/SyncManager.kt:58-125 | running the callbacks one after another keeps every row of `user_games` under its own id |
| `SyncManager.DeliverOnlyDeletes` | app/src/main/java/com/project/backloggr/SyncManager.kt:60-95 | the callbacks only delete records: each remaining record, its `library_id` included, is as it was |
| `SyncManager.AllFailedChangesNothing` | app/src/main/java/com/project/backloggr/SyncManager.kt:62-65 | when every request fails both tables are left for the retry |
| `SyncManager.FailedRecordStays` | app/src/main/java/com/project/backloggr/SyncManager.kt:62-65 | a record whose requests all failed is still queued |
| `SyncManager.NoTokenChangesNothing` | app/src/main/java/com/project/backloggr/SyncManager.kt:50-53 | without a token nothing is sent and nothing changes |
| `SyncManager.AnsweredRecordGone` | app/src/main/java/com/project/backloggr/SyncManager.kt:58-61 | a successful UPDATE or DELETE removes its record for good |
| `SyncManager.GamesChangeOnlyByAdd` | app/src/main/java/com/project/backloggr/SyncManager.kt:58-61 | without a successful ADD no `user_games` row changes |
| `SyncManager.AddRekeysRow` | app/src/main/java/com/project/backloggr/SyncManager.kt:88-95 | a successful ADD moves the local row to the server id, stamped and otherwise unchanged, leaves every other row as it was, and deletes the record |
| `SyncManager.AddClashKeepsRecord` | app/src/main/java/com/project/backloggr/SyncManager.kt:88-98 | when the server id is held by another row the re-key throws, the exception is caught and nothing changes |
| `SyncManager.DeliverAll` | app/src/main/java/com/project/backloggr/SyncManager.kt:58-125 | running the callbacks in order leaves the tables as `Deliver` says |
| `SyncManager.SyncPendingChanges` | app/src/main/java/com/project/backloggr/SyncManager.kt:12-47 | offline: only `onComplete` and no change; online: the unsynced records are listed oldest first, dispatched, and the callbacks applied |
| `SyncManager.UpsertAll` | app/src/main/java/com/project/backloggr/SyncManager.kt:154-157 | upserting the pulled entries in order keeps every row under its own id |
| `SyncManager.UpsertAllFailsIffMalformed` | app/src/main/java/com/project/backloggr/SyncManager.kt:151-164 | the pull reports failure exactly when some entry lacks `igdb_game_id` or `status` |
| `SyncManager.UpsertAllKeepsKeys` | app/src/main/java/com/project/backloggr/SyncManager.kt:154-157 | the pull never deletes a local row |
| `SyncManager.UpsertAllMirrors` | app/src/main/java/com/project/backloggr/SyncManager.kt:154-157 | well-formed entries with distinct positive ids all end up stored under their ids, as sent |
| `SyncManager.UpsertAllStopsAtError` | app/src/main/java/com/project/backloggr/SyncManager.kt:151-164 | after the first failing entry no later entry is applied |
| `SyncManager.SyncLibraryFromServer` | app/src/main/java/com/project/backloggr/SyncManager.kt:133-174 | offline, without a token, on an error or without `data.games`: false and no write; otherwise the entries are upserted in order and the flag says whether all went through |
| `Multipart.LowBytes` | app/src/main/java/com/project/backloggr/VolleyMultipartRequest.kt:65-80 | one byte per character; `Multipart.LowBytesLowEightBits` gives each byte's value |
| `Multipart.LowBytesLowEightBits` | app/src/main/java/com/project/backloggr/VolleyMultipartRequest.kt:65-80 | each byte written is its character's code modulo 256 |
| `Multipart.LowBytesOfLatin1` | app/src/main/java/com/project/backloggr/VolleyMultipartRequest.kt:65-80 | writing the Latin-1 reading of bytes gives those bytes back |
| `Multipart.Latin1OfLowBytes` | app/src/main/java/com/project/backloggr/VolleyMultipartRequest.kt:65-80 | text below code 256 is written without loss |
| `Multipart.Boundary` | app/src/main/java/com/project/backloggr/VolleyMultipartRequest.kt:15 | "apiclient-" followed by decimal digits that read back as the clock value |
| `Multipart.BoundaryChars` | app/src/main/java/com/project/backloggr/VolleyMultipartRequest.kt:15 | the boundary uses only lower-case letters, digits and '-' |
| `Multipart.ContentType` | app/src/main/java/com/project/backloggr/VolleyMultipartRequest.kt:17-19 | "multipart/form-data;boundary=" followed by the boundary |
| `Multipart.ContentTypeRoundTrip` | app/src/main/java/com/project/backloggr/VolleyMultipartRequest.kt:17-19 | the boundary is read back from the content type, and only that content type yields it |
| `Multipart.DataPartDefaultType` | app/src/main/java/com/project/backloggr/VolleyMultipartRequest.kt:86-90 | a data part created without a type is "application/octet-stream" |
| `Multipart.FilePart` | app/src/main/java/com/project/backloggr/VolleyMultipartRequest.kt:63-73 | a file part is at least the dash line, the content and CRLF long; `FilePartFramed` gives its layout |
| `Multipart.FilePartFramed` | app/src/main/java/com/project/backloggr/VolleyMultipartRequest.kt:63-73 | a file part opens with "--boundary" CRLF and ends with a blank line, the content bytes and CRLF |
| `Multipart.TextPart` | app/src/main/java/com/project/backloggr/VolleyMultipartRequest.kt:75-84 | a text part is at least the dash line, the value and CRLF long; `TextPartFramed` gives its layout |
| `Multipart.TextPartFramed` | app/src/main/java/com/project/backloggr/VolleyMultipartRequest.kt:75-84 | a text part opens with "--boundary" CRLF and ends with a blank line, the value and CRLF |
| `Multipart.PartsAt` | app/src/main/java/com/project/backloggr/VolleyMultipartRequest.kt:27-35 | the file parts come first in map order, then the text fields in map order |
| `Multipart.Body` | app/src/main/java/com/project/backloggr/VolleyMultipartRequest.kt:22-38 | every body ends with the close delimiter "--boundary--" CRLF |
| `Multipart.EmptyBody` | app/src/main/java/com/project/backloggr/VolleyMultipartRequest.kt:37 | with no parts the body is exactly the close delimiter |
| `Multipart.DelimitersFramed` | app/src/main/java/com/project/backloggr/VolleyMultipartRequest.kt:22-42 | each part starts at its offset with "--boundary" CRLF, and every delimiter after the first is preceded by CRLF |
| `Multipart.CloseFramed` | app/src/main/java/com/project/backloggr/VolleyMultipartRequest.kt:37 | after at least one part the close delimiter is preceded by CRLF |
| `Multipart.ByteSink.WriteBytes` | app/src/main/java/com/project/backloggr/VolleyMultipartRequest.kt:65-67 | appends the low byte of each character |
| `Multipart.ByteSink.Write` | app/src/main/java/com/project/backloggr/VolleyMultipartRequest.kt:68 | appends the content bytes unchanged |
| `Multipart.MultipartRequest.constructor` | app/src/main/java/com/project/backloggr/VolleyMultipartRequest.kt:15 | the boundary is fixed from the clock at creation |
| `Multipart.MultipartRequest.GetBodyContentType` | app/src/main/java/com/project/backloggr/VolleyMultipartRequest.kt:17-19 | the receiver reads this request's boundary back from the content type |
| `Multipart.MultipartRequest.BuildPart` | app/src/main/java/com/project/backloggr/VolleyMultipartRequest.kt:63-73 | appends exactly one file part |
| `Multipart.MultipartRequest.BuildTextPart` | app/src/main/java/com/project/backloggr/VolleyMultipartRequest.kt:75-84 | appends exactly one text part |
| `Multipart.MultipartRequest.WriteFileParts` | app/src/main/java/com/project/backloggr/VolleyMultipartRequest.kt:28-30 | appends the file parts in order |
| `Multipart.MultipartRequest.WriteTextParts` | app/src/main/java/com/project/backloggr/VolleyMultipartRequest.kt:33-35 | appends the text parts in order |
| `Multipart.MultipartRequest.GetBody` | app/src/main/java/com/project/backloggr/VolleyMultipartRequest.kt:22-42 | returns the files' parts, the text parts and the close delimiter, in that order; a null parameter map adds no text part |
| `GameDetail.Wrap32` | app/src/main/java/com/project/backloggr/GameDetailActivity.kt:845 | the 32-bit two's-complement value with the same low 32 bits |
| `GameDetail.TempLibraryIdAsWritten` | app/src/main/java/com/project/backloggr/GameDetailActivity.kt:845 | as written: the negation of the truncated clock, except that Int.MIN_VALUE stays itself; positive exactly when the truncated clock is negative and not Int.MIN_VALUE |
| `GameDetail.TempIdAsWrittenCanBePositive` | app/src/main/java/com/project/backloggr/GameDetailActivity.kt:845 | as written, the clock reading 1700000000000 gives the "temporary" id +807049216 |
| `GameDetail.AsWrittenAddOverwrites` | app/src/main/java/com/project/backloggr/GameDetailActivity.kt:845-865 | as written, that id overwrites an existing row 807049216 instead of inserting a new one |
| `GameDetail.TempLibraryId` | app/src/main/java/com/project/backloggr/GameDetailActivity.kt:845 | corrected: the temporary id is always between -2147483647 and -1 |
| `GameDetail.TempAddNeverOverwrites` | app/src/main/java/com/project/backloggr/GameDetailActivity.kt:845-865 | with the corrected id the local add never changes an existing row |
| `GameDetail.AddJson` | app/src/main/java/com/project/backloggr/GameDetailActivity.kt:848-862 | the local entry is well formed and carries the temporary id, IGDB id and status |
| `GameDetail.AddPayload` | app/src/main/java/com/project/backloggr/GameDetailActivity.kt:871-876 | the ADD payload carries the temporary id as `local_library_id` |
| `GameDetail.AddGameToLibrary` | app/src/main/java/com/project/backloggr/GameDetailActivity.kt:843-877 | corrected: the game is upserted under the corrected negative temporary id `TempLibraryId` and an ADD record for that id is queued under the next key; the game cache and statistics are unchanged and the sequence grows by one |
| `GameDetail.UpdateExistingGameStatus` | app/src/main/java/com/project/backloggr/GameDetailActivity.kt:926-939 | the status and `updated_at` of the row change and an UPDATE record for its id is queued under the next key; the game cache and statistics are unchanged and the sequence grows by one |
| `GameDetail.AddThenSyncRekeys` | app/src/main/java/com/project/backloggr/SyncManager.kt:88-95 | an offline ADD answered with a server id ends with the row under that id, every other row unchanged, and the record gone |

## Left out

- JSON (`org.json`) parsing and printing: entries are records whose absent members are `None`,
  payloads are maps, and `game_details` is a map of string members. The lenient coercions of
  `optInt`, `getInt` and `optDouble` (a numeric string read as a number) are not modelled.
- REAL columns (`rating`, `hours_played`, `total_hours`) are opaque decimal literals. Floating
  point is not modelled.
- SQLite type affinity is modelled only for TEXT columns, where a number is stored as its
  decimal text. INTEGER and REAL columns keep the value as given.
- Store.UpdateField: a non-Int value written into `id` is modelled as a datatype-mismatch error.
  SQLite would first try to convert a numeric text, or a REAL with an integral value such as
  5.0, losslessly to an integer; those conversions are not modelled.
- A text written into `game_details_json` through `updateGameField` is kept unparsed. In the
  model, reading such a row back yields no name. The source does more: `cursorToGameJson` runs
  `JSONObject(gameDetailsJson)` on it, so `getGame`, `getAllGames`, `getGamesByStatus` and
  `searchGames` throw on a row whose text is not a JSON object. The model returns the row
  normally.
- DatabaseHelper.LocalStore.GetGameCache returns the stored text. The `JSONObject` parse of
  that text, and its exception on malformed text, are not modelled.
- The clock, the device's connectivity (`NetworkUtils.isOnline`), the saved token and the
  server's answers are parameters. Volley, its request queue and HTTP itself are not modelled,
  and request paths are relative to the build's BASE_URL.
- SyncManager.SyncPendingChanges: the response callbacks are applied one after another in
  dispatch order. Volley may deliver them in any order, and they may interleave with other
  writes; that concurrency is not modelled.
- DatabaseHelper.LocalStore.GetStatistics: the row returned is the one with the smallest
  `user_id`, the order of SQLite's rowid scan. SQLite does not promise that order for an
  unordered query.
- Ties in `ORDER BY` are left open: the listings are proved sorted and complete, but the
  relative order of rows with equal keys is not fixed.
- Integers are unbounded. The 32-bit width of Kotlin `Int` ids and counts is not modelled,
  except for the temporary-id computation, where it matters.
- Store.ColumnNamed matches column names exactly. SQLite resolves them case-insensitively and
  also accepts `rowid` for `id`; every caller passes the lower-case name.
- Multipart.LowBytes works on characters. `DataOutputStream.writeBytes` works on UTF-16 code
  units, so a character above U+FFFF gives two bytes in the source and one in the model.
- GameDetail.AddGameToLibrary uses the corrected temporary id `TempLibraryId`, not the
  as-written `-(System.currentTimeMillis().toInt())`; the as-written id and the overwrite it
  causes are covered by `GameDetail.TempLibraryIdAsWritten` and `GameDetail.AsWrittenAddOverwrites`.
- `Lower` folds only ASCII letters. Kotlin's `lowercase()` also folds other scripts.
- The SQLite engine itself (cursors, `ContentValues`, `onUpgrade`) and the `NOT NULL` checks,
  which no modelled input can violate.
- The Activities, adapters and push-notification services, apart from the two
  `GameDetailActivity` writes that fill the queue. The online path of `addGameToLibrary`
  (its direct POST) is not modelled.

## Findings

| source | as written | input that shows it | evidently intended | confidence | as-written member | corrected member |
|---|---|---|---|---|---|---|
| app/src/main/java/com/project/backloggr/DatabaseHelper.kt:219 | `searchGames` reads the details from member `game_details_json`, but `cursorToGameJson` (line 388) emits them as `game_details`; `Store.SearchNameAlwaysEmpty` proves every name then reads as "" | any library and the query "zelda": the name is always "", so the result is empty; with the query "" every game is returned | read `game_details`, so a game matches when its name contains the query | high; not executed | `DatabaseHelper.LocalStore.SearchGames` | `DatabaseHelper.LocalStore.SearchGamesByName` |
| app/src/main/java/com/project/backloggr/GameDetailActivity.kt:845 | the temporary id is `-(System.currentTimeMillis().toInt())`; the truncation to 32 bits makes it positive whenever the low 32 bits of the clock read as a negative `Int` other than Int.MIN_VALUE (`GameDetail.TempLibraryIdAsWritten`); `GameDetail.AsWrittenAddOverwrites` shows the overwrite that follows | clock 1700000000000 gives +807049216; `insertOrUpdateGame` then takes the update path and overwrites any row with that id | a temporary id that is always negative, so the local add always inserts | high; not executed | `GameDetail.TempIdAsWrittenCanBePositive` | `GameDetail.TempLibraryId` |
