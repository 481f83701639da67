# License-plate recognition store and capture loops, modelled in Dafny

This project models the record-keeping core of a license-plate recognition system:

- The SQLite store `AdvancedLicensePlateDB` (database_manager.py). It has four
  tables:
  - detected plates;
  - the watchlist;
  - alerts;
  - deletion tombstones.
- The plain store `LicensePlateDB` of main_with_database.py.
- The capture loops of main_advanced.py and main_with_database.py. Both contain
  the same cooldown gate: a plate read in the current frame is saved only if it
  was never saved, or if its last save was more than 30 frames ago. The advanced
  loop also keeps alert banners in a table (`alert_frames`) and loads a
  watchlist file at start-up.
- The decision and arithmetic parts of the REST endpoints in api_server.py:
  - the delete-all confirmation header;
  - delete by id;
  - pagination;
  - the LIKE search with its empty-query refusal.

Modules:

- `Records`: one datatype per table row. A table is a `map` from its
  AUTOINCREMENT id to the row. Timestamps are whole seconds.
- `Text`: `str.upper()` and `str.strip()` restricted to ASCII.
- `Ranking`: the descending sort that `sorted(..., reverse=True)` and
  `ORDER BY ... DESC` perform. Its result is proved sorted and a permutation.
- `Fuzzy`: `calculate_similarity`. The difflib ratio is a parameter, constrained
  by `IsRatio`.
- `StoreSpec`: the four tables as one `Store` value. Each store operation is a
  function on that value, and the `Valid` invariant says two things:
  - ids lie below their counters;
  - the watchlist UNIQUE constraint holds.
- `StoreProperties`: what each store operation guarantees, and how the
  operations compose.
- `PlateStore`: the class `AdvancedPlateDB`. Its fields are the four tables and
  their counters, and its methods reassign them in the order the source runs
  its SQL; a delete and the backup row it writes are one simultaneous
  assignment. Each method is proved to produce exactly the
  `StoreSpec` function of the old state. `find_similar_plates` and the
  `top_plates` query are loops with invariants.
- `Cooldown`: the gate decision, and the `DedupGate` class holding `frame_count`
  and `detected_plates_history`. It includes the lemmas about whole runs of
  readings.
- `BasicCapture`: main_with_database.py, meaning `LicensePlateDB` and the loop's
  save path.
- `AdvancedCapture`: main_advanced.py. This covers:
  - the watchlist-file loop;
  - the reading handler that saves and raises the banner;
  - the banner pass;
  - an end-to-end scenario.
- `Api`: api_server.py.

Where the system's documentation and its code disagree, the model follows the
code:

- **Watchlist uniqueness.** `watchlist.plate_number` is UNIQUE over all rows,
  active or not (database_manager.py:35). So `add_to_watchlist` refuses any
  plate that has a row at all, not only an active one.
- **Watchlist update in `save_plate`.** The statement matches on the plate alone
  (database_manager.py:105-109). The UNIQUE constraint makes that the one active
  row found by `check_watchlist`.

## Model

| member | source | states |
|---|---|---|
| Text.UpperChar | database_manager.py:213 | a lower-case ASCII letter maps to the upper-case letter 32 code points below it; every other character is unchanged |
| Text.Upper | database_manager.py:213 | upper-casing keeps the length and upper-cases each character in place |
| Text.StripBlank | main_advanced.py:33-34 | a stripped line is a slice s[i..j] of the line with only whitespace before i and after j; it is empty exactly when the line is all whitespace, and otherwise neither starts nor ends with whitespace |
| Text.UpperIdempotent | database_manager.py:213 | upper-casing twice is the same as upper-casing once |
| Text.TrimStartSuffix | main_advanced.py:33 | stripping the front leaves a suffix of the line, and what it drops is all whitespace |
| Text.TrimEndPrefix | main_advanced.py:33 | stripping the back leaves a prefix of the line, and what it drops is all whitespace |
| Ranking.SortDescCorrect | database_manager.py:209 | the descending sort returns a permutation of its input, ordered by non-increasing key |
| Ranking.SortDescFacts | database_manager.py:209 | the sort keeps the length and the members, keeps distinct entries distinct, and orders keys non-increasingly |
| Fuzzy.Similarity | database_manager.py:211-213 | for a ratio with difflib's range and identity properties, the similarity is in [0, 1], and plates equal up to ASCII case score 1 |
| Fuzzy.SimilarityProperties | database_manager.py:211-213 | upper-casing either plate first does not change its score, whatever the ratio |
| StoreSpec.ActiveEntryIdIs | database_manager.py:177-184 | under the UNIQUE constraint, the active row for a plate is the one row the lookup returns |
| StoreSpec.LatestExists | database_manager.py:280-285 | every plate that has rows has a latest row: the greatest timestamp, with the largest id among ties |
| StoreSpec.LatestId | database_manager.py:280-285 | the row `ORDER BY timestamp DESC LIMIT 1` keeps is a latest row of that plate |
| StoreProperties.SaveWatched | database_manager.py:83-114 | for a plate with an active entry: one new event flagged is_watchlist and alert_triggered; one new alert for the plate with the entry's type and reason; the entry's detection_count up by 1 and last_seen set to now; every other entry, and the tombstones, unchanged |
| StoreProperties.SaveSpecWatched | database_manager.py:94-114 | the watched save's new state, table by table, as the alert INSERT and the two UPDATEs leave it |
| StoreProperties.SaveUnwatched | database_manager.py:83-91 | with no active entry: exactly one unflagged event is added, and there is no alert and no watchlist change |
| StoreProperties.SavePreservesValid | database_manager.py:74-119 | save_plate keeps the id counters and the UNIQUE constraint |
| StoreProperties.AddWatchEffects | database_manager.py:122-140 | a plate already listed is refused and nothing changes; otherwise exactly one active entry is added under the next id, with count 0 and no last_seen, and the other tables are unchanged |
| StoreProperties.AddTwiceRejected | database_manager.py:35 | adding a plate twice: the second add changes nothing and exactly one row carries the plate |
| StoreProperties.SingleWatchId | database_manager.py:35 | under the UNIQUE constraint a listed plate has exactly one row |
| StoreProperties.RemoveWatchEffects | database_manager.py:142-153 | after removal the plate is unlisted; the result is true exactly when a row went away; every other entry and table is kept, and no entry is added or changed |
| StoreProperties.AddThenRemove | database_manager.py:122-153 | removing a plate just added restores the watchlist |
| StoreProperties.DeleteEffects | database_manager.py:238-269 | an absent id changes nothing; a present id adds one tombstone holding its id, plate and timestamp, and removes exactly that row |
| StoreProperties.RestoreEffects | database_manager.py:329-354 | an absent tombstone changes nothing; a present one adds one event with its plate and timestamp, frame 0, confidence 0.0, no image and source 'restored', and is itself removed |
| StoreProperties.DeleteThenRestore | database_manager.py:238-354 | delete followed by restore of the new tombstone keeps the number of events and the tombstone table; the row comes back under a new id with the sentinel values |
| StoreProperties.DeleteByPlateEffects | database_manager.py:271-295 | with keep_latest exactly one row of the plate remains, and it has the greatest timestamp; without it none remains; other plates' rows are kept as they were and no tombstone is written |
| StoreProperties.DeleteOldEffects | database_manager.py:297-311 | for a non-negative day count, a row is kept exactly when its timestamp is not before now minus the given days, and kept rows and the other tables are unchanged; a negative count makes the cutoff NULL and changes nothing |
| StoreProperties.DeleteLowConfidenceEffects | database_manager.py:313-326 | a row is kept exactly when its confidence reaches the minimum; kept rows and the other tables are unchanged |
| StoreProperties.ResolveAlertEffects | database_manager.py:373-380 | only that alert becomes resolved (nothing changes for an absent id), and every other row is unchanged |
| PlateStore.SimilarStep | database_manager.py:199-207 | one loop step keeps the invariant: each qualifying plate examined so far is listed once, with its score |
| PlateStore.RankSimilar | database_manager.py:209 | after sorting, every qualifying plate is still present once, each result qualifies, and the scores do not increase |
| PlateStore.TallyStep | database_manager.py:403-409 | one more plate counted keeps "each plate seen so far once, with its true row count" |
| PlateStore.TopPlatesListed | database_manager.py:403-410 | the top list has min(5, number of plates) entries with true counts, no plate twice, in non-increasing order |
| PlateStore.TopPlatesOmitted | database_manager.py:403-410 | no plate left out of the top list has more rows than a listed one |
| PlateStore.TopPlatesCorrect | database_manager.py:403-410 | the top list meets every condition of a correct top-5 answer |
| PlateStore.AdvancedPlateDB.constructor | database_manager.py:11-70 | init_database on a fresh file: four empty tables with counters at 1 |
| PlateStore.AdvancedPlateDB.CheckWatchlist | database_manager.py:171-184 | (true, row) exactly when an active row has exactly this plate, and the row returned is that row; (false, None) otherwise |
| PlateStore.AdvancedPlateDB.AddToWatchlist | database_manager.py:122-140 | the new state is the add specification, and the answer is (false, message) for a listed plate or (true, new id) otherwise |
| PlateStore.AdvancedPlateDB.RemoveFromWatchlist | database_manager.py:142-153 | the new state is the remove specification, and the result is whether the plate was listed |
| PlateStore.AdvancedPlateDB.SavePlate | database_manager.py:74-119 | the new state is the save specification; the returned id is the new row's id; the returned flag is whether an active entry existed, and it is the flag stored on the row |
| PlateStore.AdvancedPlateDB.EmitAlert | database_manager.py:94-114 | the alert INSERT, the watchlist UPDATE and the alert_triggered UPDATE, each to its own table |
| PlateStore.AdvancedPlateDB.DeletePlate | database_manager.py:238-269 | the new state is the delete specification, and the answer is (found, message) |
| PlateStore.AdvancedPlateDB.RestoreDeletedPlate | database_manager.py:329-354 | the new state is the restore specification, and the answer is (found, message) |
| PlateStore.AdvancedPlateDB.DeleteByPlateNumber | database_manager.py:271-295 | the new state is the delete-by-plate specification, and the count is the number of rows removed |
| PlateStore.AdvancedPlateDB.DeleteOldRecords | database_manager.py:297-311 | the new state is the delete-old specification (nothing removed for a negative day count), and the count is the number removed |
| PlateStore.AdvancedPlateDB.BulkDeleteByConfidence | database_manager.py:313-326 | the new state removes rows below the confidence, and the count is the number removed |
| PlateStore.AdvancedPlateDB.ResolveAlert | database_manager.py:373-380 | the new state is the resolve specification |
| PlateStore.AdvancedPlateDB.FindSimilarPlates | database_manager.py:187-209 | every distinct recorded plate other than the query whose score reaches the threshold appears exactly once, with its score; nothing else appears; the scores do not increase |
| PlateStore.AdvancedPlateDB.TallyPlates | database_manager.py:403-409 | each recorded plate appears once, with its number of rows |
| PlateStore.AdvancedPlateDB.GetStatistics | database_manager.py:383-413 | the reported figures are: total rows; distinct plates; active watchlist rows; unresolved alerts; rows on today's date; a correct top-5 list |
| Cooldown.ShouldSave | main_advanced.py:139-143 | a plate never saved passes the gate; a plate is never let through at or before the frame of its last save |
| Cooldown.Step | main_advanced.py:146-156 | afterwards the plate is recorded, no other plate's frame moves, the plate's own frame moves only to a frame past the cooldown, and the same reading in the same frame is then refused |
| Cooldown.GateDecision | main_advanced.py:139-156 | a plate never seen is saved; a seen plate is saved exactly when the gap exceeds 30; the history is set to the frame on a save and unchanged otherwise |
| Cooldown.CooldownBoundary | main_advanced.py:78 | a gap of exactly 30 frames is refused, and 31 is accepted |
| Cooldown.StepAdvances | main_advanced.py:156 | the history only grows, and no recorded frame moves back |
| Cooldown.AcceptedAfterHistory | main_advanced.py:139-156 | every save of a plate already in the history lies more than 30 frames after the recorded frame |
| Cooldown.AcceptedSpacing | main_advanced.py:139-156 | along any run of readings, two saves of the same plate are more than 30 frames apart, in increasing frame order |
| Cooldown.ScenarioOnePlate | main_advanced.py:139-156 | readings of one plate at frames 1, 5 and 40 are saved at frames 1 and 40 only |
| Cooldown.DedupGate.constructor | main_advanced.py:76-77 | frame_count starts at 0 and the history is empty |
| Cooldown.DedupGate.NextFrame | main_advanced.py:103 | frame_count goes up by exactly one and the history is unchanged |
| Cooldown.DedupGate.Accept | main_with_database.py:189-204 | the decision is the gate predicate on the old history; the history is written with the current frame exactly on a save |
| BasicCapture.LicensePlateDB.constructor | main_with_database.py:20-39 | an empty table with its counter at 1 |
| BasicCapture.LicensePlateDB.SavePlate | main_with_database.py:41-59 | exactly one row is added under a fresh id, which is returned |
| BasicCapture.LicensePlateDB.GetTotalCount | main_with_database.py:77-86 | the count is the number of rows |
| BasicCapture.BasicLoop.constructor | main_with_database.py:138-142 | an empty store, frame 0 and an empty history |
| BasicCapture.BasicLoop.HandleReading | main_with_database.py:188-205 | a row is saved exactly when the gate admits the plate, with the current frame; otherwise the store is unchanged |
| BasicCapture.SaveThenCount | main_with_database.py:41-86 | after a save the total count is one greater, and the new row carries the plate |
| AdvancedCapture.ListedAfterInsert | database_manager.py:130-135 | an insert under a fresh id adds exactly its plate to the listed plates |
| AdvancedCapture.AddListsPlate | main_advanced.py:35 | after an add the plate is listed, every earlier plate stays listed, and the other tables are unchanged |
| AdvancedCapture.LoadListsFilePlates | main_advanced.py:29-37 | after loading, the listed plates are the earlier ones plus every non-blank stripped line; the other tables are unchanged |
| AdvancedCapture.FilePlatesCons | main_advanced.py:32-34 | a file's plates are its first line's plate, if that line is not blank, plus the plates of the remaining lines |
| AdvancedCapture.LoadWatchlist | main_advanced.py:31-35 | the store ends as the file-load specification leaves it, with one add_to_watchlist call per non-blank line |
| AdvancedCapture.AdvancedLoop.constructor | main_advanced.py:76-82 | an empty store, frame 0, an empty history and no banners |
| AdvancedCapture.AdvancedLoop.HandleReading | main_advanced.py:139-165 | a save happens exactly when the gate admits the plate; it is the save specification of the store; an alert happens exactly when the plate had an active entry, and then its banner expires at frame_count + 100 |
| AdvancedCapture.AdvancedLoop.RefreshBanners | main_advanced.py:210-218 | a banner stays exactly when the current frame is before its expiry; kept expiries are unchanged; the banners shown are the ones kept |
| AdvancedCapture.StripLine | main_advanced.py:31-33 | a line read with its line feed strips to the plate |
| AdvancedCapture.LoadOneLine | main_advanced.py:31-35 | a one-line file adds its stripped line, or nothing if the line is blank |
| AdvancedCapture.LoadIntoEmpty | main_advanced.py:29-37 | loading a one-line file into an empty store makes the plate the first active entry, with no events or alerts |
| AdvancedCapture.SaveWatchedTwice | database_manager.py:94-114 | two saves of a watched plate add two events and two alerts; the entry is seen twice more, last at the second time |
| AdvancedCapture.WatchlistScenario | main_advanced.py:139-165 | with the plate loaded from a file and read at frames 1, 5 and 40, there are two saves, two events and two alerts, and the entry has count 2 |
| Api.DeleteAllPlates | api_server.py:238-265 | without exactly `YES_DELETE_ALL` the answer is 400 and nothing changes; with it every detection row goes and the other tables stay |
| Api.DeletePlate | api_server.py:211-235 | an id outside the 64-bit INTEGER range fails (OverflowError, HTTP 500) with no change; an absent id gives 404 and nothing changes; a present id removes exactly that row and no tombstone is written |
| Api.FloorDiv | api_server.py:78 | Python's `//` is the floor of the quotient, for either sign of the divisor |
| Api.Offset | api_server.py:57 | for a positive page size the offset is negative exactly for pages below 1; page 1 and up never give a negative offset |
| Api.TotalPages | api_server.py:78 | the division fails (ZeroDivisionError) exactly when per_page is 0; for a positive page size the count is non-negative and 0 exactly for an empty table |
| Api.Window | api_server.py:65-69 | LIMIT/OFFSET returns the rows from the offset on, in order, as many as the limit allows; a negative offset counts as 0; a negative limit means no limit; an offset at or past the end gives no rows |
| Api.TotalPagesIsCeiling | api_server.py:78 | for per_page > 0, total_pages is the ceiling of total / per_page: enough pages for every row, and not one more |
| Api.EveryRowOnItsPage | api_server.py:53-80 | every row i is shown on page i // per_page + 1, at position i % per_page, and that page is within total_pages |
| Api.RowOnPage | api_server.py:57-69 | row q * per_page + m is at position m of page q + 1 |
| Api.NonPositivePageIsFirst | api_server.py:55-69 | a page number of 0 or below gives the first page |
| Api.GetAllPlates | api_server.py:52-80 | the request fails (HTTP 500) exactly when per_page or the offset (page - 1) * per_page lies outside the 64-bit INTEGER range sqlite3 can bind (OverflowError), or per_page is 0 (ZeroDivisionError); the answer carries the total, the window at offset (page - 1) * per_page and total_pages; a page holds at most per_page rows |
| Api.LikeAnyRest | api_server.py:125-129 | `%` matches any string |
| Api.LikeLiteralPrefix | api_server.py:125-129 | for a query without wildcards, query + `%` matches exactly the strings that start with the query, up to ASCII case |
| Api.LikeAnyPrefix | api_server.py:125-129 | `%` + p matches exactly the strings with a suffix that p matches |
| Api.SearchIsSubstring | api_server.py:125-129 | for a query without wildcards, `%q%` matches exactly the plates that contain q, ignoring ASCII case |
| Api.Matching | api_server.py:125-129 | each row whose plate matches the pattern appears as often as in the listing, no other row appears, and the listing order is kept (a subsequence) |
| Api.SubsequenceNewestFirst | api_server.py:127 | any subsequence of a listing in ORDER BY timestamp DESC order is itself in that order |
| Api.SearchPlates | api_server.py:116-137 | an empty query is refused with 400 before any row is read; otherwise the result holds each row whose plate matches `%q%` once per occurrence and no other, in listing order, newest first when the listing is |

## Left out

- SQLite itself: connections, commits, SQL text, and concurrent writers to the file (api_server.py:280 calls `app.run(debug=True, ...)`, which serves requests on threads by Flask's default). Each store operation is modelled as one atomic step on in-memory tables.
- Wall-clock time. `datetime.now()` and SQLite's `'now'` are a `now` parameter. The source formats local time in Python but compares it with SQLite's UTC `'now'`. That offset, which affects delete_old_records and the "today" figure, is not modelled.
- The watchlist-file load takes one `now` for the whole file; the source reads the clock once per line.
- Image files: `os.remove` of crops in both delete paths and in delete-all, and `cv2.imwrite` of crops. These are side effects outside the tables.
- A failing `os.remove` raises before the commit: database_manager.py:260-261 runs before the commit at :266, and api_server.py:224-225 and :253-255 run before the commits at :229 and :259. delete_plate, the API delete and delete-all then leave the tables unchanged (delete-all may already have removed some files). PlateStore.AdvancedPlateDB.DeletePlate, Api.DeletePlate and Api.DeleteAllPlates always delete.
- PlateStore.AdvancedPlateDB.DeleteOldRecords: the day count is a whole number; a fractional `days`, which SQLite would also accept, is not modelled.
- The detector and the display: YOLO model loading and inference, OpenCV capture and drawing, keyboard handling, FPS arithmetic, video output, and the box colour chosen from check_watchlist. lp_image.py, app.py, config.py and the dashboards are not part of this model.
- difflib's SequenceMatcher is a parameter `ratio`. `IsRatio` states the only properties the model relies on: the range [0, 1] and 1 on equal input.
- Fuzzy.SimilarityProperties: no symmetry is stated, because difflib's ratio depends on argument order (its matching blocks are found by a one-sided longest-match search), and the source always passes the query first.
- `str.upper()` and `str.strip()` act only on ASCII. Non-ASCII case mappings and whitespace (for example U+00A0) are not modelled.
- Result order of SQL without ORDER BY, and ties:
  - `SELECT DISTINCT` and `GROUP BY` have no defined order, so the loops take plates in any order.
  - Ties in find_similar_plates, in top_plates and in `ORDER BY timestamp DESC` are in no defined order.
  - The listing and search endpoints take the table as a sequence already in `ORDER BY timestamp DESC` order.
- PlateStore.AdvancedPlateDB.DeleteByPlateNumber: among rows sharing the greatest timestamp, the row SQLite keeps is unspecified; the model keeps the one with the largest id.
- AdvancedCapture.AdvancedLoop.RefreshBanners: returns the banners shown as a set, not in screen order.
- Ids, counters and the store's arguments are unbounded integers. SQLite's 64-bit INTEGER limit is modelled only where a request supplies the number (Api.GetAllPlates, Api.DeletePlate); AUTOINCREMENT exhaustion at 2^63 - 1 is not modelled.
- Api.DeletePlate: the success message text with the id in it is not built; the id itself is returned.
- Api.SearchPlates: a query that contains `%` or `_` uses them as wildcards, as SQLite does. SearchIsSubstring is stated for queries without them.
- Flask routing, JSON shaping, CORS and the `type=int` parsing of query arguments. An argument that does not parse falls back to its default before the modelled code runs.
- The read-only listings get_watchlist, get_alerts, get_recent_plates and find_duplicates, and the other GET endpoints of api_server.py. They are SELECTs with ORDER BY or a time window and change nothing.
