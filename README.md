# Workout tracker core, modelled in Dafny

This project models the Express/MySQL back end of a workout tracker. It covers the exercise
catalog, workout templates, workout sessions with their exercises and sets, personal-record
derivation on completion, the weekly and monthly statistics, and the exercise-history
query script. Each MySQL table is a sequence of rows plus its `AUTO_INCREMENT` counter.
Each route handler is a function (for reads) or a method on a store class (for writes).
Every handler returns a `Result`, and its error is the HTTP status it answers with:

- `NotFound` is 404.
- `Forbidden` is 403.
- `BadRequest` is 400 from validation.
- `InvalidState` is the 400 for a completed session.

The authenticated user's id and role are parameters.

Modules:

- `Schema`: the rows, the `x || null` coercions, `WHERE` as `Where`, and primary-key freshness (`IdsFresh`).
- `Ordering`: `ORDER BY` as insertion sort on lexicographic integer keys (`Select`); `GROUP BY ... ORDER BY` keys (`SortedKeys`).
- `Joins`: the `exercise_sets JOIN session_exercises JOIN workout_sessions` join.
- `Catalog`: `routes/exercises.js`; `ExerciseCatalog` is the `exercises` table.
- `Templates`: `routes/templates.js`; `TemplateStore` holds `workout_templates` and `template_exercises`.
- `PersonalRecords`: the per-exercise maxima of a session and the upsert loop into `personal_records`.
- `Sessions`: `routes/sessions.js`; `SessionStore` holds the sessions, session exercises, sets and personal records.
- `Stats`: `routes/stats.js`.
- `History`: `scripts/testHistory.mjs`.

The current time, the seven-day window start and the month of a timestamp
(`DATE_FORMAT(..., '%Y-%m')`) are parameters.

## Model

| member | source | states |
|---|---|---|
| Schema.IntOrNull | backend/routes/sessions.js:309-312 | `x \|\| null` on a number (reps, duration, and `template_id` at sessions.js:129-132): 0 and a missing value both become NULL; anything else is kept |
| Schema.WeightOrNull | backend/routes/sessions.js:309-312 | `weight_kg \|\| null`: a zero or missing weight becomes NULL; any other weight is kept |
| Schema.TextOrNull | backend/routes/templates.js:70-73 | `notes \|\| null`: an empty or missing text becomes NULL; any other text is kept |
| Schema.WhereMembers | backend/routes/sessions.js:10-16 | a row is in the result of `WHERE p` exactly when it is in the table and satisfies `p` |
| Schema.WhereMultiset | backend/routes/sessions.js:10-16 | `WHERE` returns each row at most as often as the table holds it |
| Schema.WhereConcat | backend/routes/stats.js:20-25 | filtering two parts of a table and concatenating equals filtering the whole |
| Schema.Append | backend/routes/exercises.js:77-80 | an insert with the next auto-increment id keeps the ids positive, unique and below the counter |
| Schema.WhereKeepsIds | backend/routes/exercises.js:161 | deleting rows keeps the key invariant |
| Schema.SameIds | backend/routes/exercises.js:124-127 | an update that changes no id keeps the key invariant |
| Schema.StoredOnce | backend/routes/exercises.js:77-80 | a table with an auto-increment key holds each of its rows exactly once |
| Ordering.LexLeTotal | backend/routes/sessions.js:13 | any two sort keys are comparable |
| Ordering.LexLeTrans | backend/routes/sessions.js:13 | the key order is transitive |
| Ordering.LexLeCons | backend/routes/exercises.js:14 | a multi-column `ORDER BY` compares the first column, then the rest on a tie |
| Ordering.LexLeSingle | backend/routes/sessions.js:13 | a one-column `ORDER BY` compares that column |
| Ordering.PrependSorted | backend/routes/sessions.js:13 | a row no greater than the head of a sorted list keeps the list sorted when put in front |
| Ordering.HeadStaysFirst | backend/routes/sessions.js:13 | inserting a later row behind the head keeps the head first |
| Ordering.Insert | backend/routes/sessions.js:13 | inserting into a sorted list adds exactly that row and keeps the list sorted |
| Ordering.SortBy | backend/routes/sessions.js:13 | `ORDER BY` yields a sorted permutation of its input |
| Ordering.SortByLength | backend/routes/sessions.js:13 | `ORDER BY` neither adds nor drops rows |
| Ordering.SortByMembers | backend/routes/sessions.js:13 | `ORDER BY` keeps exactly the same rows |
| Ordering.Select | backend/routes/sessions.js:10-16 | `SELECT ... WHERE p ORDER BY k` returns a permutation of the rows the filter keeps (same rows, same multiplicities), sorted by `k` |
| Ordering.SelectLength | backend/scripts/testHistory.mjs:12-14 | the sorted result has as many rows as the filter keeps |
| Ordering.InsertKey | backend/routes/stats.js:64-65 | adding a group key keeps the keys strictly ascending and adds exactly that key |
| Ordering.SortedKeys | backend/routes/stats.js:64-65 | `GROUP BY month ORDER BY month ASC`: each present key exactly once, strictly ascending |
| Joins.SetsOfMembers | backend/routes/stats.js:30 | a pair joins a session exercise with a set exactly when the set's `session_exercise_id` is its id |
| Joins.EntrySetsMembers | backend/routes/stats.js:30 | a pair is in the two-table join exactly when both rows exist and the key matches |
| Joins.RowsOfMembers | backend/routes/stats.js:31 | a pair is widened with a session exactly when its `session_id` is that session's id |
| Joins.JoinSessionsMembers | backend/routes/stats.js:31 | a row is in the session join exactly when its session is in the table and the row joins it |
| Joins.JoinMembers | backend/routes/stats.js:29-31 | a row is in the three-table join exactly when its parts are stored rows and both foreign keys match |
| Joins.JoinSessionsConcat | backend/routes/stats.js:29-31 | joining a concatenation of session tables joins each part |
| Joins.SetsOfCount | backend/routes/stats.js:30 | a pair occurs as often as its set is stored when the key matches, never otherwise |
| Joins.EntrySetsCount | backend/routes/stats.js:30 | a pair occurs in the two-table join as often as its two rows are stored (multiplied) when the key matches, never otherwise |
| Joins.RowsOfCount | backend/routes/stats.js:31 | a widened row occurs as often as its pair when the session key matches, never otherwise |
| Joins.JoinSessionsCount | backend/routes/stats.js:31 | a row occurs in the session join as often as its session times its pair, when the key matches |
| Joins.JoinCount | backend/routes/stats.js:29-31 | a row occurs in the three-table join as often as its three parts are stored (multiplied) when both foreign keys match, never otherwise |
| Joins.JoinOnce | backend/routes/stats.js:29-31 | over tables with primary keys, each set whose foreign keys resolve occurs in the join exactly once, so sums and counts see it once |
| Catalog.ExerciseById | backend/routes/exercises.js:111-114 | `WHERE id = ?`: the row with that id, or none exists |
| Catalog.ListingKeyOrder | backend/routes/exercises.js:14 | sorting by the listing key puts global exercises first, then names ascending within each group |
| Catalog.ListVisible | backend/routes/exercises.js:10-16 | the listing is a permutation of the global exercises and the caller's own (each row as often as the table holds it), globals first, then by name |
| Catalog.ListByMuscle | backend/routes/exercises.js:28-34 | the same, restricted to exactly the requested muscle group, again a permutation of the filtered rows |
| Catalog.GetExercise | backend/routes/exercises.js:46-55 | the exercise with the id if the caller may see it; otherwise 404, and then no visible row has the id |
| Catalog.Authorize | backend/routes/exercises.js:111-122 | 404 exactly when no row has the id; 403 exactly when the row is not the caller's (global ones included); otherwise the caller's row |
| Catalog.ExerciseCatalog.constructor | backend/routes/exercises.js:10-16 | the catalog starts with the given rows (the global exercises) |
| Catalog.ExerciseCatalog.Create | backend/routes/exercises.js:64-80 | 400 exactly when the name or muscle group is empty; otherwise one new row with the next id, owned by the caller |
| Catalog.ExerciseCatalog.Update | backend/routes/exercises.js:97-132 | validation first, then 404/403 from `Authorize`; on success only that row's name, group and type change; returns the row read back |
| Catalog.ExerciseCatalog.Delete | backend/routes/exercises.js:144-161 | 404/403 from `Authorize`; on success exactly the row with that id is removed |
| Catalog.CreatedVisibleOnlyToCreator | backend/routes/exercises.js:13 | a user's new exercise is listed for that user and for nobody else |
| Templates.ListTemplates | backend/routes/templates.js:10-16 | a permutation of the caller's templates (each row as often as the table holds it), most recently updated first |
| Templates.OwnedTemplate | backend/routes/templates.js:29-36 | the template with that id if it is the caller's; otherwise the caller owns no template with that id |
| Templates.TemplateById | backend/routes/templates.js:116-119 | the row read back by id alone |
| Templates.ItemsWithExercise | backend/routes/templates.js:40-48 | the template's items whose exercise exists, each paired with that exercise, position by position the filter of the table: each item as often as the table holds it, in table order |
| Templates.TemplateItems | backend/routes/templates.js:40-48 | a permutation of those joined items (same rows, same multiplicities), in ascending `order_index` |
| Templates.GetTemplate | backend/routes/templates.js:25-57 | 404 exactly when the caller owns no such template; otherwise the template with its ordered items |
| Templates.ReadItemById | backend/routes/templates.js:234-241 | as written: the re-read finds the item by `te.id` alone, so it may belong to another template; it finds none only when no item with that id joins an exercise |
| Templates.ReadItemScoped | backend/routes/templates.js:229-241 | the re-read restricted to the template the update was scoped to; `None` only when no such item joins an exercise |
| Templates.SetItemScoped | backend/routes/templates.js:229-232 | the item update changes order and notes of exactly the item with that id in that template; ids and keys stay |
| Templates.SetItemMismatchIsNoop | backend/routes/templates.js:229-232 | an id that is not in the template matches nothing, and the table is unchanged |
| Templates.TemplateStore.constructor | backend/routes/templates.js:8-23 | both tables start empty |
| Templates.TemplateStore.Create | backend/routes/templates.js:59-83 | 400 exactly when the name is empty; otherwise one new template of the caller, with notes coerced to NULL when empty |
| Templates.TemplateStore.Update | backend/routes/templates.js:90-124 | 400, then 404 unless owned; on success only that template's name and notes change; returns the row read back |
| Templates.TemplateStore.Delete | backend/routes/templates.js:131-144 | 404 unless owned; on success exactly that template is removed |
| Templates.TemplateStore.AddItem | backend/routes/templates.js:153-200 | success exactly when the template is owned and the exercise is visible; then one new item with the next id; otherwise 404 and nothing changes |
| Templates.TemplateStore.UpdateItem | backend/routes/templates.js:208-245 | 404 unless owned; otherwise the scoped update, and the read-back returns only an item of the caller's template |
| Templates.TemplateStore.RemoveItem | backend/routes/templates.js:253-269 | 404 unless owned; otherwise exactly the item with that id in that template is removed |
| Templates.ReadBackLeaksOtherTemplate | backend/routes/templates.js:229-241 | an update that matches nothing still returns another user's template item |
| Templates.CreatedListedForOwnerOnly | backend/routes/templates.js:13 | a new template is listed for its owner and for nobody else |
| PersonalRecords.WeightsMembers | backend/routes/sessions.js:242-249 | the weighted sets of the session are exactly the joined pairs with a weight, tagged with their exercise |
| PersonalRecords.MaxWeightFor | backend/routes/sessions.js:243 | `MAX(weight_kg)` of one exercise: none exactly when it has no weighted set; otherwise a weight that occurs and is at least every other |
| PersonalRecords.ExerciseIdsMembers | backend/routes/sessions.js:246 | the grouped exercise ids are exactly those with a weighted set |
| PersonalRecords.GroupMaxSpec | backend/routes/sessions.js:242-249 | `GROUP BY exercise_id`: ids strictly ascending, each with its maximum, every exercise with a weighted set present |
| PersonalRecords.PrFor | backend/routes/sessions.js:251-254 | the caller's record for the exercise, or the caller has none |
| PersonalRecords.GrowsTrans | backend/routes/sessions.js:250-269 | "no record is lost or lowered" composes across steps |
| PersonalRecords.InsertCase | backend/routes/sessions.js:262-267 | with no record yet, one new record with the session's maximum is inserted and nothing else changes |
| PersonalRecords.RaiseCase | backend/routes/sessions.js:256-261 | a heavier maximum raises the existing record and nothing else |
| PersonalRecords.RaisedValid | backend/routes/sessions.js:256-261 | raising keeps one record per user and exercise, and loses or lowers none |
| PersonalRecords.UpsertStep | backend/routes/sessions.js:251-268 | one loop step: a zero maximum or a non-heavier one changes nothing; otherwise insert or raise |
| PersonalRecords.UpsertAllValid | backend/routes/sessions.js:250-269 | the whole loop keeps one record per user and exercise, and no record ever decreases |
| PersonalRecords.UpsertAllFrame | backend/routes/sessions.js:250-269 | records of other users and of untouched exercises are unchanged; new records are the caller's, for touched exercises |
| PersonalRecords.HoldsGrows | backend/routes/sessions.js:250-269 | a record at least `w` survives any later growth |
| PersonalRecords.UpsertAllCovers | backend/routes/sessions.js:250-269 | after the loop the caller holds a record at least each nonzero candidate maximum |
| PersonalRecords.TouchedHasWeightedSet | backend/routes/sessions.js:242-249 | an exercise gets a candidate only when the session has a weighted set of it |
| PersonalRecords.CompletionFrame | backend/routes/sessions.js:242-269 | completion leaves untouched every record of another user and of an exercise without a weighted set in the session |
| Sessions.OwnedSession | backend/routes/sessions.js:228-235 | the session with that id if it is the caller's; otherwise the caller owns no such session |
| Sessions.ListSessions | backend/routes/sessions.js:10-16 | a permutation of the caller's sessions (each row as often as the table holds it), most recently started first |
| Sessions.EntriesWithExercise | backend/routes/sessions.js:40-48 | the session's exercises whose exercise row exists, each paired with it, position by position the filter of the table: each row as often as the table holds it, in table order |
| Sessions.SetsOfEntry | backend/routes/sessions.js:50-59 | a permutation of the sets of one session exercise (each row as often as the table holds it), by ascending set number |
| Sessions.EntryViews | backend/routes/sessions.js:40-59 | a permutation of the joined session exercises (same rows, same multiplicities), in ascending `order_index`, each with its exercise and its sets |
| Sessions.EntryViewsCovers | backend/routes/sessions.js:40-59 | every session exercise whose exercise exists is listed |
| Sessions.SortedViews | backend/routes/sessions.js:46 | attaching sets keeps the `order_index` order |
| Sessions.ViewsMembers | backend/routes/sessions.js:40-59 | every listed exercise belongs to the session, with its catalog row and its own sets |
| Sessions.GetSession | backend/routes/sessions.js:25-68 | 404 exactly when the caller owns no such session; otherwise the session with its exercises and sets |
| Sessions.LatestFromTemplate | backend/routes/sessions.js:74-84 | the caller's most recently completed session from the template; none exactly when there is no completed one |
| Sessions.FirstIsLatest | backend/routes/sessions.js:80-81 | the first row by `date_completed DESC` completed no earlier than any other match |
| Sessions.LastForTemplate | backend/routes/sessions.js:70-116 | no result exactly when no completed session exists; otherwise the exercises and sets of the latest one |
| Sessions.MaxOrder | backend/routes/sessions.js:186-190 | `MAX(order_index)` of the session: none exactly when it has no exercises; otherwise the greatest index present |
| Sessions.NextOrder | backend/routes/sessions.js:186-195 | the new index exceeds every existing one in the session, and is 1 for an empty session |
| Sessions.NextOrderFollowsLast | backend/routes/sessions.js:186-195 | in a non-empty session the new index is one past an existing index |
| Sessions.FinishCompletes | backend/routes/sessions.js:237-240 | completion stamps the caller's session with the time and duration and changes nothing else about it |
| Sessions.CompletionRecordsEveryWeight | backend/routes/sessions.js:242-269 | after completion, every weighted set of the session is covered by a record at least as heavy |
| Sessions.CandidateFor | backend/routes/sessions.js:242-249 | every weighted set yields a nonzero candidate for its exercise at least its weight |
| Sessions.GreatestComesLast | backend/routes/sessions.js:46 | in an `order_index` list, the row with the strictly greatest index is last |
| Sessions.AddedListedLast | backend/routes/sessions.js:186-195 | an exercise added with the next index is listed after all earlier ones |
| Sessions.AddSession | backend/routes/sessions.js:129-132 | a new session keeps the key and foreign-key invariants |
| Sessions.AddEntry | backend/routes/sessions.js:192-195 | a new session exercise of an existing session keeps both invariants |
| Sessions.AddSet | backend/routes/sessions.js:309-312 | a new set of an existing session exercise keeps the set invariant |
| Sessions.OverwriteKeeps | backend/routes/sessions.js:353-356 | overwriting a set keeps the set invariant |
| Sessions.DropKeeps | backend/routes/sessions.js:389 | deleting a set keeps the set invariant |
| Sessions.FinishKeeps | backend/routes/sessions.js:237-240 | completion keeps the session and session-exercise invariants |
| Sessions.SetById | backend/routes/sessions.js:358-361 | the set with that id, or none exists |
| Sessions.OwnedSetExists | backend/routes/sessions.js:341-351 | a set that passes the ownership check exists |
| Sessions.OverwriteRead | backend/routes/sessions.js:353-361 | the set read back after the update carries exactly the new values and its old session exercise |
| Sessions.UpsertAllSnoc | backend/routes/sessions.js:250-269 | the loop over one more group is the loop followed by one step |
| Sessions.SessionStore.constructor | backend/routes/sessions.js:8-23 | all tables start empty |
| Sessions.SessionStore.Start | backend/routes/sessions.js:118-159 | 400 exactly when the name is empty; otherwise one new session plus one session exercise per seed, numbered consecutively |
| Sessions.SessionStore.AddExercise | backend/routes/sessions.js:161-214 | 404 unless owned; 400 when completed; otherwise one new session exercise placed after all existing ones |
| Sessions.SessionStore.LogSet | backend/routes/sessions.js:278-327 | success exactly when the caller owns the session and the session exercise belongs to it; then one new set with coerced values |
| Sessions.SessionStore.UpdateSet | backend/routes/sessions.js:329-371 | 404 unless the set is the caller's; otherwise only that set changes, and the row read back is returned |
| Sessions.SessionStore.DeleteSet | backend/routes/sessions.js:373-396 | 404 unless the set is the caller's; otherwise exactly that set is removed |
| Sessions.SessionStore.OfferRecords | backend/routes/sessions.js:250-269 | the loop over the grouped maxima equals `PersonalRecords.UpsertAll`, keeps one record per user and exercise, and never lowers a record |
| Sessions.SessionStore.Complete | backend/routes/sessions.js:216-276 | 404 unless owned; otherwise stamps the session and derives records covering every weighted set; no record is lost or lowered |
| Stats.TargetUser | backend/routes/stats.js:9-15 | only an admin's `user_id` query selects another user; for an admin's query the answer is 400 exactly when it is 0 or not a number; otherwise 400 exactly when the caller's id is 0 |
| Stats.NewRecords | backend/routes/stats.js:36-42 | position by position the user's records achieved in the window whose exercise exists, each record as often as the table holds it, each with that exercise's name |
| Stats.NewRecordsCover | backend/routes/stats.js:36-42 | every such record is reported |
| Stats.WeeklySummary | backend/routes/stats.js:7-49 | 400 exactly when no target user results; otherwise count, minutes, volume and new records of the target user |
| Stats.WhereNone | backend/routes/stats.js:20-25 | a filter that rejects every row returns nothing |
| Stats.NoWorkouts | backend/routes/stats.js:20-25 | the count is 0 exactly when no session was completed in the window; then the minutes are 0 (`COALESCE`) |
| Stats.NoVolume | backend/routes/stats.js:27-34 | without a weighted set in the window the volume is 0 |
| Stats.WhereSkips | backend/routes/stats.js:23 | a row the filter rejects, inserted anywhere, does not change the result |
| Stats.OutsideWindowIgnored | backend/routes/stats.js:20-25 | a session outside the window or of another user changes neither count nor minutes |
| Stats.OutsideWindowNoVolume | backend/routes/stats.js:27-34 | such a session changes no volume |
| Stats.KeysOfMembers | backend/routes/stats.js:64 | the group keys are exactly the keys of matching rows |
| Stats.MonthlyWorkouts | backend/routes/stats.js:60-67 | months strictly ascending, each with the number of the user's sessions completed in it within the window |
| Stats.MonthlyWorkoutsMonths | backend/routes/stats.js:60-67 | a month is listed exactly when a session was completed in it; every count is positive |
| Stats.VolumesFor | backend/routes/stats.js:69-78 | one entry per group key, in key order, each with the volume of exactly that key's group |
| Stats.MonthlyVolume | backend/routes/stats.js:69-78 | months strictly ascending, each with the volume of the user's weighted sets in sessions completed in that month within the window |
| Stats.SeriesIsGroups | backend/routes/stats.js:70 | the series total is the sum of the per-group sums |
| Stats.SumGroupsEmpty | backend/routes/stats.js:70 | no rows give zero in every group |
| Stats.SumGroupsSnoc | backend/routes/stats.js:70 | one more row adds its value to exactly its own group |
| Stats.PartitionSum | backend/routes/stats.js:70-75 | when every row has a listed group, the per-group sums add up to the filtered total |
| Stats.MonthlyVolumeTotal | backend/routes/stats.js:27-34 | the monthly volume series adds up to the volume of the same window |
| Stats.MonthlyVolumeMonths | backend/routes/stats.js:69-78 | a month is listed exactly when a weighted set of a session completed in it exists |
| History.SafeLimit | backend/scripts/testHistory.mjs:5 | the limit is clamped to 1..1000 and floored in between |
| History.SafeLimitKeeps | backend/scripts/testHistory.mjs:5 | an integer limit in range is kept |
| History.OrDefault | backend/scripts/testHistory.mjs:30 | `a \|\| d`: a missing, zero or non-numeric argument gives the default |
| History.FromCommandLine | backend/scripts/testHistory.mjs:29-30 | per position, a nonzero numeric argument is used; a missing, zero or non-numeric one takes its default 1, 1 or 20 |
| History.ZeroLimitMeansTwenty | backend/scripts/testHistory.mjs:29-30 | a zero limit on the command line yields 20 rows at most, not 1 |
| History.History | backend/scripts/testHistory.mjs:5-16 | as many rows as the limit and the matches allow, never more than 1000, latest completion first |
| History.KeyOrder | backend/scripts/testHistory.mjs:13 | the sort key orders by completion descending, session id descending, set number ascending |
| History.HistoryRows | backend/scripts/testHistory.mjs:6-16 | each row is a joined set of the exercise, in a completed session of the user |
| History.HistoryPrefix | backend/scripts/testHistory.mjs:14 | a smaller limit returns a prefix of a larger one |

## Left out

- Request validation by express-validator is not modelled as code. Trimming happens before the model sees a value, so a blank name arrives as `""` and the model answers 400 for it. The `isInt()` checks on `exercise_id`, `order_index`, `set_number`, `session_exercise_id` and `duration_minutes` (backend/routes/sessions.js:162,217,279-280,330; backend/routes/templates.js:154-155,209) are enforced by the parameter types; the `exercise_type` whitelist is enforced by the `ExerciseType` datatype.
- Names are compared by code point. MySQL's collation (case-insensitive, accent-folding) is not modelled.
- `weight_kg` and `max_weight` are `real`. JavaScript floats, `parseFloat` and `DECIMAL` values returned as strings are not modelled.
- Route and query ids that are not integers, and MySQL's string-to-number coercion of them, are not modelled.
- Body fields the source does not validate at all: `reps`, `weight_kg` and `duration_seconds` of a set (backend/routes/sessions.js:289, 339), and `template_id` and the seed `exercise_id`s of a new session (backend/routes/sessions.js:127-143, where only the name is checked). The model types them as integers (weights as reals). A fractional or string value that the source passes on to MySQL's column coercion is not modelled.
- Responses are modelled by the rows they contain. Column projections, `created_at`, and the joined exercise columns of the read-back after adding a session exercise or logging a set are not modelled. `Sessions.SessionStore.AddExercise` and `Sessions.SessionStore.LogSet` return the inserted row.
- Foreign-key cascades are not modelled. Deleting an exercise or template leaves dependent rows in the model. A delete or insert that MySQL would refuse (a 500 answer) is not modelled.
- `updated_at ON UPDATE CURRENT_TIMESTAMP` is not modelled. `Templates.TemplateStore.Update` keeps the stored `updatedAt`.
- 500 answers from database failures, connection-pool handling, concurrency between requests, and the order of rows that MySQL leaves unspecified for equal sort keys are not modelled.
- `PersonalRecords.GroupMax`: the per-exercise maxima query on completion (`GROUP BY se.exercise_id`) has no `ORDER BY`, so MySQL's row order is unspecified. The model fixes ascending exercise ids. That order decides which ids newly inserted personal records receive; the other orders MySQL may produce are not modelled.
- `NOW()`, the seven-day window start and `DATE_FORMAT` months are parameters (`now`, `since`, `monthOf`).
- The administrative routes that create global exercises are not part of this model. `Catalog.ExerciseCatalog.constructor` takes existing rows.
- The console output, exit codes and pool shutdown of the history script are not modelled. `History.History` returns the rows it would print.
- `Templates.TemplateStore.UpdateItem`: deliberately differs from the source in what it returns. It uses the corrected read-back `Templates.ReadItemScoped`; the code as written is `Templates.ReadItemById` (see Findings).
- Behaviour of the code that the model keeps as written:
  - Logging a set into a completed session is accepted.
  - Completing an already completed session stamps it again and reruns the record loop.
  - Updating a template does not change `updated_at` in the handler.
  - The latest completed session of a template is ordered by completion time only. There is no tie-break on the session id, so `Sessions.LatestFromTemplate` promises only a session completed no earlier than any other.
  - The history script's default limit is 20 (`run`'s default parameter and `args[2] || 20`).

## Findings

| source | as written | input that shows it | evidently intended | confidence | as-written member | corrected member |
|---|---|---|---|---|---|---|
| backend/routes/templates.js:234-241 | after `UPDATE ... WHERE id = ? AND template_id = ?`, the item is re-read `WHERE te.id = ?` without the template | user 1 owns template 1; item 7 belongs to user 2's template 2; `PUT /templates/1/exercises/7` updates nothing but returns user 2's item | re-read scoped to the template (`AND te.template_id = ?`), answering with no item when nothing matched | not executed | Templates.ReadItemById, Templates.ReadBackLeaksOtherTemplate | Templates.ReadItemScoped, Templates.TemplateStore.UpdateItem |
