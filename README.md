# TrainHub core, modelled in Dafny

TrainHub (MPFit) is a Next.js workout tracker. Users plan training days made of
exercises ("workouts"), log the sets they lift, follow a dashboard, keep a
body-mass-index (BMI, "IMC") history, and can ask an assistant to generate a
day. Administrators maintain an exercise catalogue. This project models the
logic underneath, one Dafny module per source file:

- `RecordStore` (`lib/db.js`): the in-memory record store as a class `Db`.
  It has three tables held in `seq` fields and three id counters. Its methods
  append, update in place, splice and cascade-delete, and they keep one
  invariant: every table's ids increase in storage order and never exceed
  their counter.
- `Dashboard` (`pages/api/dashboard.js`): the statistics of the dashboard
  endpoint. These are the completed-day count, the workout total, the total
  lifted volume with the last log date, seven daily buckets, the six most
  recent days and the rounded average duration.
- `DurationFormat` (`pages/dashboard.js`): `formatDuration`.
- `WorkoutBoard` (`pages/app.js`): the exercise counts and the drag-and-drop
  move, as a class whose `OnDrop` updates the page state.
- `AdminCatalog` (`pages/admin/index.js`): avatar initials, catalogue search,
  and pages of ten with previous/next clamping.
- `Bmi` and `Csv` (`pages/imc.js`): the BMI computation and categories, the
  record-list updates, the statistics, and the CSV export. The CSV uses the
  quoting of section 2, rule 7 of RFC 4180. A reader for that CSV is proved
  to give the exported cells back.
- `Auth` (`lib/auth.js`): the token in the `Cookie` header, the two
  `Set-Cookie` values (section 4.1.1 of RFC 6265), and `requireAuth`.
- `Assistant` (`pages/api/assistant/generate.js`): muscle validation,
  exercise choice, the sets/repetitions rule, and plan creation over `Db`.
- `AdminExercises` (`pages/api/admin/exercises.js`): the guards of exercise
  creation, the base64 image data URL match (section 3 of RFC 2397), and the
  file extension derived from it.
- Helper modules: `Wrappers` (an `Option` standing for JavaScript's
  `null`/`undefined`/`NaN`), `Seqs` (filter, sums, first index), `Sorting`
  (a stable insertion sort, descending by an integer key) and `Strings`
  (JavaScript's `trim`, ASCII case mapping, `split`/`join`, `split(/\s+/)`,
  and decimal rendering).

Modelling conventions:

- Dates are integer millisecond timestamps.
- JavaScript numbers are `int` where the source only counts and `real`
  where it multiplies or divides weights.
- `Math.round` of an integer quotient is exact integer arithmetic
  (`RoundDiv`). `Math.round(v * 100) / 100` on reals is `RoundCents`.
- JavaScript's truncating `%` is written out (`JsRem`).

Points where the model follows the store as written:

- `lib/db.js` keeps no owners, positions or share codes, and `addDay` stores
  only a name, so none of those appear, although handlers such as
  `pages/api/days/[id]/share.js` call store operations (`setDayShareCode`)
  that would need them.
- `getLogsByWorkout` sorts with JavaScript's stable sort, so logs with the
  same date keep their stored order.
- The admin endpoint processes the image data itself (its prefix, size and
  mime type) and derives the image path from it.

## Model

| member | source | states |
|---|---|---|
| RecordStore.Db.constructor | lib/db.js:10 | a fresh store has empty tables, counters at 0, and satisfies the id invariant |
| RecordStore.Db.GetDays | lib/db.js:23 | the copy holds exactly the stored days, in order |
| RecordStore.Db.AddDay | lib/db.js:24-26 | the day counter goes up by one; the new day carries that id and is appended once at the end; its id is new; nothing else changes |
| RecordStore.Db.GetWorkoutsByDay | lib/db.js:27 | exactly the workouts with that day id, in stored order (a subsequence) |
| RecordStore.LinkOrNone | lib/db.js:30 | an empty link becomes no link; any other link is kept |
| RecordStore.Db.AddWorkout | lib/db.js:28-32 | missing sets/reps become 0, an empty link none, no current weight; one workout with a fresh id is appended; days and logs are unchanged |
| RecordStore.Db.SetCurrentWeight | lib/db.js:33-39 | an unknown id returns none and changes nothing; otherwise only the first workout with that id gets the new weight and is returned |
| RecordStore.Db.AddLog | lib/db.js:40-43 | the log gets the supplied date, or "now" when none is supplied; one log with a fresh id is appended |
| RecordStore.Db.GetLogsByWorkout | lib/db.js:44 | exactly that workout's logs (same multiset), newest first; logs with equal dates keep their stored order |
| RecordStore.Db.GetWorkout | lib/db.js:46 | none exactly when no workout has the id; otherwise a stored workout with that id |
| RecordStore.Db.DeleteWorkout | lib/db.js:48-58 | false with no change for an unknown id; otherwise that one workout and every log for it are removed, and everything else keeps its order |
| RecordStore.AppendFresh | lib/db.js:25 | appending under counter+1 keeps ids increasing and within the counter, and the new id differs from every stored one |
| RecordStore.RemoveKeepsIds | lib/db.js:53 | splicing one element out keeps the id invariant |
| RecordStore.FilterKeepsIds | lib/db.js:55 | filtering the logs keeps the id invariant |
| Seqs.Filter | lib/db.js:27 | the result keeps exactly the elements satisfying the test, never more than the input |
| Seqs.FilterMultiset | lib/db.js:55 | a filter keeps each kept element as often as the input has it |
| Seqs.FilterIsSubsequence | lib/db.js:27 | a filter keeps the input order |
| Seqs.IndexWhere | lib/db.js:34 | `find`/`findIndex`: none when no element passes; otherwise the first passing index |
| Seqs.FilterKeepsIncreasing | lib/db.js:55 | filtering keeps increasing ids increasing |
| Sorting.SortDesc | lib/db.js:44 | the sort is a permutation and is sorted descending by the key |
| Sorting.InsertStable | lib/db.js:44 | inserting one element into a sorted list adds it to the elements of its key ahead of them all and leaves every other key's elements unchanged |
| Sorting.SortStable | lib/db.js:44 | for each key value, the elements with that key keep their input order |
| Sorting.SortedPrefixTop | pages/api/dashboard.js:63-67 | the first n of a descending list are sorted, and no left-out element has a larger key |
| Dashboard.CompletedDays | pages/api/dashboard.js:21-22 | at most the number of days; 0 exactly when none is completed; all exactly when all are |
| Dashboard.TotalWorkouts | pages/api/dashboard.js:25-27 | the total length of the per-day workout lists |
| Dashboard.LogVolume | pages/api/dashboard.js:37-39 | a log missing its weight or reps adds no volume |
| Dashboard.VolumeOfAppend | pages/api/dashboard.js:34-39 | the volume of two log lists together is the sum of their volumes |
| Dashboard.Totals | pages/api/dashboard.js:34-42 | the total volume of all logs; no last date exactly when there are no logs, otherwise the date of some log and no smaller than any |
| Dashboard.WindowStarts | pages/api/dashboard.js:48-49 | seven day starts, six days ago first |
| Dashboard.Dedup | pages/api/dashboard.js:47-51 | the object keys: every start exactly once, first occurrence first |
| Dashboard.EmptyBuckets | pages/api/dashboard.js:46-51 | one zero bucket per key of the window, keys in insertion order |
| Dashboard.BucketStep | pages/api/dashboard.js:52-59 | one more log raises its own day's bucket by its volume and one session and no other bucket |
| Dashboard.CountLogs | pages/api/dashboard.js:52-59 | the buckets after the second loop are the starting buckets with every log counted into them in order (`Tally`) |
| Dashboard.TallyCounts | pages/api/dashboard.js:52-59 | counting into zero buckets leaves under every key exactly the number and the volume of the logs of that day |
| Dashboard.WeeklyBuckets | pages/api/dashboard.js:52-60 | bucket j holds the volume and the count of exactly the logs whose day start is the j-th key |
| Dashboard.UtcDayStartShift | pages/api/dashboard.js:4-8 | with UTC days, the start of `t - i` days is the start of `t` minus `i` days |
| Dashboard.DedupIncreasing | pages/api/dashboard.js:47-51 | increasing starts are already distinct |
| Dashboard.UtcWindowIsSevenDays | pages/api/dashboard.js:45-51 | with UTC days the window is exactly the seven consecutive days ending today |
| Dashboard.DedupOfNondecreasing | pages/api/dashboard.js:47-51 | removing repeats from a non-decreasing list leaves it increasing |
| Dashboard.WindowChronological | pages/api/dashboard.js:47-60 | for any monotone day-start function, the weekly buckets are in increasing date order |
| Dashboard.Latest | pages/api/dashboard.js:63-67 | the six (or fewer) days with the latest start, newest first, taken from the days; days that share a start appear as a prefix of them in stored order, as a stable sort leaves them |
| Dashboard.RecentDays | pages/api/dashboard.js:63-67 | the projection of those days: id, name, subtitle, completed flag |
| Dashboard.RoundDiv | pages/api/dashboard.js:77 | `Math.round(a / b)`: within half of `b` of the quotient |
| Dashboard.DayDuration | pages/api/dashboard.js:72-78 | a stored duration wins; otherwise the rounded seconds between start and finish when finish is later; otherwise none |
| Dashboard.Durations | pages/api/dashboard.js:70-79 | empty exactly when no day has a duration |
| Dashboard.CollectDurations | pages/api/dashboard.js:70-79 | the loop collects exactly the durations of the days that have one, in day order |
| Dashboard.AvgDuration | pages/api/dashboard.js:70-80 | none exactly when no day has a duration; otherwise the rounded mean of the durations |
| Dashboard.SumIntBounds | pages/api/dashboard.js:80 | a sum of n values in `lo..hi` lies between `n*lo` and `n*hi` |
| Dashboard.RoundedMeanWithin | pages/api/dashboard.js:80 | the rounded average lies between the smallest and the largest duration |
| Dashboard.Summarize | pages/api/dashboard.js:20-83 | the whole response: day and completed counts, total workouts, total volume, the latest log date (a date of some log, none exactly without logs), the weekly buckets, the recent days and the average duration pinned by its rounding bound |
| DurationFormat.JsRem | pages/dashboard.js:66-67 | `%` takes the dividend's sign: the Euclidean remainder for non-negative values, in `(-b, 0]` otherwise |
| DurationFormat.FormatDuration | pages/dashboard.js:62-70 | no value gives an em dash |
| DurationFormat.Components | pages/dashboard.js:65-67 | hours, minutes and seconds add back up to the duration; minutes and seconds are below 60 |
| DurationFormat.Shape | pages/dashboard.js:65-69 | from one hour on the text is `<h>h <m>m`, below it `<m>m <s>s` |
| DurationFormat.NoHoursBelowAnHour | pages/dashboard.js:65-69 | below an hour, negative values included, there is no hours part |
| WorkoutBoard.CompletedExercises | pages/app.js:34-35 | at most the total; 0 exactly when none is completed; the total exactly when all are |
| WorkoutBoard.Move | pages/app.js:310-312 | the dragged card ends at the drop position, and the list keeps its length |
| WorkoutBoard.Without | pages/app.js:311 | `splice(from, 1)`: one element shorter, the others shifted down past `from` |
| WorkoutBoard.InsertAt | pages/app.js:312 | `splice(to, 0, x)`: `x` lands at `to`, the others shift up past it |
| WorkoutBoard.MovePermutes | pages/app.js:310-312 | a move keeps the same cards, each as often |
| WorkoutBoard.MoveLands | pages/app.js:311-312 | the moved card ends at `to`; taking it out again leaves the other cards in their old order |
| WorkoutBoard.MoveInPlace | pages/app.js:310-312 | dropping a card on its own place changes nothing |
| WorkoutBoard.Ids | pages/app.js:315 | the persisted order is the list of ids, position by position |
| WorkoutBoard.Board.OnDrop | pages/app.js:305-316 | an unknown dragged id changes nothing and persists nothing; otherwise the card moves to the drop index, the drag markers clear, and the new id order is persisted |
| AdminCatalog.GetInitials | pages/admin/index.js:4-11 | at most two letters; empty exactly for a missing or blank name |
| AdminCatalog.InitialsOfWords | pages/admin/index.js:7-10 | for words joined by spaces: nothing, the first word's letter, or the first and the last word's letters, upper-cased |
| AdminCatalog.WordsSkipLeadingSpace | pages/admin/index.js:6-7 | leading whitespace does not change the words |
| AdminCatalog.InitialsSkipLeadingSpace | pages/admin/index.js:6-10 | leading whitespace does not change the initials |
| AdminCatalog.FilteredExercises | pages/admin/index.js:176-180 | a blank search keeps everything; otherwise exactly the exercises whose name, muscle or equipment contains it, ignoring case, in order, each as often as in the catalogue |
| AdminCatalog.TotalPages | pages/admin/index.js:181 | the fewest pages of ten that hold all exercises, and at least one |
| AdminCatalog.SliceIndex | pages/admin/index.js:182 | `slice` clamps an index into `0..length` and keeps one already inside |
| AdminCatalog.JsSlice | pages/admin/index.js:182 | within bounds `slice` is the subsequence; never longer than the range |
| AdminCatalog.PageSlice | pages/admin/index.js:182 | at most ten; a page starting inside the list is its next ten (or fewer) elements and non-empty; one starting past the end is empty |
| AdminCatalog.PageOfIndex | pages/admin/index.js:181-182 | every exercise is on a page within range, at its place on that page |
| AdminCatalog.PrevPage | pages/admin/index.js:311 | one back, and 1 from the first page or below |
| AdminCatalog.NextPage | pages/admin/index.js:312 | one on, and the last page from the last page or beyond |
| Bmi.CategoryRank | pages/imc.js:6-9 | each category exactly on its interval: below 18.5, up to 25, up to 30, from 30 on |
| Bmi.BmiCategory | pages/imc.js:4-10 | empty exactly for no value; otherwise the name of its band |
| Bmi.CategoryMonotone | pages/imc.js:6-9 | a larger index never gets a lower category |
| Bmi.RoundCents | pages/imc.js:45 | within half a cent of the value |
| Bmi.BmiOf | pages/imc.js:37-47 | a value exactly when the weight and the height are numbers and the height is positive; that value is within half a cent of weight over height squared, with heights above 10 read as centimetres |
| Bmi.Compute | pages/imc.js:37-47 | the step-by-step computation gives `BmiOf` |
| Bmi.CentimetresAgreeWithMetres | pages/imc.js:42 | a height in centimetres gives the same index as the same height in metres |
| Bmi.SaveRecord | pages/imc.js:49-61 | nothing is sent without a non-zero index; a created record goes in front, the old ones follow, and at most 500 are kept; a failed reply changes nothing |
| Bmi.Remove | pages/imc.js:63-72 | on success exactly the records with other ids remain, in order and each as often as before; otherwise nothing changes |
| Bmi.ClearAll | pages/imc.js:74-84 | a confirmed, accepted request empties the list; anything else changes nothing |
| Bmi.Cells | pages/imc.js:88 | five cells per record |
| Bmi.ExportCsv | pages/imc.js:86-89 | the export begins with the quoted header line, followed by a line break when there are records |
| Bmi.ExportReadsBack | pages/imc.js:86-89 | reading the export gives back the header and every record's cells, in order |
| Bmi.Bmis | pages/imc.js:98 | exactly the indexes that are numbers, one per record that has one |
| Bmi.BmisAppend | pages/imc.js:98 | the indexes of two runs of records are those of the first followed by those of the second, one per record that has one: record order and multiplicity |
| Bmi.MinOf | pages/imc.js:101 | an element no larger than any other |
| Bmi.MaxOf | pages/imc.js:101 | an element no smaller than any other |
| Bmi.ComputeStats | pages/imc.js:96-102 | zeros for no records; the count of all records; zeros without numeric indexes; otherwise the extremes of those indexes and an average within half a cent of their mean, and so between the extremes |
| Bmi.SumRealBounds | pages/imc.js:100 | a sum of n values in `lo..hi` lies between `n*lo` and `n*hi` |
| Bmi.MeanBetween | pages/imc.js:101 | a mean of values in `lo..hi` lies in `lo..hi` |
| Bmi.MeanOfBounded | pages/imc.js:98-101 | the rounded mean of values in `lo..hi` is within half a cent of that range |
| Bmi.AverageWithinRange | pages/imc.js:98-101 | the rounded average lies between the minimum and the maximum, to half a cent |
| Csv.Escape | pages/imc.js:89 | a cell without quotes is unchanged |
| Csv.QuoteAll | pages/imc.js:89 | every cell quoted, position by position |
| Csv.Lines | pages/imc.js:89 | one line per row, position by position |
| Csv.UnquoteEscaped | pages/imc.js:89 | an escaped cell reads back as itself, with the text after its closing quote |
| Csv.ParseLine | pages/imc.js:89 | a quoted, comma-joined row reads back as its cells |
| Csv.ParseExport | pages/imc.js:89 | the whole export reads back as its rows, provided no row is empty |
| Auth.SetCookieHeader | lib/auth.js:15-19 | the header is `mpfit_token=<token>;` followed by HttpOnly, Path=/, Max-Age=604800 and SameSite=Strict |
| Auth.ClearCookieHeader | lib/auth.js:21-23 | the header is `mpfit_token=;` with an empty value, followed by the same attributes with Max-Age=0 |
| Auth.MaxAgeText | lib/auth.js:18 | the cookie lifetime is seven days, written `604800` |
| Auth.TrimAll | lib/auth.js:27 | every segment trimmed, position by position |
| Auth.TokenOf | lib/auth.js:29 | `split('=')[1]` of a token segment: the text after the name up to the next `=` |
| Auth.GetTokenFromReq | lib/auth.js:25-31 | no token exactly when no trimmed segment starts with `mpfit_token=`, with a missing header read as empty; otherwise the first such segment's value up to the next `=` |
| Auth.PairRoundTrip | lib/auth.js:25-31 | a `mpfit_token=<t>;…` header gives back `t` when `t` has no `=`, `;` or trailing whitespace |
| Auth.TokenRoundTrip | lib/auth.js:15-31 | the cookie set by `setTokenCookie` carries its token back |
| Auth.ClearedCookieHasEmptyToken | lib/auth.js:21-31 | the cleared cookie yields the empty token |
| Auth.WhitespaceInvariant | lib/auth.js:27 | whitespace around the segments does not change the token |
| Auth.RequireAuth | lib/auth.js:33-43 | no user exactly when the token is missing or empty, fails to verify, its payload lacks an id, or the store's user lookup finds no user or throws; otherwise the user that lookup returned, or the payload itself when the store has no lookup |
| Auth.ClearedCookieIsAnonymous | lib/auth.js:21-37 | a request with only the cleared cookie is not authenticated |
| Auth.NoHeaderIsAnonymous | lib/auth.js:25-37 | a request without a cookie header has no token and is not authenticated |
| Assistant.ComputeImc | pages/api/assistant/generate.js:14 | none exactly when the weight or the height is missing or zero; otherwise the value times the squared height in metres gives back the weight |
| Assistant.MuscleOf | pages/api/assistant/generate.js:12 | none exactly for a missing or blank muscle; otherwise its trimmed, non-empty text |
| Assistant.MuscleSet | pages/api/assistant/generate.js:20 | exactly the non-empty lower-cased target muscles of the catalogue |
| Assistant.Matched | pages/api/assistant/generate.js:24 | exactly the exercises whose non-empty target muscle contains the muscle, ignoring case, in catalogue order and each as often as there |
| Assistant.Chosen | pages/api/assistant/generate.js:26-27 | the first `min(10, matches)` matches |
| Assistant.KnownMuscleHasChoice | pages/api/assistant/generate.js:20-27 | a muscle that passes validation has at least one chosen exercise |
| Assistant.SetsFor | pages/api/assistant/generate.js:30 | 2 sets exactly when the index is at least 30, otherwise 3 |
| Assistant.RepsFor | pages/api/assistant/generate.js:31 | 6 repetitions exactly when the muscle contains `perna`, otherwise 10 |
| Assistant.PlannedAll | pages/api/assistant/generate.js:38-41 | one workout per chosen exercise, consecutive ids, same day, sets and repetitions |
| Assistant.CreateWorkouts | pages/api/assistant/generate.js:37-41 | the loop appends exactly those workouts and changes nothing else |
| Assistant.Generate | pages/api/assistant/generate.js:4-44 | 405 for another method, 401 without a user, 400 for a blank or unknown muscle, each with the store unchanged; a valid request adds one day and the planned workouts, and answers with that day's workouts |
| AdminExercises.MimeRun | pages/api/admin/exercises.js:49 | the longest prefix of `[a-zA-Z0-9+.]` characters |
| AdminExercises.MatchDataUrl | pages/api/admin/exercises.js:49 | a match splits the text into `data:image/`, a non-empty subtype of mime characters, `;base64,` and a one-line payload |
| AdminExercises.MatchDataUrlComplete | pages/api/admin/exercises.js:49 | every such data URL is matched, with its mime type and payload |
| AdminExercises.Extension | pages/api/admin/exercises.js:70-71 | the subtype up to its first `+` |
| AdminExercises.ExtensionOfSuffixed | pages/api/admin/exercises.js:71 | a subtype `base+suffix` gives `base` |
| AdminExercises.ExtensionOfPlain | pages/api/admin/exercises.js:71 | a subtype without `+` is its own extension |
| AdminExercises.SvgExtension | pages/api/admin/exercises.js:71 | `image/svg+xml` gives `svg` |
| AdminExercises.CreateExercise | pages/api/admin/exercises.js:12-92 | 401, 403, 405 and 400 in that order of checks; 413 exactly for an oversized data URL; 500 exactly for a matched image whose upload failed or that has no cloud URL in production; 201 for every other admitted request; the stored image path is the cloud URL when there is one, else the local file named after the derived extension, and none without a matching data URL |
| Strings.Words | pages/admin/index.js:6-7 | non-empty runs of non-whitespace; none exactly for blank text |
| Strings.TrimPadded | lib/auth.js:27 | whitespace around a text does not change its trimmed form |
| Strings.SplitJoin | lib/auth.js:27 | joining pieces without the separator and splitting again gives the pieces back |
| Strings.SplitFirst | lib/auth.js:29 | the first piece of a split is the text before the first separator |

## Left out

- The `load`/`save` JSON file I/O of `lib/db.js`: the store is in-memory state (`Db`) starting empty.
- `startDay`, `completeDay`, `getUserByEmail`, `createUser`, `getUserById`, `getImcRecords`, `getExercises` and `addExercise` are not part of this model: `lib/db.js` does not define them. The assistant takes the catalogue as a parameter. The admin endpoint stops before storing.
- `jsonwebtoken` signing and verification and `bcryptjs`: foreign libraries. `verify` is a parameter, and `setTokenCookie` takes the signed token.
- `Date.now()`, `Math.random()` and `new Date()`: the current time, the random file name and the day-start function are parameters (`now`, `fileStem`, `sod`).
- Local-time `startOfDayTs`: kept abstract, with a UTC instance for the seven-day lemma. ISO and locale date rendering, including the bucket `date` label, are left out.
- JavaScript number semantics: dates and the numeric fields the store keeps are assumed well-formed (integer timestamps and numbers), so `NaN` never arises. Floating-point rounding is modelled on exact `real`s, which are not IEEE doubles, and `toFixed` is left out.
- Dashboard.Summarize: a log date that does not parse makes `toISOString` throw a `RangeError` in `pages/api/dashboard.js:40-41`, which the handler answers with 500; the model's dates are integers, so that path does not exist.
- Dashboard.RecentDays: an unparseable `startedAt` gives a `NaN` sort key in `pages/api/dashboard.js:64`; the model's dates are integers, so a present `startedAt` is always the key (`StartKey`) and `createdAt` is used only when `startedAt` is absent.
- RecordStore.Db.AddWorkout: `Number(plannedSets||0)` of non-numeric text is `NaN` in `lib/db.js:30`; the model takes the planned sets and reps as optional integers, a missing one giving 0.
- How JavaScript renders a real number in text: `Bmi.Cells` takes it as the parameter `number`.
- Dashboard.WeeklyBuckets: `Object.values` is assumed to list the seven integer keys in insertion order. That holds for millisecond timestamps above 2^32, but it does not model the array-index ordering of small keys.
- Full Unicode case mapping: `toLowerCase`/`toUpperCase` are ASCII only.
- `String(x).length` counts UTF-16 code units: `AdminExercises.CreateExercise` counts Unicode scalar values, which is the same for the ASCII text of a base64 data URL.
- AdminCatalog.GetInitials: `charAt(0)` takes one UTF-16 code unit, so for a name starting with a character outside the Basic Multilingual Plane JavaScript yields a lone surrogate; the model takes the whole Unicode scalar value.
- The `catch` branches that answer 500 after an unexpected exception from the store or the file system.
- The Cloudinary upload, `fs` writes and `Buffer` decoding: the upload outcome is a parameter.
- `Promise.all`: it only runs the independent reads concurrently.
- React state, SweetAlert dialogs, `fetch` and DOM events. `WorkoutBoard.Board` holds only the state `onDrop` reads and writes. The BMI list updates take the server's reply as a parameter.
- Assistant.Generate: a catalogue exercise without a name is stored with the empty name, because `RecordStore.Workout.name` is a string; JavaScript would store `undefined`.
- Auth.RequireAuth: `payload.id` is modelled as an optional integer, truthy when present and non-zero; the user `getUserById` resolves to is either present or absent, so a resolved falsy value other than `null` is not distinguished.
- Csv.ParseExport: it holds for rows with at least one cell, which every export row has (five cells, the header included).
