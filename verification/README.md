# songdb: a verified model of the music database browser's core

`python/songdb.py` is the music database browser of a radio DJ console. It
connects to a MySQL database holding a Prokyon 3 or an Ampache music
collection. It works out which of the two schemas it is looking at, and
shows the tracks in two pages:

- a tree page, browsable by artist → album → track and by album → artist → track;
- a flat page of search results.

All database traffic goes through a worker thread (`DBAccessor`). The worker
owns a FIFO of jobs paired with a semaphore, and gives every job up to three
execute attempts, reconnecting in between. The pages fill their stores in
idle-callback slices. A newer request cancels the older slices through a
shared kill flag, the first cell of a "namespace" list recorded in the
page's `_update_id` deque.

This project models that core in Dafny as pure functions over immutable
data. The external collaborators become inputs:

| Collaborator | Modelled as |
|---|---|
| MySQL | an oracle of execute/connect outcomes (`Worker.Oracle`) |
| cursors | the sequence of rows they will yield (plus a fetch error for the flat page) |
| the schema answers | a sequence of `Schema.Answer`s |
| `str.lower()`, the user's path transform | uninterpreted function parameters |
| the `keepalive` flag | the number of its reads that still see true; once `close` clears it, it stays false, so one count covers every interleaving |

The modules follow the source:

- `Worker`: `DBAccessor`, meaning `request`, `close`, the job loop of `run` and `purge_job_queue`.
- `HostPort`: the host:port parsing of `DBAccessor.__init__`.
- `PathTransform`: the file path transform of `PrefsControls._cb_bind`.
- `Duration` and `Cells`: the duration and bitrate cell functions of `PageCommon`.
- `Cancel`: `PageCommon._handler`, `deactivate`, and the kill flag every slice checks.
- `Slicing`: the generic "at most `doMax` rows per idle call" loop.
- `TreeBuild`, `TreeSpec`: `TreePage._update_1/_update_2`, i.e. the two depth state machines and the run-based trees they build.
- `AlbumMerge`: `TreePage._update_3` and `_copy_children`.
- `FlatQuery`: `FlatPage._queries_table` and `_cb_update`.
- `FlatBuild`: `FlatPage._update_1/_update_2`.
- `Schema`: `MediaPane.schema_test` and the `_stage_*`/`_fail_*` chain.

Four support modules sit underneath:

- `Text` covers the Python string operations used: `strip`, `rsplit`, `count`, `%s`-formatting, `%d` and `int()`.
- `Media` holds the row and tree node datatypes, and the Ampache file split.
- `Seqs` holds maximal runs.
- `Options` holds the `Option` type.

Where a line of the source is evidently wrong, the model keeps the code as
written and also gives the corrected behaviour. The two are linked by a
lemma, and each case is listed under "## Findings". A `fixed` flag selects
the corrected behaviour in `Cells.BitrateCell` and in the `Schema` chain;
the flat page has separate as-written functions.

## Model

| member | source | states |
|---|---|---|
| Worker.Request | python/songdb.py:92-96 | the job goes to the back of the queue with one more semaphore permit, and a balanced queue stays balanced: every queued job has a permit, and at most one spare permit exists, the Semaphore's initial one |
| Worker.Close | python/songdb.py:98-104 | a running worker stops being kept alive and is woken with one permit, its jobs untouched; closing a dead worker changes nothing |
| Worker.Take | python/songdb.py:112-115 | once `acquire` returns, the front job is taken exactly when the worker is still kept alive and a job is queued; one permit is consumed either way and balance is kept |
| Worker.Purge | python/songdb.py:190-194 | exactly the newest min(remain, queued) jobs stay, in order; the permit count drops by the number dropped; on a balanced queue the purge never blocks. The flat page calls this with remain 1 after every result (lines 1065-1067) |
| Worker.PurgeKeepsNewest | python/songdb.py:191-194 | after a purge at most `remain` jobs are left, each the same job at the same distance from the back, and purging again changes nothing |
| Worker.Attempts | python/songdb.py:117-173 | at most three execute attempts; the success handler runs at most once and is the last event, and it is the only closing event the loop produces; keepalive is read twice per failed attempt and once for the one that succeeds, so a job that gives up after three tries used exactly six reads and an exit on `keepalive` false came before the reads ran out; neither handler runs on that exit |
| Worker.AttemptsFailWhenExecutesFail | python/songdb.py:119-173 | when every remaining execute fails and `keepalive` holds for two reads per attempt, the loop gives up after the third attempt |
| Worker.AttemptsSucceedAtOnce | python/songdb.py:119-129 | with a cursor, an execute that works ends the loop at once: one `keepalive` read, then the success handler |
| Worker.AttemptsReconnectThenSucceed | python/songdb.py:119-173 | without a cursor the attempt fails with AttributeError, the worker reconnects, and once connecting works the next attempt's execute runs on the new cursor and the handler follows |
| Worker.RunJob | python/songdb.py:117-178 | per job: at most 3 attempts; the success handler runs iff the job succeeds, and then last; after three failures exactly one of the fail handler (if one was given) or "Job dropped" closes the trace, after exactly six `keepalive` reads; an exit on `keepalive` false calls neither, and happened before two reads per attempt were used |
| Worker.RunJobFollowsOracle | python/songdb.py:117-178 | the database's answers decide the job's end: it fails when all three executes fail and `keepalive` holds; it is handled at the first attempt when the worker has a cursor and the execute works; a worker without a cursor that connects runs it at the second attempt |
| Worker.FirstJobLosesATry | python/songdb.py:85-126 | a worker that never connected has no cursor, so the first job's first attempt fails with AttributeError before reaching the database, and at most two of its attempts execute |
| Worker.Session | python/songdb.py:106-188 | over the queued jobs: a `keepalive` found false at the loop test ends the thread at once with "Disconnected"; "Disconnected" is sent exactly once and last when the thread ends, and never while it waits for work; jobs are closed in queue order, the i-th closing event being one the i-th job can have (its fail handler only if it gave one, "Job dropped" only if not); a thread that waits for work has closed every job, and eight `keepalive` reads per job are enough for that |
| Worker.SessionRunsFrontJobFirst | python/songdb.py:106-188 | the worker runs the front job first and the rest of the queue after it, unless that job's run ended the thread, which then sends "Disconnected" |
| HostPort.ParseAddress | python/songdb.py:72-77 | either the host is the text before the last ':' and `int` accepts the rest as the port, or the whole text is the host on port 3306, and then `int` refused the text after the last ':' if there is one |
| HostPort.ParseAddressRoundTrip | python/songdb.py:72-77 | "host:port", the port possibly padded with blanks, reads back as that host and port even when the host name itself contains colons |
| HostPort.SignedPortAccepted | python/songdb.py:72-77 | a signed port, blanks allowed after the sign, is taken as the port, negative or not: "db:- 1" is host "db" on port -1 |
| HostPort.NoColonMeansDefaultPort | python/songdb.py:73-77 | text without ':' is the host on MySQL's default port 3306 |
| HostPort.BadPortKeepsWholeText | python/songdb.py:74-77 | a port with a character `int` refuses makes the whole text, colon included, the host on port 3306 |
| PathTransform.Drop | python/songdb.py:336 | `s[n:]`: the characters of `s` from position n on, empty once n reaches the length |
| PathTransform.MakeTransform | python/songdb.py:330-338 | the transform maps every path to the stripped prefix followed by the path without its first `del_qty` characters; the identity branch agrees with this |
| PathTransform.BlankTransformIsIdentity | python/songdb.py:334-338 | with nothing to delete and a blank prefix, paths pass unchanged |
| PathTransform.TransformRemounts | python/songdb.py:335-336 | a path under a mount point of exactly `del_qty` characters comes out under the new prefix with the rest of the path kept |
| PathTransform.TransformsCompose | python/songdb.py:335-336 | re-mounting a transformed path by deleting the first prefix and adding a second is the same as re-mounting once with the second |
| Duration.Split | python/songdb.py:510-512 | the three floor `divmod`s give hours < 24, minutes < 60, seconds < 60 that recombine to the input, with days ≥ 0 for a non-negative input |
| Duration.ShowReadsBack | python/songdb.py:508-521 | the shown duration parses back to the number of seconds, except that the `d:hh:mm` form (a day or more) drops the seconds |
| Duration.ClockReadsBack | python/songdb.py:513-519 | each of the three formats chosen by the `if d` / `if h` branches parses back to the clock's value, to the minute in the day form |
| Duration.ShortDurations | python/songdb.py:516-519 | under an hour the text is the minutes, ':' and the two-digit seconds |
| Cells.BitrateCell | python/songdb.py:491-499 | a zero bitrate shows blank; an Ampache bitrate gets a label iff it exceeds 9999 bit/s; as written a Prokyon 3 bitrate never gets one, and corrected it always does |
| Cells.AmpacheKilobits | python/songdb.py:497-498 | an Ampache bitrate above 9999 shows its whole kilobits (`// 1000`) followed by "k", and the digits read back as that number |
| Cells.ProkyonKilobits | python/songdb.py:495-496 | as written a Prokyon 3 bitrate shows the stored number without "k"; corrected it shows the stored kilobits and "k", reading back as the bitrate |
| Cancel.CancelAll | python/songdb.py:434-438 | draining `_update_id` leaves it empty, sets exactly the flags of the namespaces it named (others keep theirs), removes exactly its sources, and touches nothing else |
| Cancel.Schedule | python/songdb.py:553-554 | `idle_add` plus the append: one new live source, recorded at the back of the deque with its namespace |
| Cancel.NewNamespace | python/songdb.py:552 | a fresh namespace, not killed, with every older flag unchanged |
| Cancel.Handler | python/songdb.py:531-554 | after a result every earlier queued update is killed, flags already set stay set, and the only queued update is the new `_update_1` in a fresh, live namespace |
| Cancel.Deactivate | python/songdb.py:434-444 | every queued update is killed and its source removed, the deque is empty, the view shows no model, and the store it showed is cleared; a page showing nothing keeps its rows |
| Cancel.TreeDeactivateClearsOnlyViewed | python/songdb.py:434-444 | on the tree page only the store of the current layout is cleared; the other layout's store keeps its rows |
| Cancel.ClearSearch | python/songdb.py:1026-1033 | a search with both entries blank kills every queued update and clears the list store |
| Cancel.Fire | python/songdb.py:771-774 | a removed source never runs, and a slice whose kill flag is set returns without touching the store; otherwise the store becomes what the slice body makes of it |
| Cancel.StaleSlicesInert | python/songdb.py:534-538 | once a new result is handled, no slice of an earlier update can change the store, whatever its body would do |
| Cancel.FreshUpdateRuns | python/songdb.py:552-554 | the update the handler schedules does run when glib calls it |
| Slicing.RunSlice | python/songdb.py:782-798 | one idle call consumes at most `doMax` rows and continues exactly when `doMax` rows were there and `keepalive` held for all; however it ends, its state is the plain fold of the rows it consumed |
| Slicing.RunAllSlices | python/songdb.py:852-855 | rescheduling slices until the cursor runs dry ends in the same state as one unsliced pass over all rows |
| Slicing.SliceLoopHalts | python/songdb.py:782-784 | a slice that finds `keepalive` false stops with the fold of exactly the rows read before it |
| TreeBuild.DoMax | python/songdb.py:763 | the slice size is between 30 and 200 rows, and in between it is `rows // 100` |
| TreeBuild.ArtistInsert | python/songdb.py:809-833 | the `r_dep` machine in closed form: a new artist group iff the lower-cased artist differs from the open one (or none is open), else a new album group iff the lower-cased album differs, else the track joins the open album group; the open keys become the row's |
| TreeBuild.AlbumInsert | python/songdb.py:835-850 | the `l_dep` machine in closed form: a new album root with one artist child iff the lower-cased (album, artist) differs from the open key, else the track joins the open artist child |
| TreeBuild.BuildSlice | python/songdb.py:771-855 | a killed `_update_2` leaves both trees alone; otherwise at most `do_max` rows are consumed, and the trees are the single-pass build of the rows consumed; a dry cursor schedules the merge only while `keepalive` holds |
| TreeSpec.FoldBuildsForests | python/songdb.py:782-850 | the streamed build gives exactly the reference trees: one artist group per maximal run of equal lower-cased artist, each holding one album group per run of equal lower-cased album; and one album root, with a single artist child, per run of equal lower-cased (album, artist) |
| TreeSpec.InsertAddsOneLeaf | python/songdb.py:809-850 | each accepted row adds exactly one track leaf to each tree, after all earlier ones |
| TreeSpec.FoldLeavesInOrder | python/songdb.py:782-850 | the track leaves of both trees, in tree order, are the accepted rows in fetch order, path transformed |
| TreeSpec.SlicedBuildIsReference | python/songdb.py:762-855 | the sliced build with the `do_max` of `_update_1` leaves the same reference trees and leaves as one pass |
| Media.Prepare | python/songdb.py:800-807 | a Prokyon 3 row is used as is; an Ampache row is skipped iff its file has no '/', else split at the last '/' into directory and file name, other columns unchanged |
| Media.SplitFile | python/songdb.py:803 | `rsplit("/", 1)` unpacked: fails iff there is no '/', else the two parts rejoin to the input and the file name holds no '/' |
| AlbumMerge.CopyChildrenAppends | python/songdb.py:883-892 | the recursive copy appends exactly the second node's children, whole subtrees, after the first node's own |
| AlbumMerge.Absorb | python/songdb.py:875-877 | the inner loop keeps the roots before the current one and never adds roots |
| AlbumMerge.AbsorbMerges | python/songdb.py:873-878 | the current root absorbs the run of following roots with the same lower-cased album name: it keeps its columns and gains their children in order, and the roots after the run are untouched |
| AlbumMerge.MergeFromMerges | python/songdb.py:867-878 | the unsliced loop from root `i` leaves the roots before `i` alone and folds every maximal run of equal lower-cased names after it into the run's first root |
| AlbumMerge.MergeLoop | python/songdb.py:863-881 | after 200 roots a call saves its place and asks to run again iff `keepalive` holds; pausing loses nothing, since finishing from the saved place equals finishing from where the call started |
| AlbumMerge.MergeSlice | python/songdb.py:858-881 | a killed call changes nothing; otherwise one call visits at most 200 roots and is consistent with the unsliced pass |
| AlbumMerge.RunMerge | python/songdb.py:858-881 | calling `_update_3` again after every pause folds every maximal run of equally named roots into one root |
| AlbumMerge.MergedCons | python/songdb.py:873-878 | the reference merge of a list folds its leading run into its head and merges the rest |
| AlbumMerge.MergedHasNoAdjacentDuplicates | python/songdb.py:867-878 | after the pass no two neighbouring roots share a lower-cased album name |
| AlbumMerge.MergedKeepsChildren | python/songdb.py:876-877 | the pass never loses, duplicates or reorders a child: the artist children and the track rows, read in order, are those before the pass |
| FlatQuery.QueryTable | python/songdb.py:970-1011 | both database types, and only they, have a fuzzy query passed parameters (CLEAN) and a WHERE query pasted into the SQL (DIRTY) |
| FlatQuery.CleanParams | python/songdb.py:1035-1037 | the parameter tuple holds the stripped text once per "(%s)" in the query |
| FlatQuery.DirtySql | python/songdb.py:1038-1039 | `query % (text,) * qty` fails iff the formatting does, and otherwise repeats the formatted query once per "(%s)", so only a single placeholder gives the query itself |
| FlatQuery.CbUpdate | python/songdb.py:1013-1045 | an unknown database type does nothing; the page is cleared iff both entries are blank; a fuzzy text takes precedence and goes in as parameters; a WHERE text is pasted in, or the formatting fails (TypeError or ValueError) or uses a conversion the model does not cover |
| FlatQuery.FuzzyParamsPerPlaceholder | python/songdb.py:1035-1037 | for a fuzzy template whose pieces hold no '%', joined by n "(%s)", either database type sends the stripped text n times |
| FlatQuery.WhereTextPasted | python/songdb.py:1038-1039 | a WHERE template `a(%s)b` with no other '%' sends the stripped text between the parentheses, once, with no parameters |
| FlatQuery.BlankEntriesClear | python/songdb.py:1020-1033 | whitespace-only entries clear the page whatever the queries are |
| FlatBuild.AddRow | python/songdb.py:1101-1114 | every fetched row raises `found`, skipped or not; a skipped row adds no list row, and a listed row carries the count including itself |
| FlatBuild.FillNumbersRows | python/songdb.py:1092-1114 | from the cleared store, `found` counts the fetched rows and the list holds the accepted rows in fetch order, each numbered with its 1-based fetch position, numbers strictly increasing |
| FlatBuild.FillPlainNumbersOneToN | python/songdb.py:1110-1114 | without the Ampache split the list rows carry 1..n in fetch order with the rows' own columns and only the path transformed |
| FlatBuild.FlatSlice | python/songdb.py:1082-1122 | a killed call changes nothing; otherwise at most 100 rows are consumed, the call continues exactly when 100 rows came with `keepalive` true, a fetch error or a false `keepalive` drops it unshown, and a dry cursor shows the list |
| FlatBuild.RunFlat | python/songdb.py:1072-1122 | `_update_1` and the rescheduled `_update_2` give one pass's list, shown under the title "(n)" iff at least one row was fetched, or nothing shown if a fetch fails |
| FlatBuild.RunFrom | python/songdb.py:1115-1122 | resuming with a partial list ends as one pass over the remaining rows, titled with the total count |
| FlatBuild.FillAsWritten | python/songdb.py:1103-1108 | as written the pass dies iff an Ampache row's file has no '/'; without such a row it agrees with the intended fill |
| FlatBuild.RunFlatAsWritten | python/songdb.py:1096-1119 | as written an Ampache file without '/' leaves the list unshown; otherwise the outcome is the intended one |
| FlatBuild.BareFileHidesList | python/songdb.py:1103-1108 | one Ampache row with file "song.mp3": as written nothing is shown, and corrected the empty list is shown under "(1)" |
| Schema.Words | python/songdb.py:1192 | `str.split()` yields only non-empty words without blanks |
| Schema.WordsJoin | python/songdb.py:1192 | words joined by single blanks split back into exactly those words |
| Schema.AllListed | python/songdb.py:1191-1192 | true iff every name is the first column of some fetched row |
| Schema.SchemaTest | python/songdb.py:1190-1192 | the test passes iff every whitespace-separated word of the string is the first column of some row |
| Schema.SchemaTestWords | python/songdb.py:1190-1192 | the test of a blank-separated list checks each listed word, so the stages' strings ask for exactly their names |
| Schema.IndexFailed | python/songdb.py:1208-1219 | an index error without code, or with 1061 (the index exists), hands over; any other code crashes the worker thread as written, and with the fix is reported and handed over |
| Schema.Step | python/songdb.py:1222-1290 | a Prokyon 3 stage leads only to Prokyon 3 stages and hands over only "Prokyon 3"; likewise for Ampache; stage 1 never hands over, and no stage ends waiting or, with the fix, crashing |
| Schema.Chain | python/songdb.py:1222-1290 | the chain asks its stage's request first; a chain started in one branch never hands over the other type, and with the fix it never crashes |
| Schema.ProkyonRecognised | python/songdb.py:1222-1252 | a Prokyon 3 hand-over happens iff SHOW tables lists `tracks`, DESCRIBE tracks lists every required column, and the index is added or counts as done |
| Schema.AmpacheRecognised | python/songdb.py:1222-1290 | an Ampache hand-over happens iff SHOW tables lists `album`, `artist`, `song` but not `tracks`, the three DESCRIBE answers list the required columns, and the three ALTER TABLE requests succeed in turn until one fails in a way that counts as done (error 1061 or no error code), which hands over at once |
| Schema.OneAnswerPerRequest | python/songdb.py:1222-1290 | every answer goes to exactly one request, in order, and the chain waits iff all answers are used |
| Schema.AlbumNeverDescribed | python/songdb.py:1264-1269 | as written no stage ever asks for the album table's columns |
| Schema.AmpacheRequests | python/songdb.py:1254-1275 | on the way to an Ampache hand-over the requests are SHOW tables, DESCRIBE song, DESCRIBE artist, then DESCRIBE artist again as written or DESCRIBE album corrected, whose answer lists `name` and `prefix` |
| Schema.DeniedIndexCrashes | python/songdb.py:1215-1216 | a Prokyon 3 database whose index fails with a code other than 1061 is never handed over as written (the worker dies); corrected it is reported and handed over |
| Text.ParseIntNatToString | python/songdb.py:74 | `int` reads back a decimal number, with or without surrounding whitespace |
| Text.ParseIntSigned | python/songdb.py:74 | `int` reads a sign followed by blanks and then digits, all padded with blanks, as the signed value of the digits, as Python 2 does |
| Text.IntToStringReadsBack | python/songdb.py:74 | `int` reads back what `"%d"` writes, negative numbers included |
| Text.ParseIntRejects | python/songdb.py:74-75 | `int` raises ValueError on text holding a character other than a digit, whitespace or sign |
| Text.SplitLastJoin | python/songdb.py:73 | `rsplit(c, 1)` of x, c, y with no c in y gives back (x, y) |
| Text.CountJoin | python/songdb.py:1035 | `count("(%s)")` of pieces holding no '%' joined by "(%s)" is the number of joints |
| Text.InterpolateOne | python/songdb.py:1039 | one `%s` formatted with one argument pastes it in; with no arguments or two the formatting fails |

## Left out

- GTK, pango and glib widgets: the preferences dialog, column construction, drag and drop, column widths, the loading label, the progress bar and its pulser (floats), and the other cell functions.
- Threading is not modelled. Real blocking in `acquire`, `threadslock` and the idle-callback scheduler are outside the model. The worker's loop is a function of the queued jobs, and `keepalive` is a count of true reads. `Worker.Take` requires a permit instead of blocking, and `Worker.Session` stops waiting when the queue is empty.
- `Cancel.Fire` models one run of a glib callback. The order in which glib runs callbacks is left open: every lemma holds whichever entry fires.
- MySQLdb is replaced by oracles:
  - connect, execute and fetch are inputs;
  - the cursor/handle `close` calls after an OperationalError are not modelled (their effect on later attempts is part of the oracle);
  - `replace_cursor`, the old-cursor close in `_handler`, `print` and `time.sleep` are dropped.
- The SQL texts of `_queries_table` are parameters of `FlatQuery.QueryTable`, not the literal strings.
- `FlatQuery.CbUpdate` does not model `where_entry.set_text("")`.
- `str.lower()` is an uninterpreted function. Unicode case folding is not modelled.
- The `query is None` path of `run` (lines 120-121) is left out, because nothing in the file queues a `None` query.
- The GTK sort of the album store before the merge (lines 790-791) is left out. The merge pass takes the roots in whatever order it is given.
- The chain checks word lists, not the literal strings the stages pass to `schema_test`. `Schema.SchemaTestWords` proves the two agree for any blank-separated list of words.
- `_safe_disconnect` and `_hand_over` become the chain's verdicts: `Disconnect` and `HandOver(type)`. Activating the pages and showing the pane are not modelled.
- The merge appends each duplicate root's artist children after the surviving root's own. It does not merge them by artist key, and neither does the model.
- AlbumMerge.Absorb: when `model.remove(i2)` (lines 876-877) deletes the last root, GTK invalidates `i2` instead of making it None, so the source's next `read_alb(i2)` reads through an invalid iterator. The model ends the pass there, which is what the loop evidently intends; what GTK does with the invalid iterator is not modelled.
- The clearing of the store on view is a parameter of `Cancel.Deactivate`, instantiated for the tree page's two stores by `Cancel.TreeDeactivateClearsOnlyViewed`. A cleared GTK store is modelled only as a given empty store.
- The helpers `Media.Accepted`, `TreeBuild.InsertRow` and `FlatBuild.Title` have no table row. The members above state their meaning.

## Findings

| source | as written | input that shows it | evidently intended | confidence | as-written member | corrected member |
|---|---|---|---|---|---|---|
| python/songdb.py:1103-1108 | the flat page unpacks `rsplit("/", 1)` inside `except IndexError`, but a file without '/' makes the unpacking raise ValueError, so the idle callback dies and the list is never shown | an Ampache row whose file column is "song.mp3" | skip the row and go on, as the `continue` says | not executed; high | FlatBuild.RunFlatAsWritten (exhibited by FlatBuild.BareFileHidesList) | FlatBuild.RunFlat |
| python/songdb.py:1215-1216 | `_fail_2`/`_fail_3` call `notify_`, which is not defined; the NameError propagates out of the worker thread's loop, so the database is never handed over | a Prokyon 3 database on which ALTER TABLE fails with error 1142 (command denied) | report "Failed to create FULLTEXT index" and hand the database over | not executed; high | Schema.DeniedIndexCrashes | Schema.IndexFailed |
| python/songdb.py:1266 | stage 5 requests DESCRIBE artist again, so stage 6 tests the artist table a second time and the album table's columns are never checked | an Ampache database whose album table has no `prefix` column passes recognition, although the flat queries select `album.prefix` | DESCRIBE album, the table that stage 6 goes on to index | not executed; medium | Schema.AlbumNeverDescribed | Schema.AmpacheRequests |
| python/songdb.py:495 | `_cell_k` compares the database type with "P3", a name no database is handed over as | a Prokyon 3 track with bitrate 128 shows "128" instead of "128k" | compare with "Prokyon 3" (PROKYON_3) | not executed; high | Cells.ProkyonKilobits | Cells.BitrateCell |
