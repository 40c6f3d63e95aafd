# PerSpec coordination core in Dafny

PerSpec lets command-line Python scripts drive a running Unity editor. The
scripts insert request rows into a shared SQLite database, which the Unity side
executes. They also read the logs that Unity writes back. This project models
the sequential logic of those scripts and proves properties of it.

Four parts are modelled.

- **The request-queue protocol** of the four coordinators (tests, menu items,
  scene-hierarchy exports, asset refreshes). A request table is a class holding
  a map from id to row and an AUTOINCREMENT counter (`RequestQueue.Table`).
  - Submit inserts a row.
  - Status is a read-only lookup.
  - Cancel is a conditional update.
  - Pending listing is ordered by priority descending, then creation time
    ascending.
  - Waiting is a bounded poll loop. It uses an injected, strictly increasing
    clock, and between polls the Unity executor takes an explicit
    environment step.
  - The kinds keep their differences:
    - test and refresh requests can be cancelled while pending or running;
      menu requests only while pending, and only their status changes;
    - the test wait raises on a missing row or a timeout, where the others
      return "not_found" or "timeout";
    - the refresh wait reads each poll through the status query, which
      decodes the stored paths, so it can fail with a JSONDecodeError;
    - the payload checks of the command lines are modelled where they are
      made (quick_test, quick_refresh, the scene export command).
- **Compilation-error recognition.**
  - `CompilationErrorParser` parses one line against its fixed patterns, in
    the order the code tries them. It also accumulates continuation lines,
    groups errors by file and writes the summary.
  - `EditorLogMonitor` models the incremental processing of Editor.log. It
    keeps a read position that resets on truncation, a set of dedup keys
    (file, line, column, code), refresh markers and batches of 5 seconds.
  - The regular expressions involved are few and fixed. They are written out
    as hand-made recognisers in `UnityPatterns`, which follow the matching
    rules of Python's `re.match`.
- **Session-log parsers and filters.** Both variants of the PlayMode log
  viewer are modelled (`PlayModeLogs` is the shared parser,
  `EditorPlayModeLogs` and `ScriptingPlayModeLogs` the rest), along with the
  EditMode session monitor (`EditModeLogs`):
  - the entry parsers;
  - error classification;
  - search with all terms or any term;
  - level filters;
  - the sort → filter → search → last-N pipelines and their level counts.
- **The migration sequencer** of `db_auto_maintenance.py`
  (`DbAutoMaintenance`). The schema_version table is modelled as rows keyed by
  version. Migrations are applied in order above the stored version and the
  sequence stops at the first failure. VACUUM follows only when something was
  applied.

Shared helpers:

- `Wrappers`: Option and Result;
- `PyStr`: Python's `strip`, `split`, `find`, `in`, slicing and `lower` on
  strings;
- `Seqs`: filter, stable sort by key, keyed grouping and counting.

Where the code and its description differ, the model follows the code:

- Menu cancel accepts only `pending` requests and sets only the status.
- Every wait loop stops at completed, failed or cancelled. A row stored with
  status `timeout`, which the migrated schema allows, is therefore polled
  until the client's budget runs out.
- In both PlayMode parsers, a header line whose `'] ['` split gives fewer
  than three parts appends the current entry again. That entry then appears
  twice in the output (`PlayModeLogs.ShortHeaderRepeatsEntry`).
- In the Editor.log monitor, a refresh marker clears the batch id but keeps
  the time of the last error. An error right after a marker therefore gets no
  batch id at all (`EditorLogMonitor.MarkerThenErrorHasNoBatch`).
- In the same monitor, rows are stored only after the whole chunk is scanned.
  An error seen before and after a marker in one chunk is therefore stored
  once, and is not stale (`EditorLogMonitor.RepeatAcrossMarkerStoredOnce`).
- `is_compilation_error_line` does not flag the generic `file: warning: msg`
  form, although `parse` accepts it (`CompilationErrorParser.ParsedLinesFlagged`).

## Model

| member | source | states |
|---|---|---|
| RequestQueue.Table.Insert | ScriptingTools/Coordination/Scripts/test_coordinator.py:92-97 | the new row is pending, carries the given payload, priority and creation time, and gets the next AUTOINCREMENT id, which no existing row has; no other row changes |
| RequestQueue.Table.Get | ScriptingTools/Coordination/Scripts/test_coordinator.py:135-142 | the lookup by id yields the row exactly when one has that id, and reads only |
| RequestQueue.Table.CancelWhere | ScriptingTools/Coordination/Scripts/test_coordinator.py:217-225 | the conditional UPDATE changes a row exactly when the id exists and its status is in the allowed set; it then sets only status, and completed_at or error_message when given; otherwise the table is unchanged |
| RequestQueue.Table.Pending | ScriptingTools/Coordination/Scripts/test_coordinator.py:245-251 | the result holds exactly the pending rows of the table, each once, ordered by priority descending and then by creation time ascending |
| RequestQueue.Wait | ScriptingTools/Coordination/Scripts/test_coordinator.py:159-178 | the poll loop ends with a row whose status is completed, failed or cancelled, or with the row missing, or after the time budget is spent; every earlier poll found the request still waiting, and the table changes only by the executor's steps |
| RequestQueue.PollsWithinBudget | ScriptingTools/Coordination/Scripts/test_coordinator.py:162 | with a strictly increasing clock reading (milliseconds), a loop whose polls all began within the budget made at most that many polls |
| RequestQueue.WaitOnStoredTimeout | ScriptingTools/Coordination/Scripts/test_coordinator.py:173-178 | a row the executor keeps at status 'timeout' is not terminal for the client, so the wait runs out its own budget |
| TestCoordinator.SubmitTestRequest | ScriptingTools/Coordination/Scripts/test_coordinator.py:89-118 | without a database error there is exactly one new pending row with the given type, filter, platform and priority, one INFO execution_log record for its id, and the new id is returned; an error at any step leaves both tables as they were and is passed on |
| TestCoordinator.GetRequestStatus | ScriptingTools/Coordination/Scripts/test_coordinator.py:132-145 | None exactly when no row has the id, else that row; nothing is written |
| TestCoordinator.CancelRequest | ScriptingTools/Coordination/Scripts/test_coordinator.py:214-238 | true exactly when the row existed as pending or running and no database error occurred; it then becomes cancelled with a completion time and "Cancelled by user"; otherwise nothing changes |
| TestCoordinator.CancelTwice | ScriptingTools/Coordination/Scripts/test_coordinator.py:217-231 | a second cancel right after a successful one returns false |
| TestCoordinator.WaitForCompletion | ScriptingTools/Coordination/Scripts/test_coordinator.py:159-178 | returns the row once it is completed, failed or cancelled; fails with not-found when the row is missing and with a timeout once the budget is spent; every poll before the last was made within the budget and found the row still waiting, and so was every poll of a timed-out wait; the client writes nothing |
| TestCoordinator.GetPendingRequests | ScriptingTools/Coordination/Scripts/test_coordinator.py:242-254 | exactly the pending rows, each once, priority descending and then creation time ascending |
| TestCoordinator.TestFilterFor | Editor/Coordination/Scripts/quick_test.py:122-127 | 'all' submits without a filter; the other request types are refused exactly when the target is missing or empty, and otherwise submit the target |
| QuickMenu.SubmitMenuRequest | Editor/Coordination/Scripts/quick_menu.py:46-60 | one new pending row with the given menu path and priority; its fresh id is returned |
| QuickMenu.GetRequestStatus | Editor/Coordination/Scripts/quick_menu.py:65-83 | None exactly when no row has the id, else that row; nothing is written |
| QuickMenu.CancelRequest | Editor/Coordination/Scripts/quick_menu.py:85-106 | true exactly when the row existed with status pending; only its status changes, to cancelled; otherwise nothing changes |
| QuickMenu.WaitForCompletion | Editor/Coordination/Scripts/quick_menu.py:108-129 | the result is a terminal status the row has, "not_found" when the row is missing, or "timeout" once the budget is spent; every poll before the last was made within the budget and found the row still waiting, and so was every poll of a timed-out wait; the client writes nothing |
| QuickMenu.GetPendingRequests | Editor/Coordination/Scripts/quick_menu.py:131-145 | exactly the pending rows, each once, priority descending and then creation time ascending |
| QuickMenu.ExecuteExitCode | Editor/Coordination/Scripts/quick_menu.py:236-273 | the execute command exits with 1 exactly when an exception or keyboard interrupt escaped it, or it waited and the final status is failed; else 0 |
| SceneHierarchy.SubmitExportRequest | Editor/Coordination/Scripts/scene_hierarchy.py:77-104 | -1 and no insert when the requests table is missing; otherwise one new pending row with the booleans stored as 1/0, and its fresh id |
| SceneHierarchy.GetRequestStatus | Editor/Coordination/Scripts/scene_hierarchy.py:109-127 | None exactly when no row has the id, else that row; nothing is written |
| SceneHierarchy.WaitForCompletion | Editor/Coordination/Scripts/scene_hierarchy.py:129-152 | a terminal status the row has, "not_found" when the row is missing, or "timeout" once the budget is spent; every poll before the last was made within the budget and found the row still waiting, and so was every poll of a timed-out wait; the client writes nothing |
| SceneHierarchy.ExportRequestFor | Editor/Coordination/Scripts/scene_hierarchy.py:280-285 | 'full' maps to request type full with no target; 'object' maps to single_object with the target and is refused exactly when the target is missing or empty |
| SceneHierarchy.MostRecentFirst | Editor/Coordination/Scripts/scene_hierarchy.py:172-173 | a permutation of the files ordered by modification time, most recent first |
| SceneHierarchy.ListExports | Editor/Coordination/Scripts/scene_hierarchy.py:167-185 | nothing when the directory is missing; otherwise a prefix of the most-recent-first order: exactly `limit` files when 0 <= limit <= files, all of them when limit >= files, and for a negative limit all but the last -limit (none when -limit exceeds the count) |
| SceneHierarchy.LatestExport | Editor/Coordination/Scripts/scene_hierarchy.py:154-165 | None exactly when the directory is missing or empty; otherwise a file no other file is newer than |
| SceneHierarchy.CleanSelection | Editor/Coordination/Scripts/scene_hierarchy.py:344-360 | nothing is deleted without confirmation or with at most `keep` files; otherwise the deleted files are exactly what follows the `keep` most recent; a negative `keep` deletes the `-keep` oldest files, or all of them when there are fewer |
| SceneHierarchy.CleanKeepsMostRecent | Editor/Coordination/Scripts/scene_hierarchy.py:348-351 | no deleted file is newer than a kept one |
| AssetRefresh.PathsRoundTrip | ScriptingTools/Coordination/Scripts/asset_refresh_coordinator.py:87 | decoding the JSON text written for a path list gives back that list |
| AssetRefresh.UnescapeEscape | ScriptingTools/Coordination/Scripts/asset_refresh_coordinator.py:87 | reading back an escaped string literal returns the original text and leaves what follows the closing quote |
| AssetRefresh.DecodeItems | ScriptingTools/Coordination/Scripts/asset_refresh_coordinator.py:87 | decoding the comma-separated literals of a non-empty list gives back the list |
| AssetRefresh.SubmittedPathsReadBack | ScriptingTools/Coordination/Scripts/asset_refresh_coordinator.py:87-134 | a non-empty path list reads back equal to the list submitted; no list and an empty list are stored and read back as NULL |
| AssetRefresh.VerifyDatabase | ScriptingTools/Coordination/Scripts/asset_refresh_coordinator.py:61-74 | construction succeeds exactly when the asset_refresh_requests table exists |
| AssetRefresh.SubmitRefreshRequest | ScriptingTools/Coordination/Scripts/asset_refresh_coordinator.py:82-116 | without a database error, one new pending row with the given type, encoded paths, options and priority, and its fresh id; an error stores nothing and is passed on |
| AssetRefresh.GetRequestStatus | ScriptingTools/Coordination/Scripts/asset_refresh_coordinator.py:118-139 | None for an unknown id; otherwise the row with its paths column decoded, or the decoding error |
| AssetRefresh.CancelRequest | ScriptingTools/Coordination/Scripts/asset_refresh_coordinator.py:169-193 | true exactly when the row existed as pending or running and no database error occurred; it then becomes cancelled with a completion time; otherwise nothing changes |
| RequestQueue.WaitDecoded | ScriptingTools/Coordination/Scripts/asset_refresh_coordinator.py:141-167 | the poll loop of a client whose status read decodes the payload: it raises exactly when it polls at least once, the row is there at the first poll and its submitted payload does not decode, and then at that first poll; otherwise it ends as the plain loop does, with a decodable row when it finishes |
| AssetRefresh.WaitForCompletion | ScriptingTools/Coordination/Scripts/asset_refresh_coordinator.py:141-167 | every poll decodes the row as get_request_status does; the result is a terminal status of a row that decodes, "not_found" when the row is missing, "timeout" once the budget is spent, or JSONDecodeError, which happens exactly when a poll is made, the row is there at the first poll and its stored paths text does not decode, and then at that first poll; every poll before the last was made within the budget and found the row still waiting, and so was every poll of a timed-out wait; the client writes nothing |
| AssetRefresh.GetPendingRequests | ScriptingTools/Coordination/Scripts/asset_refresh_coordinator.py:195-215 | on success exactly the pending rows, each once, in queue order and with paths decoded; a failure means some pending row's paths do not decode |
| AssetRefresh.SelectivePathsFor | ScriptingTools/Coordination/Scripts/quick_refresh.py:116-127 | a selective refresh is refused exactly when no path is given, and otherwise submits the paths given, which are stored as a non-NULL list |
| UnityPatterns.RestOfLine | Editor/Coordination/Scripts/compilation_error_parser.py:69 | `(.+)$` accepts exactly a non-empty rest without a line feed, optionally followed by one final line feed, which is not captured |
| UnityPatterns.DigitsAt | Editor/Coordination/Scripts/compilation_error_parser.py:69 | `\d+` reads the longest non-empty run of digits, and fails exactly when the text does not start with a digit |
| UnityPatterns.SearchLocated | Editor/Coordination/Scripts/compilation_error_parser.py:69-72 | the lazy `(.+?)` group ends at the first position inside the first line from which the rest of the pattern matches, and no earlier position matches |
| UnityPatterns.MatchLocated | Editor/Coordination/Scripts/compilation_error_parser.py:69-72 | the first two patterns: a non-empty group within the first line followed by the parenthesised position, severity, CS code and message; no shorter group would match |
| UnityPatterns.MatchLocatedRendered | Editor/Coordination/Scripts/compilation_error_parser.py:69 | a line `path(line,column): sev CSdigits: message`, whose path has no '(' and no line feed, matches with the path as its group and each part read back |
| UnityPatterns.MatchGeneric | Editor/Coordination/Scripts/compilation_error_parser.py:75 | the third pattern: the shortest non-empty group followed by `: error: ` or `: warning: ` and a non-empty message |
| CompilationErrorParser.ToDisplayString | Editor/Coordination/Scripts/compilation_error_parser.py:29-34 | the display text starts with the code and ": ", contains the path when there is one, and is code and message alone without a path |
| CompilationErrorParser.LastSegment | Editor/Coordination/Scripts/compilation_error_parser.py:39 | the result is the suffix of the path after its last '/', contains no '/', and is the whole path when there is none |
| CompilationErrorParser.ToShortString | Editor/Coordination/Scripts/compilation_error_parser.py:36-42 | with a path, its last segment, the line and the code; without one, only the code |
| CompilationErrorParser.GetErrorDescription | Editor/Coordination/Scripts/compilation_error_parser.py:168-170 | the description from the fixed table for a known code, "Unknown error" for any other |
| CompilationErrorParser.Parse | Editor/Coordination/Scripts/compilation_error_parser.py:87-144 | None for a blank line; every result has the stripped line as full text and severity error or warning; a line containing "Compilation failed:" always parses; a result with a path starts with it, and one without is the COMPILATION_FAILED summary |
| CompilationErrorParser.ParseOfLocated | Editor/Coordination/Scripts/compilation_error_parser.py:93-104 | a stripped line matching the first form parses into exactly its group, line, column, severity, code and message |
| CompilationErrorParser.ParseLocatedRoundTrip | Editor/Coordination/Scripts/compilation_error_parser.py:93-104 | a rendered `path(line,column): sev CSdigits: message` parses back into its parts |
| CompilationErrorParser.NoLocatedWithoutParen | Editor/Coordination/Scripts/compilation_error_parser.py:69-72 | a line without '(' can match neither of the two located forms |
| CompilationErrorParser.NoGenericWithoutSeverity | Editor/Coordination/Scripts/compilation_error_parser.py:75 | the generic form needs ": error: " or ": warning: " in the line |
| CompilationErrorParser.ParseSummaryLine | Editor/Coordination/Scripts/compilation_error_parser.py:132-142 | a line that fits none of the first three forms and contains "Compilation failed:" parses as COMPILATION_FAILED with severity error and the line as message |
| CompilationErrorParser.LocatedMentionsSeverity | Editor/Coordination/Scripts/compilation_error_parser.py:174-176 | a line in a located form contains ": error CS" or ": warning CS" |
| CompilationErrorParser.ParsedLinesFlagged | Editor/Coordination/Scripts/compilation_error_parser.py:172-183 | every line that parse accepts is flagged by is_compilation_error_line, except the generic form with severity warning |
| CompilationErrorParser.ParseMultiLine | Editor/Coordination/Scripts/compilation_error_parser.py:146-166 | the loop returns the accumulation of the line-by-line steps (flush of the current error on each parsed line, continuation of it on a non-blank unparsed line) |
| CompilationErrorParser.ScanAgrees | Editor/Coordination/Scripts/compilation_error_parser.py:146-166 | for any line parser, one error per accepted line, in order, each extending that line's parse |
| CompilationErrorParser.MultiLineMatchesParses | Editor/Coordination/Scripts/compilation_error_parser.py:146-166 | the same for `parse`: as many errors as accepted lines, each the parse of its line with the message and full text possibly extended |
| CompilationErrorParser.LeadingUnparsedDropped | Editor/Coordination/Scripts/compilation_error_parser.py:154-161 | lines that do not parse before the first error are dropped |
| CompilationErrorParser.ContinuationAppended | Editor/Coordination/Scripts/compilation_error_parser.py:158-161 | a non-blank unparsed line after an error extends its message by a line feed and the stripped line, and its full text by a line feed and the line as read |
| CompilationErrorParser.CollectGroups | Editor/Coordination/Scripts/compilation_error_parser.py:198-204 | the first loop collects each key (the path, or "General") once, in order of first appearance, with its errors in input order |
| CompilationErrorParser.GroupRelatedErrors | Editor/Coordination/Scripts/compilation_error_parser.py:196-210 | the keys in insertion order, each mapped to its group sorted by (line, column) |
| CompilationErrorParser.GroupsPartition | Editor/Coordination/Scripts/compilation_error_parser.py:196-210 | the group keys are distinct, every error lies in the group of its key, and the group sizes add up to the number of errors |
| CompilationErrorParser.GroupSorted | Editor/Coordination/Scripts/compilation_error_parser.py:207-208 | each group is sorted by (line, column), is a permutation of the errors of its key, and keeps errors at the same position in input order |
| CompilationErrorParser.SeverityCountsCover | Editor/Coordination/Scripts/compilation_error_parser.py:232-234 | when every severity is error or warning, the two counts add up to the number of errors |
| CompilationErrorParser.RenderSections | Editor/Coordination/Scripts/compilation_error_parser.py:220-230 | the loop writes, per group in key order, its title line and one line per error |
| CompilationErrorParser.FormatErrorSummary | Editor/Coordination/Scripts/compilation_error_parser.py:212-238 | "No compilation errors found" for no errors; otherwise the count line followed by the section lines, joined by line feeds |
| CompilationErrorParser.SummaryShape | Editor/Coordination/Scripts/compilation_error_parser.py:232-238 | a non-empty summary starts with the count line, followed by one title line per group and one line per error |
| UnityPatterns.LocErrorCodeIsLocError | ScriptingTools/Coordination/Scripts/editor_log_monitor.py:231-232 | a position that starts `\(\d+,\d+\): error CS\d+:` also starts `\(\d+,\d+\): error` |
| UnityPatterns.LocTailIsLocError | ScriptingTools/Coordination/Scripts/editor_log_monitor.py:230-232 | where the full error form matches, the monitor's second recognition pattern matches too |
| EditorLogMonitor.ParseError | ScriptingTools/Coordination/Scripts/editor_log_monitor.py:56-82 | the fields are filled exactly when the line matches `file(l,c): error CSn: msg`, with the path a prefix of the line, a CS code and a one-line message; otherwise the message is the whole line and the rest keep their defaults |
| EditorLogMonitor.ParseErrorRoundTrip | ScriptingTools/Coordination/Scripts/editor_log_monitor.py:68-79 | a rendered error line whose path has no '(' reads back into its path, line, column, code and message |
| EditorLogMonitor.UnparsedErrorsShareKey | ScriptingTools/Coordination/Scripts/editor_log_monitor.py:98-101 | every line not in the full form gets the same dedup key (empty path, 0, 0, empty code) |
| EditorLogMonitor.IsCompilationErrorIff | ScriptingTools/Coordination/Scripts/editor_log_monitor.py:227-239 | a line is an error iff its first line has `(digits,digits): error` after some prefix, or it starts "Compilation failed:" |
| EditorLogMonitor.ParsedErrorsAreRecognised | ScriptingTools/Coordination/Scripts/editor_log_monitor.py:227-239 | every line that parses into a full error is recognised as an error |
| EditorLogMonitor.DeltaSeconds | ScriptingTools/Coordination/Scripts/editor_log_monitor.py:294 | `timedelta.seconds` is below one day |
| EditorLogMonitor.WindowAtSameInstant | ScriptingTools/Coordination/Scripts/editor_log_monitor.py:293-294 | two errors read at the same instant are in the same batch window |
| EditorLogMonitor.BatchWindowForward | ScriptingTools/Coordination/Scripts/editor_log_monitor.py:294 | for gaps below one day, the window holds exactly the gaps below 6000 ms |
| EditorLogMonitor.BatchWindowWrapsDaily | ScriptingTools/Coordination/Scripts/editor_log_monitor.py:294 | a gap of exactly one day is inside the window, because `.seconds` drops the days |
| EditorLogMonitor.MarkStaleAt | ScriptingTools/Coordination/Scripts/editor_log_monitor.py:185-198 | the UPDATE makes a row stale iff it was stale or was detected before the cutoff, and changes nothing else in any row |
| EditorLogMonitor.Classify | ScriptingTools/Coordination/Scripts/editor_log_monitor.py:275-291 | a stripped line is a refresh line iff it holds a marker, and is reported iff it holds no marker and is an error; a reported line carries its parse |
| EditorLogMonitor.BlankLineIsNeither | ScriptingTools/Coordination/Scripts/editor_log_monitor.py:276-278 | a blank line is neither a marker nor an error |
| EditorLogMonitor.ReadLinesConcat | ScriptingTools/Coordination/Scripts/editor_log_monitor.py:268-269 | the lines read join back into the text read |
| EditorLogMonitor.ReadLinesShape | ScriptingTools/Coordination/Scripts/editor_log_monitor.py:269 | each line read is non-empty and all but the last end in a line feed |
| EditorLogMonitor.Process | ScriptingTools/Coordination/Scripts/editor_log_monitor.py:253-316 | after a call the read position is the size of the log; the position is saved iff new text was read; no stored row is removed |
| EditorLogMonitor.ProcessReadsNewLines | ScriptingTools/Coordination/Scripts/editor_log_monitor.py:255-270 | with text to read, a call scans the lines from 0 after a truncation (with the seen keys cleared), otherwise from the position reached |
| EditorLogMonitor.Monitor.constructor | ScriptingTools/Coordination/Scripts/editor_log_monitor.py:155-170 | the position is the saved one, or the log size, which is then saved; no keys seen, no batch, no last error time |
| EditorLogMonitor.Monitor.MarkOldErrorsStale | ScriptingTools/Coordination/Scripts/editor_log_monitor.py:185-198 | the rows become the stale-marked rows for a cutoff one second before now; no field changes |
| EditorLogMonitor.Monitor.StoreError | ScriptingTools/Coordination/Scripts/editor_log_monitor.py:200-225 | a row is appended iff the key was not seen; the key is seen afterwards; nothing else changes |
| EditorLogMonitor.Monitor.ScanNewLines | ScriptingTools/Coordination/Scripts/editor_log_monitor.py:275-305 | the line loop leaves the fields, the rows and the collected errors as the line-by-line scan defines them |
| EditorLogMonitor.Monitor.ScanOneLine | ScriptingTools/Coordination/Scripts/editor_log_monitor.py:276-305 | one line: skip, marker (stale rows, seen keys and batch cleared) or error (batch reused in the window, else a new batch and cleared keys) |
| EditorLogMonitor.Monitor.StoreFound | ScriptingTools/Coordination/Scripts/editor_log_monitor.py:307-309 | the store loop leaves the keys and rows as storing each collected error in turn defines them |
| EditorLogMonitor.Monitor.ProcessNewContent | ScriptingTools/Coordination/Scripts/editor_log_monitor.py:253-316 | the new state is `Process` of the old state |
| EditorLogMonitor.StoreAllStoresOnce | ScriptingTools/Coordination/Scripts/editor_log_monitor.py:200-225 | the keys seen become the old ones plus the keys found; old rows are kept; the new rows have exactly the keys found and not yet seen, one row per key, detected now and not stale |
| EditorLogMonitor.StoreAllRowsFound | ScriptingTools/Coordination/Scripts/editor_log_monitor.py:212-222 | every row appended is the row of one of the errors collected, with its batch id |
| EditorLogMonitor.ScanLinesFound | ScriptingTools/Coordination/Scripts/editor_log_monitor.py:289-305 | the line loop collects exactly the reported errors, in line order |
| EditorLogMonitor.ScanLinesOneBatch | ScriptingTools/Coordination/Scripts/editor_log_monitor.py:293-304 | without markers, every error of one call gets the same batch: the running one within the window, else the new one |
| EditorLogMonitor.MarkerThenErrorHasNoBatch | ScriptingTools/Coordination/Scripts/editor_log_monitor.py:285-296 | an error within the window right after a refresh marker is collected with no batch id |
| EditorLogMonitor.ScanLinesOnlyMarksStale | ScriptingTools/Coordination/Scripts/editor_log_monitor.py:281-287 | the line loop changes only the stale flags, and only when a marker was read, for rows more than a second old |
| EditorLogMonitor.ScanAndStoreKeepsRows | ScriptingTools/Coordination/Scripts/editor_log_monitor.py:281-309 | a call keeps each existing row except for the stale flag a marker sets |
| EditorLogMonitor.ScanAndStoreAppendsOnce | ScriptingTools/Coordination/Scripts/editor_log_monitor.py:289-309 | no more rows are appended than errors were reported; the appended rows have pairwise distinct keys, are detected now and are not stale |
| EditorLogMonitor.ScanAndStoreAppendsReported | ScriptingTools/Coordination/Scripts/editor_log_monitor.py:289-309 | each appended row holds one of the errors reported by the lines |
| EditorLogMonitor.ScanAndStoreSeesReported | ScriptingTools/Coordination/Scripts/editor_log_monitor.py:200-207 | after a call, the key of every reported error is in the seen set |
| EditorLogMonitor.RepeatAcrossMarkerStoredOnce | ScriptingTools/Coordination/Scripts/editor_log_monitor.py:281-309 | an error reported before and after a marker in one chunk is stored once, for its first report, and is not stale |
| EditorLogMonitor.StoreSameKeyTwice | ScriptingTools/Coordination/Scripts/editor_log_monitor.py:203-207 | storing two errors with one key from an empty seen set appends only the first |
| PlayModeLogs.SplitFrameShape | Editor/Coordination/Scripts/test_playmode_logs.py:56-65 | a frame is split off iff the message starts "Frame:" or "Thread" and contains "] "; the message is then the text after the first "] ", the frame is "Thread" unless it starts "Frame:", and a "Frame:" frame is stripped; otherwise the message is kept whole |
| PlayModeLogs.ParseHeaderOpens | Editor/Coordination/Scripts/test_playmode_logs.py:50-51 | a header line yields an entry iff it has at least three "] [" parts |
| PlayModeLogs.ParseHeaderEntry | Editor/Coordination/Scripts/test_playmode_logs.py:50-73 | a parsed header has an empty stack trace, a stripped level, and a timestamp without a leading '[' and without "] [" in it |
| PlayModeLogs.ParseHeaderOfParts | Editor/Coordination/Scripts/test_playmode_logs.py:50-65 | with the three parts of the split, timestamp, level, frame and message are read from parts 0, 1 and 2 as the code reads them |
| PlayModeLogs.HeaderRoundTrip | Editor/Coordination/Scripts/test_playmode_logs.py:45-73 | a header written as `[ts] [level] [Frame: n] msg` (or with "Thread") is recognised and parses back into its timestamp, level, frame and message |
| PlayModeLogs.ParseLogFile | Editor/Coordination/Scripts/test_playmode_logs.py:32-85 | the accumulator loop over records (one record per appended entry, shared when appended twice) yields exactly the entries of the line-by-line definition |
| PlayModeLogs.LogRecord.constructor | Editor/Coordination/Scripts/test_playmode_logs.py:67-73 | a new record holds the given entry |
| PlayModeLogs.BlankLineSkipped | Editor/Coordination/Scripts/test_playmode_logs.py:40-42 | a line that is blank after rstrip changes nothing |
| PlayModeLogs.LeadingLinesDropped | Editor/Coordination/Scripts/test_playmode_logs.py:74-76 | lines before the first well-formed header are dropped |
| PlayModeLogs.NoHeaderNoEntries | Editor/Coordination/Scripts/test_playmode_logs.py:44-80 | without a well-formed header there are no entries |
| PlayModeLogs.OneEntry | Editor/Coordination/Scripts/test_playmode_logs.py:44-80 | a header followed by continuation lines yields one entry whose stack trace is those lines, right-stripped, in order |
| PlayModeLogs.ShortHeaderRepeatsEntry | Editor/Coordination/Scripts/test_playmode_logs.py:45-51 | a header with fewer than three parts after an entry makes that entry appear twice, with the continuation lines on both |
| PlayModeLogs.SplitAtHeader | Editor/Coordination/Scripts/test_playmode_logs.py:45-48 | the entries of a file are those before a well-formed header followed by those from it on |
| PlayModeLogs.AllLogsFromFiles | Editor/Coordination/Scripts/test_playmode_logs.py:343-345 | an entry is among all logs iff it comes from one of the files |
| PlayModeLogs.ByTimestampSorts | Editor/Coordination/Scripts/test_playmode_logs.py:352 | the sort by timestamp orders the entries, is a permutation and keeps entries with equal timestamps in their order |
| PlayModeLogs.Limit | Editor/Coordination/Scripts/test_playmode_logs.py:379-380 | without "all" and with N > 0, the last min(N, count) entries; otherwise all of them; always a suffix |
| PlayModeLogs.LimitSorted | Editor/Coordination/Scripts/test_playmode_logs.py:379-380 | the last N of a sorted list are sorted |
| PlayModeLogs.CountLevels | Editor/Coordination/Scripts/test_playmode_logs.py:395-398 | each level seen gets the number of its entries, in order of first appearance, and the counts add up to the number of entries |
| PlayModeLogs.DisplayMembers | ScriptingTools/Coordination/Scripts/test_playmode_logs.py:111-120 | an entry is displayed iff its level equals the filter ignoring case (when a non-empty filter is given) and, when errors are asked for, its level is Error, Exception or Assert |
| PlayModeLogs.DisplayUnfiltered | ScriptingTools/Coordination/Scripts/test_playmode_logs.py:111-120 | without filters every entry is displayed, in order |
| EditorPlayModeLogs.CompilationErrorOfCode | Editor/Coordination/Scripts/test_playmode_logs.py:87-93 | any message holding "error CS", four digits and ':' is a compilation error |
| EditorPlayModeLogs.CompilationErrorMentionsMarker | Editor/Coordination/Scripts/test_playmode_logs.py:90-93 | a compilation error always contains "error CS" |
| EditorPlayModeLogs.CodeNeedsColon | Editor/Coordination/Scripts/test_playmode_logs.py:90 | four digits after "error CS" without a following ':' (and no further "error CS") are not a compilation error |
| EditorPlayModeLogs.KeywordMakesGeneralError | Editor/Coordination/Scripts/test_playmode_logs.py:95-119 | a lower-cased message holding any of the fixed keywords makes a general error |
| EditorPlayModeLogs.AssertionFailedRedundant | Editor/Coordination/Scripts/test_playmode_logs.py:104-113 | the keyword "assertion failed" adds nothing to the keyword "failed" |
| EditorPlayModeLogs.CompilationErrorNotGeneral | Editor/Coordination/Scripts/test_playmode_logs.py:87-119 | "error CS0103: x" at level Log is a compilation error but not a general error, so the two predicates differ |
| EditorPlayModeLogs.HighlightText | Editor/Coordination/Scripts/test_playmode_logs.py:121-124 | without search terms the text is returned unchanged |
| EditorPlayModeLogs.HighlightAbsentTerms | Editor/Coordination/Scripts/test_playmode_logs.py:125-136 | case-sensitive highlighting leaves a text that contains none of the terms unchanged |
| EditorPlayModeLogs.MarkFoldedAtStart | Editor/Coordination/Scripts/test_playmode_logs.py:128-132 | case-insensitive highlighting wraps an occurrence at the start and goes on after it |
| EditorPlayModeLogs.SearchMembers | Editor/Coordination/Scripts/test_playmode_logs.py:138-162 | an entry is in the search result iff it is in the input and matches: every term (ALL) or some term (ANY) occurs in the message joined with the stack trace, both sides lower-cased with ignore-case |
| EditorPlayModeLogs.SearchKeepsOrder | Editor/Coordination/Scripts/test_playmode_logs.py:138-162 | the search is an order-preserving filter: searching a concatenation concatenates the results |
| EditorPlayModeLogs.SearchAllInSteps | Editor/Coordination/Scripts/test_playmode_logs.py:148-156 | ALL search with the terms a + b equals ALL search with a, then with b |
| EditorPlayModeLogs.SearchAllWithinAny | Editor/Coordination/Scripts/test_playmode_logs.py:148-160 | with at least one term, an ALL match is an ANY match |
| EditorPlayModeLogs.SearchAcrossSeam | Editor/Coordination/Scripts/test_playmode_logs.py:146 | the search text is the message followed directly by the space-joined stack frames, with nothing between the message and the first frame, so a term can match across that seam while neither part holds it |
| EditorPlayModeLogs.SearchedMembers | Editor/Coordination/Scripts/test_playmode_logs.py:365-367 | the search stage keeps exactly the matching entries, and everything when no term is given |
| EditorPlayModeLogs.ShownSorted | Editor/Coordination/Scripts/test_playmode_logs.py:352-380 | the displayed entries are sorted by timestamp |
| EditorPlayModeLogs.ShownMembers | Editor/Coordination/Scripts/test_playmode_logs.py:343-380 | every displayed entry comes from a file and passes the selection and search; with a limit N > 0 at most N are shown; without one, exactly the passing entries are shown |
| EditorPlayModeLogs.ShowLogs | Editor/Coordination/Scripts/test_playmode_logs.py:343-409 | the shown entries are the pipeline's, displayed unfiltered, with each level counted and the counts adding up to the number shown |
| ScriptingPlayModeLogs.CsCodeMakesCompilationError | ScriptingTools/Coordination/Scripts/test_playmode_logs.py:86-101 | "CS" and four digits between word boundaries make a compilation error |
| ScriptingPlayModeLogs.CsCodeNeedsBoundary | ScriptingTools/Coordination/Scripts/test_playmode_logs.py:89 | an occurrence of "CS" right after a word character does not count as a code |
| ScriptingPlayModeLogs.ColonFormImplied | ScriptingTools/Coordination/Scripts/test_playmode_logs.py:93-94 | the pattern ": error CS\d{4}" adds nothing to "error CS\d{4}" |
| ScriptingPlayModeLogs.AllCompilerErrorsImplied | ScriptingTools/Coordination/Scripts/test_playmode_logs.py:95-97 | the phrase "All compiler errors" adds nothing to the phrase "Compiler Error" under case folding |
| ScriptingPlayModeLogs.CompilationErrorReduced | ScriptingTools/Coordination/Scripts/test_playmode_logs.py:86-109 | a message is a compilation error iff it has a word-bounded CS code, or, lower-cased, "error cs" and four digits, "compiler error", or "compilation failed" |
| ScriptingPlayModeLogs.EditorErrorIsCompilationError | ScriptingTools/Coordination/Scripts/test_playmode_logs.py:86-109 | what the Editor variant calls a compilation error, this variant does too |
| ScriptingPlayModeLogs.PhraseOnlyCompilationError | ScriptingTools/Coordination/Scripts/test_playmode_logs.py:96 | a message with "compilation failed" and no "error CS" is a compilation error here but not in the Editor variant |
| ScriptingPlayModeLogs.FilterLogsExact | ScriptingTools/Coordination/Scripts/test_playmode_logs.py:277-285 | the filter step keeps, in order, exactly the entries it is meant to keep: error level and compilation error, error level, the exact level, or all |
| ScriptingPlayModeLogs.FilterLogsMembers | ScriptingTools/Coordination/Scripts/test_playmode_logs.py:277-285 | an entry survives the filter iff it was in the input and its filter keeps it |
| ScriptingPlayModeLogs.ShownSorted | ScriptingTools/Coordination/Scripts/test_playmode_logs.py:275-289 | the displayed entries are in timestamp order |
| ScriptingPlayModeLogs.ShownMembers | ScriptingTools/Coordination/Scripts/test_playmode_logs.py:275-289 | each displayed entry comes from a file and passes the filter; with a limit N > 0 at most N are shown; without one, exactly those that pass are shown |
| ScriptingPlayModeLogs.ShowLogs | ScriptingTools/Coordination/Scripts/test_playmode_logs.py:275-322 | the shown entries are the pipeline's, displayed unfiltered, with each level counted and the counts adding up to the number shown |
| EditModeLogs.BlankAndRuleLinesSkipped | Editor/Coordination/Scripts/monitor_editmode_logs.py:21-22 | blank lines and lines starting with '=' give nothing |
| EditModeLogs.HeaderRoundTrip | Editor/Coordination/Scripts/monitor_editmode_logs.py:25-41 | `[ts] [level] message` with no ']' in ts or level and a non-empty level parses into ts, the stripped level and the message |
| EditModeLogs.EmptyLevelSkipped | Editor/Coordination/Scripts/monitor_editmode_logs.py:32-49 | a header with an empty level column gives nothing |
| EditModeLogs.IndentedContinues | Editor/Coordination/Scripts/monitor_editmode_logs.py:45-47 | a non-blank line starting with four spaces that is not a header is a continuation with its text stripped |
| EditModeLogs.HeaderShape | Editor/Coordination/Scripts/monitor_editmode_logs.py:25-35 | a header comes from a line that starts '[' and contains "] [", has a stripped level, and its message is a suffix of the line |
| EditModeLogs.HeaderLineIndices | Editor/Coordination/Scripts/monitor_editmode_logs.py:81-85 | the loop collects the positions of the header lines, in increasing order |
| EditModeLogs.GroupLines | Editor/Coordination/Scripts/monitor_editmode_logs.py:91-107 | the grouping loop yields one entry per header, with its continuation lines |
| EditModeLogs.TailKeepsLastHeaders | Editor/Coordination/Scripts/monitor_editmode_logs.py:79-89 | tailing by N > 0 keeps min(N, headers) headers, and the headers of the file are those before the start followed by the ones kept, so the ones kept are the last headers, in order |
| EditModeLogs.ReadSessionLogs | Editor/Coordination/Scripts/monitor_editmode_logs.py:69-117 | the method returns the tailed, grouped and level-filtered entries of the session file |
| EditModeLogs.GroupCount | Editor/Coordination/Scripts/monitor_editmode_logs.py:91-107 | grouping yields exactly one entry per header line |
| EditModeLogs.TailAtMost | Editor/Coordination/Scripts/monitor_editmode_logs.py:79-89 | with tail N > 0 at most N entries come out, and exactly N when there are more than N headers and no level filter |
| EditModeLogs.ContinuationsBeforeFirstHeaderDropped | Editor/Coordination/Scripts/monitor_editmode_logs.py:101-103 | lines before the first header contribute nothing |
| EditModeLogs.ContinuationsAttach | Editor/Coordination/Scripts/monitor_editmode_logs.py:101-103 | continuation lines after an entry extend its stack trace, in order |
| EditModeLogs.HeaderCollectsContinuations | Editor/Coordination/Scripts/monitor_editmode_logs.py:91-107 | a header followed by non-header lines yields one entry carrying their continuation texts |
| EditModeLogs.LevelFilterAfterTail | Editor/Coordination/Scripts/monitor_editmode_logs.py:112-115 | an entry passes iff it is among the tailed entries and its level matches a listed level ignoring case (or no levels are listed) |
| EditModeLogs.ErrorsCommand | Editor/Coordination/Scripts/monitor_editmode_logs.py:328-342 | the loop over the three most recent sessions gathers the tagged error entries, sorts them by timestamp and keeps the last N |
| EditModeLogs.ErrorsSorted | Editor/Coordination/Scripts/monitor_editmode_logs.py:338-342 | the errors are in timestamp order, and at most N with N > 0 |
| EditModeLogs.GatheredMembers | Editor/Coordination/Scripts/monitor_editmode_logs.py:328-335 | an entry is gathered iff it is an error-level entry of one of the first three sessions, tagged with its id |
| EditModeLogs.ErrorsMembers | Editor/Coordination/Scripts/monitor_editmode_logs.py:328-342 | every error shown is gathered and has an error level; without a limit, exactly the gathered entries are shown |
| EditModeLogs.OlderSessionsIgnored | Editor/Coordination/Scripts/monitor_editmode_logs.py:328 | sessions after the third do not change the result |
| DbAutoMaintenance.LatestVersion | Editor/Coordination/Scripts/db_auto_maintenance.py:34-51 | 0 when the table is missing, empty or unreadable; otherwise a version the table holds |
| DbAutoMaintenance.RecordReplaces | Editor/Coordination/Scripts/db_auto_maintenance.py:53-72 | recording adds the version to the version set, keeps every row of other versions, leaves one row for the version with the new description, keeps versions unique, and makes it the latest |
| DbAutoMaintenance.RecordIdempotent | Editor/Coordination/Scripts/db_auto_maintenance.py:66-70 | recording the same version and description twice is the same as once |
| DbAutoMaintenance.FilterUnique | Editor/Coordination/Scripts/db_auto_maintenance.py:66-70 | dropping rows keeps the versions unique |
| DbAutoMaintenance.WalkAttempts | Editor/Coordination/Scripts/db_auto_maintenance.py:285-306 | the loop attempts a prefix of the migrations above the start version, in list order, and all of them when no migration fails |
| DbAutoMaintenance.WalkOutcomes | Editor/Coordination/Scripts/db_auto_maintenance.py:294-306 | a stop follows exactly one failed attempt, the last; the applied count is the number of successful attempts, which all come first |
| DbAutoMaintenance.StoppedStays | Editor/Coordination/Scripts/db_auto_maintenance.py:299-306 | after the first failure no later migration changes anything |
| DbAutoMaintenance.WalkVersions | Editor/Coordination/Scripts/db_auto_maintenance.py:294-298 | the recorded versions are the initial ones plus the versions that succeeded |
| DbAutoMaintenance.WalkLatest | Editor/Coordination/Scripts/db_auto_maintenance.py:294-298 | with nothing applied the table is unchanged; otherwise the latest version is the last one applied |
| DbAutoMaintenance.WalkUnique | Editor/Coordination/Scripts/db_auto_maintenance.py:294-298 | applying migrations keeps the versions unique |
| DbAutoMaintenance.MigrationsAbove | Editor/Coordination/Scripts/db_auto_maintenance.py:277-287 | the migrations attempted from a start version are those of 1 to 4 above it, in order |
| DbAutoMaintenance.MaintenanceAttempts | Editor/Coordination/Scripts/db_auto_maintenance.py:252-306 | a missing database succeeds without attempting anything and without a change; otherwise the attempts are a prefix of the migrations above the stored version, strictly increasing |
| DbAutoMaintenance.MaintenanceOutcomes | Editor/Coordination/Scripts/db_auto_maintenance.py:294-318 | an attempted migration succeeded iff it is among the first `applied`; VACUUM runs iff at least one migration was applied |
| DbAutoMaintenance.MaintenanceTable | Editor/Coordination/Scripts/db_auto_maintenance.py:285-306 | the versions after the run are the old ones plus those that succeeded; with nothing applied the table is unchanged; otherwise the latest version is the last applied; unique versions stay unique |
| DbAutoMaintenance.Database.constructor | Editor/Coordination/Scripts/db_auto_maintenance.py:252-264 | the database holds the given presence and schema table |
| DbAutoMaintenance.Database.SchemaVersion | Editor/Coordination/Scripts/db_auto_maintenance.py:34-51 | as `LatestVersion`, over the database's own table |
| DbAutoMaintenance.Database.SetSchemaVersion | Editor/Coordination/Scripts/db_auto_maintenance.py:53-72 | the table becomes the recorded table; nothing else changes |
| DbAutoMaintenance.Database.RunMaintenance | Editor/Coordination/Scripts/db_auto_maintenance.py:252-341 | the loop returns the report and leaves the table that the run definition gives for the old state |

## Left out

- SQLite itself is not modelled: connections, pragmas, SQL text, commit and
  rollback. Each table is an in-memory map or sequence with the semantics of
  the queries the code runs. Rolled-back transactions are modelled as leaving
  the table unchanged.
- The DDL-only scripts are not part of this model, because they hold no logic
  beyond "skip if the table exists". This covers db_initializer.py,
  db_migrate.py, db_update_status_constraint.py, the add_*_table.py scripts
  and mark_errors_stale.py.
- Wall-clock time is an injected clock in milliseconds, and `time.sleep` is
  only the gap between two readings of it. `CURRENT_TIMESTAMP` order is
  modelled as row order.
- DbAutoMaintenance.LatestVersion: the row order stands for `ORDER BY
  applied_at DESC`. `CURRENT_TIMESTAMP` has one-second resolution, so two
  versions recorded in the same second tie, and SQLite's `LIMIT 1` may then
  return either one. The model always returns the one recorded last.
- A batch id is the text `stamp`, which the caller passes in for the instant
  `now`. It is not derived from the clock by `strftime`.
- The infinite monitor loops are not modelled; only the single steps they
  repeat are. These are `EditorLogMonitor.monitor`, `monitor_live` and the
  live-tail readers.
- Filesystem access is left out: globbing, `stat`, modification-time
  ordering and file reading. The parsers get the lines of a file as a
  sequence of strings. The session lists are given already in the order the
  code sorts them into; export files are sorted by modification time in the
  model (`SceneHierarchy.MostRecentFirst`). Text decoding is part of the
  left-out reading. The Editor copy of test_playmode_logs.py opens its files
  with `errors='replace'`. The ScriptingTools copy does not, so there a
  decode error ends the parse with the entries read so far.
- The md5 digest of `get_hash` is replaced by the tuple it digests. As a
  result, two different keys never collide in the model.
- JSON is modelled only for a list of path strings, and only `"` and `\` are
  escaped. `json.dumps` escapes control and non-ASCII characters too, and
  those are not modelled.
- AssetRefresh.DecodePaths accepts only the text `json.dumps` writes for a
  list of strings: `", "` between items, no other whitespace, and only the
  `\"` and `\\` escapes. Other JSON that `json.loads` accepts, such as
  `["a","b"]`, other whitespace or other escapes, is read as a
  JSONDecodeError. Every row this client writes reads back
  (`AssetRefresh.SubmittedPathsReadBack`); rows written by other tools may
  fail in the model where the source decodes them.
- EditorLogMonitor.ReadLines splits only on `'\n'` and counts the read
  position in characters. Python's `readlines()` in text mode also ends lines
  at `'\r'` and `'\r\n'`, and `tell()` gives an opaque offset, which is a byte
  count for UTF-8 files. A log with carriage returns or non-ASCII text is
  therefore split and positioned differently.
- Printing, ANSI colour codes, emoji and argparse are left out. The options
  a command reads are a record of values.
- Python regexes and case folding are modelled for ASCII only: `\d`, `\w`,
  `\b`, `re.IGNORECASE` and `str.lower()`.
- Search highlighting is modelled only up to the escape sequences it inserts
  (`Mark`).
- In the migrations of `run_maintenance`, each migration body is an opaque
  `succeeds(version)`. The SQL those bodies run is not modelled. The final
  statistics query is left out. Of the outer `except`, only the connection
  failure is modelled.
- `CompilationErrorParser.extract_file_reference`,
  `CompilationError.to_dict` and the `detected_at` clock reading of each
  error are left out. No modelled operation uses their results beyond
  storing them; storage time is the `now` of the call.
- `read_session_logs` mutates its local dictionaries while a line's parse is
  still held. This is modelled on values, since nothing else holds those
  dictionaries.
- `monitor_editmode_logs.py`: the `sessions` listing is left out, and so is
  the choice of session made by `show <session_id>` (a lookup by id) and by
  `recent` (`session_files[0]`). These are filesystem lookups; the modelled
  operations take the chosen session's lines or the session list.
- `monitor_editmode_logs.py` `main`: the argument defaults are not modelled.
  These are the no-command path, which runs `recent` with `lines = 50` and
  overrides both `-n` and `--no-limit`; the `errors` subcommand's default of
  20; and the top-level `--errors`, whose limit is `None`. The modelled
  operations take the line or error limit as a parameter.
- Unity's executor is not modelled as code. It is the
  `RequestQueue.ExecutorAction` environment step, which rewrites only the
  fields the executor owns and may delete rows.
- CompilationErrorParser.ParsedLinesFlagged: the generic warning form is
  excluded, because no indicator of `is_compilation_error_line` covers it.
- DbAutoMaintenance.Database.SchemaVersion: it states a version in the table
  or 0, and not which one. The member it reads, `LatestVersion`, is the last
  row.
