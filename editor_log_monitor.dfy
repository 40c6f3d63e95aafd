/**
 * The Editor.log monitor: each call of `process_new_content` reads what
 * was appended to the log since the last call, recognises compilation
 * errors and refresh markers line by line, groups errors into batches by
 * time, and stores each error of a batch once in compilation_errors.
 *
 * The log is a text whose positions are character offsets; the file size
 * is its length. Within one call every clock reading is the same instant
 * `now` (milliseconds), and `stamp` is that instant formatted as a batch
 * id (`%Y%m%d_%H%M%S`).
 */
module EditorLogMonitor {
  import opened Wrappers
  import opened PyStr
  import opened UnityPatterns

  /** A compilation error as the monitor reads it from one log line. */
  datatype CompilationError = CompilationError(
    fullText: string,
    filePath: string,
    line: nat,
    column: nat,
    errorCode: string,
    errorMessage: string)

  /**
   * `CompilationError._parse`: the parts of `file(l,c): error CSn: msg`
   * when the whole line has that form; otherwise the message is the whole
   * line and the other fields keep their defaults.
   */
  function ParseError(fullText: string): (e: CompilationError)
    ensures e.fullText == fullText
    ensures e.filePath != [] <==> MatchLocated(fullText, true, false).Some?
    ensures e.filePath == [] ==> e == CompilationError(fullText, "", 0, 0, "", fullText)
    ensures e.filePath != [] ==>
      StartsWith(fullText, e.filePath) && |e.errorCode| > 2 && e.errorCode[..2] == "CS" && AllDigits(e.errorCode[2..])
      && e.errorMessage != [] && NoNewline(e.errorMessage)
  {
    match MatchLocated(fullText, true, false)
    case Some((k, loc)) =>
      assert StartsWith(fullText, fullText[..k]);
      CompilationError(fullText, fullText[..k], loc.line, loc.column, loc.code, loc.message)
    case None => CompilationError(fullText, "", 0, 0, "", fullText)
  }

  /** A line Unity writes for an error reads back into its parts. */
  lemma ParseErrorRoundTrip(path: string, line: nat, column: nat, digits: string, message: string)
    requires path != [] && NoNewline(path)
    requires forall i :: 0 <= i < |path| ==> path[i] != '('
    requires digits != [] && AllDigits(digits)
    requires message != [] && NoNewline(message)
    ensures var text := LocatedLine(path, line, column, "error", digits, message);
      ParseError(text) == CompilationError(text, path, line, column, "CS" + digits, message)
  {
    var text := LocatedLine(path, line, column, "error", digits, message);
    MatchLocatedRendered(path, line, column, "error", digits, message, false);
    assert text[..|path|] == path;
  }

  /** What `get_hash` digests: the error's file, line, column and code. */
  datatype ErrorKey = ErrorKey(filePath: string, line: nat, column: nat, errorCode: string)

  function Key(e: CompilationError): ErrorKey {
    ErrorKey(e.filePath, e.line, e.column, e.errorCode)
  }

  /** Every line that is not in the full form has the same key, so only one of them is kept per batch. */
  lemma UnparsedErrorsShareKey(a: string, b: string)
    requires MatchLocated(a, true, false).None? && MatchLocated(b, true, false).None?
    ensures Key(ParseError(a)) == Key(ParseError(b)) == ErrorKey("", 0, 0, "")
  {
  }

  /** `_is_refresh_marker`: the texts that announce a new compilation. */
  const Markers: seq<string> := [
    "Refresh: detecting if any assets need to be imported",
    "Reloading assemblies",
    "Starting recompilation",
    "Compiling editor scripts",
    "- Starting script compilation"
  ]

  predicate IsRefreshMarker(line: string) {
    ContainsAny(line, Markers)
  }

  /**
   * `_is_compilation_error`: `.*\(\d+,\d+\): error CS\d+:`, then
   * `.*\(\d+,\d+\): error.*`, then a line starting "Compilation failed:".
   */
  predicate IsCompilationError(line: string) {
    LocErrorCodeAfterPrefix(line) || LocErrorAfterPrefix(line) || StartsWith(line, "Compilation failed:")
  }

  /** The first pattern adds nothing: a line is an error iff it has `(l,c): error` in its first line or starts "Compilation failed:". */
  lemma IsCompilationErrorIff(line: string)
    ensures IsCompilationError(line) <==> LocErrorAfterPrefix(line) || StartsWith(line, "Compilation failed:")
  {
    if LocErrorCodeAfterPrefix(line) {
      var i :| 0 <= i <= LineLen(line) && LocErrorCodeAt(line[i..]);
      LocErrorCodeIsLocError(line[i..]);
    }
  }

  /** Every line that parses into a full error is also recognised as one. */
  lemma ParsedErrorsAreRecognised(line: string)
    requires ParseError(line).filePath != []
    ensures IsCompilationError(line)
  {
    var (k, _) := MatchLocated(line, true, false).value;
    LocTailIsLocError(line[k..]);
  }

  /** `timedelta.seconds` of a difference of `d` milliseconds: whole seconds, modulo one day. */
  function DeltaSeconds(d: int): (r: nat)
    ensures r < 86400
  {
    (d / 1000) % 86400
  }

  /** `self.last_error_time and (current_time - self.last_error_time).seconds <= 5`. */
  predicate InBatchWindow(lastErrorTime: Option<int>, now: int) {
    lastErrorTime.Some? && DeltaSeconds(now - lastErrorTime.value) <= 5
  }

  /** Two readings of the same instant are always within the window. */
  lemma WindowAtSameInstant(now: int)
    ensures InBatchWindow(Some(now), now)
  {
    assert now - now == 0;
    assert DeltaSeconds(0) == 0;
  }

  /** For gaps between zero and one day, the window is the next six seconds (5.999 s still counts). */
  lemma BatchWindowForward(last: int, now: int)
    requires 0 <= now - last < 86400000
    ensures InBatchWindow(Some(last), now) <==> now - last < 6000
  {
    var d := now - last;
    assert d / 1000 < 86400;
    assert DeltaSeconds(d) == d / 1000;
  }

  /** `timedelta.seconds` drops whole days: an error a whole day later still joins the batch. */
  lemma BatchWindowWrapsDaily(last: int, now: int)
    requires now - last == 86400000
    ensures InBatchWindow(Some(last), now)
  {
    assert (now - last) / 1000 == 86400;
  }

  /** A row of compilation_errors. */
  datatype StoredError = StoredError(error: CompilationError, detectedAt: int, batchId: Option<string>, isStale: bool)

  /** `_mark_old_errors_stale`: the UPDATE that marks rows detected before `cutoff` stale. */
  function MarkStale(rows: seq<StoredError>, cutoff: int): (r: seq<StoredError>)
    ensures |r| == |rows|
  {
    if rows == [] then []
    else [rows[0].(isStale := rows[0].isStale || rows[0].detectedAt < cutoff)] + MarkStale(rows[1..], cutoff)
  }

  /** Every row detected before the cutoff is stale afterwards; nothing else about any row changes. */
  lemma {:induction false} MarkStaleAt(rows: seq<StoredError>, cutoff: int, i: nat)
    requires i < |rows|
    ensures var r := MarkStale(rows, cutoff);
      r[i].error == rows[i].error && r[i].detectedAt == rows[i].detectedAt && r[i].batchId == rows[i].batchId
      && (r[i].isStale <==> rows[i].isStale || rows[i].detectedAt < cutoff)
  {
    if i > 0 {
      MarkStaleAt(rows[1..], cutoff, i - 1);
    }
  }

  /** An error found in the line loop, with the batch id it was given. */
  datatype Found = Found(error: CompilationError, batchId: Option<string>)

  /** What the line loop carries from one line to the next. */
  datatype Scan = Scan(
    seen: set<ErrorKey>,
    batch: Option<string>,
    lastErrorTime: Option<int>,
    stored: seq<StoredError>,
    found: seq<Found>)

  /** A blank line is neither a refresh marker nor an error. */
  lemma BlankLineIsNeither(t: string)
    requires t == []
    ensures !IsRefreshMarker(t) && !IsCompilationError(t)
  {
    forall m | 0 <= m < |Markers| ensures !Contains(t, Markers[m]) {
      assert |Markers[m]| > 0;
    }
    assert LineLen(t) == 0 && t[0..] == t;
    assert Paren(t, true).None?;
  }

  /** What the line loop makes of one line read. */
  datatype LineKind = Skipped | Refresh | Reported(error: CompilationError)

  /**
   * The tests of the line loop on the stripped line: blank lines are
   * skipped, refresh markers come first, then compilation errors, which
   * are parsed; any other line is skipped.
   */
  function Classify(raw: string): (k: LineKind)
    ensures k == Refresh <==> IsRefreshMarker(Strip(raw))
    ensures k.Reported? <==> !IsRefreshMarker(Strip(raw)) && IsCompilationError(Strip(raw))
    ensures k.Reported? ==> k.error == ParseError(Strip(raw))
  {
    var t := Strip(raw);
    if t == [] then
      BlankLineIsNeither(t);
      Skipped
    else if IsRefreshMarker(t) then Refresh
    else if IsCompilationError(t) then Reported(ParseError(t))
    else Skipped
  }

  /** The kinds of the lines read, in order. */
  function Kinds(lines: seq<string>): (r: seq<LineKind>)
    ensures |r| == |lines| && forall j :: 0 <= j < |lines| ==> r[j] == Classify(lines[j])
  {
    seq(|lines|, j requires 0 <= j < |lines| => Classify(lines[j]))
  }

  /**
   * One iteration of the line loop of `process_new_content`: a refresh
   * marker marks older rows stale and clears the seen keys and the batch;
   * an error joins the running batch when the last error is recent enough,
   * otherwise starts a new batch and clears the seen keys; either way it is
   * collected and its time kept.
   */
  function ScanLine(sc: Scan, kind: LineKind, now: int, stamp: string): Scan {
    match kind
    case Skipped => sc
    case Refresh => sc.(stored := MarkStale(sc.stored, now - 1000), seen := {}, batch := None)
    case Reported(e) =>
      if InBatchWindow(sc.lastErrorTime, now) then
        sc.(lastErrorTime := Some(now), found := sc.found + [Found(e, sc.batch)])
      else
        sc.(batch := Some(stamp), seen := {}, lastErrorTime := Some(now), found := sc.found + [Found(e, Some(stamp))])
  }

  /** The line loop over the kinds of the lines read. */
  function ScanLines(sc: Scan, kinds: seq<LineKind>, now: int, stamp: string): (r: Scan)
    ensures |r.stored| == |sc.stored|
  {
    if kinds == [] then sc
    else ScanLine(ScanLines(sc, kinds[..|kinds| - 1], now, stamp), kinds[|kinds| - 1], now, stamp)
  }

  /** `_store_error`: a row for the error unless its key was already seen; the key is seen afterwards. */
  function StoreStep(seen: set<ErrorKey>, stored: seq<StoredError>, f: Found, now: int): (set<ErrorKey>, seq<StoredError>) {
    if Key(f.error) in seen then (seen, stored)
    else (seen + {Key(f.error)}, stored + [StoredError(f.error, now, f.batchId, false)])
  }

  /** The store loop after the line loop. */
  function StoreAll(seen: set<ErrorKey>, stored: seq<StoredError>, found: seq<Found>, now: int): (r: (set<ErrorKey>, seq<StoredError>))
    ensures |stored| <= |r.1| <= |stored| + |found|
  {
    if found == [] then (seen, stored)
    else
      var (s, r) := StoreAll(seen, stored, found[..|found| - 1], now);
      StoreStep(s, r, found[|found| - 1], now)
  }

  /** `f.readlines()`: the text cut after every line feed; a last piece without one is a line too. */
  function ReadLines(s: string): seq<string>
    decreases |s|
  {
    if s == [] then []
    else
      var n := LineLen(s);
      if n == |s| then [s] else [s[..n + 1]] + ReadLines(s[n + 1..])
  }

  function Concat(lines: seq<string>): string {
    if lines == [] then "" else lines[0] + Concat(lines[1..])
  }

  lemma ConcatCons(line: string, lines: seq<string>)
    ensures Concat([line] + lines) == line + Concat(lines)
  {
    assert ([line] + lines)[1..] == lines;
  }

  /** The lines read give back the text read. */
  lemma {:induction false} ReadLinesConcat(s: string)
    ensures Concat(ReadLines(s)) == s
    decreases |s|
  {
    if s != [] {
      var n := LineLen(s);
      if n < |s| {
        var rest := s[n + 1..];
        ReadLinesConcat(rest);
        assert ReadLines(s) == [s[..n + 1]] + ReadLines(rest);
        SplitAt(s, n + 1);
        ConcatCons(s[..n + 1], ReadLines(rest));
      } else {
        assert ReadLines(s) == [s] + [];
        ConcatCons(s, []);
      }
    }
  }

  lemma SplitAt(s: string, k: nat)
    requires k <= |s|
    ensures s == s[..k] + s[k..]
  {
  }

  /** Every line read is non-empty, and every line but the last ends with its line feed. */
  lemma {:induction false} ReadLinesShape(s: string, i: nat)
    requires i < |ReadLines(s)|
    ensures ReadLines(s)[i] != []
    ensures i < |ReadLines(s)| - 1 ==> ReadLines(s)[i][|ReadLines(s)[i]| - 1] == '\n'
  {
    var n := LineLen(s);
    if n < |s| && i > 0 {
      var rest := s[n + 1..];
      assert ReadLines(s)[i] == ReadLines(rest)[i - 1];
      ReadLinesShape(rest, i - 1);
    }
  }

  /** The monitor's fields and the rows it writes. */
  datatype MonitorState = MonitorState(
    lastPosition: nat,
    seen: set<ErrorKey>,
    currentBatchId: Option<string>,
    lastErrorTime: Option<int>,
    stored: seq<StoredError>,
    savedPosition: Option<nat>)

  /** One call of `process_new_content` on a log whose current text is `log`. */
  function Process(s: MonitorState, log: string, now: int, stamp: string): (r: MonitorState)
    ensures r.lastPosition == |log|
    ensures r.savedPosition == if |log| == 0 || |log| == s.lastPosition then s.savedPosition else Some(|log|)
    ensures |s.stored| <= |r.stored|
  {
    var s1 := if |log| < s.lastPosition then s.(lastPosition := 0, seen := {}) else s;
    if |log| == s1.lastPosition then s1
    else ScanAndStore(s1, Kinds(ReadLines(log[s1.lastPosition..])), |log|, now, stamp)
  }

  /** The line loop over the new lines, then the store loop, then the new position `size` is saved. */
  function ScanAndStore(s: MonitorState, kinds: seq<LineKind>, size: nat, now: int, stamp: string): (r: MonitorState)
    ensures r.lastPosition == size && r.savedPosition == Some(size)
    ensures |s.stored| <= |r.stored|
  {
    var sc := ScanLines(Scan(s.seen, s.currentBatchId, s.lastErrorTime, s.stored, []), kinds, now, stamp);
    var (seen, stored) := StoreAll(sc.seen, sc.stored, sc.found, now);
    MonitorState(size, seen, sc.batch, sc.lastErrorTime, stored, Some(size))
  }

  class Monitor {
    var lastPosition: nat
    var seenErrors: set<ErrorKey>
    var currentBatchId: Option<string>
    var lastErrorTime: Option<int>
    /** The compilation_errors table. */
    var errors: seq<StoredError>
    /** The 'last_position' entry of monitor_state. */
    var savedPosition: Option<nat>

    function State(): MonitorState
      reads this
    {
      MonitorState(lastPosition, seenErrors, currentBatchId, lastErrorTime, errors, savedPosition)
    }

    /**
     * `__init__` with `_load_state`: the saved position if there is one,
     * otherwise the current end of the log, which is then saved.
     */
    constructor (saved: Option<nat>, logSize: nat, table: seq<StoredError>)
      ensures lastPosition == (if saved.Some? then saved.value else logSize)
      ensures savedPosition == Some(lastPosition)
      ensures seenErrors == {} && currentBatchId.None? && lastErrorTime.None? && errors == table
    {
      lastPosition := if saved.Some? then saved.value else logSize;
      savedPosition := Some(lastPosition);
      seenErrors := {};
      currentBatchId := None;
      lastErrorTime := None;
      errors := table;
    }

    /** `_mark_old_errors_stale` at the instant `now`. */
    method MarkOldErrorsStale(now: int)
      modifies this
      ensures errors == MarkStale(old(errors), now - 1000)
      ensures lastPosition == old(lastPosition) && seenErrors == old(seenErrors)
      ensures currentBatchId == old(currentBatchId) && lastErrorTime == old(lastErrorTime)
      ensures savedPosition == old(savedPosition)
    {
      errors := MarkStale(errors, now - 1000);
    }

    /** `_store_error`: insert unless the key was seen in this batch; the key is seen afterwards. */
    method StoreError(f: Found, now: int)
      modifies this
      ensures seenErrors == old(seenErrors) + {Key(f.error)}
      ensures errors == if Key(f.error) in old(seenErrors) then old(errors)
                        else old(errors) + [StoredError(f.error, now, f.batchId, false)]
      ensures lastPosition == old(lastPosition) && currentBatchId == old(currentBatchId)
      ensures lastErrorTime == old(lastErrorTime) && savedPosition == old(savedPosition)
    {
      var key := Key(f.error);
      if key in seenErrors {
        return;
      }
      seenErrors := seenErrors + {key};
      errors := errors + [StoredError(f.error, now, f.batchId, false)];
    }

    /** The line loop: markers and errors update the fields; errors are collected, not yet stored. */
    method ScanNewLines(lines: seq<string>, now: int, stamp: string) returns (found: seq<Found>)
      modifies this
      ensures var sc := ScanLines(Scan(old(seenErrors), old(currentBatchId), old(lastErrorTime), old(errors), []), Kinds(lines), now, stamp);
        seenErrors == sc.seen && currentBatchId == sc.batch && lastErrorTime == sc.lastErrorTime
        && errors == sc.stored && found == sc.found
      ensures lastPosition == old(lastPosition) && savedPosition == old(savedPosition)
    {
      ghost var start := Scan(seenErrors, currentBatchId, lastErrorTime, errors, []);
      ghost var kinds := Kinds(lines);
      found := [];
      var i := 0;
      while i < |lines|
        invariant 0 <= i <= |lines|
        invariant Scan(seenErrors, currentBatchId, lastErrorTime, errors, found) == ScanLines(start, kinds[..i], now, stamp)
        invariant lastPosition == old(lastPosition) && savedPosition == old(savedPosition)
      {
        ScanLinesStep(start, kinds, i, now, stamp);
        found := ScanOneLine(lines[i], now, stamp, found);
        i := i + 1;
      }
      assert kinds[..|lines|] == kinds;
    }

    /** One iteration of the line loop. */
    method ScanOneLine(raw: string, now: int, stamp: string, found0: seq<Found>) returns (found: seq<Found>)
      modifies this
      ensures Scan(seenErrors, currentBatchId, lastErrorTime, errors, found)
           == ScanLine(Scan(old(seenErrors), old(currentBatchId), old(lastErrorTime), old(errors), found0), Classify(raw), now, stamp)
      ensures lastPosition == old(lastPosition) && savedPosition == old(savedPosition)
    {
      found := found0;
      var line := Strip(raw);
      if line == [] {
      } else if IsRefreshMarker(line) {
        MarkOldErrorsStale(now);
        seenErrors := {};
        currentBatchId := None;
      } else if IsCompilationError(line) {
        var error := ParseError(line);
        var batchId;
        if InBatchWindow(lastErrorTime, now) {
          batchId := currentBatchId;
        } else {
          currentBatchId := Some(stamp);
          batchId := currentBatchId;
          seenErrors := {};
        }
        lastErrorTime := Some(now);
        found := found + [Found(error, batchId)];
      }
    }

    /** The store loop: each collected error through `_store_error`, in order. */
    method StoreFound(found: seq<Found>, now: int)
      modifies this
      ensures (seenErrors, errors) == StoreAll(old(seenErrors), old(errors), found, now)
      ensures lastPosition == old(lastPosition) && currentBatchId == old(currentBatchId)
      ensures lastErrorTime == old(lastErrorTime) && savedPosition == old(savedPosition)
    {
      var i := 0;
      while i < |found|
        invariant 0 <= i <= |found|
        invariant (seenErrors, errors) == StoreAll(old(seenErrors), old(errors), found[..i], now)
        invariant lastPosition == old(lastPosition) && currentBatchId == old(currentBatchId)
        invariant lastErrorTime == old(lastErrorTime) && savedPosition == old(savedPosition)
      {
        ghost var pre := StoreAll(old(seenErrors), old(errors), found[..i], now);
        StoreAllStep(old(seenErrors), old(errors), found, i, now);
        StoreError(found[i], now);
        ghost var post := StoreStep(pre.0, pre.1, found[i], now);
        assert seenErrors == post.0 && errors == post.1;
        i := i + 1;
      }
      assert found[..|found|] == found;
    }

    /**
     * `process_new_content` on a log whose current text is `log`: reset
     * after a truncation, nothing more when no text was appended;
     * otherwise read the new lines, scan them, store the errors found and
     * save the new position.
     */
    method ProcessNewContent(log: string, now: int, stamp: string)
      modifies this
      ensures State() == Process(old(State()), log, now, stamp)
    {
      var currentSize := |log|;
      if currentSize < lastPosition {
        lastPosition := 0;
        seenErrors := {};
      }
      if currentSize == lastPosition {
        return;
      }
      var newLines := ReadLines(log[lastPosition..]);
      lastPosition := currentSize;
      var found := ScanNewLines(newLines, now, stamp);
      StoreFound(found, now);
      savedPosition := Some(lastPosition);
    }
  }

  lemma ScanLinesStep(start: Scan, kinds: seq<LineKind>, i: nat, now: int, stamp: string)
    requires i < |kinds|
    ensures ScanLines(start, kinds[..i + 1], now, stamp) == ScanLine(ScanLines(start, kinds[..i], now, stamp), kinds[i], now, stamp)
  {
    assert kinds[..i + 1][..i] == kinds[..i];
  }

  lemma StoreAllStep(seen: set<ErrorKey>, stored: seq<StoredError>, found: seq<Found>, i: nat, now: int)
    requires i < |found|
    ensures StoreAll(seen, stored, found[..i + 1], now)
         == StoreStep(StoreAll(seen, stored, found[..i], now).0, StoreAll(seen, stored, found[..i], now).1, found[i], now)
  {
    assert found[..i + 1][..i] == found[..i];
  }

  /** The keys of the errors found. */
  function FoundKeys(found: seq<Found>): set<ErrorKey> {
    set i | 0 <= i < |found| :: Key(found[i].error)
  }

  /** The keys of some rows. */
  function RowKeys(rows: seq<StoredError>): set<ErrorKey> {
    set i | 0 <= i < |rows| :: Key(rows[i].error)
  }

  predicate DistinctKeys(rows: seq<StoredError>) {
    forall i, j :: 0 <= i < j < |rows| ==> Key(rows[i].error) != Key(rows[j].error)
  }

  lemma FoundKeysSnoc(found: seq<Found>, f: Found)
    ensures FoundKeys(found + [f]) == FoundKeys(found) + {Key(f.error)}
  {
    var g := found + [f];
    assert Key(g[|found|].error) in FoundKeys(g);
    forall k | k in FoundKeys(g) ensures k in FoundKeys(found) + {Key(f.error)} {
      var i :| 0 <= i < |g| && Key(g[i].error) == k;
      if i < |found| {
        assert g[i] == found[i];
      }
    }
    forall k | k in FoundKeys(found) ensures k in FoundKeys(g) {
      var i :| 0 <= i < |found| && Key(found[i].error) == k;
      assert g[i] == found[i];
    }
  }

  lemma RowKeysSnoc(rows: seq<StoredError>, row: StoredError)
    ensures RowKeys(rows + [row]) == RowKeys(rows) + {Key(row.error)}
  {
    var g := rows + [row];
    assert Key(g[|rows|].error) in RowKeys(g);
    forall k | k in RowKeys(g) ensures k in RowKeys(rows) + {Key(row.error)} {
      var i :| 0 <= i < |g| && Key(g[i].error) == k;
      if i < |rows| {
        assert g[i] == rows[i];
      }
    }
    forall k | k in RowKeys(rows) ensures k in RowKeys(g) {
      var i :| 0 <= i < |rows| && Key(rows[i].error) == k;
      assert g[i] == rows[i];
    }
  }

  /**
   * The store loop keeps each error once: the keys seen afterwards are
   * those seen before and those found; the rows it appends are fresh,
   * detected now, have pairwise different keys, and their keys are exactly
   * the keys found that had not been seen.
   */
  lemma {:induction false} StoreAllStoresOnce(seen: set<ErrorKey>, stored: seq<StoredError>, found: seq<Found>, now: int)
    ensures var (seen', stored') := StoreAll(seen, stored, found, now);
      seen' == seen + FoundKeys(found)
      && stored'[..|stored|] == stored
      && RowKeys(stored'[|stored|..]) == FoundKeys(found) - seen
      && DistinctKeys(stored'[|stored|..])
      && forall i :: |stored| <= i < |stored'| ==> stored'[i].detectedAt == now && !stored'[i].isStale
  {
    if found == [] {
      assert stored[|stored|..] == [];
    } else {
      var pre := found[..|found| - 1];
      var f := found[|found| - 1];
      assert found == pre + [f];
      FoundKeysSnoc(pre, f);
      StoreAllStoresOnce(seen, stored, pre, now);
      var (s, r) := StoreAll(seen, stored, pre, now);
      var added := r[|stored|..];
      if Key(f.error) !in s {
        var row := StoredError(f.error, now, f.batchId, false);
        assert (r + [row])[|stored|..] == added + [row];
        assert (r + [row])[..|stored|] == r[..|stored|];
        RowKeysSnoc(added, row);
        assert Key(row.error) !in RowKeys(added);
        forall i, j | 0 <= i < j < |added + [row]|
          ensures Key((added + [row])[i].error) != Key((added + [row])[j].error)
        {
          if j == |added| {
            assert Key(added[i].error) in RowKeys(added);
          }
        }
      }
    }
  }

  /** The errors among the kinds of the lines read, in order. */
  function ReportedErrors(kinds: seq<LineKind>): (r: seq<CompilationError>)
    ensures |r| <= |kinds|
  {
    if kinds == [] then []
    else
      var last := kinds[|kinds| - 1];
      ReportedErrors(kinds[..|kinds| - 1]) + (if last.Reported? then [last.error] else [])
  }

  /**
   * The line loop collects exactly the errors reported by the lines, in
   * the order of the lines, after those already collected.
   */
  lemma {:induction false} ScanLinesFound(sc: Scan, kinds: seq<LineKind>, now: int, stamp: string)
    ensures var r := ScanLines(sc, kinds, now, stamp);
      |r.found| == |sc.found| + |ReportedErrors(kinds)| && r.found[..|sc.found|] == sc.found
      && forall i :: 0 <= i < |ReportedErrors(kinds)| ==> r.found[|sc.found| + i].error == ReportedErrors(kinds)[i]
  {
    if kinds != [] {
      var pre := kinds[..|kinds| - 1];
      ScanLinesFound(sc, pre, now, stamp);
      var p := ScanLines(sc, pre, now, stamp);
      var r := ScanLines(sc, kinds, now, stamp);
      var errs := ReportedErrors(kinds);
      assert errs[..|ReportedErrors(pre)|] == ReportedErrors(pre);
      assert r.found[..|p.found|] == p.found;
      forall i | 0 <= i < |errs|
        ensures r.found[|sc.found| + i].error == errs[i]
      {
        if i < |ReportedErrors(pre)| {
          assert r.found[|sc.found| + i] == p.found[|sc.found| + i];
          assert errs[i] == ReportedErrors(pre)[i];
        }
      }
    }
  }

  /** The batch id an error gets on a line scanned from `sc`. */
  function BatchFor(sc: Scan, now: int, stamp: string): Option<string> {
    if InBatchWindow(sc.lastErrorTime, now) then sc.batch else Some(stamp)
  }

  /**
   * Within one call every clock reading is the same instant, so in a chunk
   * without refresh markers all collected errors share one batch: the
   * running one if the last error is recent enough, else a new one.
   */
  lemma {:induction false} ScanLinesOneBatch(sc: Scan, kinds: seq<LineKind>, now: int, stamp: string)
    requires forall j :: 0 <= j < |kinds| ==> kinds[j] != Refresh
    ensures var r := ScanLines(sc, kinds, now, stamp);
      |sc.found| <= |r.found|
      && r.found[..|sc.found|] == sc.found
      && (forall i :: |sc.found| <= i < |r.found| ==> r.found[i].batchId == BatchFor(sc, now, stamp))
      && (if |r.found| == |sc.found| then r.batch == sc.batch && r.lastErrorTime == sc.lastErrorTime
          else r.batch == BatchFor(sc, now, stamp) && r.lastErrorTime == Some(now))
  {
    if kinds != [] {
      var pre := kinds[..|kinds| - 1];
      var last := kinds[|kinds| - 1];
      assert forall j :: 0 <= j < |pre| ==> pre[j] == kinds[j];
      ScanLinesOneBatch(sc, pre, now, stamp);
      var p := ScanLines(sc, pre, now, stamp);
      var r := ScanLines(sc, kinds, now, stamp);
      if last.Reported? {
        if |p.found| > |sc.found| {
          WindowAtSameInstant(now);
        }
        assert r.found[..|sc.found|] == p.found[..|sc.found|];
      }
    }
  }

  /**
   * A refresh marker clears the batch but not the time of the last error,
   * so an error just after it joins the cleared batch: it is collected
   * with no batch id at all.
   */
  lemma MarkerThenErrorHasNoBatch(sc: Scan, e: CompilationError, now: int, stamp: string)
    requires InBatchWindow(sc.lastErrorTime, now)
    ensures ScanLines(sc, [Refresh, Reported(e)], now, stamp).found == sc.found + [Found(e, None)]
  {
    var kinds := [Refresh, Reported(e)];
    ScanLinesStep(sc, kinds, 0, now, stamp);
    ScanLinesStep(sc, kinds, 1, now, stamp);
    assert kinds[..0] == [] && kinds[..2] == kinds;
  }

  /** Each row the store loop appends is the row of one of the errors found. */
  lemma {:induction false} StoreAllRowsFound(seen: set<ErrorKey>, stored: seq<StoredError>, found: seq<Found>, now: int)
    ensures forall i :: |stored| <= i < |StoreAll(seen, stored, found, now).1| ==>
        exists j :: 0 <= j < |found| && StoreAll(seen, stored, found, now).1[i] == StoredError(found[j].error, now, found[j].batchId, false)
  {
    if found != [] {
      var pre := found[..|found| - 1];
      StoreAllRowsFound(seen, stored, pre, now);
      StoreAllStoresOnce(seen, stored, pre, now);
      var r := StoreAll(seen, stored, pre, now).1;
      var r' := StoreAll(seen, stored, found, now).1;
      assert r'[..|r|] == r;
      forall i | |stored| <= i < |r'|
        ensures exists j :: 0 <= j < |found| && r'[i] == StoredError(found[j].error, now, found[j].batchId, false)
      {
        if i < |r| {
          var j :| 0 <= j < |pre| && r[i] == StoredError(pre[j].error, now, pre[j].batchId, false);
          assert r'[i] == r[i] && pre[j] == found[j];
        } else {
          assert r'[i] == StoredError(found[|found| - 1].error, now, found[|found| - 1].batchId, false);
        }
      }
    } else {
      assert StoreAll(seen, stored, found, now).1 == stored;
    }
  }

  /**
   * The line loop changes no row but its stale flag, and a row ends up
   * stale exactly when it was stale or the chunk had a refresh marker and
   * the row was detected more than a second before now.
   */
  lemma {:induction false} ScanLinesOnlyMarksStale(sc: Scan, kinds: seq<LineKind>, now: int, stamp: string, i: nat)
    requires i < |sc.stored|
    ensures var row := sc.stored[i];
      var row' := ScanLines(sc, kinds, now, stamp).stored[i];
      row'.error == row.error && row'.detectedAt == row.detectedAt && row'.batchId == row.batchId
      && (row'.isStale <==> row.isStale || (Refresh in kinds && row.detectedAt < now - 1000))
  {
    if kinds != [] {
      var pre := kinds[..|kinds| - 1];
      var last := kinds[|kinds| - 1];
      assert kinds == pre + [last];
      ScanLinesOnlyMarksStale(sc, pre, now, stamp, i);
      var p := ScanLines(sc, pre, now, stamp);
      if last == Refresh {
        MarkStaleAt(p.stored, now - 1000, i);
      }
    }
  }

  /** Where `process_new_content` reads from: the start after a truncation, else the position reached. */
  function ReadFrom(s: MonitorState, log: string): (p: nat)
    ensures p <= |log| || p == s.lastPosition
  {
    if |log| < s.lastPosition then 0 else s.lastPosition
  }

  /**
   * The line loop and the store loop leave the rows already there as they
   * were but for their stale flag, which a refresh marker among the lines
   * sets on the rows detected more than a second before now.
   */
  lemma ScanAndStoreKeepsRows(s: MonitorState, kinds: seq<LineKind>, size: nat, now: int, stamp: string, i: nat)
    requires i < |s.stored|
    ensures var row, row' := s.stored[i], ScanAndStore(s, kinds, size, now, stamp).stored[i];
      row'.error == row.error && row'.detectedAt == row.detectedAt && row'.batchId == row.batchId
      && (row'.isStale <==> row.isStale || (Refresh in kinds && row.detectedAt < now - 1000))
  {
    var start := Scan(s.seen, s.currentBatchId, s.lastErrorTime, s.stored, []);
    var sc := ScanLines(start, kinds, now, stamp);
    StoreAllStoresOnce(sc.seen, sc.stored, sc.found, now);
    ScanLinesOnlyMarksStale(start, kinds, now, stamp, i);
    var stored' := StoreAll(sc.seen, sc.stored, sc.found, now).1;
    assert stored'[i] == stored'[..|sc.stored|][i];
  }

  /**
   * The rows the store loop appends are fresh, detected now, have pairwise
   * different keys, and there are at most as many as errors reported.
   */
  lemma ScanAndStoreAppendsOnce(s: MonitorState, kinds: seq<LineKind>, size: nat, now: int, stamp: string)
    ensures var r := ScanAndStore(s, kinds, size, now, stamp);
      |s.stored| <= |r.stored| <= |s.stored| + |ReportedErrors(kinds)|
      && r.stored[..|s.stored|] == ScanLines(Scan(s.seen, s.currentBatchId, s.lastErrorTime, s.stored, []), kinds, now, stamp).stored
      && DistinctKeys(r.stored[|s.stored|..])
      && forall i :: |s.stored| <= i < |r.stored| ==> r.stored[i].detectedAt == now && !r.stored[i].isStale
  {
    var start := Scan(s.seen, s.currentBatchId, s.lastErrorTime, s.stored, []);
    var sc := ScanLines(start, kinds, now, stamp);
    ScanLinesFound(start, kinds, now, stamp);
    StoreAllStoresOnce(sc.seen, sc.stored, sc.found, now);
  }

  /** Each row appended holds one of the errors the lines report. */
  lemma ScanAndStoreAppendsReported(s: MonitorState, kinds: seq<LineKind>, size: nat, now: int, stamp: string)
    ensures var r := ScanAndStore(s, kinds, size, now, stamp);
      forall i :: |s.stored| <= i < |r.stored| ==> exists j :: 0 <= j < |ReportedErrors(kinds)| && r.stored[i].error == ReportedErrors(kinds)[j]
  {
    var errs := ReportedErrors(kinds);
    var start := Scan(s.seen, s.currentBatchId, s.lastErrorTime, s.stored, []);
    var sc := ScanLines(start, kinds, now, stamp);
    ScanLinesFound(start, kinds, now, stamp);
    StoreAllRowsFound(sc.seen, sc.stored, sc.found, now);
    var stored' := StoreAll(sc.seen, sc.stored, sc.found, now).1;
    assert ScanAndStore(s, kinds, size, now, stamp).stored == stored';
    assert forall i :: |sc.stored| <= i < |stored'| ==>
        exists j :: 0 <= j < |sc.found| && stored'[i] == StoredError(sc.found[j].error, now, sc.found[j].batchId, false);
    forall i | |s.stored| <= i < |stored'|
      ensures exists j :: 0 <= j < |errs| && stored'[i].error == errs[j]
    {
      assert |sc.stored| <= i < |stored'|;
      assert exists j :: 0 <= j < |sc.found| && stored'[i] == StoredError(sc.found[j].error, now, sc.found[j].batchId, false);
      var j :| 0 <= j < |sc.found| && stored'[i] == StoredError(sc.found[j].error, now, sc.found[j].batchId, false);
      assert sc.found[0 + j].error == errs[j];
    }
  }

  /** Every error the lines report has its key seen afterwards. */
  lemma ScanAndStoreSeesReported(s: MonitorState, kinds: seq<LineKind>, size: nat, now: int, stamp: string)
    ensures var r := ScanAndStore(s, kinds, size, now, stamp);
      forall j :: 0 <= j < |ReportedErrors(kinds)| ==> Key(ReportedErrors(kinds)[j]) in r.seen
  {
    var errs := ReportedErrors(kinds);
    var start := Scan(s.seen, s.currentBatchId, s.lastErrorTime, s.stored, []);
    var sc := ScanLines(start, kinds, now, stamp);
    ScanLinesFound(start, kinds, now, stamp);
    StoreAllStoresOnce(sc.seen, sc.stored, sc.found, now);
    var seen' := StoreAll(sc.seen, sc.stored, sc.found, now).0;
    assert ScanAndStore(s, kinds, size, now, stamp).seen == seen';
    forall j | 0 <= j < |errs|
      ensures Key(errs[j]) in seen'
    {
      assert sc.found[0 + j].error == errs[j];
      assert Key(sc.found[j].error) in FoundKeys(sc.found);
    }
  }

  /**
   * One call with text to read scans and stores the kinds of the lines
   * read from where it resumes: the start of the log after a truncation,
   * otherwise the position reached; a truncation also forgets the seen keys.
   */
  lemma ProcessReadsNewLines(s: MonitorState, log: string, now: int, stamp: string)
    requires ReadFrom(s, log) < |log|
    ensures Process(s, log, now, stamp)
         == ScanAndStore(if |log| < s.lastPosition then s.(lastPosition := 0, seen := {}) else s,
                         Kinds(ReadLines(log[ReadFrom(s, log)..])), |log|, now, stamp)
  {
  }

  /**
   * Rows are stored only after the whole chunk is scanned, with the keys
   * seen at its end: an error reported before and again after a refresh
   * marker in one chunk gets a single row, for its first report, and that
   * row is not stale although the marker came after it.
   */
  lemma RepeatAcrossMarkerStoredOnce(s: MonitorState, e1: CompilationError, e2: CompilationError, size: nat, now: int, stamp: string)
    requires Key(e1) == Key(e2)
    ensures var r := ScanAndStore(s, [Reported(e1), Refresh, Reported(e2)], size, now, stamp);
      |r.stored| == |s.stored| + 1 && r.stored[|s.stored|].error == e1 && !r.stored[|s.stored|].isStale
  {
    var kinds := [Reported(e1), Refresh, Reported(e2)];
    var start := Scan(s.seen, s.currentBatchId, s.lastErrorTime, s.stored, []);
    ScanLinesStep(start, kinds, 0, now, stamp);
    ScanLinesStep(start, kinds, 1, now, stamp);
    ScanLinesStep(start, kinds, 2, now, stamp);
    assert kinds[..0] == [] && kinds[..3] == kinds;
    var s1 := ScanLine(start, Reported(e1), now, stamp);
    var s2 := ScanLine(s1, Refresh, now, stamp);
    WindowAtSameInstant(now);
    var sc := ScanLine(s2, Reported(e2), now, stamp);
    assert sc.seen == {};
    StoreSameKeyTwice(sc.stored, sc.found[0], sc.found[1], now);
    assert sc.found == [sc.found[0], sc.found[1]];
  }

  lemma StoreSameKeyTwice(stored: seq<StoredError>, f0: Found, f1: Found, now: int)
    requires Key(f0.error) == Key(f1.error)
    ensures StoreAll({}, stored, [f0, f1], now).1 == stored + [StoredError(f0.error, now, f0.batchId, false)]
  {
    var f := [f0, f1];
    StoreAllStep({}, stored, f, 0, now);
    StoreAllStep({}, stored, f, 1, now);
    assert f[..0] == [] && f[..2] == f;
    var one := StoreAll({}, stored, f[..1], now);
    assert one.0 == {} + {Key(f0.error)};
  }
}
