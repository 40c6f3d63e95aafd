/**
 * The ScriptingTools copy of test_playmode_logs.py beyond the shared
 * parser: its wider compilation-error predicate and the
 * sort/filter/limit/count pipeline of `main`.
 */
module ScriptingPlayModeLogs {
  import opened Wrappers
  import opened PyStr
  import opened Seqs
  import opened PlayModeLogs
  import EditorPlayModeLogs

  // ---------------------------------------------------------------------
  // is_compilation_error

  /** A character matched by `\w` (ASCII). */
  predicate WordChar(c: char) {
    'a' <= c <= 'z' || 'A' <= c <= 'Z' || '0' <= c <= '9' || c == '_'
  }

  /** `\bCS\d{4}\b` matches at position `i` (case-sensitive). */
  predicate CsCodeAt(m: string, i: int) {
    0 <= i && i + 6 <= |m| && m[i..i + 2] == "CS" && AllDigits(m[i + 2..i + 6])
    && (i == 0 || !WordChar(m[i - 1])) && (i + 6 == |m| || !WordChar(m[i + 6]))
  }

  predicate HasCsCode(m: string) {
    exists i :: 0 <= i < |m| && CsCodeAt(m, i)
  }

  /** Prefix `p` followed by four digits (`p\d{4}`) occurs at position `i`. */
  predicate CodeAfterAt(s: string, p: string, i: int) {
    0 <= i && i + |p| + 4 <= |s| && s[i..i + |p|] == p && AllDigits(s[i + |p|..i + |p| + 4])
  }

  predicate HasCodeAfter(s: string, p: string) {
    exists i :: 0 <= i < |s| && CodeAfterAt(s, p, i)
  }

  /**
   * `is_compilation_error`: the case-sensitive code pattern, or any of the
   * five case-insensitive patterns, here matched against the lower-cased
   * message with the patterns written in lower case.
   */
  predicate IsCompilationError(m: string) {
    var lm := Lower(m);
    HasCsCode(m)
    || HasCodeAfter(lm, "error cs") || HasCodeAfter(lm, ": error cs")
    || Contains(lm, "compiler error") || Contains(lm, "compilation failed")
    || Contains(lm, "all compiler errors")
  }

  /** A word-bounded `CS` code makes a compilation error wherever it stands. */
  lemma CsCodeMakesCompilationError(before: string, code: string, after: string)
    requires |code| == 4 && AllDigits(code)
    requires before == [] || !WordChar(before[|before| - 1])
    requires after == [] || !WordChar(after[0])
    ensures IsCompilationError(before + "CS" + code + after)
  {
    var m := before + "CS" + code + after;
    var i := |before|;
    assert m[i..i + 2] == "CS";
    assert m[i + 2..i + 6] == code;
    if i > 0 {
      assert m[i - 1] == before[|before| - 1];
    }
    if i + 6 < |m| {
      assert m[i + 6] == after[0];
    }
    assert CsCodeAt(m, i);
  }

  /** A code that runs into more word characters, like `CS01034` or `xCS0103`, is no match of the bounded pattern there. */
  lemma CsCodeNeedsBoundary(m: string, i: int)
    requires 0 < i && i + 6 <= |m| && WordChar(m[i - 1])
    ensures !CsCodeAt(m, i)
  {
  }

  /** A longer prefix pattern that matches implies its tail pattern matches further on. */
  lemma CodeAfterLonger(s: string, p: string, q: string, i: int)
    requires CodeAfterAt(s, p + q, i)
    ensures CodeAfterAt(s, q, i + |p|)
  {
    assert s[i + |p|..i + |p| + |q|] == s[i..i + |p + q|][|p|..];
    assert (p + q)[|p|..] == q;
  }

  /** `: error CS\d{4}` never matches where `error CS\d{4}` does not. */
  lemma ColonFormImplied(lm: string)
    requires HasCodeAfter(lm, ": error cs")
    ensures HasCodeAfter(lm, "error cs")
  {
    var i :| 0 <= i < |lm| && CodeAfterAt(lm, ": error cs", i);
    assert ": error cs" == ": " + "error cs";
    CodeAfterLonger(lm, ": ", "error cs", i);
  }

  /** `All compiler errors` never matches where `Compiler Error` does not. */
  lemma AllCompilerErrorsImplied(lm: string)
    requires Contains(lm, "all compiler errors")
    ensures Contains(lm, "compiler error")
  {
    var x := "all compiler errors";
    ContainsPiece(lm, x, 4, 18);
    assert x[4..18] == "compiler error";
  }

  /** Two of the seven patterns are redundant: the predicate is the remaining four. */
  lemma CompilationErrorReduced(m: string)
    ensures IsCompilationError(m)
            <==> HasCsCode(m) || HasCodeAfter(Lower(m), "error cs")
                 || Contains(Lower(m), "compiler error") || Contains(Lower(m), "compilation failed")
  {
    var lm := Lower(m);
    if HasCodeAfter(lm, ": error cs") {
      ColonFormImplied(lm);
    }
    if Contains(lm, "all compiler errors") {
      AllCompilerErrorsImplied(lm);
    }
  }

  /** Every compilation error of the Editor copy is one here too. */
  lemma EditorErrorIsCompilationError(m: string)
    requires EditorPlayModeLogs.IsCompilationError(m)
    ensures IsCompilationError(m)
  {
    var i :| 0 <= i && i + 13 <= |m| && EditorPlayModeLogs.CsErrorAt(m, i);
    assert m[i..i + 8] == "error CS";
    assert m[i + 6..i + 8] == m[i..i + 8][6..8];
    assert m[i + 5] == m[i..i + 8][5];
    assert m[i + 8..i + 12] == m[i + 6 + 2..i + 6 + 6];
    assert CsCodeAt(m, i + 6);
  }

  /**
   * The converse fails: a message with a compilation phrase but without
   * `error CS`, such as `Compilation failed`, is reported only by this copy.
   */
  lemma PhraseOnlyCompilationError(m: string)
    requires Contains(Lower(m), "compilation failed") && !Contains(m, EditorPlayModeLogs.CsMarker)
    ensures IsCompilationError(m) && !EditorPlayModeLogs.IsCompilationError(m)
  {
    if EditorPlayModeLogs.IsCompilationError(m) {
      EditorPlayModeLogs.CompilationErrorMentionsMarker(m);
    }
  }

  // ---------------------------------------------------------------------
  // The pipeline of `main`

  /** What the filter flags of `main` select. */
  datatype ErrorFilter = CompilationErrors | AllErrors | LevelIs(level: string) | NoFilter

  /** `--errors` wins over `--all-errors`, which wins over `--level`. */
  function ErrorFilterOf(errors: bool, allErrors: bool, level: Option<string>): ErrorFilter {
    if errors then CompilationErrors
    else if allErrors then AllErrors
    else if level.Some? && level.value != [] then LevelIs(level.value)
    else NoFilter
  }

  predicate IsErrorEntry(e: LogEntry) {
    IsErrorLevel(e.level)
  }

  predicate IsCompilationEntry(e: LogEntry) {
    IsCompilationError(e.message)
  }

  /** The filter step of `main`: the compilation filter first keeps the error levels, then the compilation errors. */
  function FilterLogs(logs: seq<LogEntry>, f: ErrorFilter): seq<LogEntry> {
    match f
      case CompilationErrors => Filter(Filter(logs, IsErrorEntry), IsCompilationEntry)
      case AllErrors => Filter(logs, IsErrorEntry)
      case LevelIs(l) => Filter(logs, (e: LogEntry) => e.level == l)
      case NoFilter => logs
  }

  /** Which entries each filter is meant to keep. */
  predicate Kept(e: LogEntry, f: ErrorFilter) {
    match f
      case CompilationErrors => IsErrorLevel(e.level) && IsCompilationError(e.message)
      case AllErrors => IsErrorLevel(e.level)
      case LevelIs(l) => e.level == l
      case NoFilter => true
  }

  /** The filter step keeps, in order, exactly the entries its filter is meant to keep. */
  lemma FilterLogsExact(logs: seq<LogEntry>, f: ErrorFilter)
    ensures FilterLogs(logs, f) == Filter(logs, e => Kept(e, f))
  {
    match f
    case CompilationErrors =>
      FilterFilter(logs, IsErrorEntry, IsCompilationEntry, e => Kept(e, f));
    case AllErrors =>
      FilterSame(logs, IsErrorEntry, e => Kept(e, f));
    case LevelIs(l) =>
      FilterSame(logs, (e: LogEntry) => e.level == l, e => Kept(e, f));
    case NoFilter =>
      FilterAll(logs, e => Kept(e, f));
  }

  lemma FilterLogsMembers(logs: seq<LogEntry>, f: ErrorFilter, e: LogEntry)
    ensures e in FilterLogs(logs, f) <==> e in logs && Kept(e, f)
  {
    FilterLogsExact(logs, f);
    FilterMembers(logs, e => Kept(e, f), e);
  }

  /** The command line as far as the pipeline reads it. */
  datatype Options = Options(errors: bool, allErrors: bool, level: Option<string>,
                             showAll: bool, noLimit: bool, lines: int)

  function FilterFor(o: Options): ErrorFilter {
    ErrorFilterOf(o.errors, o.allErrors, o.level)
  }

  /** `--no-limit` sets `--all`. */
  function Unlimited(o: Options): bool {
    o.showAll || o.noLimit
  }

  /** The entries `main` shows: all entries sorted by timestamp, filtered, then the last-N limit. */
  function Shown(files: seq<seq<string>>, o: Options): seq<LogEntry> {
    Limit(FilterLogs(ByTimestamp(AllLogs(files)), FilterFor(o)), Unlimited(o), o.lines)
  }

  /** The shown entries are in timestamp order. */
  lemma ShownSorted(files: seq<seq<string>>, o: Options)
    ensures SortedBy(Shown(files, o), Timestamp, StrLe)
  {
    var sorted := ByTimestamp(AllLogs(files));
    ByTimestampSorts(AllLogs(files));
    FilterLogsExact(sorted, FilterFor(o));
    FilterSorted(sorted, e => Kept(e, FilterFor(o)), Timestamp, StrLe);
    LimitSorted(FilterLogs(sorted, FilterFor(o)), Unlimited(o), o.lines);
  }

  /**
   * Every shown entry comes from one of the files and passes the filter;
   * with a positive limit and no `--all` at most `lines` are shown, and
   * otherwise every entry of the files that passes is shown.
   */
  lemma ShownMembers(files: seq<seq<string>>, o: Options, e: LogEntry)
    ensures e in Shown(files, o) ==> (exists i :: 0 <= i < |files| && e in ParseLines(files[i])) && Kept(e, FilterFor(o))
    ensures !Unlimited(o) && o.lines > 0 ==> |Shown(files, o)| <= o.lines
    ensures Unlimited(o) || o.lines <= 0 ==>
              (e in Shown(files, o) <==> (exists i :: 0 <= i < |files| && e in ParseLines(files[i])) && Kept(e, FilterFor(o)))
  {
    var all := AllLogs(files);
    var sorted := ByTimestamp(all);
    ByTimestampSorts(all);
    assert e in sorted <==> e in all by {
      assert e in sorted <==> multiset(sorted)[e] > 0;
      assert e in all <==> multiset(all)[e] > 0;
    }
    AllLogsFromFiles(files, e);
    FilterLogsMembers(sorted, FilterFor(o), e);
    var filtered := FilterLogs(sorted, FilterFor(o));
    if e in Limit(filtered, Unlimited(o), o.lines) {
      assert e in filtered;
    }
  }

  /**
   * The summary of `main`: the entries shown, their per-level counts, which
   * add up to the number shown, and the call of `display_logs` without
   * filters, which prints them all.
   */
  method ShowLogs(files: seq<seq<string>>, o: Options) returns (shown: seq<LogEntry>, levels: seq<string>, counts: map<string, nat>)
    ensures shown == Shown(files, o) && DisplayLogs(shown, None, false) == shown
    ensures forall l :: l in counts <==> l in levels
    ensures forall l :: l in counts ==> counts[l] == |WithKey(shown, Level, l)|
    ensures TotalCount(counts, levels) == |shown|
  {
    shown := Shown(files, o);
    levels, counts := CountLevels(shown);
    DisplayUnfiltered(shown);
  }
}
