/**
 * The Editor copy of test_playmode_logs.py beyond the shared parser: its
 * error predicates, keyword search, highlighting, and the
 * sort/filter/search/limit pipeline of `main`.
 */
module EditorPlayModeLogs {
  import opened Wrappers
  import opened PyStr
  import opened Seqs
  import opened PlayModeLogs

  // ---------------------------------------------------------------------
  // is_compilation_error: "error CS", four digits and a colon, anywhere in the message

  const CsMarker: string := "error CS"

  /** The pattern `error CS\d{4}:` matches at position `i`. */
  predicate CsErrorAt(message: string, i: int) {
    0 <= i && i + 13 <= |message|
    && message[i..i + 8] == CsMarker && AllDigits(message[i + 8..i + 12]) && message[i + 12] == ':'
  }

  /** `is_compilation_error`: the pattern matches somewhere in the message. */
  predicate IsCompilationError(message: string) {
    exists i :: 0 <= i && i + 13 <= |message| && CsErrorAt(message, i)
  }

  /** A message holding `error CS`, a four-digit code and `:` is a compilation error, wherever it stands. */
  lemma CompilationErrorOfCode(before: string, code: string, after: string)
    requires |code| == 4 && AllDigits(code)
    ensures IsCompilationError(before + CsMarker + code + ":" + after)
  {
    var m := before + CsMarker + code + ":" + after;
    var i := |before|;
    assert m[i..i + 8] == CsMarker;
    assert m[i + 8..i + 12] == code;
    assert m[i + 12] == ':';
    assert CsErrorAt(m, i);
  }

  /** A compilation error mentions `error CS`. */
  lemma CompilationErrorMentionsMarker(message: string)
    requires IsCompilationError(message)
    ensures Contains(message, CsMarker)
  {
    var i :| 0 <= i && i + 13 <= |message| && CsErrorAt(message, i);
    ContainsAt(message, CsMarker, i);
  }

  /** Without the colon right after the code there is no match: `error CS0103 x` is not one. */
  lemma CodeNeedsColon(code: string, rest: string)
    requires |code| == 4 && AllDigits(code) && (rest == [] || rest[0] != ':')
    requires forall j :: 0 <= j < |rest| ==> rest[j] != 'e'
    ensures !IsCompilationError(CsMarker + code + rest)
  {
    var m := CsMarker + code + rest;
    forall i | 0 <= i && i + 13 <= |m| ensures !CsErrorAt(m, i) {
      if i == 0 {
        assert m[12] == rest[0];
      } else if i < 12 {
        assert m[i] != 'e' by {
          assert m[i] == (CsMarker + code)[i];
        }
      } else {
        assert m[i] == rest[i - 12];
      }
    }
  }

  // ---------------------------------------------------------------------
  // is_general_error

  /** The keywords `is_general_error` looks for in the lower-cased message. */
  const ErrorKeywords: seq<string> := ["exception:", "error:", "failed", "assertion failed", "unhandled exception", "crash"]

  /**
   * `is_general_error`: the level is an error level, or the lower-cased
   * message holds one of the keywords.
   */
  predicate IsGeneralError(e: LogEntry) {
    IsErrorLevel(e.level) || ContainsAny(Lower(e.message), ErrorKeywords)
  }

  /** A message with a keyword, in any letter case, makes an entry a general error whatever its level. */
  lemma KeywordMakesGeneralError(e: LogEntry, k: nat)
    requires k < |ErrorKeywords| && Contains(Lower(e.message), ErrorKeywords[k])
    ensures IsGeneralError(e)
  {
  }

  /** `assertion failed` adds nothing to the keyword list: any text holding it holds `failed`. */
  lemma AssertionFailedRedundant(m: string)
    requires Contains(m, "assertion failed")
    ensures Contains(m, "failed")
  {
    assert "assertion failed"[10..16] == "failed";
    ContainsPiece(m, "assertion failed", 10, 16);
  }

  /**
   * The two error filters of `main` do not nest: an entry whose level is
   * not an error level and whose message is a C# compilation error is shown
   * by `--cs-errors` but not by `--errors`.
   */
  lemma CompilationErrorNotGeneral(e: LogEntry)
    requires e.level == "Log" && e.message == "error CS0103: x"
    ensures IsCompilationError(e.message) && !IsGeneralError(e)
  {
    SampleIsCompilationError(e.message);
    SampleLowered(e.message);
    var lm := Lower(e.message);
    forall k | 0 <= k < |ErrorKeywords| ensures !Contains(lm, ErrorKeywords[k]) {
      AbsentKeyword(lm, ErrorKeywords[k]);
    }
  }

  lemma SampleIsCompilationError(m: string)
    requires m == "error CS0103: x"
    ensures IsCompilationError(m)
  {
    assert m[0..8] == CsMarker;
    assert m[8..12] == "0103";
    assert CsErrorAt(m, 0);
  }

  lemma SampleLowered(m: string)
    requires m == "error CS0103: x"
    ensures Lower(m) == "error cs0103: x"
  {
    var lm := "error cs0103: x";
    assert forall i :: 0 <= i < |m| ==> LowerChar(m[i]) == lm[i];
    LowerIs(m, lm);
  }

  lemma LowerIs(s: string, t: string)
    requires |s| == |t| && forall i :: 0 <= i < |s| ==> LowerChar(s[i]) == t[i]
    ensures Lower(s) == t
  {
  }

  /** A keyword absent from the fixed text `error cs0103: x`. */
  lemma AbsentKeyword(lm: string, keyword: string)
    requires lm == "error cs0103: x" && keyword in ErrorKeywords
    ensures !Contains(lm, keyword)
  {
    forall j | 0 <= j ensures !OccursAt(lm, keyword, j) {
      if j + |keyword| <= |lm| {
        assert lm[j..j + |keyword|][|keyword| - 1] == lm[j + |keyword| - 1];
        assert lm[j..j + |keyword|][0] == lm[j];
      }
    }
  }

  // ---------------------------------------------------------------------
  // highlight_text

  /** The ANSI codes around a highlighted match: yellow background, black text, then reset. */
  const MarkOpen: string := "\U{1b}[103m\U{1b}[30m"
  const MarkClose: string := "\U{1b}[0m"

  function Mark(t: string): string {
    MarkOpen + t + MarkClose
  }

  /**
   * The case-insensitive substitution of a literal term: every match,
   * scanning left to right without overlap, is wrapped in the codes with
   * its own letters kept. An empty term matches before every character and
   * at the end.
   */
  function MarkFolded(s: string, term: string): string
    decreases |s|
  {
    if term == [] then
      (if s == [] then Mark([]) else Mark([]) + [s[0]] + MarkFolded(s[1..], term))
    else if |term| <= |s| && Lower(s[..|term|]) == Lower(term) then
      Mark(s[..|term|]) + MarkFolded(s[|term|..], term)
    else if s == [] then s
    else [s[0]] + MarkFolded(s[1..], term)
  }

  /** One term of the `highlight_text` loop. */
  function MarkTerm(s: string, term: string, ignoreCase: bool): string {
    if ignoreCase then MarkFolded(s, term) else Replace(s, term, Mark(term))
  }

  /** The loop of `highlight_text` over the terms, in order. */
  function MarkAll(s: string, terms: seq<string>, ignoreCase: bool): string
    decreases |terms|
  {
    if terms == [] then s else MarkAll(MarkTerm(s, terms[0], ignoreCase), terms[1..], ignoreCase)
  }

  /** `highlight_text`: the text itself when there are no terms. */
  function HighlightText(text: string, terms: seq<string>, ignoreCase: bool): (r: string)
    ensures terms == [] ==> r == text
  {
    if terms == [] then text else MarkAll(text, terms, ignoreCase)
  }

  /** Case-sensitive highlighting of terms none of which occurs leaves the text unchanged. */
  lemma {:induction false} HighlightAbsentTerms(text: string, terms: seq<string>)
    requires forall k :: 0 <= k < |terms| ==> terms[k] != [] && !Contains(text, terms[k])
    ensures HighlightText(text, terms, false) == text
  {
    MarkAllAbsent(text, terms);
  }

  lemma {:induction false} MarkAllAbsent(text: string, terms: seq<string>)
    requires forall k :: 0 <= k < |terms| ==> terms[k] != [] && !Contains(text, terms[k])
    ensures MarkAll(text, terms, false) == text
    decreases |terms|
  {
    if terms != [] {
      ReplaceAbsent(text, terms[0], Mark(terms[0]));
      assert forall k :: 0 <= k < |terms[1..]| ==> terms[1..][k] == terms[k + 1];
      MarkAllAbsent(text, terms[1..]);
    }
  }

  /** The term matches at position `i` ignoring letter case. */
  predicate FoldedAt(s: string, term: string, i: int) {
    0 <= i && i + |term| <= |s| && Lower(s[i..i + |term|]) == Lower(term)
  }

  /** Case-insensitive highlighting of a term that matches nowhere, in any letter case, leaves the text unchanged. */
  lemma {:induction false} MarkFoldedAbsent(s: string, term: string)
    requires term != []
    requires forall i :: !FoldedAt(s, term, i)
    ensures MarkFolded(s, term) == s
    decreases |s|
  {
    if s != [] {
      assert !FoldedAt(s, term, 0);
      if |term| <= |s| {
        assert s[0..|term|] == s[..|term|];
      }
      forall i ensures !FoldedAt(s[1..], term, i) {
        if 0 <= i && i + |term| <= |s[1..]| {
          assert s[1..][i..i + |term|] == s[i + 1..i + 1 + |term|];
          assert !FoldedAt(s, term, i + 1);
        }
      }
      MarkFoldedAbsent(s[1..], term);
      assert [s[0]] + s[1..] == s;
    }
  }

  /** A term found at the very start is wrapped in the codes with its own letters, in either mode. */
  lemma MarkFoldedAtStart(term: string, rest: string)
    requires term != []
    ensures MarkFolded(term + rest, term) == Mark(term) + MarkFolded(rest, term)
  {
    var s := term + rest;
    assert s[..|term|] == term;
    assert s[|term|..] == rest;
  }

  // ---------------------------------------------------------------------
  // search_logs

  /** `log['message'] + ' '.join(log['stack_trace'])`: no separator before the trace. */
  function SearchText(e: LogEntry): string {
    e.message + Join(" ", e.stackTrace)
  }

  function LowerAll(terms: seq<string>): (r: seq<string>)
    ensures |r| == |terms| && forall k :: 0 <= k < |terms| ==> r[k] == Lower(terms[k])
  {
    seq(|terms|, k requires 0 <= k < |terms| => Lower(terms[k]))
  }

  /** ANY mode: some term occurs; ALL mode: every term occurs. */
  predicate TermsMatch(text: string, terms: seq<string>, matchAny: bool) {
    if matchAny then exists k :: 0 <= k < |terms| && Contains(text, terms[k])
    else forall k :: 0 <= k < |terms| ==> Contains(text, terms[k])
  }

  /** The condition `search_logs` keeps an entry by, lower-casing both sides with `ignore_case`. */
  predicate SearchMatches(e: LogEntry, terms: seq<string>, matchAny: bool, ignoreCase: bool) {
    if ignoreCase then TermsMatch(Lower(SearchText(e)), LowerAll(terms), matchAny)
    else TermsMatch(SearchText(e), terms, matchAny)
  }

  /** `search_logs`. */
  function SearchLogs(logs: seq<LogEntry>, terms: seq<string>, matchAny: bool, ignoreCase: bool): seq<LogEntry> {
    Filter(logs, e => SearchMatches(e, terms, matchAny, ignoreCase))
  }

  /** The search keeps exactly the matching entries. */
  lemma SearchMembers(logs: seq<LogEntry>, terms: seq<string>, matchAny: bool, ignoreCase: bool, e: LogEntry)
    ensures e in SearchLogs(logs, terms, matchAny, ignoreCase) <==> e in logs && SearchMatches(e, terms, matchAny, ignoreCase)
  {
    FilterMembers(logs, e => SearchMatches(e, terms, matchAny, ignoreCase), e);
  }

  /** The search keeps the input order: searching two lists is searching each and concatenating. */
  lemma SearchKeepsOrder(a: seq<LogEntry>, b: seq<LogEntry>, terms: seq<string>, matchAny: bool, ignoreCase: bool)
    ensures SearchLogs(a + b, terms, matchAny, ignoreCase) == SearchLogs(a, terms, matchAny, ignoreCase) + SearchLogs(b, terms, matchAny, ignoreCase)
  {
    FilterConcat(a, b, e => SearchMatches(e, terms, matchAny, ignoreCase));
  }

  /** In ALL mode, searching for `a + b` is searching for `a` and then for `b` among the results. */
  lemma SearchAllInSteps(logs: seq<LogEntry>, a: seq<string>, b: seq<string>, ignoreCase: bool)
    ensures SearchLogs(logs, a + b, false, ignoreCase) == SearchLogs(SearchLogs(logs, a, false, ignoreCase), b, false, ignoreCase)
  {
    forall e ensures SearchMatches(e, a + b, false, ignoreCase) == (SearchMatches(e, a, false, ignoreCase) && SearchMatches(e, b, false, ignoreCase)) {
      AllTermsSplit(if ignoreCase then Lower(SearchText(e)) else SearchText(e), a, b, ignoreCase);
    }
    FilterFilter(logs, e => SearchMatches(e, a, false, ignoreCase), e => SearchMatches(e, b, false, ignoreCase),
                 e => SearchMatches(e, a + b, false, ignoreCase));
  }

  lemma AllTermsSplit(text: string, a: seq<string>, b: seq<string>, ignoreCase: bool)
    ensures var t := if ignoreCase then LowerAll(a + b) else a + b;
            var ta := if ignoreCase then LowerAll(a) else a;
            var tb := if ignoreCase then LowerAll(b) else b;
            TermsMatch(text, t, false) == (TermsMatch(text, ta, false) && TermsMatch(text, tb, false))
  {
    var t := if ignoreCase then LowerAll(a + b) else a + b;
    var ta := if ignoreCase then LowerAll(a) else a;
    var tb := if ignoreCase then LowerAll(b) else b;
    assert |t| == |ta| + |tb|;
    assert forall k :: 0 <= k < |ta| ==> t[k] == ta[k];
    assert forall k :: 0 <= k < |tb| ==> t[|ta| + k] == tb[k];
    if TermsMatch(text, ta, false) && TermsMatch(text, tb, false) {
      forall k | 0 <= k < |t| ensures Contains(text, t[k]) {
        if k >= |ta| {
          assert t[k] == tb[k - |ta|];
        }
      }
    }
  }

  /** In both modes an entry matching every term of a non-empty list matches some term: ALL finds no more than ANY. */
  lemma SearchAllWithinAny(logs: seq<LogEntry>, terms: seq<string>, ignoreCase: bool, e: LogEntry)
    requires terms != []
    requires e in SearchLogs(logs, terms, false, ignoreCase)
    ensures e in SearchLogs(logs, terms, true, ignoreCase)
  {
    SearchMembers(logs, terms, false, ignoreCase, e);
    SearchMembers(logs, terms, true, ignoreCase, e);
    if ignoreCase {
      assert Contains(Lower(SearchText(e)), LowerAll(terms)[0]);
    } else {
      assert Contains(SearchText(e), terms[0]);
    }
  }

  /**
   * The message is joined to the stack trace without a separator, so a
   * term can match across the seam: `bc` finds the entry with message `ab`
   * and stack trace `cd`, though neither holds it.
   */
  lemma SearchAcrossSeam(e: LogEntry)
    requires e.message == "ab" && e.stackTrace == ["cd"]
    ensures SearchMatches(e, ["bc"], false, false)
    ensures !Contains(e.message, "bc") && !Contains(e.stackTrace[0], "bc")
  {
    assert Join(" ", e.stackTrace) == "cd";
    var t := SearchText(e);
    assert t == e.message + "cd";
    assert t[1..3] == "bc";
    ContainsAt(t, "bc", 1);
    SameLengthNotContains(e.message, "bc");
    SameLengthNotContains(e.stackTrace[0], "bc");
    assert TermsMatch(t, ["bc"], false);
  }

  /** A string as long as `sub` contains it only by being it. */
  lemma SameLengthNotContains(s: string, sub: string)
    requires |s| == |sub| && s != sub
    ensures !Contains(s, sub)
  {
    forall j | 0 <= j ensures !OccursAt(s, sub, j) {
      if j == 0 {
        assert s[0..|sub|] == s;
      }
    }
  }

  // ---------------------------------------------------------------------
  // The pipeline of `main`

  /** What the filter flags of `main` select. */
  datatype Selection = CsErrors | GeneralErrors | LevelIs(level: string) | Everything

  /** `--cs-errors` wins over `--errors` and `--all-errors`, which win over `--level`. */
  function SelectionOf(csErrors: bool, errors: bool, allErrors: bool, level: Option<string>): Selection {
    if csErrors then CsErrors
    else if errors || allErrors then GeneralErrors
    else if level.Some? && level.value != [] then LevelIs(level.value)
    else Everything
  }

  predicate Selected(e: LogEntry, sel: Selection) {
    match sel
      case CsErrors => IsCompilationError(e.message)
      case GeneralErrors => IsGeneralError(e)
      case LevelIs(l) => e.level == l
      case Everything => true
  }

  /** The command line as far as the pipeline reads it. */
  datatype Options = Options(csErrors: bool, errors: bool, allErrors: bool, level: Option<string>,
                             search: seq<string>, matchAny: bool, ignoreCase: bool,
                             showAll: bool, noLimit: bool, lines: int)

  function SelectionFor(o: Options): Selection {
    SelectionOf(o.csErrors, o.errors, o.allErrors, o.level)
  }

  /** The error or level filter, after the sort. */
  function SelectLogs(logs: seq<LogEntry>, sel: Selection): seq<LogEntry> {
    Filter(logs, e => Selected(e, sel))
  }

  /** The search, when keywords are given. */
  function Searched(logs: seq<LogEntry>, o: Options): seq<LogEntry> {
    if o.search == [] then logs else SearchLogs(logs, o.search, o.matchAny, o.ignoreCase)
  }

  /** `--no-limit` sets `--all`. */
  function Unlimited(o: Options): bool {
    o.showAll || o.noLimit
  }

  /**
   * The entries `main` shows for the parsed files: all entries sorted by
   * timestamp, then the error or level filter, then the search, then the
   * last-N limit.
   */
  function Shown(files: seq<seq<string>>, o: Options): seq<LogEntry> {
    Limit(Searched(SelectLogs(ByTimestamp(AllLogs(files)), SelectionFor(o)), o), Unlimited(o), o.lines)
  }

  /** An entry passes the filter and the search of `o`. */
  predicate Passes(e: LogEntry, o: Options) {
    Selected(e, SelectionFor(o)) && (o.search != [] ==> SearchMatches(e, o.search, o.matchAny, o.ignoreCase))
  }

  lemma SearchedMembers(logs: seq<LogEntry>, o: Options, e: LogEntry)
    ensures e in Searched(logs, o) <==> e in logs && (o.search != [] ==> SearchMatches(e, o.search, o.matchAny, o.ignoreCase))
  {
    if o.search != [] {
      SearchMembers(logs, o.search, o.matchAny, o.ignoreCase, e);
    }
  }

  /** The shown entries are in timestamp order. */
  lemma ShownSorted(files: seq<seq<string>>, o: Options)
    ensures SortedBy(Shown(files, o), Timestamp, StrLe)
  {
    var sorted := ByTimestamp(AllLogs(files));
    ByTimestampSorts(AllLogs(files));
    var selected := SelectLogs(sorted, SelectionFor(o));
    FilterSorted(sorted, e => Selected(e, SelectionFor(o)), Timestamp, StrLe);
    if o.search != [] {
      FilterSorted(selected, e => SearchMatches(e, o.search, o.matchAny, o.ignoreCase), Timestamp, StrLe);
    }
    LimitSorted(Searched(selected, o), Unlimited(o), o.lines);
  }

  /**
   * Every shown entry comes from one of the files and passes the filter and
   * the search; with a positive limit and no `--all` at most `lines` are
   * shown, and otherwise every entry of the files that passes is shown.
   */
  lemma ShownMembers(files: seq<seq<string>>, o: Options, e: LogEntry)
    ensures e in Shown(files, o) ==> (exists i :: 0 <= i < |files| && e in ParseLines(files[i])) && Passes(e, o)
    ensures !Unlimited(o) && o.lines > 0 ==> |Shown(files, o)| <= o.lines
    ensures Unlimited(o) || o.lines <= 0 ==>
              (e in Shown(files, o) <==> (exists i :: 0 <= i < |files| && e in ParseLines(files[i])) && Passes(e, o))
  {
    var all := AllLogs(files);
    var sorted := ByTimestamp(all);
    var selected := SelectLogs(sorted, SelectionFor(o));
    var searched := Searched(selected, o);
    ByTimestampSorts(all);
    assert e in sorted <==> e in all by {
      assert e in sorted <==> multiset(sorted)[e] > 0;
      assert e in all <==> multiset(all)[e] > 0;
    }
    AllLogsFromFiles(files, e);
    FilterMembers(sorted, e => Selected(e, SelectionFor(o)), e);
    SearchedMembers(selected, o, e);
    var shown := Limit(searched, Unlimited(o), o.lines);
    if e in shown {
      assert e in searched;
    }
  }

  /**
   * The summary of `main`: the entries shown, their per-level counts, which
   * add up to the number shown, and the call of `display_logs` without
   * filters, which prints them all.
   */
  method ShowLogs(files: seq<seq<string>>, o: Options) returns (shown: seq<LogEntry>, levels: seq<string>, counts: map<string, nat>)
    ensures shown == Shown(files, o) && DisplayLogs(shown, None, false) == shown
    ensures forall l :: l in counts <==> l in levels
    ensures forall l :: l in counts ==> counts[l] == |WithKey(shown, Level, l)|
    ensures TotalCount(counts, levels) == |shown|
  {
    shown := Shown(files, o);
    levels, counts := CountLevels(shown);
    DisplayUnfiltered(shown);
  }
}
