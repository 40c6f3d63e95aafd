/**
 * monitor_editmode_logs.py: the EditMode session-log line parser, the
 * tail, grouping and level filter with which one session file is read,
 * and the gathering, sorting and limiting of the `errors` command.
 */
module EditModeLogs {
  import opened Wrappers
  import opened PyStr
  import opened Seqs
  import PlayModeLogs

  // ---------------------------------------------------------------------
  // parse_log_line

  /** What `parse_log_line` returns for a line it recognises. */
  datatype ParsedLine =
    | Header(timestamp: string, level: string, message: string)
    | Continuation(text: string)

  /** The header form `[timestamp] [level] message`: split at the first `] [`, then at the first `] ` after it. */
  function ParseHeader(line: string): Option<ParsedLine> {
    match SplitOnce(line, "] [")
      case None => None
      case Some((before, remaining)) =>
        var levelEnd := Find(remaining, "] ");
        if levelEnd > 0 then
          Some(Header(LStripChar(before, '['), Strip(remaining[..levelEnd]), remaining[levelEnd + 2..]))
        else None
  }

  /**
   * `parse_log_line`: nothing for blank and `=` lines; a header when the
   * line starts with `[` and has a non-empty level column; otherwise a
   * continuation when it starts with four spaces, and nothing else.
   */
  function ParseLogLine(line: string): Option<ParsedLine> {
    if Strip(line) == [] || StartsWith(line, "=") then None
    else
      var header := if StartsWith(line, "[") then ParseHeader(line) else None;
      if header.Some? then header
      else if StartsWith(line, "    ") then Some(Continuation(Strip(line)))
      else None
  }

  /** Blank lines and `=` rule lines are never recognised. */
  lemma BlankAndRuleLinesSkipped(line: string)
    requires Strip(line) == [] || StartsWith(line, "=")
    ensures ParseLogLine(line).None?
  {
  }

  /** A character that is not whitespace survives `strip()`. */
  lemma StripKeeps(s: string, i: nat)
    requires i < |s| && !IsSpace(s[i])
    ensures Strip(s) != []
  {
    var l := LStrip(s);
    var n := LeadingSpaces(s);
    assert n <= i;
    assert l[i - n] == s[i];
    assert TrailingSpaces(l) < |l| - (i - n);
  }

  /** The first `sep` of `a + sep + b` is the one after `a` when no character of `a` starts `sep`. */
  lemma FindAfter(a: string, sep: string, b: string)
    requires |sep| > 0 && forall j :: 0 <= j < |a| ==> a[j] != sep[0]
    ensures Find(a + sep + b, sep) == |a|
  {
    PlayModeLogs.SplitOnceOf(a, sep, b);
  }

  /** `"[" + ts` has no `]` when `ts` has none. */
  lemma OpenedNoBracket(ts: string)
    requires ']' !in ts
    ensures forall j :: 0 <= j < |"[" + ts| ==> ("[" + ts)[j] != ']'
  {
    assert forall j :: 1 <= j < |"[" + ts| ==> ("[" + ts)[j] == ts[j - 1];
  }

  /** Stripping leading `[` from `"[" + ts` leaves `ts` when `ts` does not start with `[`. */
  lemma LStripOpened(ts: string)
    requires ts == [] || ts[0] != '['
    ensures LStripChar("[" + ts, '[') == ts
  {
    assert ("[" + ts)[1..] == ts;
  }

  /** What the parser sees in a line that starts with `[`. */
  lemma OpenedLine(line: string)
    requires StartsWith(line, "[")
    ensures Strip(line) != [] && !StartsWith(line, "=") && !StartsWith(line, "    ")
  {
    assert line[0] == '[';
    StripKeeps(line, 0);
    assert line[..1][0] == '[';
    assert |line| < 4 || line[..4][0] == '[';
  }

  /**
   * A header written as `[ts] [level] message` parses back into its
   * columns, the level without its padding, when neither the timestamp nor
   * the level column holds a `]` and the level column is not empty.
   */
  lemma HeaderRoundTrip(ts: string, level: string, message: string)
    requires ']' !in ts && (ts == [] || ts[0] != '[')
    requires ']' !in level && level != []
    ensures ParseLogLine("[" + ts + "] [" + level + "] " + message) == Some(Header(ts, Strip(level), message))
  {
    var line := "[" + ts + "] [" + level + "] " + message;
    HeaderColumnsOf(ts, level, message);
    assert line[0] == '[';
    HeaderLineParses(line);
  }

  /** A line that starts with `[` and has the header columns is a header. */
  lemma HeaderLineParses(line: string)
    requires |line| > 0 && line[0] == '[' && ParseHeader(line).Some?
    ensures ParseLogLine(line) == ParseHeader(line)
  {
    assert line[..1] == "[";
    OpenedLine(line);
  }

  lemma HeaderColumnsOf(ts: string, level: string, message: string)
    requires ']' !in ts && (ts == [] || ts[0] != '[')
    requires ']' !in level && level != []
    ensures ParseHeader("[" + ts + "] [" + level + "] " + message) == Some(Header(ts, Strip(level), message))
  {
    var a := "[" + ts;
    var remaining := level + "] " + message;
    assert "[" + ts + "] [" + level + "] " + message == a + "] [" + remaining;
    OpenedNoBracket(ts);
    PlayModeLogs.SplitOnceOf(a, "] [", remaining);
    LevelColumn(level, message);
    LStripOpened(ts);
  }

  lemma LevelColumn(level: string, message: string)
    requires ']' !in level
    ensures Find(level + "] " + message, "] ") == |level|
    ensures (level + "] " + message)[..|level|] == level && (level + "] " + message)[|level| + 2..] == message
  {
    FindAfter(level, "] ", message);
  }

  /** A header whose level column is empty, `[ts] [] message`, is not an entry; it is skipped. */
  lemma EmptyLevelSkipped(ts: string, message: string)
    requires ']' !in ts
    ensures ParseLogLine("[" + ts + "] [] " + message) == None
  {
    var a := "[" + ts;
    var remaining := "] " + message;
    var line := "[" + ts + "] [] " + message;
    assert line == a + "] [" + remaining;
    OpenedNoBracket(ts);
    PlayModeLogs.SplitOnceOf(a, "] [", remaining);
    assert OccursAt(remaining, "] ", 0);
    assert line[..1] == "[";
    OpenedLine(line);
  }

  /** An indented line that is not blank is a continuation holding its stripped text. */
  lemma IndentedContinues(line: string)
    requires StartsWith(line, "    ") && Strip(line) != []
    ensures ParseLogLine(line) == Some(Continuation(Strip(line)))
  {
    assert line[0] == line[..4][0] == ' ';
    assert line[..1][0] == ' ';
  }

  /** A header line starts with `[`, holds `] [`, and its level is stripped and its message is the end of the line. */
  lemma HeaderShape(line: string)
    requires ParseLogLine(line).Some? && ParseLogLine(line).value.Header?
    ensures StartsWith(line, "[") && Contains(line, "] [")
    ensures var h := ParseLogLine(line).value; Strip(h.level) == h.level && exists k :: 0 <= k <= |line| && line[k..] == h.message
  {
    assert StartsWith(line, "[") && ParseHeader(line) == ParseLogLine(line);
    HeaderColumns(line);
  }

  /** The columns of a header: the level is stripped and the message is the end of the line. */
  lemma HeaderColumns(line: string)
    requires ParseHeader(line).Some?
    ensures Contains(line, "] [")
    ensures var h := ParseHeader(line).value; Strip(h.level) == h.level && exists k :: 0 <= k <= |line| && line[k..] == h.message
  {
    var split := SplitOnce(line, "] [").value;
    var levelEnd := Find(split.1, "] ");
    StripIdempotent(split.1[..levelEnd]);
    SuffixAfter(split.0, "] [", split.1, levelEnd + 2);
  }

  lemma SuffixAfter(a: string, sep: string, b: string, j: nat)
    requires j <= |b|
    ensures (a + sep + b)[|a| + |sep| + j..] == b[j..]
  {
  }

  // ---------------------------------------------------------------------
  // read_session_logs

  /** What `parse_log_line` makes of each line of a session file. */
  function Parsed(lines: seq<string>): seq<Option<ParsedLine>> {
    seq(|lines|, i requires 0 <= i < |lines| => ParseLogLine(lines[i]))
  }

  lemma ParsedSuffix(lines: seq<string>, k: nat)
    requires k <= |lines|
    ensures Parsed(lines[k..]) == Parsed(lines)[k..]
  {
  }

  lemma ParsedPrefix(lines: seq<string>, k: nat)
    requires k <= |lines|
    ensures Parsed(lines[..k]) == Parsed(lines)[..k]
  {
  }

  lemma ParsedConcat(a: seq<string>, b: seq<string>)
    ensures Parsed(a + b) == Parsed(a) + Parsed(b)
  {
  }

  predicate IsHeader(p: Option<ParsedLine>) {
    p.Some? && p.value.Header?
  }

  /** `log_indices`: the positions of the header lines, in order. */
  function HeaderIndices(ps: seq<Option<ParsedLine>>): (r: seq<nat>)
    ensures forall j :: 0 <= j < |r| ==> r[j] < |ps| && IsHeader(ps[r[j]])
    ensures forall i, j :: 0 <= i < j < |r| ==> r[i] < r[j]
  {
    if ps == [] then []
    else HeaderIndices(ps[..|ps| - 1]) + (if IsHeader(ps[|ps| - 1]) then [|ps| - 1] else [])
  }

  /** An entry of the session file: a header and the continuation lines after it. */
  datatype EditEntry = EditEntry(timestamp: string, level: string, message: string, stackTrace: seq<string>)

  /** The loop state: the finished entries and the dictionary `current_log`. */
  datatype Grouping = Grouping(logs: seq<EditEntry>, current: Option<EditEntry>)

  const Empty := Grouping([], None)

  /** The entries with the current one appended. */
  function Close(g: Grouping): seq<EditEntry> {
    if g.current.Some? then g.logs + [g.current.value] else g.logs
  }

  /** One line of the grouping loop. */
  function GroupStep(g: Grouping, p: Option<ParsedLine>): Grouping {
    match p
      case None => g
      case Some(Header(t, l, m)) => Grouping(Close(g), Some(EditEntry(t, l, m, [])))
      case Some(Continuation(text)) =>
        if g.current.Some? then g.(current := Some(g.current.value.(stackTrace := g.current.value.stackTrace + [text])))
        else g
  }

  function GroupRun(g: Grouping, ps: seq<Option<ParsedLine>>): Grouping {
    if ps == [] then g else GroupStep(GroupRun(g, ps[..|ps| - 1]), ps[|ps| - 1])
  }

  /** The entries the grouping loop builds, the last one included. */
  function Group(ps: seq<Option<ParsedLine>>): seq<EditEntry> {
    Close(GroupRun(Empty, ps))
  }

  /**
   * Where `read_session_logs` starts reading when tailing by `tail`:
   * `log_indices[-tail]` once there are more headers than `tail`, the
   * first line otherwise, and `None` when the index is out of range (a
   * negative `tail` that reaches past the end), where the exception
   * handler leaves no entries.
   */
  function TailStart(indices: seq<nat>, tail: int): (r: Option<nat>)
    ensures r.Some? ==> r.value == 0 || r.value in indices
  {
    if !(|indices| > 0 && |indices| > tail) then Some(0)
    else if tail > 0 then Some(indices[|indices| - tail])
    else if -tail < |indices| then Some(indices[-tail])
    else None
  }

  /** The level filter: case-insensitive membership in the listed levels. */
  predicate LevelListed(e: EditEntry, levels: seq<string>) {
    exists k :: 0 <= k < |levels| && Lower(e.level) == Lower(levels[k])
  }

  /** No filter when the list is empty (or absent). */
  function FilterLevels(logs: seq<EditEntry>, levels: seq<string>): seq<EditEntry> {
    if levels == [] then logs else Filter(logs, e => LevelListed(e, levels))
  }

  /** The first line `read_session_logs` reads, or `None` when tailing fails. */
  function ReadStart(lines: seq<string>, tail: Option<int>): (r: Option<nat>)
    ensures r.Some? ==> r.value <= |lines|
  {
    if tail.Some? && tail.value != 0 then TailStart(HeaderIndices(Parsed(lines)), tail.value) else Some(0)
  }

  /** The entries `read_session_logs` returns for a session file with the lines `lines`. */
  function SessionLogs(lines: seq<string>, tail: Option<int>, levels: seq<string>): seq<EditEntry> {
    match ReadStart(lines, tail)
      case None => []
      case Some(k) => FilterLevels(Group(Parsed(lines[k..])), levels)
  }

  lemma IndicesSnoc(ps: seq<Option<ParsedLine>>, i: nat)
    requires i < |ps|
    ensures HeaderIndices(ps[..i + 1]) == HeaderIndices(ps[..i]) + (if IsHeader(ps[i]) then [i] else [])
  {
    assert ps[..i + 1][..i] == ps[..i];
  }

  lemma GroupSnoc(ps: seq<Option<ParsedLine>>, i: nat)
    requires i < |ps|
    ensures GroupRun(Empty, ps[..i + 1]) == GroupStep(GroupRun(Empty, ps[..i]), ps[i])
  {
    assert ps[..i + 1][..i] == ps[..i];
  }

  /** The first loop of `read_session_logs`: the indices of the header lines. */
  method HeaderLineIndices(lines: seq<string>) returns (indices: seq<nat>)
    ensures indices == HeaderIndices(Parsed(lines))
  {
    ghost var ps := Parsed(lines);
    indices := [];
    for i := 0 to |lines|
      invariant indices == HeaderIndices(ps[..i])
    {
      var parsed := ParseLogLine(lines[i]);
      IndicesSnoc(ps, i);
      if parsed.Some? && parsed.value.Header? {
        indices := indices + [i];
      }
    }
    assert ps[..|lines|] == ps;
  }

  /** The grouping loop of `read_session_logs`. */
  method GroupLines(lines: seq<string>) returns (logs: seq<EditEntry>)
    ensures logs == Group(Parsed(lines))
  {
    ghost var ps := Parsed(lines);
    logs := [];
    var current: Option<EditEntry> := None;
    for i := 0 to |lines|
      invariant Grouping(logs, current) == GroupRun(Empty, ps[..i])
    {
      var parsed := ParseLogLine(lines[i]);
      GroupSnoc(ps, i);
      if parsed.Some? {
        match parsed.value
        case Header(t, l, m) =>
          if current.Some? {
            logs := logs + [current.value];
          }
          current := Some(EditEntry(t, l, m, []));
        case Continuation(text) =>
          if current.Some? {
            current := Some(current.value.(stackTrace := current.value.stackTrace + [text]));
          }
      }
    }
    assert ps[..|lines|] == ps;
    if current.Some? {
      logs := logs + [current.value];
    }
  }

  /**
   * `read_session_logs` over the lines of a session file: when `tail` is
   * given and not zero, reading starts at the `tail`-th header from the
   * end; the lines are then grouped into entries and the level filter is
   * applied. An empty `levels` is no filter.
   */
  method ReadSessionLogs(lines: seq<string>, tail: Option<int>, levels: seq<string>) returns (logs: seq<EditEntry>)
    ensures logs == SessionLogs(lines, tail, levels)
  {
    var start: nat := 0;
    if tail.Some? && tail.value != 0 {
      var indices := HeaderLineIndices(lines);
      var from := TailStart(indices, tail.value);
      if from.None? {
        return [];
      }
      start := from.value;
    }
    assert ReadStart(lines, tail) == Some(start);
    var body := lines[start..];
    logs := GroupLines(body);
    logs := FilterLevels(logs, levels);
  }

  // ---------------------------------------------------------------------
  // What read_session_logs promises

  /** The number of header lines of a session file. */
  function HeaderCount(lines: seq<string>): nat {
    |HeaderIndices(Parsed(lines))|
  }

  /** Every header opens exactly one entry. */
  lemma {:induction false} GroupRunCount(ps: seq<Option<ParsedLine>>)
    ensures |GroupRun(Empty, ps).logs| + (if GroupRun(Empty, ps).current.Some? then 1 else 0) == |HeaderIndices(ps)|
  {
    if ps != [] {
      GroupRunCount(ps[..|ps| - 1]);
    }
  }

  lemma GroupCount(ps: seq<Option<ParsedLine>>)
    ensures |Group(ps)| == |HeaderIndices(ps)|
  {
    GroupRunCount(ps);
  }

  lemma {:induction false} HeaderIndicesConcat(a: seq<Option<ParsedLine>>, b: seq<Option<ParsedLine>>)
    ensures |HeaderIndices(a + b)| == |HeaderIndices(a)| + |HeaderIndices(b)|
  {
    if b == [] {
      assert a + b == a;
    } else {
      var b' := b[..|b| - 1];
      HeaderIndicesConcat(a, b');
      assert (a + b)[..|a + b| - 1] == a + b';
      assert (a + b)[|a + b| - 1] == b[|b| - 1];
    }
  }

  /** The headers of a prefix are the first of all headers: those before the cut. */
  lemma {:induction false} HeaderIndicesPrefix(ps: seq<Option<ParsedLine>>, k: nat)
    requires k <= |ps|
    ensures |HeaderIndices(ps[..k])| <= |HeaderIndices(ps)|
    ensures HeaderIndices(ps[..k]) == HeaderIndices(ps)[..|HeaderIndices(ps[..k])|]
    ensures forall j :: |HeaderIndices(ps[..k])| <= j < |HeaderIndices(ps)| ==> HeaderIndices(ps)[j] >= k
  {
    if k == |ps| {
      assert ps[..k] == ps;
    } else {
      var init := ps[..|ps| - 1];
      HeaderIndicesPrefix(init, k);
      assert init[..k] == ps[..k];
    }
  }

  /** Reading from the `j`-th header on leaves the headers from the `j`-th on. */
  lemma TailedHeaders(ps: seq<Option<ParsedLine>>, j: nat)
    requires j < |HeaderIndices(ps)|
    ensures |HeaderIndices(ps[HeaderIndices(ps)[j]..])| == |HeaderIndices(ps)| - j
  {
    var idx := HeaderIndices(ps);
    var k := idx[j];
    assert ps[..k] + ps[k..] == ps;
    HeaderIndicesConcat(ps[..k], ps[k..]);
    HeaderIndicesPrefix(ps, k);
    var m := |HeaderIndices(ps[..k])|;
    assert forall i :: 0 <= i < m ==> idx[i] == HeaderIndices(ps[..k])[i] < k;
    var next := if m < |idx| then idx[m] else k;
    assert next >= k;
    assert j == m;
  }

  /** Positions in a suffix that starts at `k`, as positions in the whole file. */
  function Shift(xs: seq<nat>, k: nat): (r: seq<nat>)
    ensures |r| == |xs|
  {
    seq(|xs|, i requires 0 <= i < |xs| => xs[i] + k)
  }

  lemma ShiftConcat(xs: seq<nat>, ys: seq<nat>, k: nat)
    ensures Shift(xs + ys, k) == Shift(xs, k) + Shift(ys, k)
  {
  }

  /** The last line of `a + b` adds the same header to it as to `b`, shifted past `a`. */
  lemma HeaderIndicesAppendLast(a: seq<Option<ParsedLine>>, b: seq<Option<ParsedLine>>)
    requires b != []
    ensures HeaderIndices(a + b) == HeaderIndices(a + b[..|b| - 1]) + Shift(if IsHeader(b[|b| - 1]) then [|b| - 1] else [], |a|)
    ensures HeaderIndices(b) == HeaderIndices(b[..|b| - 1]) + (if IsHeader(b[|b| - 1]) then [|b| - 1] else [])
  {
    assert (a + b)[..|a + b| - 1] == a + b[..|b| - 1];
    assert (a + b)[|a + b| - 1] == b[|b| - 1];
  }

  /** The headers of `a + b` are those of `a`, then those of `b` shifted past `a`. */
  lemma {:induction false} HeaderIndicesAppend(a: seq<Option<ParsedLine>>, b: seq<Option<ParsedLine>>)
    ensures HeaderIndices(a + b) == HeaderIndices(a) + Shift(HeaderIndices(b), |a|)
  {
    if b == [] {
      assert a + b == a;
    } else {
      var b' := b[..|b| - 1];
      var t := HeaderIndices(b');
      var e: seq<nat> := if IsHeader(b[|b| - 1]) then [|b| - 1] else [];
      HeaderIndicesAppendLast(a, b);
      HeaderIndicesAppend(a, b');
      ShiftConcat(t, e, |a|);
      calc {
        HeaderIndices(a + b);
        HeaderIndices(a + b') + Shift(e, |a|);
        (HeaderIndices(a) + Shift(t, |a|)) + Shift(e, |a|);
        HeaderIndices(a) + (Shift(t, |a|) + Shift(e, |a|));
        HeaderIndices(a) + Shift(t + e, |a|);
      }
    }
  }

  /** The headers of a file are those before the cut, then those of the suffix shifted by the cut. */
  lemma HeaderIndicesSuffix(ps: seq<Option<ParsedLine>>, k: nat)
    requires k <= |ps|
    ensures HeaderIndices(ps) == HeaderIndices(ps[..k]) + Shift(HeaderIndices(ps[k..]), k)
  {
    assert ps[..k] + ps[k..] == ps;
    HeaderIndicesAppend(ps[..k], ps[k..]);
  }

  lemma TailedSuffix(ps: seq<Option<ParsedLine>>, n: int, k: nat)
    requires n > 0 && TailStart(HeaderIndices(ps), n) == Some(k)
    ensures k <= |ps|
    ensures |HeaderIndices(ps[k..])| == if |HeaderIndices(ps)| > n then n else |HeaderIndices(ps)|
  {
    var idx := HeaderIndices(ps);
    if |idx| > n {
      TailedHeaders(ps, |idx| - n);
    } else {
      assert ps[k..] == ps;
    }
  }

  /**
   * Tailing by a positive `n` starts reading where exactly the last
   * `min(n, headers)` headers remain: the headers of the file are those
   * before the start followed by those read, so the ones read are the
   * last headers of the file, in order.
   */
  lemma TailKeepsLastHeaders(lines: seq<string>, n: int, k: nat)
    requires n > 0 && ReadStart(lines, Some(n)) == Some(k)
    ensures k <= |lines|
    ensures HeaderCount(lines[k..]) == if HeaderCount(lines) > n then n else HeaderCount(lines)
    ensures HeaderIndices(Parsed(lines)) == HeaderIndices(Parsed(lines[..k])) + Shift(HeaderIndices(Parsed(lines[k..])), k)
  {
    var ps := Parsed(lines);
    assert ReadStart(lines, Some(n)) == TailStart(HeaderIndices(ps), n);
    TailedSuffix(ps, n, k);
    ParsedPrefix(lines, k);
    ParsedSuffix(lines, k);
    HeaderIndicesSuffix(ps, k);
  }

  /**
   * With a positive `tail`, at most `tail` entries come out; with more
   * headers than that and no level filter, exactly `tail`.
   */
  lemma TailAtMost(lines: seq<string>, n: int, levels: seq<string>)
    requires n > 0
    ensures |SessionLogs(lines, Some(n), levels)| <= n
    ensures HeaderCount(lines) > n ==> |SessionLogs(lines, Some(n), [])| == n
  {
    var k := ReadStart(lines, Some(n)).value;
    TailKeepsLastHeaders(lines, n, k);
    var entries := Group(Parsed(lines[k..]));
    GroupCount(Parsed(lines[k..]));
    assert SessionLogs(lines, Some(n), levels) == FilterLevels(entries, levels);
    assert SessionLogs(lines, Some(n), []) == entries;
  }

  lemma {:induction false} GroupRunConcat(g: Grouping, a: seq<Option<ParsedLine>>, b: seq<Option<ParsedLine>>)
    ensures GroupRun(g, a + b) == GroupRun(GroupRun(g, a), b)
  {
    if b == [] {
      assert a + b == a;
    } else {
      var b' := b[..|b| - 1];
      GroupRunConcat(g, a, b');
      assert (a + b)[..|a + b| - 1] == a + b';
      assert (a + b)[|a + b| - 1] == b[|b| - 1];
    }
  }

  /** Lines without a header before the first entry leave the loop where it started. */
  lemma {:induction false} WithoutHeaderNothing(ps: seq<Option<ParsedLine>>)
    requires forall i :: 0 <= i < |ps| ==> !IsHeader(ps[i])
    ensures GroupRun(Empty, ps) == Empty
  {
    if ps != [] {
      WithoutHeaderNothing(ps[..|ps| - 1]);
    }
  }

  /** Continuation lines before the first header are dropped: they change nothing read. */
  lemma ContinuationsBeforeFirstHeaderDropped(pre: seq<string>, rest: seq<string>, levels: seq<string>)
    requires forall i :: 0 <= i < |pre| ==> !IsHeader(ParseLogLine(pre[i]))
    ensures SessionLogs(pre + rest, None, levels) == SessionLogs(rest, None, levels)
  {
    ParsedConcat(pre, rest);
    GroupRunConcat(Empty, Parsed(pre), Parsed(rest));
    WithoutHeaderNothing(Parsed(pre));
    assert (pre + rest)[0..] == pre + rest;
    assert rest[0..] == rest;
  }

  /** The texts of the continuation lines among `ps`, in order. */
  function Texts(ps: seq<Option<ParsedLine>>): seq<string> {
    if ps == [] then []
    else
      var last := ps[|ps| - 1];
      Texts(ps[..|ps| - 1]) + (if last.Some? && last.value.Continuation? then [last.value.text] else [])
  }

  lemma {:induction false} ContinuationsAttach(logs: seq<EditEntry>, e: EditEntry, ps: seq<Option<ParsedLine>>)
    requires forall i :: 0 <= i < |ps| ==> !IsHeader(ps[i])
    ensures GroupRun(Grouping(logs, Some(e)), ps) == Grouping(logs, Some(e.(stackTrace := e.stackTrace + Texts(ps))))
  {
    if ps != [] {
      ContinuationsAttach(logs, e, ps[..|ps| - 1]);
      var t := Texts(ps[..|ps| - 1]);
      var last := ps[|ps| - 1];
      if last.Some? && last.value.Continuation? {
        assert Texts(ps) == t + [last.value.text];
        assert e.stackTrace + t + [last.value.text] == e.stackTrace + (t + [last.value.text]);
      } else {
        assert Texts(ps) == t;
      }
    } else {
      assert e.stackTrace + [] == e.stackTrace;
    }
  }

  /**
   * A header followed by lines that hold no header is one entry whose stack
   * trace is the stripped text of the continuation lines among them, in
   * order; blank, `=` and other lines are skipped.
   */
  lemma HeaderCollectsContinuations(header: string, ts: string, level: string, message: string, rest: seq<string>)
    requires ParseLogLine(header) == Some(Header(ts, level, message))
    requires forall i :: 0 <= i < |rest| ==> !IsHeader(ParseLogLine(rest[i]))
    ensures SessionLogs([header] + rest, None, []) == [EditEntry(ts, level, message, Texts(Parsed(rest)))]
  {
    ParsedCons(header, rest);
    Untailed([header] + rest);
    assert forall i :: 0 <= i < |Parsed(rest)| ==> !IsHeader(Parsed(rest)[i]);
    HeaderThenNoHeader(ParseLogLine(header), Parsed(rest));
    assert Group(Parsed([header] + rest)) == [EditEntry(ts, level, message, Texts(Parsed(rest)))];
  }

  lemma ParsedCons(line: string, rest: seq<string>)
    ensures Parsed([line] + rest) == [ParseLogLine(line)] + Parsed(rest)
  {
    ParsedConcat([line], rest);
  }

  /** Without tailing every line is read. */
  lemma Untailed(lines: seq<string>)
    ensures SessionLogs(lines, None, []) == Group(Parsed(lines))
  {
    assert lines[0..] == lines;
  }

  lemma HeaderThenNoHeader(p: Option<ParsedLine>, ps: seq<Option<ParsedLine>>)
    requires p.Some? && p.value.Header?
    requires forall i :: 0 <= i < |ps| ==> !IsHeader(ps[i])
    ensures Group([p] + ps) == [EditEntry(p.value.timestamp, p.value.level, p.value.message, Texts(ps))]
  {
    var entry := EditEntry(p.value.timestamp, p.value.level, p.value.message, []);
    GroupRunConcat(Empty, [p], ps);
    assert [p][..0] == [];
    assert GroupRun(Empty, [p]) == Grouping([], Some(entry));
    ContinuationsAttach([], entry, ps);
    assert [] + Texts(ps) == Texts(ps);
  }

  /** The level filter comes after tailing and grouping, and keeps exactly the listed levels, ignoring case. */
  lemma LevelFilterAfterTail(lines: seq<string>, tail: Option<int>, levels: seq<string>, e: EditEntry)
    ensures e in SessionLogs(lines, tail, levels)
            <==> e in SessionLogs(lines, tail, []) && (levels == [] || LevelListed(e, levels))
  {
    match ReadStart(lines, tail)
    case None =>
    case Some(k) =>
      FilterMembers(Group(Parsed(lines[k..])), e => LevelListed(e, levels), e);
  }

  // ---------------------------------------------------------------------
  // The errors command of main

  /** A session file as `get_session_files` lists it, most recent first: its id and its lines. */
  datatype Session = Session(id: string, lines: seq<string>)

  /** An entry gathered by the `errors` command, tagged with its session. */
  datatype SessionError = SessionError(sessionId: string, entry: EditEntry)

  const ErrorLevels: seq<string> := ["Error", "Exception", "Assert"]

  /** `log['session_id'] = id` for every entry of a session. */
  function Tagged(id: string, logs: seq<EditEntry>): (r: seq<SessionError>)
    ensures |r| == |logs| && forall i :: 0 <= i < |logs| ==> r[i] == SessionError(id, logs[i])
  {
    seq(|logs|, i requires 0 <= i < |logs| => SessionError(id, logs[i]))
  }

  /** The error-level entries of one session, tagged with its id. */
  function SessionErrors(s: Session): seq<SessionError> {
    Tagged(s.id, SessionLogs(s.lines, None, ErrorLevels))
  }

  /** The pieces gathered from `session_files[:3]`, one per session. */
  function ErrorPieces(sessions: seq<Session>): seq<seq<SessionError>> {
    var recent := PyTake(sessions, 3);
    seq(|recent|, i requires 0 <= i < |recent| => SessionErrors(recent[i]))
  }

  function ErrorTime(x: SessionError): string {
    x.entry.timestamp
  }

  /** With a non-zero `lines` and more errors than that, only the last `lines` errors are kept (a Python slice). */
  function LimitErrors(xs: seq<SessionError>, lines: Option<int>): seq<SessionError> {
    if lines.Some? && lines.value != 0 && |xs| > lines.value then PyDrop(xs, -lines.value) else xs
  }

  /** What the `errors` command shows. */
  function Errors(sessions: seq<Session>, lines: Option<int>): seq<SessionError> {
    LimitErrors(SortByKey(Concat(ErrorPieces(sessions)), ErrorTime, StrLe), lines)
  }

  /**
   * The `errors` command: read the three most recent sessions with the
   * error levels, tag and gather their entries, sort them by timestamp and
   * keep the last `lines`.
   */
  method ErrorsCommand(sessions: seq<Session>, lines: Option<int>) returns (errors: seq<SessionError>)
    ensures errors == Errors(sessions, lines)
  {
    var recent := PyTake(sessions, 3);
    ghost var pieces := ErrorPieces(sessions);
    var all: seq<SessionError> := [];
    for i := 0 to |recent|
      invariant all == Concat(pieces[..i])
    {
      var logs := ReadSessionLogs(recent[i].lines, None, ErrorLevels);
      ConcatSnoc(pieces, i);
      if logs != [] {
        all := all + Tagged(recent[i].id, logs);
      } else {
        assert all + pieces[i] == all;
      }
    }
    assert pieces[..|recent|] == pieces;
    errors := SortByKey(all, ErrorTime, StrLe);
    if lines.Some? && lines.value != 0 && |errors| > lines.value {
      errors := PyDrop(errors, -lines.value);
    }
  }

  /** The errors are shown in timestamp order, and a positive line count bounds their number. */
  lemma ErrorsSorted(sessions: seq<Session>, lines: Option<int>)
    ensures SortedBy(Errors(sessions, lines), ErrorTime, StrLe)
    ensures lines.Some? && lines.value > 0 ==> |Errors(sessions, lines)| <= lines.value
  {
    var sorted := SortByKey(Concat(ErrorPieces(sessions)), ErrorTime, StrLe);
    StrLeTotalOrder();
    SortSorted(Concat(ErrorPieces(sessions)), ErrorTime, StrLe);
    var r := Errors(sessions, lines);
    SuffixSorted(sorted, |sorted| - |r|, ErrorTime, StrLe);
  }

  /** What the gathered pieces hold: error-level entries of the first three sessions, tagged with their ids. */
  lemma GatheredMembers(sessions: seq<Session>, x: SessionError)
    ensures x in Concat(ErrorPieces(sessions))
            <==> exists i :: 0 <= i < |sessions| && i < 3 && x.sessionId == sessions[i].id
                              && x.entry in SessionLogs(sessions[i].lines, None, ErrorLevels)
  {
    if x in Concat(ErrorPieces(sessions)) {
      GatheredFrom(sessions, x);
    }
    if exists i :: 0 <= i < |sessions| && i < 3 && x.sessionId == sessions[i].id
                   && x.entry in SessionLogs(sessions[i].lines, None, ErrorLevels) {
      var i :| 0 <= i < |sessions| && i < 3 && x.sessionId == sessions[i].id
               && x.entry in SessionLogs(sessions[i].lines, None, ErrorLevels);
      GatheredTo(sessions, x, i);
    }
  }

  lemma GatheredFrom(sessions: seq<Session>, x: SessionError)
    requires x in Concat(ErrorPieces(sessions))
    ensures exists i :: 0 <= i < |sessions| && i < 3 && x.sessionId == sessions[i].id
                        && x.entry in SessionLogs(sessions[i].lines, None, ErrorLevels)
  {
    var pieces := ErrorPieces(sessions);
    ConcatMembers(pieces, x);
    var i :| 0 <= i < |pieces| && x in pieces[i];
    var logs := SessionLogs(sessions[i].lines, None, ErrorLevels);
    assert pieces[i] == Tagged(sessions[i].id, logs);
    var j :| 0 <= j < |pieces[i]| && pieces[i][j] == x;
    assert x.entry == logs[j];
  }

  lemma GatheredTo(sessions: seq<Session>, x: SessionError, i: nat)
    requires i < |sessions| && i < 3 && x.sessionId == sessions[i].id
    requires x.entry in SessionLogs(sessions[i].lines, None, ErrorLevels)
    ensures x in Concat(ErrorPieces(sessions))
  {
    var pieces := ErrorPieces(sessions);
    var logs := SessionLogs(sessions[i].lines, None, ErrorLevels);
    assert pieces[i] == Tagged(sessions[i].id, logs);
    var j :| 0 <= j < |logs| && logs[j] == x.entry;
    assert pieces[i][j] == x;
    ConcatMembers(pieces, x);
  }

  /**
   * Every error shown comes from one of the three most recent sessions,
   * carries that session's id and has an error level; without a line
   * count every such entry is shown.
   */
  lemma ErrorsMembers(sessions: seq<Session>, lines: Option<int>, x: SessionError)
    ensures x in Errors(sessions, lines) ==>
              (exists i :: 0 <= i < |sessions| && i < 3 && x.sessionId == sessions[i].id
                           && x.entry in SessionLogs(sessions[i].lines, None, ErrorLevels))
              && LevelListed(x.entry, ErrorLevels)
    ensures lines.None? || lines == Some(0) ==>
              (x in Errors(sessions, lines)
               <==> exists i :: 0 <= i < |sessions| && i < 3 && x.sessionId == sessions[i].id
                                && x.entry in SessionLogs(sessions[i].lines, None, ErrorLevels))
  {
    var gathered := Concat(ErrorPieces(sessions));
    var sorted := SortByKey(gathered, ErrorTime, StrLe);
    SortPermutes(gathered, ErrorTime, StrLe);
    assert x in sorted <==> x in gathered by {
      assert x in sorted <==> multiset(sorted)[x] > 0;
      assert x in gathered <==> multiset(gathered)[x] > 0;
    }
    GatheredMembers(sessions, x);
    if x in Errors(sessions, lines) {
      assert x in sorted;
      var i :| 0 <= i < |sessions| && i < 3 && x.sessionId == sessions[i].id
               && x.entry in SessionLogs(sessions[i].lines, None, ErrorLevels);
      LevelFilterAfterTail(sessions[i].lines, None, ErrorLevels, x.entry);
    }
  }

  /** Sessions after the third most recent one are never read. */
  lemma OlderSessionsIgnored(sessions: seq<Session>, lines: Option<int>)
    requires |sessions| > 3
    ensures Errors(sessions, lines) == Errors(sessions[..3], lines)
  {
    assert PyTake(sessions, 3) == PyTake(sessions[..3], 3);
    assert ErrorPieces(sessions) == ErrorPieces(sessions[..3]);
  }
}
