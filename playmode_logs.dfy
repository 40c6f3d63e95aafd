/**
 * The PlayMode log-file parser `parse_log_file`, which both copies of
 * test_playmode_logs.py share line for line once the file is opened (the
 * Editor copy opens it with `errors='replace'`, the ScriptingTools copy
 * without, so a decode error there ends the read early), and the parts of
 * their `main` and `display_logs` that agree: the error-level set, the
 * timestamp sort, the last-N limit, the display filters and the per-level
 * counts.
 *
 * A log file is given as its lines. A header line
 * `[timestamp] [level] [Frame: n] message` opens an entry; the non-blank
 * lines after it are its stack trace.
 */
module PlayModeLogs {
  import opened Wrappers
  import opened PyStr
  import opened Seqs

  /** One entry: the dictionary `parse_log_file` builds for a header line. */
  datatype LogEntry = LogEntry(timestamp: string, level: string, frame: Option<string>, message: string, stackTrace: seq<string>)

  /** The separator between the bracketed columns of a header. */
  const HeaderSep: string := "] ["

  /** The separator after the frame column. */
  const FrameSep: string := "] "

  /** `line.startswith('[') and '] [' in line`: the line opens an entry. */
  predicate IsHeader(line: string) {
    StartsWith(line, "[") && Contains(line, HeaderSep)
  }

  /**
   * The frame column at the head of a message. `Frame: 12] text` gives the
   * frame "12" and the message "text"; `Thread] text` gives the frame
   * "Thread". Any other message, or one without `] `, keeps no frame.
   */
  function SplitFrame(message: string): (Option<string>, string) {
    if StartsWith(message, "Frame:") || StartsWith(message, "Thread") then
      match SplitOnce(message, FrameSep)
        case None => (None, message)
        case Some((before, after)) =>
          (Some(if StartsWith(message, "Frame:") then Strip(Replace(before, "Frame:", "")) else "Thread"), after)
    else (None, message)
  }

  /**
   * A frame is split off exactly when the message starts with `Frame:` or
   * `Thread` and holds `] `; the message is then what follows the first
   * `] `, and the frame is "Thread" or a stripped text.
   */
  lemma SplitFrameShape(message: string)
    ensures SplitFrame(message).0.Some? <==> (StartsWith(message, "Frame:") || StartsWith(message, "Thread")) && Contains(message, FrameSep)
    ensures SplitFrame(message).0.None? ==> SplitFrame(message).1 == message
    ensures SplitFrame(message).0.Some? ==>
              var rest := SplitFrame(message).1;
              |rest| + 2 <= |message| && message[|message| - |rest|..] == rest
              && Find(message, FrameSep) == |message| - |rest| - 2
    ensures SplitFrame(message).0.Some? && !StartsWith(message, "Frame:") ==> SplitFrame(message).0.value == "Thread"
    ensures SplitFrame(message).0.Some? && StartsWith(message, "Frame:") ==> Strip(SplitFrame(message).0.value) == SplitFrame(message).0.value
  {
    if StartsWith(message, "Frame:") || StartsWith(message, "Thread") {
      match SplitOnce(message, FrameSep)
        case None =>
        case Some((before, after)) =>
          StripIdempotent(Replace(before, "Frame:", ""));
    }
  }

  /**
   * The entry a header line opens, with an empty stack trace; None when
   * `line.split('] [', 2)` has fewer than three parts.
   */
  function ParseHeader(line: string): Option<LogEntry> {
    var parts := SplitMax(line, HeaderSep, 2);
    if |parts| < 3 then None
    else
      var (frame, message) := SplitFrame(parts[2]);
      Some(LogEntry(LStripChar(parts[0], '['), Strip(RStripChar(parts[1], ']')), frame, message, []))
  }

  /**
   * A header opens an entry exactly when the separator `] [` occurs a
   * second time after its first occurrence.
   */
  lemma ParseHeaderOpens(line: string)
    ensures ParseHeader(line).Some? <==> Contains(line, HeaderSep) && Contains(line[Find(line, HeaderSep) + 3..], HeaderSep)
  {
    SplitMaxTwo(line, HeaderSep);
  }

  /**
   * The entry a header opens has an empty stack trace, a level without
   * surrounding whitespace, and a timestamp that neither starts with `[`
   * nor holds the separator.
   */
  lemma ParseHeaderEntry(line: string)
    requires ParseHeader(line).Some?
    ensures ParseHeader(line).value.stackTrace == []
    ensures Strip(ParseHeader(line).value.level) == ParseHeader(line).value.level
    ensures ParseHeader(line).value.timestamp == [] || ParseHeader(line).value.timestamp[0] != '['
    ensures !Contains(ParseHeader(line).value.timestamp, HeaderSep)
  {
    var parts := SplitMax(line, HeaderSep, 2);
    var timestamp := LStripChar(parts[0], '[');
    StripIdempotent(RStripChar(parts[1], ']'));
    SuffixNotContains(parts[0], |parts[0]| - |timestamp|, HeaderSep);
  }

  /** A suffix of a string without `sub` has no `sub` either. */
  lemma SuffixNotContains(s: string, k: nat, sub: string)
    requires k <= |s| && !Contains(s, sub)
    ensures !Contains(s[k..], sub)
  {
    if Contains(s[k..], sub) {
      ContainsInSuffix(s, k, sub);
    }
  }

  /** The frame column a capture writes: `Frame: n` or `Thread`. */
  function FrameColumn(frame: Option<string>): string {
    match frame
      case Some(n) => "Frame: " + n
      case None => "Thread"
  }

  /** The third column of a header line: the frame column, `] ` and the message. */
  function FrameText(frame: Option<string>, message: string): string {
    FrameColumn(frame) + FrameSep + message
  }

  /** A header line `[timestamp] [level] [Frame: n] message` or `[timestamp] [level] [Thread] message`. */
  function HeaderLine(timestamp: string, level: string, frame: Option<string>, message: string): string {
    "[" + timestamp + HeaderSep + level + HeaderSep + FrameText(frame, message)
  }

  /** `sep` occurs first right after `a` when no character of `a` starts it. */
  lemma SplitOnceOf(a: string, sep: string, b: string)
    requires |sep| > 0 && forall j :: 0 <= j < |a| ==> a[j] != sep[0]
    ensures SplitOnce(a + sep + b, sep) == Some((a, b))
  {
    var s := a + sep + b;
    assert s[|a|..|a| + |sep|] == sep;
    assert OccursAt(s, sep, |a|);
    assert forall j :: 0 <= j < |a| ==> s[j] == a[j];
    var r := Find(s, sep);
    assert r >= 0;
    assert s[r..r + |sep|][0] == s[r];
    assert r == |a|;
    assert s[..|a|] == a && s[|a| + |sep|..] == b;
  }

  /** A string none of whose characters starts `sub` does not contain `sub`. */
  lemma NotContainsFirst(s: string, sub: string)
    requires |sub| > 0 && forall j :: 0 <= j < |s| ==> s[j] != sub[0]
    ensures !Contains(s, sub)
  {
    forall j | 0 <= j ensures !OccursAt(s, sub, j) {
      if j + |sub| <= |s| {
        assert s[j..j + |sub|][0] == s[j];
      }
    }
  }

  /** The frame column of a digit frame: `Frame: n` without `Frame:` is ` n`, which strips to `n`. */
  lemma FrameDigits(n: string)
    requires n != [] && AllDigits(n)
    ensures Strip(Replace("Frame: " + n, "Frame:", "")) == n
  {
    assert "Frame: " + n == "Frame:" + (" " + n);
    NotContainsFirst(" " + n, "Frame:");
    ReplaceLeading("Frame:", " " + n, "");
    assert "" + (" " + n) == " " + n;
    SpaceThenDigits(n);
  }

  /** A space before a number strips away. */
  lemma SpaceThenDigits(n: string)
    requires n != [] && AllDigits(n)
    ensures Strip(" " + n) == n
  {
    var s := " " + n;
    assert s[1..] == n;
    assert IsDigit(n[0]) && IsDigit(n[|n| - 1]);
    assert LeadingSpaces(s[1..]) == 0;
    assert LeadingSpaces(s) == 1;
    StripUnchanged(n);
  }

  /** The frame column holds no `]`. */
  lemma FrameColumnClosed(frame: Option<string>)
    requires frame.Some? ==> AllDigits(frame.value)
    ensures forall j :: 0 <= j < |FrameColumn(frame)| ==> FrameColumn(frame)[j] != ']'
  {
  }

  /** The message part of a rendered header splits at the end of its frame column. */
  lemma SplitFrameOfColumn(frame: Option<string>, message: string)
    requires frame.Some? ==> frame.value != [] && AllDigits(frame.value)
    ensures SplitFrame(FrameText(frame, message)) == (Some(if frame.Some? then frame.value else "Thread"), message)
  {
    var col := FrameColumn(frame);
    var s := col + FrameSep + message;
    FrameColumnClosed(frame);
    SplitOnceOf(col, FrameSep, message);
    assert s[..|col|] == col;
    if frame.Some? {
      assert StartsWith(s, "Frame:");
      FrameDigits(frame.value);
    } else {
      assert StartsWith(s, "Thread") && !StartsWith(s, "Frame:");
    }
  }

  /** `s.split(sep, 2)` of `a + sep + b + sep + c` when neither `a` nor `b` has a character that starts `sep`. */
  lemma SplitTwiceOf(a: string, sep: string, b: string, c: string)
    requires |sep| > 0
    requires forall j :: 0 <= j < |a| ==> a[j] != sep[0]
    requires forall j :: 0 <= j < |b| ==> b[j] != sep[0]
    ensures SplitMax(a + sep + b + sep + c, sep, 2) == [a, b, c]
    ensures Contains(a + sep + b + sep + c, sep)
  {
    var rest := b + sep + c;
    RegroupFive(a, sep, b, sep, c);
    SplitOnceOf(a, sep, rest);
    SplitOnceOf(b, sep, c);
    assert SplitMax(rest, sep, 1) == [b, c];
  }

  /** The three header columns of a rendered header line. */
  lemma HeaderParts(timestamp: string, level: string, rest: string)
    requires ']' !in timestamp && ']' !in level
    ensures SplitMax("[" + timestamp + HeaderSep + level + HeaderSep + rest, HeaderSep, 2) == ["[" + timestamp, level, rest]
    ensures Contains("[" + timestamp + HeaderSep + level + HeaderSep + rest, HeaderSep)
  {
    var p0 := "[" + timestamp;
    assert forall j :: 1 <= j < |p0| ==> p0[j] == timestamp[j - 1];
    assert forall j :: 0 <= j < |p0| ==> p0[j] != ']';
    assert forall j :: 0 <= j < |level| ==> level[j] != ']';
    SplitTwiceOf(p0, HeaderSep, level, rest);
  }

  /**
   * Round trip: a header line as a capture writes it parses back to its
   * timestamp, level, frame and message, when the timestamp and level hold
   * no `]`, the timestamp does not start with `[`, the level carries no
   * surrounding whitespace and the frame is a number.
   */
  lemma HeaderRoundTrip(timestamp: string, level: string, frame: Option<string>, message: string)
    requires ']' !in timestamp && (timestamp == [] || timestamp[0] != '[')
    requires ']' !in level && Strip(level) == level
    requires frame.Some? ==> frame.value != [] && AllDigits(frame.value)
    ensures IsHeader(HeaderLine(timestamp, level, frame, message))
    ensures ParseHeader(HeaderLine(timestamp, level, frame, message))
            == Some(LogEntry(timestamp, level, Some(if frame.Some? then frame.value else "Thread"), message, []))
  {
    var rest := FrameText(frame, message);
    var line := HeaderLine(timestamp, level, frame, message);
    HeaderParts(timestamp, level, rest);
    SplitFrameOfColumn(frame, message);
    ParseHeaderOfParts(line, "[" + timestamp, level, rest);
    OpenBracketStripped(timestamp);
    CloseBracketAbsent(level);
    assert line[..1] == "[";
  }

  /** `ParseHeader` on a line whose `split('] [', 2)` gives three parts. */
  lemma ParseHeaderOfParts(line: string, p0: string, p1: string, p2: string)
    requires SplitMax(line, HeaderSep, 2) == [p0, p1, p2]
    ensures ParseHeader(line) == Some(LogEntry(LStripChar(p0, '['), Strip(RStripChar(p1, ']')), SplitFrame(p2).0, SplitFrame(p2).1, []))
  {
  }

  lemma OpenBracketStripped(timestamp: string)
    requires timestamp == [] || timestamp[0] != '['
    ensures LStripChar("[" + timestamp, '[') == timestamp
  {
    assert ("[" + timestamp)[1..] == timestamp;
  }

  lemma CloseBracketAbsent(level: string)
    requires ']' !in level
    ensures RStripChar(level, ']') == level
  {
    if level != [] {
      assert level[|level| - 1] in level;
    }
  }

  /**
   * The parser's state between lines: the entries appended so far, the
   * entry being filled, and how many times that entry has already been
   * appended by header lines that did not replace it. Those appends add the
   * same dictionary, so every copy shows the entry's final stack trace.
   */
  datatype ParseState = ParseState(logs: seq<LogEntry>, current: Option<LogEntry>, copies: nat)

  const Start := ParseState([], None, 0)

  /** `n` copies of `e`. */
  function Repeat(e: LogEntry, n: nat): (r: seq<LogEntry>)
    ensures |r| == n && forall j :: 0 <= j < n ==> r[j] == e
  {
    if n == 0 then [] else [e] + Repeat(e, n - 1)
  }

  /** The entries once the current one is appended: the earlier copies and the append itself. */
  function Flush(st: ParseState): seq<LogEntry> {
    match st.current
      case Some(e) => st.logs + Repeat(e, st.copies + 1)
      case None => st.logs
  }

  /**
   * What one line does to the parser: nothing (blank after `rstrip`),
   * open a new entry (a header with three parts), append the current entry
   * again without replacing it (a header with fewer parts), or extend the
   * current entry's stack trace.
   */
  datatype LineKind = Blank | Opens(entry: LogEntry) | Reappends | Trace(text: string)

  function Classify(raw: string): LineKind {
    var line := RStrip(raw);
    if line == [] then Blank
    else if IsHeader(line) then
      match ParseHeader(line)
        case Some(e) => Opens(e)
        case None => Reappends
    else Trace(line)
  }

  /** The kind of every line. */
  function Kinds(lines: seq<string>): (r: seq<LineKind>)
    ensures |r| == |lines| && forall j :: 0 <= j < |lines| ==> r[j] == Classify(lines[j])
  {
    seq(|lines|, j requires 0 <= j < |lines| => Classify(lines[j]))
  }

  /** One iteration of the loop of `parse_log_file`. */
  function Step(st: ParseState, kind: LineKind): ParseState {
    match kind
      case Blank => st
      case Opens(e) => ParseState(Flush(st), Some(e), 0)
      case Reappends => if st.current.Some? then st.(copies := st.copies + 1) else st
      case Trace(text) =>
        match st.current
          case Some(e) => st.(current := Some(e.(stackTrace := e.stackTrace + [text])))
          case None => st
  }

  /** The state after lines of the kinds `kinds`, from `st`. */
  function Run(st: ParseState, kinds: seq<LineKind>): ParseState {
    if kinds == [] then st else Step(Run(st, kinds[..|kinds| - 1]), kinds[|kinds| - 1])
  }

  /** The entries `parse_log_file` returns for a file with the lines `lines`. */
  function ParseLines(lines: seq<string>): seq<LogEntry> {
    Flush(Run(Start, Kinds(lines)))
  }

  lemma RunSnoc(kinds: seq<LineKind>, i: nat)
    requires i < |kinds|
    ensures Run(Start, kinds[..i + 1]) == Step(Run(Start, kinds[..i]), kinds[i])
  {
    assert kinds[..i + 1][..i] == kinds[..i];
  }

  /** The mutable dictionary of one entry; only its stack trace changes after it is built. */
  class LogRecord {
    const timestamp: string
    const level: string
    const frame: Option<string>
    const message: string
    var stackTrace: seq<string>

    constructor (e: LogEntry)
      ensures Entry() == e
    {
      timestamp := e.timestamp;
      level := e.level;
      frame := e.frame;
      message := e.message;
      stackTrace := e.stackTrace;
    }

    /** The entry this dictionary holds now. */
    function Entry(): LogEntry
      reads this
    {
      LogEntry(timestamp, level, frame, message, stackTrace)
    }
  }

  /**
   * The dictionaries of the loop stand for the state `st`: the first
   * `|st.logs|` hold its entries and differ from the current one, and the
   * rest are the current dictionary, appended again.
   */
  ghost predicate Mirrors(logs: seq<LogRecord>, current: LogRecord?, st: ParseState)
    reads logs, current
  {
    (current == null <==> st.current.None?)
    && (current != null ==> current.Entry() == st.current.value)
    && (st.current.None? ==> st.copies == 0)
    && |logs| == |st.logs| + st.copies
    && (forall k :: 0 <= k < |st.logs| ==> logs[k] != current && logs[k].Entry() == st.logs[k])
    && (forall k :: |st.logs| <= k < |logs| ==> logs[k] == current)
  }

  /** A header that does not replace the entry appends the current dictionary once more. */
  lemma MirrorsAppend(logs: seq<LogRecord>, current: LogRecord, st: ParseState)
    requires Mirrors(logs, current, st)
    ensures Mirrors(logs + [current], current, st.(copies := st.copies + 1))
  {
  }

  /** The entries the dictionaries appended so far hold: the closed ones and the copies of the current one. */
  function Appended(st: ParseState): seq<LogEntry> {
    match st.current
      case Some(e) => st.logs + Repeat(e, st.copies)
      case None => st.logs
  }

  /** The dictionaries appended so far hold the entries `Appended(st)`. */
  lemma MirrorsAppended(logs: seq<LogRecord>, current: LogRecord?, st: ParseState)
    requires Mirrors(logs, current, st)
    ensures |logs| == |Appended(st)| && forall k :: 0 <= k < |logs| ==> logs[k].Entry() == Appended(st)[k]
  {
  }

  /** A new dictionary, different from all appended ones, becomes the current entry. */
  method OpenRecord(e: LogEntry, ghost logs: seq<LogRecord>, ghost done: seq<LogEntry>) returns (r: LogRecord)
    requires |logs| == |done| && forall k :: 0 <= k < |logs| ==> logs[k].Entry() == done[k]
    ensures fresh(r) && Mirrors(logs, r, ParseState(done, Some(e), 0))
  {
    r := new LogRecord(e);
  }

  /**
   * A header line: the current dictionary is appended, and a header with
   * three parts starts a new one.
   */
  method HeaderStep(logs: seq<LogRecord>, current: LogRecord?, ghost st: ParseState, parsed: Option<LogEntry>)
    returns (logs': seq<LogRecord>, current': LogRecord?)
    requires Mirrors(logs, current, st)
    ensures current' == current || fresh(current')
    ensures Mirrors(logs', current', Step(st, if parsed.Some? then Opens(parsed.value) else Reappends))
  {
    logs', current' := logs, current;
    ghost var appended := st;
    if current != null {
      MirrorsAppend(logs, current, st);
      logs' := logs + [current];
      appended := st.(copies := st.copies + 1);
    }
    if parsed.Some? {
      MirrorsAppended(logs', current, appended);
      assert Appended(appended) == Flush(st);
      current' := OpenRecord(parsed.value, logs', Flush(st));
    }
  }

  /** A stack-trace line extends the current dictionary, and with it every copy of it appended so far. */
  method AppendTrace(ghost logs: seq<LogRecord>, current: LogRecord, ghost st: ParseState, line: string)
    requires Mirrors(logs, current, st)
    modifies current
    ensures Mirrors(logs, current, Step(st, Trace(line)))
  {
    current.stackTrace := current.stackTrace + [line];
  }

  /**
   * `parse_log_file` over the lines of a file: the dictionaries it returns
   * hold, in order, the entries of `ParseLines`.
   */
  method ParseLogFile(lines: seq<string>) returns (logs: seq<LogRecord>)
    ensures |logs| == |ParseLines(lines)|
    ensures forall k :: 0 <= k < |logs| ==> logs[k].Entry() == ParseLines(lines)[k]
  {
    logs := [];
    var current: LogRecord? := null;
    ghost var kinds := Kinds(lines);
    ghost var st := Start;
    for i := 0 to |lines|
      invariant st == Run(Start, kinds[..i])
      invariant current != null ==> fresh(current)
      invariant Mirrors(logs, current, st)
    {
      RunSnoc(kinds, i);
      var line := RStrip(lines[i]);
      if line != [] {
        if IsHeader(line) {
          var parsed := ParseHeader(line);
          logs, current := HeaderStep(logs, current, st, parsed);
        } else if current != null {
          AppendTrace(logs, current, st, line);
        }
      }
      st := Step(st, kinds[i]);
    }
    assert kinds[..|lines|] == kinds;
    ghost var appended := st;
    if current != null {
      MirrorsAppend(logs, current, st);
      logs := logs + [current];
      appended := st.(copies := st.copies + 1);
    }
    MirrorsAppended(logs, current, appended);
    assert Appended(appended) == Flush(st);
  }

  // ---------------------------------------------------------------------
  // Properties of the parser

  /** A line that extends the current entry: not blank after `rstrip` and not a header. */
  predicate IsTraceLine(raw: string) {
    RStrip(raw) != [] && !IsHeader(RStrip(raw))
  }

  /** A line that opens the entry `e`. */
  predicate OpensWith(raw: string, e: LogEntry) {
    IsHeader(RStrip(raw)) && ParseHeader(RStrip(raw)) == Some(e)
  }

  /** A header line whose split has fewer than three parts. */
  predicate IsShortHeader(raw: string) {
    IsHeader(RStrip(raw)) && ParseHeader(RStrip(raw)).None?
  }

  /** The lines as a stack trace holds them: each one right-stripped. */
  function Trimmed(lines: seq<string>): (r: seq<string>)
    ensures |r| == |lines| && forall j :: 0 <= j < |lines| ==> r[j] == RStrip(lines[j])
  {
    seq(|lines|, j requires 0 <= j < |lines| => RStrip(lines[j]))
  }

  lemma ClassifyTrace(raw: string)
    requires IsTraceLine(raw)
    ensures Classify(raw) == Trace(RStrip(raw))
  {
  }

  /** The kind of one opening header; the entry it opens has no stack trace yet. */
  lemma KindOpens(raw: string, e: LogEntry)
    requires OpensWith(raw, e)
    ensures Kinds([raw]) == [Opens(e)] && e.stackTrace == []
  {
    ParseHeaderEntry(RStrip(raw));
    ClassifyOpens(raw, e);
    SingleKind(raw);
  }

  lemma ClassifyOpens(raw: string, e: LogEntry)
    requires OpensWith(raw, e)
    ensures Classify(raw) == Opens(e)
  {
  }

  lemma SingleKind(raw: string)
    ensures Kinds([raw]) == [Classify(raw)]
  {
  }

  lemma KindShort(raw: string)
    requires IsShortHeader(raw)
    ensures Kinds([raw]) == [Reappends]
  {
    SingleKind(raw);
  }

  lemma KindsConcat(a: seq<string>, b: seq<string>)
    ensures Kinds(a + b) == Kinds(a) + Kinds(b)
  {
  }

  /** Running over two pieces of input one after the other. */
  lemma {:induction false} RunConcat(st: ParseState, a: seq<LineKind>, b: seq<LineKind>)
    ensures Run(st, a + b) == Run(Run(st, a), b)
    decreases |b|
  {
    if b == [] {
      assert a + b == a;
    } else {
      var b' := b[..|b| - 1];
      assert (a + b)[..|a + b| - 1] == a + b';
      RunConcat(st, a, b');
    }
  }

  /** Entries already appended are never touched again: a prefix of them rides along. */
  lemma {:induction false} RunKeepsDone(st: ParseState, done: seq<LogEntry>, kinds: seq<LineKind>)
    ensures Run(st.(logs := done + st.logs), kinds) == Run(st, kinds).(logs := done + Run(st, kinds).logs)
    decreases |kinds|
  {
    if kinds != [] {
      var ks := kinds[..|kinds| - 1];
      RunKeepsDone(st, done, ks);
      var mid := Run(st, ks);
      match mid.current
        case Some(e) => AppendAssoc(done, mid.logs, Repeat(e, mid.copies + 1));
        case None =>
    }
  }

  /** Before any entry is open, no line but an opening header has an effect. */
  lemma {:induction false} RunWithoutOpening(kinds: seq<LineKind>)
    requires forall j :: 0 <= j < |kinds| ==> !kinds[j].Opens?
    ensures Run(Start, kinds) == Start
    decreases |kinds|
  {
    if kinds != [] {
      RunWithoutOpening(kinds[..|kinds| - 1]);
    }
  }

  /** The kinds of stack-trace lines with the texts `texts`. */
  function Traces(texts: seq<string>): (r: seq<LineKind>)
    ensures |r| == |texts| && forall j :: 0 <= j < |texts| ==> r[j] == Trace(texts[j])
  {
    seq(|texts|, j requires 0 <= j < |texts| => Trace(texts[j]))
  }

  lemma KindsOfTraces(lines: seq<string>)
    requires forall j :: 0 <= j < |lines| ==> IsTraceLine(lines[j])
    ensures Kinds(lines) == Traces(Trimmed(lines))
  {
    forall j | 0 <= j < |lines| ensures Kinds(lines)[j] == Traces(Trimmed(lines))[j] {
      ClassifyTrace(lines[j]);
    }
  }

  /** Stack-trace lines extend the open entry's trace and change nothing else. */
  lemma {:induction false} RunTraces(st: ParseState, texts: seq<string>)
    requires st.current.Some?
    ensures Run(st, Traces(texts))
            == st.(current := Some(st.current.value.(stackTrace := st.current.value.stackTrace + texts)))
    decreases |texts|
  {
    var e := st.current.value;
    if texts == [] {
      assert Traces(texts) == [];
      assert e.stackTrace + texts == e.stackTrace;
      assert e.(stackTrace := e.stackTrace) == e;
    } else {
      var init := texts[..|texts| - 1];
      assert Traces(texts)[..|texts| - 1] == Traces(init);
      RunTraces(st, init);
      assert e.stackTrace + texts == e.stackTrace + init + [texts[|texts| - 1]];
    }
  }

  /**
   * Blank lines are skipped: removing one from anywhere in the file
   * leaves the parse as it was.
   */
  lemma BlankLineSkipped(a: seq<string>, blank: string, b: seq<string>)
    requires RStrip(blank) == []
    ensures ParseLines(a + [blank] + b) == ParseLines(a + b)
  {
    KindsConcat(a + [blank], b);
    KindsConcat(a, [blank]);
    KindsConcat(a, b);
    assert Kinds([blank]) == [Blank];
    RunConcat(Start, Kinds(a) + [Blank], Kinds(b));
    RunConcat(Start, Kinds(a), [Blank]);
    RunConcat(Start, Kinds(a), Kinds(b));
  }

  /**
   * Lines before the first opening header are dropped: stack-trace lines
   * with no entry to attach to, blank lines and short headers.
   */
  lemma LeadingLinesDropped(pre: seq<string>, rest: seq<string>)
    requires forall j :: 0 <= j < |pre| ==> !IsHeader(RStrip(pre[j])) || IsShortHeader(pre[j])
    ensures ParseLines(pre + rest) == ParseLines(rest)
  {
    KindsConcat(pre, rest);
    RunConcat(Start, Kinds(pre), Kinds(rest));
    RunWithoutOpening(Kinds(pre));
  }

  /** A file without an opening header yields no entries. */
  lemma NoHeaderNoEntries(lines: seq<string>)
    requires forall j :: 0 <= j < |lines| ==> !IsHeader(RStrip(lines[j])) || IsShortHeader(lines[j])
    ensures ParseLines(lines) == []
  {
    RunWithoutOpening(Kinds(lines));
  }

  /**
   * An opening header followed by stack-trace lines yields exactly one
   * entry, whose stack trace is those lines, right-stripped.
   */
  lemma OneEntry(header: string, e: LogEntry, trace: seq<string>)
    requires OpensWith(header, e)
    requires forall j :: 0 <= j < |trace| ==> IsTraceLine(trace[j])
    ensures ParseLines([header] + trace) == [e.(stackTrace := Trimmed(trace))]
  {
    KindOpens(header, e);
    KindsConcat([header], trace);
    KindsOfTraces(trace);
    OneEntryKinds(e, Trimmed(trace));
  }

  lemma OneEntryKinds(e: LogEntry, texts: seq<string>)
    requires e.stackTrace == []
    ensures Flush(Run(Start, [Opens(e)] + Traces(texts))) == [e.(stackTrace := texts)]
  {
    var entered := ParseState([], Some(e), 0);
    var done := e.(stackTrace := texts);
    RunConcat(Start, [Opens(e)], Traces(texts));
    assert Run(Start, [Opens(e)]) == entered;
    RunTraces(entered, texts);
    assert [] + texts == texts;
    var ran := Run(entered, Traces(texts));
    assert ran == ParseState([], Some(done), 0);
    RepeatOnce(done);
  }

  lemma RepeatOnce(e: LogEntry)
    ensures Repeat(e, 1) == [e] && [] + [e] == [e]
  {
  }

  /**
   * The duplicated entry: a header with fewer than three parts after an
   * entry appends that entry again without replacing it, and the stack
   * trace that follows extends the single dictionary both appends refer to,
   * so the file yields the same entry twice.
   */
  lemma ShortHeaderRepeatsEntry(header: string, e: LogEntry, short: string, trace: seq<string>)
    requires OpensWith(header, e) && IsShortHeader(short)
    requires forall j :: 0 <= j < |trace| ==> IsTraceLine(trace[j])
    ensures ParseLines([header, short] + trace) == [e.(stackTrace := Trimmed(trace)), e.(stackTrace := Trimmed(trace))]
  {
    KindOpens(header, e);
    KindShort(short);
    PairThen(header, short, trace);
    KindsConcat([header], [short] + trace);
    KindsConcat([short], trace);
    KindsOfTraces(trace);
    RepeatsKinds(e, Trimmed(trace));
  }

  lemma RunOne(st: ParseState, k: LineKind)
    ensures Run(st, [k]) == Step(st, k)
  {
    assert [k][..0] == [];
  }

  lemma RepeatsKinds(e: LogEntry, texts: seq<string>)
    requires e.stackTrace == []
    ensures Flush(Run(Start, [Opens(e)] + ([Reappends] + Traces(texts)))) == [e.(stackTrace := texts), e.(stackTrace := texts)]
  {
    var entered := ParseState([], Some(e), 0);
    var twice := ParseState([], Some(e), 1);
    var done := e.(stackTrace := texts);
    RunConcat(Start, [Opens(e)], [Reappends] + Traces(texts));
    RunOne(Start, Opens(e));
    RunConcat(entered, [Reappends], Traces(texts));
    RunOne(entered, Reappends);
    RunTraces(twice, texts);
    assert [] + texts == texts;
    assert Run(twice, Traces(texts)) == ParseState([], Some(done), 1);
    assert Repeat(done, 2) == [done, done];
  }

  /**
   * Files split at an opening header: what comes before the header and
   * what starts with it parse independently, and their entries follow one
   * another.
   */
  lemma SplitAtHeader(a: seq<string>, header: string, e: LogEntry, b: seq<string>)
    requires OpensWith(header, e)
    ensures ParseLines(a + ([header] + b)) == ParseLines(a) + ParseLines([header] + b)
  {
    KindsConcat(a, [header] + b);
    KindsConcat([header], b);
    KindOpens(header, e);
    SplitKinds(Kinds(a), e, Kinds(b));
  }

  lemma SplitKinds(ka: seq<LineKind>, e: LogEntry, kb: seq<LineKind>)
    ensures Flush(Run(Start, ka + ([Opens(e)] + kb))) == Flush(Run(Start, ka)) + Flush(Run(Start, [Opens(e)] + kb))
  {
    var before := Run(Start, ka);
    var entered := ParseState([], Some(e), 0);
    RunConcat(Start, ka, [Opens(e)] + kb);
    RunConcat(before, [Opens(e)], kb);
    RunConcat(Start, [Opens(e)], kb);
    RunOne(before, Opens(e));
    RunOne(Start, Opens(e));
    assert Flush(before) + entered.logs == Flush(before);
    RunKeepsDone(entered, Flush(before), kb);
    var after := Run(entered, kb);
    match after.current
      case Some(x) => AppendAssoc(Flush(before), after.logs, Repeat(x, after.copies + 1));
      case None =>
  }

  // ---------------------------------------------------------------------
  // The pieces of `main` both copies share

  /** `level in ['Error', 'Exception', 'Assert']`: the levels the error filters keep. */
  predicate IsErrorLevel(level: string) {
    level == "Error" || level == "Exception" || level == "Assert"
  }

  function Timestamp(e: LogEntry): string {
    e.timestamp
  }

  function Level(e: LogEntry): string {
    e.level
  }

  /** The entries of all files read, file after file: the `all_logs.extend` loop. */
  function AllLogs(files: seq<seq<string>>): seq<LogEntry> {
    Concat(seq(|files|, i requires 0 <= i < |files| => ParseLines(files[i])))
  }

  /** Every entry gathered comes from one of the files. */
  lemma AllLogsFromFiles(files: seq<seq<string>>, e: LogEntry)
    ensures e in AllLogs(files) <==> exists i :: 0 <= i < |files| && e in ParseLines(files[i])
  {
    var parsed := seq(|files|, i requires 0 <= i < |files| => ParseLines(files[i]));
    ConcatMembers(parsed, e);
    if e in AllLogs(files) {
      var i :| 0 <= i < |parsed| && e in parsed[i];
      assert e in ParseLines(files[i]);
    }
    if exists i :: 0 <= i < |files| && e in ParseLines(files[i]) {
      var i :| 0 <= i < |files| && e in ParseLines(files[i]);
      assert e in parsed[i];
    }
  }

  /** The entries sorted by timestamp text, stable for equal timestamps. */
  function ByTimestamp(logs: seq<LogEntry>): seq<LogEntry> {
    SortByKey(logs, Timestamp, StrLe)
  }

  /**
   * The sort orders the entries by timestamp, keeps each entry as often as
   * it occurred, and is stable: entries with the same timestamp keep their
   * file order.
   */
  lemma ByTimestampSorts(logs: seq<LogEntry>)
    ensures SortedBy(ByTimestamp(logs), Timestamp, StrLe)
    ensures multiset(ByTimestamp(logs)) == multiset(logs)
    ensures forall t :: WithKey(ByTimestamp(logs), Timestamp, t) == WithKey(logs, Timestamp, t)
  {
    StrLeTotalOrder();
    SortSorted(logs, Timestamp, StrLe);
    SortPermutes(logs, Timestamp, StrLe);
    forall t ensures WithKey(ByTimestamp(logs), Timestamp, t) == WithKey(logs, Timestamp, t) {
      SortStable(logs, Timestamp, StrLe, t);
    }
  }

  /**
   * The limit step of `main`: the last `lines` entries, or all of them
   * when `--all` is given or the count is not positive.
   */
  function Limit(logs: seq<LogEntry>, showAll: bool, lines: int): (r: seq<LogEntry>)
    ensures |r| <= |logs| && r == logs[|logs| - |r|..]
    ensures !showAll && lines > 0 ==> |r| == if lines < |logs| then lines else |logs|
    ensures showAll || lines <= 0 ==> r == logs
  {
    if !showAll && lines > 0 then PyDrop(logs, -lines) else logs
  }

  /** Keeping the last entries of a sorted list leaves it sorted. */
  lemma LimitSorted(logs: seq<LogEntry>, showAll: bool, lines: int)
    requires SortedBy(logs, Timestamp, StrLe)
    ensures SortedBy(Limit(logs, showAll, lines), Timestamp, StrLe)
  {
    var r := Limit(logs, showAll, lines);
    SuffixSorted(logs, |logs| - |r|, Timestamp, StrLe);
  }

  /**
   * The per-level counts: the `level_counts` loop visits the entries in
   * order and adds one to the count of each entry's level.
   */
  method CountLevels(logs: seq<LogEntry>) returns (levels: seq<string>, counts: map<string, nat>)
    ensures levels == Keys(logs, Level)
    ensures forall l :: l in counts <==> l in levels
    ensures forall l :: l in counts ==> counts[l] == |WithKey(logs, Level, l)|
    ensures TotalCount(counts, levels) == |logs|
  {
    levels, counts := CountByKey(logs, Level);
    CountsAddUp(logs, Level, levels, counts);
  }

  /**
   * The two filters of `display_logs`: an entry is skipped when a level
   * filter is given (a non-empty name) and the entry's level differs from
   * it ignoring case, or when the error filter is on and the entry's level
   * is not an error level.
   */
  predicate Displayed(e: LogEntry, filterLevel: Option<string>, filterErrors: bool) {
    (filterLevel.None? || filterLevel.value == [] || Lower(e.level) == Lower(filterLevel.value))
    && (!filterErrors || IsErrorLevel(e.level))
  }

  /** The entries `display_logs` prints, in order. */
  function DisplayLogs(logs: seq<LogEntry>, filterLevel: Option<string>, filterErrors: bool): seq<LogEntry> {
    Filter(logs, e => Displayed(e, filterLevel, filterErrors))
  }

  /** `display_logs` prints exactly the entries that pass both filters. */
  lemma DisplayMembers(logs: seq<LogEntry>, filterLevel: Option<string>, filterErrors: bool, e: LogEntry)
    ensures e in DisplayLogs(logs, filterLevel, filterErrors)
            <==> e in logs
                 && (filterLevel.None? || filterLevel.value == [] || Lower(e.level) == Lower(filterLevel.value))
                 && (!filterErrors || IsErrorLevel(e.level))
  {
    FilterMembers(logs, e => Displayed(e, filterLevel, filterErrors), e);
  }

  /** Without filters, which is how both `main`s call it, `display_logs` prints every entry. */
  lemma {:induction false} DisplayUnfiltered(logs: seq<LogEntry>)
    ensures DisplayLogs(logs, None, false) == logs
  {
    if logs != [] {
      DisplayUnfiltered(logs[1..]);
      assert logs == [logs[0]] + logs[1..];
    }
  }
}
