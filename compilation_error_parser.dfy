/**
 * The compilation-error parser shared by the Editor and ScriptingTools
 * trees: one-line parsing of Unity/C# diagnostics in a fixed order of
 * forms, accumulation of continuation lines, grouping by file and the
 * textual summary.
 */
module CompilationErrorParser {
  import opened Wrappers
  import opened PyStr
  import opened Seqs
  import opened UnityPatterns

  datatype ParsedError = ParsedError(
    errorCode: string,
    filePath: string,
    lineNumber: int,
    columnNumber: int,
    errorMessage: string,
    severity: string,
    fullText: string)

  /** `to_display_string`. */
  function ToDisplayString(e: ParsedError): (r: string)
    ensures StartsWith(r, e.errorCode + ": ")
    ensures e.filePath == [] ==> r == e.errorCode + ": " + e.errorMessage
    ensures e.filePath != [] ==> Contains(r, e.filePath)
  {
    var head := e.errorCode + ": ";
    if e.filePath != [] then
      var r := head + e.filePath + ":" + IntToString(e.lineNumber) + "," + IntToString(e.columnNumber) + " - " + e.errorMessage;
      assert r[..|head|] == head;
      assert r[|head|..|head| + |e.filePath|] == e.filePath;
      ContainsAt(r, e.filePath, |head|);
      r
    else head + e.errorMessage
  }

  /** The last '/'-separated segment: what follows the last '/' (all of `path` when there is none). */
  function LastSegment(path: string): (r: string)
    ensures |r| <= |path| && r == path[|path| - |r|..]
    ensures forall i :: 0 <= i < |r| ==> r[i] != '/'
    ensures |r| == |path| || path[|path| - |r| - 1] == '/'
  {
    if path == [] || path[|path| - 1] == '/' then []
    else LastSegment(path[..|path| - 1]) + [path[|path| - 1]]
  }

  /** `to_short_string`: file name, line and code, or only the code without a path. */
  function ToShortString(e: ParsedError): (r: string)
    ensures e.filePath == [] ==> r == e.errorCode
    ensures e.filePath != [] ==> r == LastSegment(e.filePath) + ":" + IntToString(e.lineNumber) + " - " + e.errorCode
  {
    if e.filePath != [] then LastSegment(e.filePath) + ":" + IntToString(e.lineNumber) + " - " + e.errorCode
    else e.errorCode
  }

  /** `ERROR_DESCRIPTIONS`. */
  const ErrorDescriptions: map<string, string> := map[
    "CS0029" := "Cannot implicitly convert type",
    "CS0103" := "Name does not exist in current context",
    "CS0117" := "Type does not contain definition",
    "CS0119" := "Is a type but used like a variable",
    "CS0246" := "Type or namespace not found",
    "CS0266" := "Cannot implicitly convert (cast required)",
    "CS1061" := "Type does not contain definition and no extension method found",
    "CS1501" := "No overload takes N arguments",
    "CS1502" := "Best overloaded method has invalid arguments",
    "CS1503" := "Cannot convert argument",
    "CS1519" := "Invalid token in declaration",
    "CS1525" := "Invalid expression term",
    "CS1644" := "Feature not available in C# version",
    "CS7036" := "No argument given for required parameter"]

  /** `get_error_description`. */
  function GetErrorDescription(code: string): (r: string)
    ensures code in ErrorDescriptions ==> r == ErrorDescriptions[code]
    ensures code !in ErrorDescriptions ==> r == "Unknown error"
  {
    if code in ErrorDescriptions then ErrorDescriptions[code] else "Unknown error"
  }

  /** The substrings `is_compilation_error_line` looks for. */
  const Indicators: seq<string> := [
    ": error CS", ": warning CS", "Compilation failed:", "error: ",
    "will not be loaded due to errors", "could not be found"]

  /**
   * The indicators spelled out by position, proved once here so that the
   * proofs that pick an indicator do not evaluate the literal themselves.
   */
  lemma IndicatorsSpelled()
    ensures |Indicators| == 6
    ensures Indicators[0] == ": error CS" && Indicators[1] == ": warning CS"
    ensures Indicators[2] == "Compilation failed:" && Indicators[3] == "error: "
  {
  }

  /** `is_compilation_error_line`. */
  predicate IsCompilationErrorLine(line: string) {
    ContainsAny(line, Indicators)
  }

  /**
   * `parse`: the stripped line in the first of four forms that matches:
   * `file(l,c): sev CSn: msg`, then `file(l): sev CSn: msg`, then
   * `file: sev: msg`, then any line containing "Compilation failed:".
   */
  function Parse(line: string): (r: Option<ParsedError>)
    ensures Strip(line) == [] ==> r.None?
    ensures r.Some? ==> r.value.fullText == Strip(line)
    ensures r.Some? ==> r.value.severity == "error" || r.value.severity == "warning"
    ensures Strip(line) != [] && Contains(Strip(line), "Compilation failed:") ==> r.Some?
    ensures r.Some? && r.value.filePath != [] ==> StartsWith(Strip(line), r.value.filePath)
    ensures r.Some? && r.value.filePath == [] ==> r.value.errorCode == "COMPILATION_FAILED" && r.value.errorMessage == Strip(line)
  {
    var t := Strip(line);
    if t == [] then None
    else match MatchLocated(t, true, true)
      case Some((k, loc)) => Some(ParsedError(loc.code, t[..k], loc.line, loc.column, loc.message, loc.severity, t))
      case None =>
        match MatchLocated(t, false, true)
          case Some((k, loc)) => Some(ParsedError(loc.code, t[..k], loc.line, 0, loc.message, loc.severity, t))
          case None =>
            match MatchGeneric(t)
              case Some((k, (sev, msg))) => Some(ParsedError("", t[..k], 0, 0, msg, sev, t))
              case None =>
                if Contains(t, "Compilation failed:") then
                  Some(ParsedError("COMPILATION_FAILED", "", 0, 0, t, "error", t))
                else None
  }

  /** A stripped line that matches the first form parses into the parts of that match. */
  lemma ParseOfLocated(t: string, k: nat, loc: Located)
    requires t != [] && Strip(t) == t && MatchLocated(t, true, true) == Some((k, loc))
    ensures Parse(t) == Some(ParsedError(loc.code, t[..k], loc.line, loc.column, loc.message, loc.severity, t))
  {
  }

  /**
   * A line rendered in the first form, whose path holds no '(' and has no
   * leading space and whose message has no trailing space, parses back into
   * its parts.
   */
  lemma ParseLocatedRoundTrip(path: string, line: nat, column: nat, severity: string, digits: string, message: string)
    requires path != [] && NoNewline(path) && !IsSpace(path[0])
    requires forall i :: 0 <= i < |path| ==> path[i] != '('
    requires severity == "error" || severity == "warning"
    requires digits != [] && AllDigits(digits)
    requires message != [] && NoNewline(message) && !IsSpace(message[|message| - 1])
    ensures var text := LocatedLine(path, line, column, severity, digits, message);
      Parse(text) == Some(ParsedError("CS" + digits, path, line, column, message, severity, text))
  {
    var x := SeverityText(severity, digits, message);
    var u := "(" + NatToString(line) + "," + NatToString(column) + ")" + x;
    var text := LocatedLine(path, line, column, severity, digits, message);
    assert text == path + u;
    assert !IsSpace(text[|text| - 1]) by {
      assert x[|x| - 1] == message[|message| - 1];
      assert u[|u| - 1] == x[|x| - 1];
      assert text[|text| - 1] == u[|u| - 1];
    }
    assert text[0] == path[0];
    StripUnchanged(text);
    MatchLocatedRendered(path, line, column, severity, digits, message, true);
    assert text[..|path|] == path;
    ParseOfLocated(text, |path|, Located(line, column, severity, "CS" + digits, message));
  }

  /** A located form needs an opening parenthesis after its path. */
  lemma NoLocatedWithoutParen(t: string, withColumn: bool)
    requires forall i :: 0 <= i < |t| ==> t[i] != '('
    ensures MatchLocated(t, withColumn, true).None?
  {
    var m := MatchLocated(t, withColumn, true);
    if m.Some? {
      var k := m.value.0;
      LocTailOpens(t[k..], withColumn, true);
    }
  }

  /** The generic form needs ": error: " or ": warning: " after its path. */
  lemma NoGenericWithoutSeverity(t: string)
    requires !Contains(t, ": error: ") && !Contains(t, ": warning: ")
    ensures MatchGeneric(t).None?
  {
    var g := MatchGeneric(t);
    if g.Some? {
      var k := g.value.0;
      if g.value.1.0 == "error" {
        StartsWithSuffix(t, k, ": error: ");
      } else {
        StartsWithSuffix(t, k, ": warning: ");
      }
    }
  }

  /**
   * A line with no '(' and neither ": error: " nor ": warning: " that
   * mentions "Compilation failed:" is the summary form.
   */
  lemma ParseSummaryLine(line: string)
    requires var t := Strip(line);
      t != [] && Contains(t, "Compilation failed:")
      && (forall i :: 0 <= i < |t| ==> t[i] != '(')
      && !Contains(t, ": error: ") && !Contains(t, ": warning: ")
    ensures Parse(line) == Some(ParsedError("COMPILATION_FAILED", "", 0, 0, Strip(line), "error", Strip(line)))
  {
    var t := Strip(line);
    NoLocatedWithoutParen(t, true);
    NoLocatedWithoutParen(t, false);
    NoGenericWithoutSeverity(t);
  }

  /** A located form mentions ": error CS" or ": warning CS". */
  lemma LocatedMentionsSeverity(t: string, withColumn: bool)
    requires MatchLocated(t, withColumn, true).Some?
    ensures Contains(t, ": error CS") || Contains(t, ": warning CS")
  {
    var (k, loc) := MatchLocated(t, withColumn, true).value;
    LocTailMentionsSeverity(t[k..], withColumn, true);
    ContainsInSuffix(t, k, ": " + loc.severity + " CS");
    SeverityMarkers();
  }

  /** The generic form with severity error mentions "error: ". */
  lemma GenericErrorMentions(t: string)
    requires MatchGeneric(t).Some? && MatchGeneric(t).value.1.0 == "error"
    ensures Contains(t, "error: ")
  {
    var k := MatchGeneric(t).value.0;
    StartsWithSuffix(t, k, ": error: ");
    ContainsPiece(t, ": error: ", 2, 9);
    assert ": error: "[2..9] == "error: ";
  }

  /**
   * Every line that `parse` accepts is also flagged by
   * `is_compilation_error_line`, except the generic form with severity
   * warning (`file: warning: msg`), which no indicator covers.
   */
  lemma ParsedLinesFlagged(line: string)
    requires Parse(line).Some?
    requires !(Parse(line).value.errorCode == "" && Parse(line).value.severity == "warning")
    ensures IsCompilationErrorLine(line)
  {
    var t := Strip(line);
    var m1 := MatchLocated(t, true, true);
    var m2 := MatchLocated(t, false, true);
    var g := MatchGeneric(t);
    IndicatorsSpelled();
    var j: nat;
    if m1.Some? || m2.Some? {
      LocatedMentionsSeverity(t, m1.Some?);
      j := if Contains(t, ": error CS") then 0 else 1;
    } else if g.Some? {
      GenericErrorMentions(t);
      j := 3;
    } else {
      j := 2;
    }
    assert j < |Indicators| && Contains(t, Indicators[j]);
    StrippedContains(line, Indicators[j]);
  }

  // ---- parse_multi_line ----

  /** The loop state of `parse_multi_line`: the finished errors and the one being extended. */
  datatype Accumulator = Accumulator(errors: seq<ParsedError>, current: Option<ParsedError>)

  const Start := Accumulator([], None)

  /** Appends a continuation line to an error's message (stripped) and full text (as read). */
  function Continue(e: ParsedError, line: string): ParsedError {
    e.(errorMessage := e.errorMessage + "\n" + Strip(line), fullText := e.fullText + "\n" + line)
  }

  /** One iteration of the loop of `parse_multi_line`, for a line whose parse is `parsed`. */
  function Step(acc: Accumulator, line: string, parsed: Option<ParsedError>): Accumulator {
    match parsed
      case Some(p) => Accumulator(acc.errors + (if acc.current.Some? then [acc.current.value] else []), Some(p))
      case None =>
        if acc.current.Some? && Strip(line) != [] then Accumulator(acc.errors, Some(Continue(acc.current.value, line)))
        else acc
  }

  /**
   * The loop state after the lines `lines`, starting from `acc`, when each
   * line is parsed with `parse` (the loop is stated for any line parser so
   * that its properties do not depend on how `parse` reads a line).
   */
  function ScanFrom(parse: string -> Option<ParsedError>, acc: Accumulator, lines: seq<string>): Accumulator {
    if lines == [] then acc
    else
      var last := lines[|lines| - 1];
      Step(ScanFrom(parse, acc, lines[..|lines| - 1]), last, parse(last))
  }

  /** What is returned once the loop is over. */
  function Flush(acc: Accumulator): seq<ParsedError> {
    acc.errors + (if acc.current.Some? then [acc.current.value] else [])
  }

  function MultiLineWith(parse: string -> Option<ParsedError>, lines: seq<string>): seq<ParsedError> {
    Flush(ScanFrom(parse, Start, lines))
  }

  function MultiLine(lines: seq<string>): seq<ParsedError> {
    MultiLineWith(Parse, lines)
  }

  lemma ScanFromStep(parse: string -> Option<ParsedError>, acc: Accumulator, lines: seq<string>, i: nat)
    requires i < |lines|
    ensures ScanFrom(parse, acc, lines[..i + 1]) == Step(ScanFrom(parse, acc, lines[..i]), lines[i], parse(lines[i]))
  {
    assert lines[..i + 1][..i] == lines[..i];
  }

  /** `parse_multi_line`. */
  method ParseMultiLine(lines: seq<string>) returns (errors: seq<ParsedError>)
    ensures errors == MultiLine(lines)
  {
    errors := [];
    var current: Option<ParsedError> := None;
    for i := 0 to |lines|
      invariant Accumulator(errors, current) == ScanFrom(Parse, Start, lines[..i])
    {
      ScanFromStep(Parse, Start, lines, i);
      var line := lines[i];
      var parsed := Parse(line);
      if parsed.Some? {
        if current.Some? {
          errors := errors + [current.value];
        }
        current := parsed;
      } else if current.Some? && Strip(line) != [] {
        current := Some(Continue(current.value, line));
      }
    }
    assert lines[..|lines|] == lines;
    if current.Some? {
      errors := errors + [current.value];
    }
  }

  /** The successful parses of `lines`, in order. */
  function Parsed(parse: string -> Option<ParsedError>, lines: seq<string>): seq<ParsedError> {
    if lines == [] then []
    else
      var last := lines[|lines| - 1];
      Parsed(parse, lines[..|lines| - 1]) + (if parse(last).Some? then [parse(last).value] else [])
  }

  /** `e` is the error parsed from some line, possibly with continuation lines appended. */
  predicate Extends(e: ParsedError, p: ParsedError) {
    e.(errorMessage := "", fullText := "") == p.(errorMessage := "", fullText := "")
    && StartsWith(e.errorMessage, p.errorMessage) && StartsWith(e.fullText, p.fullText)
  }

  lemma ExtendsContinue(e: ParsedError, p: ParsedError, line: string)
    requires Extends(e, p)
    ensures Extends(Continue(e, line), p)
  {
    var c := Continue(e, line);
    assert c.errorMessage[..|p.errorMessage|] == e.errorMessage[..|p.errorMessage|];
    assert c.fullText[..|p.fullText|] == e.fullText[..|p.fullText|];
  }

  lemma {:induction false} ScanAgrees(parse: string -> Option<ParsedError>, lines: seq<string>)
    ensures var out := MultiLineWith(parse, lines);
      var ps := Parsed(parse, lines);
      |out| == |ps|
      && (ScanFrom(parse, Start, lines).current.None? <==> ps == [])
      && forall k :: 0 <= k < |ps| ==> Extends(out[k], ps[k])
  {
    if lines != [] {
      var init, last := lines[..|lines| - 1], lines[|lines| - 1];
      ScanAgrees(parse, init);
      var before := ScanFrom(parse, Start, init);
      var psBefore := Parsed(parse, init);
      var ps := Parsed(parse, lines);
      var out := MultiLineWith(parse, lines);
      var outBefore := Flush(before);
      match parse(last)
        case Some(p) =>
          assert ps == psBefore + [p];
          assert out == outBefore + [p];
          forall k | 0 <= k < |ps| ensures Extends(out[k], ps[k]) {
            if k < |psBefore| {
              assert out[k] == outBefore[k] && ps[k] == psBefore[k];
            } else {
              assert out[k] == p && ps[k] == p;
            }
          }
        case None =>
          assert ps == psBefore;
          if before.current.Some? && Strip(last) != [] {
            var n := |outBefore| - 1;
            assert out == outBefore[..n] + [Continue(outBefore[n], last)];
            forall k | 0 <= k < |ps| ensures Extends(out[k], ps[k]) {
              if k == n {
                ExtendsContinue(outBefore[n], ps[k], last);
              } else {
                assert out[k] == outBefore[k];
              }
            }
          }
    }
  }

  /**
   * `parse_multi_line` returns one error per line that `parse` accepts, in
   * the same order: each carries that line's parse, with the message and
   * full text possibly extended by continuation lines.
   */
  lemma MultiLineMatchesParses(lines: seq<string>)
    ensures var out := MultiLine(lines);
      var ps := Parsed(Parse, lines);
      |out| == |ps| && forall k :: 0 <= k < |ps| ==> Extends(out[k], ps[k])
  {
    ScanAgrees(Parse, lines);
  }

  lemma {:induction false} ScanFromConcat(parse: string -> Option<ParsedError>, acc: Accumulator, a: seq<string>, b: seq<string>)
    ensures ScanFrom(parse, acc, a + b) == ScanFrom(parse, ScanFrom(parse, acc, a), b)
  {
    if b == [] {
      assert a + b == a;
    } else {
      assert (a + b)[..|a + b| - 1] == a + b[..|b| - 1];
      ScanFromConcat(parse, acc, a, b[..|b| - 1]);
    }
  }

  lemma {:induction false} UnparsedFromStart(parse: string -> Option<ParsedError>, pre: seq<string>)
    requires forall i :: 0 <= i < |pre| ==> parse(pre[i]).None?
    ensures ScanFrom(parse, Start, pre) == Start
  {
    if pre != [] {
      UnparsedFromStart(parse, pre[..|pre| - 1]);
    }
  }

  /** Lines that do not parse before the first error are dropped. */
  lemma LeadingUnparsedDropped(pre: seq<string>, rest: seq<string>)
    requires forall i :: 0 <= i < |pre| ==> Parse(pre[i]).None?
    ensures MultiLine(pre + rest) == MultiLine(rest)
  {
    ScanFromConcat(Parse, Start, pre, rest);
    UnparsedFromStart(Parse, pre);
  }

  lemma ContinuationAppendedWith(parse: string -> Option<ParsedError>, head: string, next: string)
    requires parse(head).Some? && parse(next).None? && Strip(next) != []
    ensures var p := parse(head).value;
      MultiLineWith(parse, [head, next]) == [p.(errorMessage := p.errorMessage + "\n" + Strip(next), fullText := p.fullText + "\n" + next)]
  {
    var p := parse(head).value;
    assert [head, next][..1] == [head];
    assert [head][..0] == [];
    assert ScanFrom(parse, Start, [head]) == Accumulator([], Some(p));
    assert ScanFrom(parse, Start, [head, next]) == Accumulator([], Some(Continue(p, next)));
  }

  /** A non-blank line that does not parse extends the error before it. */
  lemma ContinuationAppended(head: string, next: string)
    requires Parse(head).Some? && Parse(next).None? && Strip(next) != []
    ensures var p := Parse(head).value;
      MultiLine([head, next]) == [p.(errorMessage := p.errorMessage + "\n" + Strip(next), fullText := p.fullText + "\n" + next)]
  {
    ContinuationAppendedWith(Parse, head, next);
  }

  // ---- group_related_errors ----

  function GroupKey(e: ParsedError): string {
    if e.filePath != [] then e.filePath else "General"
  }

  function LineCol(e: ParsedError): (int, int) {
    (e.lineNumber, e.columnNumber)
  }

  predicate LineColLe(a: (int, int), b: (int, int)) {
    a.0 < b.0 || (a.0 == b.0 && a.1 <= b.1)
  }

  lemma LineColLeTotalOrder()
    ensures TotalOrder(LineColLe)
  {
  }

  /** The group of key `k`: its errors in input order, then sorted stably by (line, column). */
  function Group(errors: seq<ParsedError>, k: string): seq<ParsedError> {
    SortByKey(WithKey(errors, GroupKey, k), LineCol, LineColLe)
  }

  /** The loop state of `group_related_errors` once the errors `seen` are grouped. */
  ghost predicate Grouped(seen: seq<ParsedError>, keys: seq<string>, grouped: map<string, seq<ParsedError>>) {
    keys == Keys(seen, GroupKey)
    && (forall k :: k in grouped <==> k in keys)
    && (forall k :: k in grouped ==> grouped[k] == WithKey(seen, GroupKey, k))
  }

  /** One iteration of the grouping loop: the error joins its key's group, which is opened if new. */
  lemma GroupedStep(seen: seq<ParsedError>, e: ParsedError, keys: seq<string>, grouped: map<string, seq<ParsedError>>)
    requires Grouped(seen, keys, grouped)
    ensures var key := GroupKey(e);
      var bucket := if key in grouped then grouped[key] else [];
      Grouped(seen + [e], if key in grouped then keys else keys + [key], grouped[key := bucket + [e]])
  {
    var key := GroupKey(e);
    var bucket := if key in grouped then grouped[key] else [];
    var keys' := if key in grouped then keys else keys + [key];
    var grouped' := grouped[key := bucket + [e]];
    KeysSnoc(seen, e, GroupKey);
    if key !in grouped {
      assert forall j :: 0 <= j < |seen| ==> GroupKey(seen[j]) != key;
      WithKeyAbsent(seen, GroupKey, key);
    }
    forall k | k in grouped' ensures grouped'[k] == WithKey(seen + [e], GroupKey, k) {
      WithKeySnoc(seen, e, GroupKey, k);
    }
  }

  /**
   * The first loop of `group_related_errors`: the errors collected by key,
   * as the keys in order of first appearance and the map from key to its
   * errors in input order.
   */
  method CollectGroups(errors: seq<ParsedError>) returns (keys: seq<string>, grouped: map<string, seq<ParsedError>>)
    ensures keys == Keys(errors, GroupKey)
    ensures forall k :: k in grouped <==> k in keys
    ensures forall k :: k in grouped ==> grouped[k] == WithKey(errors, GroupKey, k)
  {
    keys := [];
    grouped := map[];
    for i := 0 to |errors|
      invariant Grouped(errors[..i], keys, grouped)
    {
      var e := errors[i];
      var key := GroupKey(e);
      GroupedStep(errors[..i], e, keys, grouped);
      PrefixSnoc(errors, i);
      var bucket := if key in grouped then grouped[key] else [];
      if key !in grouped {
        keys := keys + [key];
      }
      grouped := grouped[key := bucket + [e]];
    }
    assert errors[..|errors|] == errors;
  }

  /**
   * `group_related_errors`: the dictionary as its keys in insertion order
   * and the map from key to group.
   */
  method GroupRelatedErrors(errors: seq<ParsedError>) returns (keys: seq<string>, grouped: map<string, seq<ParsedError>>)
    ensures keys == Keys(errors, GroupKey)
    ensures forall k :: k in grouped <==> k in keys
    ensures forall k :: k in grouped ==> grouped[k] == Group(errors, k)
  {
    keys, grouped := CollectGroups(errors);
    ghost var unsorted := grouped;
    for j := 0 to |keys|
      invariant forall k :: k in grouped <==> k in unsorted
      invariant forall m :: 0 <= m < |keys| ==> grouped[keys[m]] == if m < j then Group(errors, keys[m]) else unsorted[keys[m]]
    {
      ghost var before := grouped;
      grouped := grouped[keys[j] := SortByKey(grouped[keys[j]], LineCol, LineColLe)];
      forall m | 0 <= m < |keys|
        ensures grouped[keys[m]] == if m < j + 1 then Group(errors, keys[m]) else unsorted[keys[m]]
      {
        if m != j {
          assert keys[m] != keys[j];
          assert grouped[keys[m]] == before[keys[m]];
        }
      }
    }
  }

  /**
   * Grouping is a partition: the groups have distinct keys, one per file
   * path that occurs ("General" for errors without a path), every error
   * lies in the group of its key, and the group sizes add up to the number
   * of errors.
   */
  lemma GroupsPartition(errors: seq<ParsedError>)
    ensures var keys := Keys(errors, GroupKey);
      Distinct(keys)
      && (forall i :: 0 <= i < |errors| ==> errors[i] in Group(errors, GroupKey(errors[i])))
      && SumWithKey(errors, GroupKey, keys) == |errors|
  {
    var keys := Keys(errors, GroupKey);
    forall i | 0 <= i < |errors| ensures errors[i] in Group(errors, GroupKey(errors[i])) {
      var k := GroupKey(errors[i]);
      SortPermutes(WithKey(errors, GroupKey, k), LineCol, LineColLe);
      WithKeyMembers(errors, GroupKey, k, errors[i]);
      assert errors[i] in multiset(Group(errors, k));
    }
    WithKeyPartition(errors, GroupKey, keys);
  }

  /**
   * Each group holds exactly the errors of its key, ordered by (line,
   * column), with errors at the same position in their input order.
   */
  lemma GroupSorted(errors: seq<ParsedError>, k: string, pos: (int, int))
    ensures var g := Group(errors, k);
      SortedBy(g, LineCol, LineColLe)
      && multiset(g) == multiset(WithKey(errors, GroupKey, k))
      && WithKey(g, LineCol, pos) == WithKey(WithKey(errors, GroupKey, k), LineCol, pos)
  {
    LineColLeTotalOrder();
    var w := WithKey(errors, GroupKey, k);
    SortSorted(w, LineCol, LineColLe);
    SortPermutes(w, LineCol, LineColLe);
    SortStable(w, LineCol, LineColLe, pos);
  }

  // ---- format_error_summary ----

  function CountSeverity(errors: seq<ParsedError>, severity: string): nat {
    |Filter(errors, (e: ParsedError) => e.severity == severity)|
  }

  /** Errors and warnings together are all parsed errors. */
  lemma {:induction false} SeverityCountsCover(errors: seq<ParsedError>)
    requires forall i :: 0 <= i < |errors| ==> errors[i].severity == "error" || errors[i].severity == "warning"
    ensures CountSeverity(errors, "error") + CountSeverity(errors, "warning") == |errors|
  {
    if errors != [] {
      assert forall i :: 0 <= i < |errors[1..]| ==> errors[1..][i] == errors[i + 1];
      SeverityCountsCover(errors[1..]);
    }
  }

  function CountLine(errors: seq<ParsedError>): string {
    "Found " + NatToString(CountSeverity(errors, "error")) + " error(s) and "
      + NatToString(CountSeverity(errors, "warning")) + " warning(s)"
  }

  function SectionTitle(k: string): string {
    if k != "General" then "\n" + k + ":" else "\nGeneral Errors:"
  }

  function ErrorLine(e: ParsedError): string {
    if e.lineNumber > 0 then "  Line " + IntToString(e.lineNumber) + ": " + e.errorCode + " - " + PyTake(e.errorMessage, 80)
    else "  " + e.errorCode + ": " + PyTake(e.errorMessage, 80)
  }

  function ErrorLines(es: seq<ParsedError>): (r: seq<string>)
    ensures |r| == |es|
  {
    if es == [] then [] else ErrorLines(es[..|es| - 1]) + [ErrorLine(es[|es| - 1])]
  }

  /** The section lines for the groups with keys `keys`. */
  function Sections(errors: seq<ParsedError>, keys: seq<string>): seq<string> {
    if keys == [] then []
    else Sections(errors, keys[..|keys| - 1]) + [SectionTitle(keys[|keys| - 1])] + ErrorLines(Group(errors, keys[|keys| - 1]))
  }

  function SummaryText(errors: seq<ParsedError>): string {
    if errors == [] then "No compilation errors found"
    else Join("\n", [CountLine(errors)] + Sections(errors, Keys(errors, GroupKey)))
  }

  /** The inner loop of `format_error_summary`: one line per error of a group, appended to `summary`. */
  method AppendErrorLines(summary: seq<string>, es: seq<ParsedError>) returns (r: seq<string>)
    ensures r == summary + ErrorLines(es)
  {
    r := summary;
    for m := 0 to |es|
      invariant r == summary + ErrorLines(es[..m])
    {
      PrefixSnoc(es, m);
      AppendAssoc(summary, ErrorLines(es[..m]), [ErrorLine(es[m])]);
      r := r + [ErrorLine(es[m])];
    }
    assert es[..|es|] == es;
  }

  lemma SectionsSnoc(errors: seq<ParsedError>, keys: seq<string>, j: nat)
    requires j < |keys|
    ensures Sections(errors, keys[..j + 1]) == Sections(errors, keys[..j]) + [SectionTitle(keys[j])] + ErrorLines(Group(errors, keys[j]))
  {
    PrefixSnoc(keys, j);
  }

  /** The loop of `format_error_summary` over the groups, in key order: a title line, then the error lines. */
  method RenderSections(errors: seq<ParsedError>, keys: seq<string>, grouped: map<string, seq<ParsedError>>) returns (summary: seq<string>)
    requires forall k :: k in keys ==> k in grouped && grouped[k] == Group(errors, k)
    ensures summary == Sections(errors, keys)
  {
    summary := [];
    for j := 0 to |keys|
      invariant summary == Sections(errors, keys[..j])
    {
      SectionsSnoc(errors, keys, j);
      var fileErrors := grouped[keys[j]];
      summary := summary + [SectionTitle(keys[j])];
      summary := AppendErrorLines(summary, fileErrors);
    }
    assert keys[..|keys|] == keys;
  }

  /** `format_error_summary`. */
  method FormatErrorSummary(errors: seq<ParsedError>) returns (r: string)
    ensures r == SummaryText(errors)
  {
    if |errors| == 0 {
      return "No compilation errors found";
    }
    var keys, grouped := GroupRelatedErrors(errors);
    var summary := RenderSections(errors, keys, grouped);
    r := Join("\n", [CountLine(errors)] + summary);
  }

  lemma {:induction false} SectionsLength(errors: seq<ParsedError>, keys: seq<string>)
    ensures |Sections(errors, keys)| == |keys| + SumWithKey(errors, GroupKey, keys)
  {
    if keys != [] {
      var init, last := keys[..|keys| - 1], keys[|keys| - 1];
      SectionsLength(errors, init);
      SortLength(WithKey(errors, GroupKey, last), LineCol, LineColLe);
      SumWithKeySnoc(errors, init, last);
      assert keys == init + [last];
    }
  }

  lemma {:induction false} SumWithKeySnoc(errors: seq<ParsedError>, ks: seq<string>, k: string)
    ensures SumWithKey(errors, GroupKey, ks + [k]) == SumWithKey(errors, GroupKey, ks) + |WithKey(errors, GroupKey, k)|
  {
    if ks == [] {
      assert ks + [k] == [k];
    } else {
      assert (ks + [k])[1..] == ks[1..] + [k];
      SumWithKeySnoc(errors, ks[1..], k);
    }
  }

  /**
   * A non-empty summary starts with the count line, and has one more line
   * per group and one line per error after it.
   */
  lemma SummaryShape(errors: seq<ParsedError>)
    requires errors != []
    ensures var body := Sections(errors, Keys(errors, GroupKey));
      SummaryText(errors) == CountLine(errors) + "\n" + Join("\n", body)
      && |body| == |Keys(errors, GroupKey)| + |errors|
  {
    var keys := Keys(errors, GroupKey);
    GroupsPartition(errors);
    SectionsLength(errors, keys);
    var body := Sections(errors, keys);
    assert GroupKey(errors[0]) in keys;
    assert |body| > 0;
    assert ([CountLine(errors)] + body)[1..] == body;
  }
}
