/**
 * Hand-written recognisers for the fixed regular expressions that the
 * compilation-error tools apply to Unity log lines.  Each recogniser follows
 * Python's `re.match` semantics for its pattern: `.` never matches a line
 * feed, `$` matches at the end or just before a final line feed, `\d` is an
 * ASCII digit, and a lazy group `(.+?)` takes the shortest prefix for which
 * the rest of the pattern matches.
 */
module UnityPatterns {
  import opened Wrappers
  import opened PyStr

  predicate NoNewline(s: string) {
    forall i :: 0 <= i < |s| ==> s[i] != '\n'
  }

  /** `(.+)$` at the start of `u`: the captured text, if it matches. */
  function RestOfLine(u: string): (r: Option<string>)
    ensures r.Some? ==> r.value != [] && NoNewline(r.value) && (u == r.value || u == r.value + "\n")
    ensures (u != [] && NoNewline(u)) ==> r == Some(u)
    ensures (|u| >= 2 && u[|u| - 1] == '\n' && NoNewline(u[..|u| - 1])) ==> r == Some(u[..|u| - 1])
  {
    if u != [] && NoNewline(u) then Some(u)
    else if |u| >= 2 && u[|u| - 1] == '\n' && NoNewline(u[..|u| - 1]) then Some(u[..|u| - 1])
    else None
  }

  /** `\d+` at the start of `u`: its text and the remainder (greedy; what follows is never a digit). */
  function DigitsAt(u: string): (r: Option<(string, string)>)
    ensures r.Some? ==> (r.value.0 != [] && AllDigits(r.value.0) && u == r.value.0 + r.value.1
                         && (r.value.1 == [] || !IsDigit(r.value.1[0])))
    ensures r.None? <==> (u == [] || !IsDigit(u[0]))
  {
    var n := DigitRun(u);
    assert u == u[..n] + u[n..];
    if n == 0 then None else Some((u[..n], u[n..]))
  }

  /**
   * `\((\d+),(\d+)\)` (with a column) or `\((\d+)\)` (without) at the start
   * of `u`: the line, the column (0 without one) and the remainder after `)`.
   */
  function Paren(u: string, withColumn: bool): (r: Option<(nat, nat, string)>)
    ensures r.Some? ==> StartsWith(u, "(") && |r.value.2| < |u| && r.value.2 == u[|u| - |r.value.2|..]
    ensures r.Some? && !withColumn ==> r.value.1 == 0
  {
    if !StartsWith(u, "(") then None
    else match DigitsAt(u[1..])
      case None => None
      case Some((d1, v)) =>
        assert v == u[|u| - |v|..];
        if withColumn then
          if !StartsWith(v, ",") then None
          else match DigitsAt(v[1..])
            case None => None
            case Some((d2, w)) =>
              assert w == u[|u| - |w|..];
              if !StartsWith(w, ")") then None else Some((DigitsValue(d1), DigitsValue(d2), w[1..]))
        else if !StartsWith(v, ")") then None else Some((DigitsValue(d1), 0, v[1..]))
  }

  /** The severity word that the alternation `(error|warning)` (or plain `error`) reads at the start of `x`. */
  function SeverityAt(x: string, allowWarning: bool): (r: Option<string>)
    ensures r.Some? ==> StartsWith(x, r.value) && (r.value == "error" || (allowWarning && r.value == "warning"))
  {
    if StartsWith(x, "error") then Some("error")
    else if allowWarning && StartsWith(x, "warning") then Some("warning")
    else None
  }

  /** What a located diagnostic carries after its file path. */
  datatype Located = Located(line: nat, column: nat, severity: string, code: string, message: string)

  /** `: (error|warning) (CS\d+): (.+)$` at the start of `x`. */
  function SeverityTail(x: string, allowWarning: bool): (r: Option<(string, string, string)>)
    ensures r.Some? ==> var (sev, code, msg) := r.value;
      (sev == "error" || (allowWarning && sev == "warning"))
      && StartsWith(x, ": " + sev + " CS")
      && |code| > 2 && code[..2] == "CS" && AllDigits(code[2..])
      && msg != [] && NoNewline(msg)
  {
    if !StartsWith(x, ": ") then None
    else match SeverityAt(x[2..], allowWarning)
      case None => None
      case Some(sev) =>
        var y := x[2 + |sev|..];
        if !StartsWith(y, " CS") then None
        else match DigitsAt(y[3..])
          case None => None
          case Some((ds, z)) =>
            if !StartsWith(z, ": ") then None
            else match RestOfLine(z[2..])
              case None => None
              case Some(msg) =>
                StartsWithJoin(x, ": ", sev);
                StartsWithJoin(x, ": " + sev, " CS");
                assert ("CS" + ds)[2..] == ds;
                Some((sev, "CS" + ds, msg))
  }

  /** Everything after the file path of `file(l,c): sev CSn: msg` (or `file(l): ...`). */
  function LocTail(u: string, withColumn: bool, allowWarning: bool): (r: Option<Located>)
    ensures r.Some? ==> (StartsWith(u, "(")
                         && (r.value.severity == "error" || (allowWarning && r.value.severity == "warning"))
                         && (!withColumn ==> r.value.column == 0)
                         && r.value.message != [] && NoNewline(r.value.message))
  {
    match Paren(u, withColumn)
      case None => None
      case Some((l, c, rest)) =>
        match SeverityTail(rest, allowWarning)
          case None => None
          case Some((sev, code, msg)) => Some(Located(l, c, sev, code, msg))
  }

  /** A located tail mentions its severity in the form `: sev CS`. */
  lemma LocTailMentionsSeverity(u: string, withColumn: bool, allowWarning: bool)
    requires LocTail(u, withColumn, allowWarning).Some?
    ensures Contains(u, ": " + LocTail(u, withColumn, allowWarning).value.severity + " CS")
  {
    var (_, _, rest) := Paren(u, withColumn).value;
    var (sev, _, _) := SeverityTail(rest, allowWarning).value;
    StartsWithSuffix(u, |u| - |rest|, ": " + sev + " CS");
  }

  /** The two spellings of `: sev CS`. */
  lemma SeverityMarkers()
    ensures ": " + "error" + " CS" == ": error CS" && ": " + "warning" + " CS" == ": warning CS"
  {
  }

  /** A located tail starts at an opening parenthesis. */
  lemma LocTailOpens(u: string, withColumn: bool, allowWarning: bool)
    requires LocTail(u, withColumn, allowWarning).Some?
    ensures u != [] && u[0] == '('
  {
    var p := Paren(u, withColumn);
    assert StartsWith(u, "(");
    assert u[..1][0] == u[0];
  }

  /** The length of the first line of `s`: the number of characters before the first line feed. */
  function LineLen(s: string): (n: nat)
    ensures n <= |s| && (n == |s| || s[n] == '\n')
    ensures NoNewline(s[..n])
  {
    if s == [] || s[0] == '\n' then 0
    else
      var n := 1 + LineLen(s[1..]);
      assert s[..n] == [s[0]] + s[1..][..n - 1];
      n
  }

  /** A prefix without a line feed lies within the first line. */
  lemma {:induction false} WithinFirstLine(s: string, j: nat)
    requires j <= |s| && NoNewline(s[..j])
    ensures j <= LineLen(s)
  {
    if j > 0 {
      assert s[..j][0] == s[0];
      var t := s[1..];
      var pre := t[..j - 1];
      forall i | 0 <= i < |pre| ensures pre[i] != '\n' {
        assert pre[i] == s[..j][i + 1];
      }
      WithinFirstLine(t, j - 1);
    }
  }

  /**
   * The lazy group `^(.+?)` followed by the located form: the shortest group
   * length `j >= k` inside the first line for which `LocTail` accepts `s[j..]`.
   */
  function SearchLocated(s: string, k: nat, withColumn: bool, allowWarning: bool): (r: Option<(nat, Located)>)
    requires 1 <= k
    decreases LineLen(s) + 1 - k
    ensures r.Some? ==> k <= r.value.0 <= LineLen(s) && LocTail(s[r.value.0..], withColumn, allowWarning) == Some(r.value.1)
    ensures forall j :: k <= j <= LineLen(s) && (r.None? || j < r.value.0) ==> LocTail(s[j..], withColumn, allowWarning).None?
  {
    if k > LineLen(s) then None
    else match LocTail(s[k..], withColumn, allowWarning)
      case Some(v) => Some((k, v))
      case None => SearchLocated(s, k + 1, withColumn, allowWarning)
  }

  /** `^(.+?)\((\d+),(\d+)\): (error|warning) (CS\d+): (.+)$` and its narrower forms: the group length and the rest. */
  function MatchLocated(s: string, withColumn: bool, allowWarning: bool): (r: Option<(nat, Located)>)
    ensures r.Some? ==> (1 <= r.value.0 <= LineLen(s)
                         && LocTail(s[r.value.0..], withColumn, allowWarning) == Some(r.value.1))
    ensures forall j :: (1 <= j <= LineLen(s) && (r.None? || j < r.value.0)
                         ==> LocTail(s[j..], withColumn, allowWarning).None?)
  {
    SearchLocated(s, 1, withColumn, allowWarning)
  }

  /** The lazy group ends at the first position where the rest matches. */
  lemma MatchLocatedAt(s: string, withColumn: bool, allowWarning: bool, k: nat)
    requires 1 <= k <= LineLen(s) && LocTail(s[k..], withColumn, allowWarning).Some?
    requires forall j :: 1 <= j < k ==> LocTail(s[j..], withColumn, allowWarning).None?
    ensures MatchLocated(s, withColumn, allowWarning) == Some((k, LocTail(s[k..], withColumn, allowWarning).value))
  {
    var m := MatchLocated(s, withColumn, allowWarning);
    var t := LocTail(s[k..], withColumn, allowWarning);
    assert m.Some? && k <= m.value.0;
    assert m.value.0 <= k;
  }

  /** What follows the position of a located diagnostic: `: sev CSdigits: message`. */
  function SeverityText(severity: string, digits: string, message: string): string {
    ": " + severity + " CS" + digits + ": " + message
  }

  /** The line Unity writes for a located diagnostic: `path(line,column): sev CSdigits: message`. */
  function LocatedLine(path: string, line: nat, column: nat, severity: string, digits: string, message: string): string {
    path + ("(" + NatToString(line) + "," + NatToString(column) + ")" + SeverityText(severity, digits, message))
  }

  lemma DigitsAtRendered(d: string, rest: string)
    requires d != [] && AllDigits(d) && (rest == [] || !IsDigit(rest[0]))
    ensures DigitsAt(d + rest) == Some((d, rest))
  {
    DigitRunOf(d, rest);
    assert (d + rest)[..|d|] == d;
    assert (d + rest)[|d|..] == rest;
  }

  lemma ParenSteps(u: string, dl: string, v: string, dc: string, w: string)
    requires dl != [] && AllDigits(dl) && dc != [] && AllDigits(dc)
    requires StartsWith(u, "(") && u[1..] == dl + v
    requires StartsWith(v, ",") && v[1..] == dc + w
    requires StartsWith(w, ")")
    ensures Paren(u, true) == Some((DigitsValue(dl), DigitsValue(dc), w[1..]))
  {
    assert v[..1][0] == v[0];
    assert w[..1][0] == w[0];
    DigitsAtRendered(dl, v);
    DigitsAtRendered(dc, w);
  }

  lemma ParenAssoc(dl: string, dc: string, x: string)
    ensures "(" + dl + "," + dc + ")" + x == "(" + (dl + ("," + (dc + (")" + x))))
  {
  }

  lemma ParenOfDigits(dl: string, dc: string, x: string)
    requires dl != [] && AllDigits(dl) && dc != [] && AllDigits(dc)
    ensures Paren("(" + dl + "," + dc + ")" + x, true) == Some((DigitsValue(dl), DigitsValue(dc), x))
  {
    var w := ")" + x;
    var v := "," + (dc + w);
    var u := "(" + (dl + v);
    SplitAfter(")", x);
    SplitAfter(",", dc + w);
    SplitAfter("(", dl + v);
    ParenSteps(u, dl, v, dc, w);
    ParenAssoc(dl, dc, x);
  }

  lemma ParenRendered(line: nat, column: nat, x: string)
    ensures Paren("(" + NatToString(line) + "," + NatToString(column) + ")" + x, true) == Some((line, column, x))
  {
    NatToStringRoundTrip(line);
    NatToStringRoundTrip(column);
    ParenOfDigits(NatToString(line), NatToString(column), x);
  }

  lemma SeverityAtRendered(severity: string, rest: string, allowWarning: bool)
    requires severity == "error" || (allowWarning && severity == "warning")
    ensures SeverityAt(severity + rest, allowWarning) == Some(severity)
  {
    var x := severity + rest;
    assert x[..|severity|] == severity;
    if severity == "warning" {
      assert x[0] == 'w';
    }
  }

  lemma SeverityTailSteps(x: string, severity: string, digits: string, z: string, message: string, allowWarning: bool)
    requires StartsWith(x, ": ") && SeverityAt(x[2..], allowWarning) == Some(severity)
    requires 2 + |severity| <= |x| && StartsWith(x[2 + |severity|..], " CS")
    requires DigitsAt(x[2 + |severity|..][3..]) == Some((digits, z))
    requires StartsWith(z, ": ") && RestOfLine(z[2..]) == Some(message)
    ensures SeverityTail(x, allowWarning) == Some((severity, "CS" + digits, message))
  {
  }

  lemma SeverityAssoc(severity: string, digits: string, message: string)
    ensures SeverityText(severity, digits, message) == ": " + (severity + (" CS" + (digits + (": " + message))))
  {
  }

  lemma SeverityTailRendered(severity: string, digits: string, message: string, allowWarning: bool)
    requires severity == "error" || (allowWarning && severity == "warning")
    requires digits != [] && AllDigits(digits)
    requires message != [] && NoNewline(message)
    ensures SeverityTail(SeverityText(severity, digits, message), allowWarning) == Some((severity, "CS" + digits, message))
  {
    var z := ": " + message;
    var y := " CS" + (digits + z);
    var x := ": " + (severity + y);
    SeverityAssoc(severity, digits, message);
    SplitAfter(": ", severity + y);
    SeverityAtRendered(severity, y, allowWarning);
    SplitAfter(severity, y);
    assert x[2 + |severity|..] == y;
    SplitAfter(" CS", digits + z);
    DigitsAtRendered(digits, z);
    SplitAfter(": ", message);
    SeverityTailSteps(x, severity, digits, z, message, allowWarning);
  }

  lemma LocTailSteps(u: string, withColumn: bool, allowWarning: bool, line: nat, column: nat, rest: string, severity: string, code: string, message: string)
    requires Paren(u, withColumn) == Some((line, column, rest))
    requires SeverityTail(rest, allowWarning) == Some((severity, code, message))
    ensures LocTail(u, withColumn, allowWarning) == Some(Located(line, column, severity, code, message))
  {
  }

  lemma LocTailOfRendered(line: nat, column: nat, severity: string, digits: string, message: string, allowWarning: bool)
    requires severity == "error" || (allowWarning && severity == "warning")
    requires digits != [] && AllDigits(digits)
    requires message != [] && NoNewline(message)
    ensures LocTail("(" + NatToString(line) + "," + NatToString(column) + ")" + SeverityText(severity, digits, message), true, allowWarning)
         == Some(Located(line, column, severity, "CS" + digits, message))
  {
    var x := SeverityText(severity, digits, message);
    var u := "(" + NatToString(line) + "," + NatToString(column) + ")" + x;
    ParenRendered(line, column, x);
    SeverityTailRendered(severity, digits, message, allowWarning);
    LocTailSteps(u, true, allowWarning, line, column, x, severity, "CS" + digits, message);
  }

  /**
   * A located line whose path is a single line without '(' matches the
   * located form with the path as its group and the parts read back.
   */
  lemma MatchLocatedRendered(path: string, line: nat, column: nat, severity: string, digits: string, message: string, allowWarning: bool)
    requires path != [] && NoNewline(path)
    requires forall i :: 0 <= i < |path| ==> path[i] != '('
    requires severity == "error" || (allowWarning && severity == "warning")
    requires digits != [] && AllDigits(digits)
    requires message != [] && NoNewline(message)
    ensures MatchLocated(LocatedLine(path, line, column, severity, digits, message), true, allowWarning)
         == Some((|path|, Located(line, column, severity, "CS" + digits, message)))
  {
    var x := SeverityText(severity, digits, message);
    var u := "(" + NatToString(line) + "," + NatToString(column) + ")" + x;
    var text := LocatedLine(path, line, column, severity, digits, message);
    assert text == path + u;
    LocTailOfRendered(line, column, severity, digits, message, allowWarning);
    assert text[|path|..] == u;
    assert text[..|path|] == path;
    forall j | 1 <= j < |path| ensures LocTail(text[j..], true, allowWarning).None? {
      assert text[j..][0] == path[j];
      if LocTail(text[j..], true, allowWarning).Some? {
        LocTailOpens(text[j..], true, allowWarning);
      }
    }
    WithinFirstLine(text, |path|);
    MatchLocatedAt(text, true, allowWarning, |path|);
  }

  /** `: (error|warning): (.+)$` at the start of `u`. */
  function GenericTail(u: string): (r: Option<(string, string)>)
    ensures r.Some? ==> ((r.value.0 == "error" && StartsWith(u, ": error: "))
                         || (r.value.0 == "warning" && StartsWith(u, ": warning: ")))
    ensures r.Some? ==> r.value.1 != [] && NoNewline(r.value.1)
  {
    if StartsWith(u, ": error: ") then
      match RestOfLine(u[9..]) case None => None case Some(m) => Some(("error", m))
    else if StartsWith(u, ": warning: ") then
      match RestOfLine(u[11..]) case None => None case Some(m) => Some(("warning", m))
    else None
  }

  /** The lazy group `^(.+?)` followed by the generic form, from group length `k` on. */
  function SearchGeneric(s: string, k: nat): (r: Option<(nat, (string, string))>)
    requires 1 <= k
    decreases LineLen(s) + 1 - k
    ensures r.Some? ==> k <= r.value.0 <= LineLen(s) && GenericTail(s[r.value.0..]) == Some(r.value.1)
    ensures forall j :: k <= j <= LineLen(s) && (r.None? || j < r.value.0) ==> GenericTail(s[j..]).None?
  {
    if k > LineLen(s) then None
    else match GenericTail(s[k..])
      case Some(v) => Some((k, v))
      case None => SearchGeneric(s, k + 1)
  }

  /** `^(.+?): (error|warning): (.+)$`. */
  function MatchGeneric(s: string): (r: Option<(nat, (string, string))>)
    ensures r.Some? ==> 1 <= r.value.0 <= LineLen(s) && GenericTail(s[r.value.0..]) == Some(r.value.1)
    ensures forall j :: 1 <= j <= LineLen(s) && (r.None? || j < r.value.0) ==> GenericTail(s[j..]).None?
  {
    SearchGeneric(s, 1)
  }

  /** `\(\d+,\d+\): error` at the start of `u` (the part after `.*` in the monitor's second pattern). */
  predicate LocErrorAt(u: string) {
    match Paren(u, true)
      case None => false
      case Some((_, _, rest)) => StartsWith(rest, ": error")
  }

  /** `\(\d+,\d+\): error CS\d+:` at the start of `u` (the monitor's first pattern after `.*`). */
  predicate LocErrorCodeAt(u: string) {
    match Paren(u, true)
      case None => false
      case Some((_, _, rest)) =>
        StartsWith(rest, ": error CS")
        && match DigitsAt(rest[10..])
          case None => false
          case Some((_, z)) => StartsWith(z, ":")
  }

  /** The located-error check: some position inside the first line starts `(digits,digits): error`. */
  predicate LocErrorAfterPrefix(line: string) {
    exists i :: 0 <= i <= LineLen(line) && LocErrorAt(line[i..])
  }

  /** The same check with a code: some position inside the first line starts `(digits,digits): error CS`, digits and a colon. */
  predicate LocErrorCodeAfterPrefix(line: string) {
    exists i :: 0 <= i <= LineLen(line) && LocErrorCodeAt(line[i..])
  }

  /** The form with an error code is a special case of the form without. */
  lemma LocErrorCodeIsLocError(u: string)
    requires LocErrorCodeAt(u)
    ensures LocErrorAt(u)
  {
    var (_, _, rest) := Paren(u, true).value;
    ErrorMarkerSplit();
    StartsWithLonger(rest, ": error", " CS");
  }

  /** A position where the located form (error severity) matches also starts `\(\d+,\d+\): error`. */
  lemma LocTailIsLocError(u: string)
    requires LocTail(u, true, false).Some?
    ensures LocErrorAt(u)
  {
    var (_, _, rest) := Paren(u, true).value;
    var sev := SeverityTail(rest, false).value.0;
    assert sev == "error";
    SeverityMarkers();
    ErrorMarkerSplit();
    StartsWithLonger(rest, ": error", " CS");
  }

  lemma ErrorMarkerSplit()
    ensures ": error CS" == ": error" + " CS"
  {
  }
}
