/**
 * The parts of Python's `str` behaviour that the scripts rely on:
 * whitespace stripping, prefix tests, `find`, `in`, `split` with a
 * maximum, `replace`, ASCII `lower`, `int()` of a digit run, `str()` of an
 * integer, `join`, and code-point ordering of strings.
 */
module PyStr {
  import opened Wrappers
  import Seqs

  /** The characters for which Python's `str.isspace()` holds. */
  predicate IsSpace(c: char) {
    c == ' ' || ('\t' <= c <= '\r') || ('\U{1c}' <= c <= '\U{1f}')
    || c == '\U{85}' || c == '\U{a0}' || c == '\U{1680}'
    || ('\U{2000}' <= c <= '\U{200a}') || c == '\U{2028}' || c == '\U{2029}'
    || c == '\U{202f}' || c == '\U{205f}' || c == '\U{3000}'
  }

  /** The number of whitespace characters at the start of `s`. */
  function LeadingSpaces(s: string): (n: nat)
    ensures n <= |s|
    ensures forall i :: 0 <= i < n ==> IsSpace(s[i])
    ensures n == |s| || !IsSpace(s[n])
  {
    if s != [] && IsSpace(s[0]) then 1 + LeadingSpaces(s[1..]) else 0
  }

  /** The number of whitespace characters at the end of `s`. */
  function TrailingSpaces(s: string): (n: nat)
    ensures n <= |s|
    ensures forall i :: |s| - n <= i < |s| ==> IsSpace(s[i])
    ensures n == |s| || !IsSpace(s[|s| - n - 1])
  {
    if s != [] && IsSpace(s[|s| - 1]) then 1 + TrailingSpaces(s[..|s| - 1]) else 0
  }

  /** `s.lstrip()`: `s` without its leading whitespace. */
  function LStrip(s: string): string {
    s[LeadingSpaces(s)..]
  }

  /** `s.rstrip()`: `s` without its trailing whitespace. */
  function RStrip(s: string): string {
    s[..|s| - TrailingSpaces(s)]
  }

  /** `s.strip()`. */
  function Strip(s: string): string {
    RStrip(LStrip(s))
  }

  /** `s.strip()` is a contiguous piece of `s` with no whitespace at either end. */
  lemma StripShape(s: string)
    ensures var r := Strip(s);
      (r == [] || (!IsSpace(r[0]) && !IsSpace(r[|r| - 1])))
      && exists i :: OccursAt(s, r, i)
  {
    var l := LStrip(s);
    var r := RStrip(l);
    var i := LeadingSpaces(s);
    if r != [] {
      assert r[0] == l[0] == s[i];
    }
    assert s[i..i + |r|] == r;
    assert OccursAt(s, r, i);
  }

  /** A string with no whitespace at either end is its own `strip()`. */
  lemma StripUnchanged(s: string)
    requires s == [] || (!IsSpace(s[0]) && !IsSpace(s[|s| - 1]))
    ensures Strip(s) == s
  {
  }

  /** Stripping twice changes nothing. */
  lemma StripIdempotent(s: string)
    ensures Strip(Strip(s)) == Strip(s)
  {
    StripShape(s);
    StripUnchanged(Strip(s));
  }

  /** `s.lstrip(c)` for a one-character argument. */
  function LStripChar(s: string, c: char): (r: string)
    ensures |r| <= |s| && r == s[|s| - |r|..]
    ensures r == [] || r[0] != c
    ensures forall i :: 0 <= i < |s| - |r| ==> s[i] == c
  {
    if s != [] && s[0] == c then LStripChar(s[1..], c) else s
  }

  /** `s.rstrip(c)` for a one-character argument. */
  function RStripChar(s: string, c: char): (r: string)
    ensures |r| <= |s| && r == s[..|r|]
    ensures r == [] || r[|r| - 1] != c
    ensures forall i :: |r| <= i < |s| ==> s[i] == c
  {
    if s != [] && s[|s| - 1] == c then RStripChar(s[..|s| - 1], c) else s
  }

  /** `s.startswith(p)`. */
  predicate StartsWith(s: string, p: string) {
    |p| <= |s| && s[..|p|] == p
  }

  /** Whether `sub` occurs in `s` at position `i`. */
  predicate OccursAt(s: string, sub: string, i: int) {
    0 <= i && i + |sub| <= |s| && s[i..i + |sub|] == sub
  }

  /** The search of `s.find(sub)` from position `i` on. */
  function FindFrom(s: string, sub: string, i: nat): (r: int)
    requires i <= |s|
    decreases |s| - i
    ensures r == -1 || (i <= r && OccursAt(s, sub, r))
    ensures forall j :: i <= j && (r == -1 || j < r) ==> !OccursAt(s, sub, j)
  {
    if i + |sub| > |s| then -1
    else if s[i..i + |sub|] == sub then i
    else FindFrom(s, sub, i + 1)
  }

  /** `s.find(sub)`: the first position where `sub` occurs, or -1. */
  function Find(s: string, sub: string): (r: int)
    ensures r == -1 || OccursAt(s, sub, r)
    ensures forall j :: 0 <= j && (r == -1 || j < r) ==> !OccursAt(s, sub, j)
  {
    FindFrom(s, sub, 0)
  }

  /** `sub in s`. */
  predicate Contains(s: string, sub: string) {
    Find(s, sub) >= 0
  }

  /** A concatenation starts with its left operand, and the right operand follows it. */
  lemma SplitAfter(p: string, r: string)
    ensures StartsWith(p + r, p) && (p + r)[|p|..] == r
  {
    assert (p + r)[..|p|] == p;
  }

  /** Two consecutive prefixes make a prefix. */
  lemma StartsWithJoin(x: string, a: string, b: string)
    requires StartsWith(x, a) && StartsWith(x[|a|..], b)
    ensures StartsWith(x, a + b)
  {
    assert x[..|a + b|] == x[..|a|] + x[|a|..][..|b|];
  }

  /** A text that starts with `p + q` starts with `p`. */
  lemma StartsWithLonger(s: string, p: string, q: string)
    requires StartsWith(s, p + q)
    ensures StartsWith(s, p)
  {
    assert s[..|p|] == (p + q)[..|p|];
  }

  /** Dropping a prefix that lies within the left operand of a concatenation. */
  lemma DropAppend(a: string, b: string, n: nat)
    requires n <= |a|
    ensures (a + b)[n..] == a[n..] + b
  {
  }

  /** An occurrence anywhere makes `sub in s` true. */
  lemma ContainsAt(s: string, sub: string, i: int)
    requires OccursAt(s, sub, i)
    ensures Contains(s, sub)
  {
  }

  /** What occurs in a suffix of `s` occurs in `s`. */
  lemma ContainsInSuffix(s: string, k: nat, sub: string)
    requires k <= |s| && Contains(s[k..], sub)
    ensures Contains(s, sub)
  {
    var j := Find(s[k..], sub);
    assert s[k..][j..j + |sub|] == s[k + j..k + j + |sub|];
    ContainsAt(s, sub, k + j);
  }

  /** A prefix of a suffix of `s` occurs in `s`. */
  lemma StartsWithSuffix(s: string, k: nat, p: string)
    requires k <= |s| && StartsWith(s[k..], p)
    ensures OccursAt(s, p, k) && Contains(s, p)
  {
    assert s[k..][..|p|] == s[k..k + |p|];
    ContainsAt(s, p, k);
  }

  /** A piece of a contained string is contained. */
  lemma ContainsPiece(s: string, x: string, i: nat, j: nat)
    requires Contains(s, x) && i <= j <= |x|
    ensures Contains(s, x[i..j])
  {
    var p := Find(s, x);
    assert x == s[p..p + |x|];
    assert s[p + i..p + j] == s[p..p + |x|][i..j];
    ContainsAt(s, x[i..j], p + i);
  }

  /** A slice of a slice is a slice of the whole. */
  lemma SliceOfSlice(s: string, i: nat, j: nat, a: nat, b: nat)
    requires i <= j <= |s| && a <= b <= j - i
    ensures s[i..j][a..b] == s[i + a..i + b]
  {
    assert forall k :: 0 <= k < b - a ==> s[i..j][a..b][k] == s[i + a + k] == s[i + a..i + b][k];
  }

  /** What is contained in a piece of `s` is contained in `s`. */
  lemma ContainsThrough(s: string, t: string, i: int, x: string)
    requires OccursAt(s, t, i) && Contains(t, x)
    ensures Contains(s, x)
  {
    var p := Find(t, x);
    assert OccursAt(t, x, p);
    assert t == s[i..i + |t|];
    SliceOfSlice(s, i, i + |t|, p, p + |x|);
    assert s[i + p..i + p + |x|] == x;
    ContainsAt(s, x, i + p);
  }

  /** What the stripped text contains, the text contains. */
  lemma StrippedContains(s: string, x: string)
    requires Contains(Strip(s), x)
    ensures Contains(s, x)
  {
    StripShape(s);
    var at :| OccursAt(s, Strip(s), at);
    ContainsThrough(s, Strip(s), at, x);
  }

  /** Some string of `subs` occurs in `s`. */
  predicate ContainsAny(s: string, subs: seq<string>) {
    exists k :: 0 <= k < |subs| && Contains(s, subs[k])
  }

  /** What `s.split(sep, 1)` yields when `sep` occurs: the text before and after the first `sep`. */
  function SplitOnce(s: string, sep: string): (r: Option<(string, string)>)
    requires |sep| > 0
    ensures r.None? <==> !Contains(s, sep)
    ensures r.Some? ==> s == r.value.0 + sep + r.value.1 && !Contains(r.value.0, sep)
  {
    var k := Find(s, sep);
    if k < 0 then None
    else
      var before := s[..k];
      assert s == before + sep + s[k + |sep|..];
      assert forall j :: 0 <= j && OccursAt(before, sep, j) ==> OccursAt(s, sep, j) && j < k by {
        forall j | 0 <= j && OccursAt(before, sep, j) ensures OccursAt(s, sep, j) && j < k {
          assert before[j..j + |sep|] == s[j..j + |sep|];
        }
      }
      Some((before, s[k + |sep|..]))
  }

  /** `s.split(sep, maxsplit)` for a non-empty separator. */
  function SplitMax(s: string, sep: string, maxsplit: nat): (r: seq<string>)
    requires |sep| > 0
    decreases maxsplit
    ensures 1 <= |r| <= maxsplit + 1
    ensures Join(sep, r) == s
    ensures forall k :: 0 <= k < |r| - 1 ==> !Contains(r[k], sep)
  {
    if maxsplit == 0 then [s]
    else match SplitOnce(s, sep)
      case None => [s]
      case Some((before, after)) =>
        [before] + SplitMax(after, sep, maxsplit - 1)
  }

  /** `s.split(sep, 2)` has three parts exactly when `sep` occurs again after its first occurrence. */
  lemma SplitMaxTwo(s: string, sep: string)
    requires |sep| > 0
    ensures |SplitMax(s, sep, 2)| == 3 <==> Contains(s, sep) && Contains(s[Find(s, sep) + |sep|..], sep)
  {
    var k := Find(s, sep);
    if k >= 0 {
      var after := s[k + |sep|..];
      assert SplitOnce(s, sep) == Some((s[..k], after));
      assert SplitMax(s, sep, 2) == [s[..k]] + SplitMax(after, sep, 1);
    }
  }

  /** `sep.join(parts)`. */
  function Join(sep: string, parts: seq<string>): string {
    if parts == [] then ""
    else if |parts| == 1 then parts[0]
    else parts[0] + sep + Join(sep, parts[1..])
  }

  /** `s.replace(pat, rep)`: every occurrence, scanning left to right without overlap. */
  function Replace(s: string, pat: string, rep: string): string
    decreases |s|
  {
    if pat == [] then
      (if s == [] then rep else rep + [s[0]] + Replace(s[1..], pat, rep))
    else if StartsWith(s, pat) then rep + Replace(s[|pat|..], pat, rep)
    else if s == [] then s
    else [s[0]] + Replace(s[1..], pat, rep)
  }

  /** Replacing a non-empty string that does not occur leaves the text as it was. */
  lemma {:induction false} ReplaceAbsent(s: string, pat: string, rep: string)
    requires pat != [] && !Contains(s, pat)
    ensures Replace(s, pat, rep) == s
  {
    assert !OccursAt(s, pat, 0);
    if s != [] {
      forall j | 0 <= j && OccursAt(s[1..], pat, j) ensures OccursAt(s, pat, j + 1) {
        assert s[1..][j..j + |pat|] == s[j + 1..j + 1 + |pat|];
      }
      ReplaceAbsent(s[1..], pat, rep);
    }
  }

  /** Replacing a pattern that occurs only at the very start. */
  lemma ReplaceLeading(pat: string, rest: string, rep: string)
    requires pat != [] && !Contains(rest, pat)
    ensures Replace(pat + rest, pat, rep) == rep + rest
  {
    var s := pat + rest;
    assert s[..|pat|] == pat;
    assert s[|pat|..] == rest;
    ReplaceAbsent(rest, pat, rep);
  }

  /** ASCII case folding of one character. */
  function LowerChar(c: char): char {
    if 'A' <= c <= 'Z' then (c as int + 32) as char else c
  }

  /** `s.lower()` restricted to ASCII letters. */
  function Lower(s: string): (r: string)
    ensures |r| == |s|
    ensures forall i :: 0 <= i < |s| ==> r[i] == LowerChar(s[i])
  {
    if s == [] then [] else [LowerChar(s[0])] + Lower(s[1..])
  }

  /** A decimal digit as matched by `\d` (ASCII). */
  predicate IsDigit(c: char) {
    '0' <= c <= '9'
  }

  predicate AllDigits(s: string) {
    forall i :: 0 <= i < |s| ==> IsDigit(s[i])
  }

  /** The number of leading digits of `s`. */
  function DigitRun(s: string): (n: nat)
    ensures n <= |s|
    ensures AllDigits(s[..n])
    ensures n == |s| || !IsDigit(s[n])
  {
    if s != [] && IsDigit(s[0]) then
      var n := 1 + DigitRun(s[1..]);
      assert s[..n] == [s[0]] + s[1..][..n - 1];
      n
    else 0
  }

  /** The digit run of a digit string followed by a non-digit is that string. */
  lemma {:induction false} DigitRunOf(d: string, rest: string)
    requires AllDigits(d) && (rest == [] || !IsDigit(rest[0]))
    ensures DigitRun(d + rest) == |d|
  {
    if d != [] {
      assert (d + rest)[1..] == d[1..] + rest;
      DigitRunOf(d[1..], rest);
    } else {
      assert d + rest == rest;
    }
  }

  /** `int(s)` of a run of decimal digits. */
  function DigitsValue(s: string): nat
    requires AllDigits(s)
  {
    if s == [] then 0 else DigitsValue(s[..|s| - 1]) * 10 + (s[|s| - 1] as int - '0' as int)
  }

  /** `str(n)` of a natural number. */
  function NatToString(n: nat): (r: string)
    ensures |r| > 0 && AllDigits(r)
  {
    if n < 10 then [('0' as int + n) as char]
    else NatToString(n / 10) + [('0' as int + n % 10) as char]
  }

  /** `str(i)` of an integer. */
  function IntToString(i: int): string {
    if i < 0 then "-" + NatToString(-i) else NatToString(i)
  }

  /** Reading back the decimal text of a number gives the number. */
  lemma {:induction false} NatToStringRoundTrip(n: nat)
    ensures DigitsValue(NatToString(n)) == n
  {
    if n >= 10 {
      NatToStringRoundTrip(n / 10);
      var s := NatToString(n);
      assert s[..|s| - 1] == NatToString(n / 10);
    }
  }

  /** `a <= b` on Python strings: lexicographic order of code points. */
  predicate StrLe(a: string, b: string) {
    if a == [] then true
    else if b == [] then false
    else if a[0] != b[0] then a[0] < b[0]
    else StrLe(a[1..], b[1..])
  }

  lemma {:induction false} StrLeTotal(a: string, b: string)
    ensures StrLe(a, b) || StrLe(b, a)
  {
    if a != [] && b != [] && a[0] == b[0] {
      StrLeTotal(a[1..], b[1..]);
    }
  }

  lemma {:induction false} StrLeTransitive(a: string, b: string, c: string)
    requires StrLe(a, b) && StrLe(b, c)
    ensures StrLe(a, c)
  {
    if a != [] && b != [] && c != [] && a[0] == b[0] && b[0] == c[0] {
      StrLeTransitive(a[1..], b[1..], c[1..]);
    }
  }

  lemma {:induction false} StrLeAntisymmetric(a: string, b: string)
    requires StrLe(a, b) && StrLe(b, a)
    ensures a == b
  {
    if a != [] && b != [] {
      StrLeAntisymmetric(a[1..], b[1..]);
      assert a == [a[0]] + a[1..];
      assert b == [b[0]] + b[1..];
    }
  }

  /** Code-point order on strings is a total order, so `sort(key=...)` on a string key is well defined. */
  lemma StrLeTotalOrder()
    ensures Seqs.TotalOrder(StrLe)
  {
    forall a, b ensures StrLe(a, b) || StrLe(b, a) {
      StrLeTotal(a, b);
    }
    forall a, b, c | StrLe(a, b) && StrLe(b, c) ensures StrLe(a, c) {
      StrLeTransitive(a, b, c);
    }
    forall a, b | StrLe(a, b) && StrLe(b, a) ensures a == b {
      StrLeAntisymmetric(a, b);
    }
  }
}
