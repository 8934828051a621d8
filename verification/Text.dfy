/** Strings as sequences of characters: searching, lines and trimming. */
module Text {

  /** `p` occurs in `s` starting at index `i`. */
  predicate OccursAt(s: string, p: string, i: int) {
    0 <= i && i + |p| <= |s| && s[i..i + |p|] == p
  }

  /** The index of the first occurrence of `p` in `s`, or -1. */
  function Find(s: string, p: string): (r: int)
    ensures -1 <= r
    ensures r >= 0 ==> OccursAt(s, p, r)
    ensures forall i :: OccursAt(s, p, i) ==> 0 <= r <= i
  {
    FindFrom(s, p, 0)
  }

  function FindFrom(s: string, p: string, from: nat): (r: int)
    requires from <= |s|
    ensures r == -1 || from <= r
    ensures r >= 0 ==> OccursAt(s, p, r)
    ensures forall i :: from <= i && OccursAt(s, p, i) ==> 0 <= r <= i
    decreases |s| - from
  {
    if OccursAt(s, p, from) then from
    else if from == |s| then -1
    else FindFrom(s, p, from + 1)
  }

  /** An occurrence inside one part of a concatenation is an occurrence of the whole. */
  lemma OccursInPart(a: string, s: string, b: string, p: string, i: int)
    requires OccursAt(s, p, i)
    ensures OccursAt(a + s + b, p, |a| + i)
  {
    assert (a + s + b)[|a| + i..|a| + i + |p|] == s[i..i + |p|];
  }

  /** An occurrence that lies within the bounds of one part is an occurrence in that part. */
  lemma OccursWithin(a: string, s: string, b: string, p: string, i: int)
    requires OccursAt(a + s + b, p, i)
    requires |a| <= i && i + |p| <= |a| + |s|
    ensures OccursAt(s, p, i - |a|)
  {
    assert (a + s + b)[i..i + |p|] == s[i - |a|..i - |a| + |p|];
  }

  /** A pattern that does not hold `c` never spans an occurrence of `c`. */
  lemma NeverSpans(s: string, p: string, i: int, k: int, c: char)
    requires OccursAt(s, p, i)
    requires 0 <= k < |s| && s[k] == c && c !in p
    ensures k < i || i + |p| <= k
  {
    assert forall j :: 0 <= j < |p| ==> s[i + j] == s[i..i + |p|][j] && p[j] != c;
    assert k == i + (k - i);
  }

  /** Index of the first `c` in `s`, or the length of `s`. */
  function IndexOf(s: string, c: char): (r: nat)
    ensures r <= |s|
    ensures r < |s| ==> s[r] == c
    ensures forall i :: 0 <= i < r ==> s[i] != c
  {
    IndexFrom(s, c, 0)
  }

  function IndexFrom(s: string, c: char, from: nat): (r: nat)
    requires from <= |s|
    ensures from <= r <= |s|
    ensures r < |s| ==> s[r] == c
    ensures forall i :: from <= i < r ==> s[i] != c
    decreases |s| - from
  {
    if from == |s| || s[from] == c then from else IndexFrom(s, c, from + 1)
  }

  lemma IndexOfAppend(a: string, b: string, c: char)
    requires c !in a
    ensures IndexOf(a + b, c) == |a| + IndexOf(b, c)
  {
    var r, q := IndexOf(a + b, c), IndexOf(b, c);
    assert forall i :: 0 <= i < |a| ==> (a + b)[i] == a[i] && a[i] != c;
    assert forall i :: |a| <= i < |a| + q ==> (a + b)[i] == b[i - |a|];
    assert q < |b| ==> (a + b)[|a| + q] == b[q];
  }

  /** White space as Python's `str.strip` and `\s` understand it. */
  predicate PythonWhite(c: char) {
    || '\t' <= c <= '\r' || '\U{1C}' <= c <= ' ' || c == '\U{85}' || c == '\U{A0}' || c == '\U{1680}'
    || '\U{2000}' <= c <= '\U{200A}' || c == '\U{2028}' || c == '\U{2029}' || c == '\U{202F}'
    || c == '\U{205F}' || c == '\U{3000}'
  }

  /** No part holds `x`. */
  predicate NoneHolds<T(==)>(parts: seq<seq<T>>, x: T) { forall i :: 0 <= i < |parts| ==> x !in parts[i] }

  /** The parts with `sep` between them. */
  function JoinWith<T>(parts: seq<seq<T>>, sep: seq<T>): seq<T> {
    if parts == [] then [] else if |parts| == 1 then parts[0] else parts[0] + sep + JoinWith(parts[1..], sep)
  }

  /** Where Python's `str.splitlines` breaks a text. */
  predicate PythonBreak(c: char) {
    || '\n' <= c <= '\r' || '\U{1C}' <= c <= '\U{1E}' || c == '\U{85}' || c == '\U{2028}' || c == '\U{2029}'
  }

  predicate InLine(c: char) { !PythonBreak(c) }

  /** The lines of a text; a carriage return and a line feed together are one break, and the last line needs none. */
  function PythonLines(s: string): seq<string>
    decreases |s|
  {
    var k := KeptStart(s, 0, InLine);
    if s == "" then []
    else if k == |s| then [s]
    else [s[..k]] + PythonLines(s[k + (if s[k] == '\r' && k + 1 < |s| && s[k + 1] == '\n' then 2 else 1)..])
  }

  /** Each line with a line feed behind it. */
  function Unlines(lines: seq<string>): string {
    if lines == [] then "" else lines[0] + "\n" + Unlines(lines[1..])
  }

  /** Splitting gives back lines that hold no break themselves. */
  lemma {:induction false} LinesOfUnlines(lines: seq<string>)
    requires forall i :: 0 <= i < |lines| ==> All(lines[i], InLine)
    ensures PythonLines(Unlines(lines)) == lines
  {
    if lines != [] {
      var l, rest := lines[0], Unlines(lines[1..]);
      var s := l + "\n" + rest;
      assert forall i :: 0 <= i < |l| ==> s[i] == l[i];
      assert s[|l|] == '\n';
      assert KeptStart(s, 0, InLine) == |l|;
      assert s[..|l|] == l && s[|l| + 1..] == rest;
      LinesOfUnlines(lines[1..]);
    }
  }

  /** No line holds a break. */
  lemma {:induction false} LinesHoldNoBreak(s: string)
    ensures forall i :: 0 <= i < |PythonLines(s)| ==> All(PythonLines(s)[i], InLine)
    decreases |s|
  {
    var k := KeptStart(s, 0, InLine);
    if s != "" && k < |s| {
      LinesHoldNoBreak(s[k + (if s[k] == '\r' && k + 1 < |s| && s[k + 1] == '\n' then 2 else 1)..]);
    }
  }

  predicate All(s: string, p: char -> bool) {
    forall i :: 0 <= i < |s| ==> p(s[i])
  }

  /** Length of the first `n` characters of `s` without their longest suffix satisfying `p`. */
  function KeptEnd(s: string, n: nat, p: char -> bool): (r: nat)
    requires n <= |s|
    ensures r <= n
    ensures r > 0 ==> !p(s[r - 1])
    ensures forall i :: r <= i < n ==> p(s[i])
  {
    if n == 0 || !p(s[n - 1]) then n else KeptEnd(s, n - 1, p)
  }

  /** Index of the first character from `n` on that does not satisfy `p`. */
  function KeptStart(s: string, n: nat, p: char -> bool): (r: nat)
    requires n <= |s|
    ensures n <= r <= |s|
    ensures r < |s| ==> !p(s[r])
    ensures forall i :: n <= i < r ==> p(s[i])
    decreases |s| - n
  {
    if n == |s| || !p(s[n]) then n else KeptStart(s, n + 1, p)
  }

  /** Drops the longest suffix made of characters that satisfy `p`. */
  function TrimEnd(s: string, p: char -> bool): string { s[..KeptEnd(s, |s|, p)] }

  /** Drops the longest prefix made of characters that satisfy `p`. */
  function TrimStart(s: string, p: char -> bool): string { s[KeptStart(s, 0, p)..] }

  function Trim(s: string, p: char -> bool): string {
    TrimEnd(TrimStart(s, p), p)
  }

  /** Trimming takes characters that satisfy `p` off the end and nothing else. */
  lemma TrimEndParts(s: string, p: char -> bool) returns (trail: string)
    ensures s == TrimEnd(s, p) + trail && All(trail, p)
    ensures TrimEnd(s, p) != "" ==> !p(TrimEnd(s, p)[|TrimEnd(s, p)| - 1])
  {
    trail := s[KeptEnd(s, |s|, p)..];
  }

  lemma TrimStartParts(s: string, p: char -> bool) returns (lead: string)
    ensures s == lead + TrimStart(s, p) && All(lead, p)
    ensures TrimStart(s, p) != "" ==> !p(TrimStart(s, p)[0])
  {
    lead := s[..KeptStart(s, 0, p)];
  }

  lemma TrimParts(s: string, p: char -> bool) returns (lead: string, trail: string)
    ensures s == lead + Trim(s, p) + trail
    ensures All(lead, p) && All(trail, p)
    ensures Trim(s, p) != "" ==> !p(Trim(s, p)[0]) && !p(Trim(s, p)[|Trim(s, p)| - 1])
  {
    lead := TrimStartParts(s, p);
    trail := TrimEndParts(TrimStart(s, p), p);
  }

  /** The result of trimming the end is the only part with these properties. */
  lemma TrimEndIs(s: string, kept: string, trail: string, p: char -> bool)
    requires s == kept + trail && All(trail, p)
    requires kept == "" || !p(kept[|kept| - 1])
    ensures TrimEnd(s, p) == kept
  {
    var r := KeptEnd(s, |s|, p);
    assert forall i :: |kept| <= i < |s| ==> s[i] == trail[i - |kept|];
    assert kept != "" ==> s[|kept| - 1] == kept[|kept| - 1];
    assert r == |kept|;
  }

  lemma TrimIs(s: string, lead: string, kept: string, trail: string, p: char -> bool)
    requires s == lead + kept + trail && All(lead, p) && All(trail, p)
    requires kept == "" || (!p(kept[0]) && !p(kept[|kept| - 1]))
    ensures Trim(s, p) == kept
  {
    var r := KeptStart(s, 0, p);
    assert forall i :: 0 <= i < |lead| ==> s[i] == lead[i];
    if kept == "" {
      assert forall i :: |lead| <= i < |s| ==> s[i] == trail[i - |lead|];
      assert r == |s|;
      TrimEndIs(TrimStart(s, p), "", "", p);
    } else {
      assert s[|lead|] == kept[0];
      assert r == |lead| && s[r..] == kept + trail;
      TrimEndIs(kept + trail, kept, trail, p);
    }
  }

  /** Code-point order on strings. */
  predicate LexLe(a: string, b: string) {
    if a == "" then true
    else if b == "" then false
    else if a[0] != b[0] then a[0] < b[0]
    else LexLe(a[1..], b[1..])
  }

  lemma LexLeTotal(a: string, b: string)
    ensures LexLe(a, b) || LexLe(b, a)
  {}

  lemma LexLeAntisymmetric(a: string, b: string)
    requires LexLe(a, b) && LexLe(b, a)
    ensures a == b
  {
    if a != "" && b != "" {
      LexLeAntisymmetric(a[1..], b[1..]);
      assert a == [a[0]] + a[1..] && b == [b[0]] + b[1..];
    }
  }

  lemma LexLeTransitive(a: string, b: string, c: string)
    requires LexLe(a, b) && LexLe(b, c)
    ensures LexLe(a, c)
  {
    if a != "" && b != "" && c != "" && a[0] == b[0] == c[0] {
      LexLeTransitive(a[1..], b[1..], c[1..]);
    }
  }

  /** A line ends with any one break; a carriage return and a line feed together are one. */
  lemma PythonLinesBreak(line: string, end: string, rest: string)
    requires All(line, InLine)
    requires end == "\r\n" || (|end| == 1 && PythonBreak(end[0]) && !(end == "\r" && rest != "" && rest[0] == '\n'))
    ensures PythonLines(line + end + rest) == [line] + PythonLines(rest)
  {
    var s := line + end + rest;
    assert forall i :: 0 <= i < |line| ==> s[i] == line[i];
    assert s[|line|] == end[0];
    assert KeptStart(s, 0, InLine) == |line| && s[..|line|] == line;
    assert s[|line| + |end|..] == rest;
    assert end == "\r\n" ==> s[|line| + 1] == '\n';
    assert |end| == 1 && |line| + 1 < |s| ==> s[|line| + 1] == rest[0];
  }
}
