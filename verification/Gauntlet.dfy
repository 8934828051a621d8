/** The scanner of captured gauntlet output, line by line (demo/gauntlet_check_output.py). */
module Gauntlet {
  import opened Json
  import opened Text

  // ----- the allowlist

  /** Expected failures by file and function, each with the reasons it is pinned to, and expected clusters. */
  datatype Allowlist = Allowlist(failures: map<(string, string), seq<string>>, lifecycle: set<string>)

  predicate Allows(al: Allowlist, base: string, func: string, reason: string) {
    && (base, func) in al.failures
    && exists k :: 0 <= k < |al.failures[(base, func)]| && Find(reason, al.failures[(base, func)][k]) >= 0
  }

  predicate Extends(more: Allowlist, al: Allowlist) {
    && al.lifecycle <= more.lifecycle
    && forall key :: key in al.failures ==>
         key in more.failures && forall pin :: pin in al.failures[key] ==> pin in more.failures[key]
  }

  /** Adding entries or pins never takes a permission away. */
  lemma AllowsMore(more: Allowlist, al: Allowlist, base: string, func: string, reason: string)
    requires Extends(more, al) && Allows(al, base, func, reason)
    ensures Allows(more, base, func, reason)
  {
    var key := (base, func);
    var k :| 0 <= k < |al.failures[key]| && Find(reason, al.failures[key][k]) >= 0;
    assert al.failures[key][k] in al.failures[key];
    var j :| 0 <= j < |more.failures[key]| && more.failures[key][j] == al.failures[key][k];
  }

  /** Without a reason, as the scanner asks, only an empty pin permits anything. */
  lemma AllowsWithoutReason(al: Allowlist, base: string, func: string)
    ensures Allows(al, base, func, "") <==>
            (base, func) in al.failures && "" in al.failures[(base, func)]
  {
    if (base, func) in al.failures {
      var pins := al.failures[(base, func)];
      forall k | 0 <= k < |pins|
        ensures Find("", pins[k]) >= 0 <==> pins[k] == ""
      {
        assert pins[k] == "" ==> OccursAt("", pins[k], 0);
      }
    }
  }

  // ----- one line

  datatype Heading = Heading(func: string, base: string)

  datatype Summary = Summary(paths: nat, zero: bool)

  datatype Row = Row(func: string, base: string, zero: bool, iterations: nat)

  /** What the regular expressions find in a line. */
  datatype Features = Features(
    heading: Option<Heading>,
    rule: bool,
    hard: bool,
    deserialize: bool,
    cluster: Option<string>,
    passed: bool,
    summary: Option<Summary>,
    row: Option<Row>)

  datatype Flag = Line(text: string) | ZeroCoverage(func: string, paths: nat, text: string)

  datatype Current = Current(heading: Heading, allowed: bool)

  datatype State = State(current: Option<Current>, awaiting: bool)

  const START := State(None, false)

  /** A line opens or closes a block before anything else is looked at. */
  function Entered(al: Allowlist, s: State, f: Features): State {
    match f.heading
    case Some(h) => State(Some(Current(h, Allows(al, h.base, h.func, ""))), true)
    case None => if f.rule then START else s
  }

  predicate Excused(s: State, f: Features) { s.current.Some? && s.current.value.allowed && !f.hard }

  predicate IsError(f: Features) { f.hard || f.deserialize }

  /** A line that is neither heading, error nor cluster line, where a summary is still awaited. */
  predicate LooksForSummary(s: State, f: Features) { s.awaiting && s.current.Some? && !f.passed }

  function SummaryFlags(s: State, f: Features, line: string): seq<Flag>
    requires s.current.Some?
  {
    if f.summary.Some? && f.summary.value.zero && f.summary.value.paths >= 1 && !s.current.value.allowed
    then [ZeroCoverage(s.current.value.heading.func, f.summary.value.paths, line)] else []
  }

  function RowFlags(al: Allowlist, f: Features, line: string): seq<Flag> {
    if f.row.Some? && f.row.value.zero && f.row.value.iterations >= 1
       && !Allows(al, f.row.value.base, f.row.value.func, "")
    then [Line(line)] else []
  }

  /** What one line adds, given the state after `Entered`. */
  function Flags(al: Allowlist, s: State, f: Features, line: string): seq<Flag> {
    if f.heading.Some? then []
    else if IsError(f) then if Excused(s, f) then [] else [Line(line)]
    else if f.cluster.Some? then if f.cluster.value in al.lifecycle then [] else [Line(line)]
    else if s.awaiting && s.current.Some? && f.passed then []
    else if LooksForSummary(s, f) then SummaryFlags(s, f, line) + RowFlags(al, f, line)
    else RowFlags(al, f, line)
  }

  function Left(s: State, f: Features): State {
    if f.heading.None? && !IsError(f) && f.cluster.None? && LooksForSummary(s, f) then s.(awaiting := false) else s
  }

  type Reader = string -> Features

  function After(al: Allowlist, read: Reader, s: State, line: string): State {
    Left(Entered(al, s, read(line)), read(line))
  }

  function FlagsOf(al: Allowlist, read: Reader, s: State, line: string): seq<Flag> {
    Flags(al, Entered(al, s, read(line)), read(line), line)
  }

  // ----- a transcript

  function Scan(al: Allowlist, read: Reader, s: State, lines: seq<string>): seq<Flag>
    decreases |lines|
  {
    if lines == [] then []
    else FlagsOf(al, read, s, lines[0]) + Scan(al, read, After(al, read, s, lines[0]), lines[1..])
  }

  function StateAfter(al: Allowlist, read: Reader, s: State, lines: seq<string>): State
    decreases |lines|
  {
    if lines == [] then s else StateAfter(al, read, After(al, read, s, lines[0]), lines[1..])
  }

  method Check(al: Allowlist, read: Reader, lines: seq<string>) returns (flagged: seq<Flag>)
    ensures flagged == Scan(al, read, START, lines)
  {
    flagged := [];
    var current: Option<Current> := None;
    var awaiting := false;
    for i := 0 to |lines|
      invariant flagged + Scan(al, read, State(current, awaiting), lines[i..]) == Scan(al, read, START, lines)
    {
      var line := lines[i];
      assert lines[i..][0] == line && lines[i..][1..] == lines[i + 1..];
      var more;
      more, current, awaiting := CheckLine(al, read, current, awaiting, line);
      flagged := flagged + more;
    }
    assert lines[|lines|..] == [];
  }

  /** The body of the loop. */
  method CheckLine(al: Allowlist, read: Reader, current: Option<Current>, awaiting: bool, line: string)
    returns (flagged: seq<Flag>, current': Option<Current>, awaiting': bool)
    ensures flagged == FlagsOf(al, read, State(current, awaiting), line)
    ensures State(current', awaiting') == After(al, read, State(current, awaiting), line)
  {
    flagged, current', awaiting' := [], current, awaiting;
    var f := read(line);
    if f.heading.Some? {
      var h := f.heading.value;
      return [], Some(Current(h, Allows(al, h.base, h.func, ""))), true;
    }
    if f.rule {
      current', awaiting' := None, false;
    }
    if IsError(f) {
      var excused := current'.Some? && current'.value.allowed && !f.hard;
      if !excused {
        flagged := flagged + [Line(line)];
      }
      return;
    }
    if f.cluster.Some? {
      if f.cluster.value !in al.lifecycle {
        flagged := flagged + [Line(line)];
      }
      return;
    }
    if awaiting' && current'.Some? {
      if f.passed {
        return;
      }
      if f.summary.Some? {
        if f.summary.value.zero && f.summary.value.paths >= 1 && !current'.value.allowed {
          flagged := flagged + [ZeroCoverage(current'.value.heading.func, f.summary.value.paths, line)];
        }
      }
      awaiting' := false;
    }
    if f.row.Some? && f.row.value.zero && f.row.value.iterations >= 1 {
      if !Allows(al, f.row.value.base, f.row.value.func, "") {
        flagged := flagged + [Line(line)];
      }
    }
  }

  // ----- separators

  lemma {:induction false} ScanAppend(al: Allowlist, read: Reader, s: State, a: seq<string>, b: seq<string>)
    ensures Scan(al, read, s, a + b) == Scan(al, read, s, a) + Scan(al, read, StateAfter(al, read, s, a), b)
    ensures StateAfter(al, read, s, a + b) == StateAfter(al, read, StateAfter(al, read, s, a), b)
    decreases |a|
  {
    if a == [] {
      assert a + b == b;
    } else {
      assert (a + b)[1..] == a[1..] + b;
      ScanAppend(al, read, After(al, read, s, a[0]), a[1..], b);
    }
  }

  /** A line that is a rule and nothing else. */
  predicate Separator(f: Features) {
    f.rule && f.heading.None? && !IsError(f) && f.cluster.None? && f.row.None?
  }

  /** A separator cuts a transcript into two that are checked on their own. */
  lemma SeparatorSplits(al: Allowlist, read: Reader, a: seq<string>, rule: string, b: seq<string>)
    requires Separator(read(rule))
    ensures Scan(al, read, START, a + [rule] + b) == Scan(al, read, START, a) + Scan(al, read, START, b)
  {
    ScanAppend(al, read, START, a + [rule], b);
    ScanAppend(al, read, START, a, [rule]);
    SeparatorAlone(al, read, StateAfter(al, read, START, a), rule);
  }

  lemma SeparatorAlone(al: Allowlist, read: Reader, s: State, rule: string)
    requires Separator(read(rule))
    ensures Scan(al, read, s, [rule]) == [] && StateAfter(al, read, s, [rule]) == START
  {
    assert After(al, read, s, rule) == START && FlagsOf(al, read, s, rule) == [];
    assert [rule][1..] == [];
  }

  // ----- subsequences

  /** `a` is `b` with some elements left out. */
  predicate Sub<T(==)>(a: seq<T>, b: seq<T>)
    decreases |b|
  {
    if a == [] then true
    else if b == [] then false
    else if a[0] == b[0] then Sub(a[1..], b[1..])
    else Sub(a, b[1..])
  }

  lemma {:induction false} SubTail<T>(a: seq<T>, b: seq<T>)
    requires Sub(a, b) && a != []
    ensures Sub(a[1..], b)
    decreases |b|
  {
    if a[0] == b[0] {
      SubCons(a[1..], b);
    } else {
      SubTail(a, b[1..]);
      SubCons(a[1..], b);
    }
  }

  lemma {:induction false} SubCons<T>(a: seq<T>, b: seq<T>)
    requires b != [] && Sub(a, b[1..])
    ensures Sub(a, b)
    decreases |b|, 0
  {
    if a != [] && a[0] == b[0] {
      SubTail(a, b[1..]);
    }
  }

  lemma {:induction false} SubAppend<T>(a: seq<T>, b: seq<T>, c: seq<T>, d: seq<T>)
    requires Sub(a, b) && Sub(c, d)
    ensures Sub(a + c, b + d)
    decreases |b|
  {
    if b == [] {
      assert a + c == c && b + d == d;
    } else {
      assert (b + d)[1..] == b[1..] + d;
      if a == [] {
        SubAppend(a, b[1..], c, d);
        SubCons(a + c, b + d);
      } else if a[0] == b[0] {
        assert (a + c)[1..] == a[1..] + c;
        SubAppend(a[1..], b[1..], c, d);
      } else {
        SubAppend(a, b[1..], c, d);
      }
    }
  }

  // ----- larger allowlists

  /** The same block, with at least the same permission. */
  predicate Lenient(s': State, s: State) {
    && s'.awaiting == s.awaiting
    && s'.current.Some? == s.current.Some?
    && (s.current.Some? ==>
          && s'.current.value.heading == s.current.value.heading
          && (s.current.value.allowed ==> s'.current.value.allowed))
  }

  lemma EnteredLenient(al': Allowlist, al: Allowlist, s': State, s: State, f: Features)
    requires Extends(al', al) && Lenient(s', s)
    ensures Lenient(Entered(al', s', f), Entered(al, s, f))
  {
    if f.heading.Some? && Allows(al, f.heading.value.base, f.heading.value.func, "") {
      AllowsMore(al', al, f.heading.value.base, f.heading.value.func, "");
    }
  }

  lemma RowFlagsFewer(al': Allowlist, al: Allowlist, f: Features, line: string)
    requires Extends(al', al)
    ensures RowFlags(al', f, line) == RowFlags(al, f, line) || RowFlags(al', f, line) == []
  {
    if f.row.Some? && Allows(al, f.row.value.base, f.row.value.func, "") {
      AllowsMore(al', al, f.row.value.base, f.row.value.func, "");
    }
  }

  lemma {:induction false} SubSelf<T>(a: seq<T>)
    ensures Sub(a, a)
  {
    if a != [] {
      SubSelf(a[1..]);
    }
  }

  lemma FlagsFewer(al': Allowlist, al: Allowlist, s': State, s: State, f: Features, line: string)
    requires Extends(al', al) && Lenient(s', s)
    ensures Sub(Flags(al', s', f, line), Flags(al, s, f, line))
  {
    var b, b' := RowFlags(al, f, line), RowFlags(al', f, line);
    RowFlagsFewer(al', al, f, line);
    SubSelf(b);
    if f.heading.None? && !IsError(f) && f.cluster.None? && LooksForSummary(s, f) {
      var a, a' := SummaryFlags(s, f, line), SummaryFlags(s', f, line);
      SubSelf(a);
      SubAppend(a', a, b', b);
    }
  }

  lemma {:induction false} ScanFewer(al': Allowlist, al: Allowlist, read: Reader, s': State, s: State,
                                     lines: seq<string>)
    requires Extends(al', al) && Lenient(s', s)
    ensures Sub(Scan(al', read, s', lines), Scan(al, read, s, lines))
    decreases |lines|
  {
    if lines != [] {
      var f := read(lines[0]);
      EnteredLenient(al', al, s', s, f);
      FlagsFewer(al', al, Entered(al', s', f), Entered(al, s, f), f, lines[0]);
      ScanFewer(al', al, read, After(al', read, s', lines[0]), After(al, read, s, lines[0]), lines[1..]);
      SubAppend(FlagsOf(al', read, s', lines[0]), FlagsOf(al, read, s, lines[0]),
                Scan(al', read, After(al', read, s', lines[0]), lines[1..]),
                Scan(al, read, After(al, read, s, lines[0]), lines[1..]));
    }
  }

  /** Enlarging the allowlist only takes flags away, and keeps the others in their order. */
  lemma LargerAllowlistFlagsFewer(al': Allowlist, al: Allowlist, read: Reader, lines: seq<string>)
    requires Extends(al', al)
    ensures Sub(Scan(al', read, START, lines), Scan(al, read, START, lines))
  {
    ScanFewer(al', al, read, START, START, lines);
  }

  // ----- crash-class lines

  predicate IsCrash(f: Features) { f.heading.None? && f.hard }

  function Crashes(read: Reader, lines: seq<string>): seq<Flag> {
    if lines == [] then []
    else if IsCrash(read(lines[0])) then [Line(lines[0])] + Crashes(read, lines[1..])
    else Crashes(read, lines[1..])
  }

  /** Whatever the allowlist and the state, every crash-class line is flagged, in order. */
  lemma {:induction false} CrashesAreFlagged(al: Allowlist, read: Reader, s: State, lines: seq<string>)
    ensures Sub(Crashes(read, lines), Scan(al, read, s, lines))
    decreases |lines|
  {
    if lines != [] {
      var here: seq<Flag> := if IsCrash(read(lines[0])) then [Line(lines[0])] else [];
      var now := FlagsOf(al, read, s, lines[0]);
      SubSelf(now);
      CrashesAreFlagged(al, read, After(al, read, s, lines[0]), lines[1..]);
      SubAppend(here, now, Crashes(read, lines[1..]), Scan(al, read, After(al, read, s, lines[0]), lines[1..]));
      assert here + Crashes(read, lines[1..]) == Crashes(read, lines);
    }
  }

  // ----- blocks

  /** Line `i` is the last heading, and no rule follows it. */
  predicate OpensBlock(read: Reader, lines: seq<string>, i: nat) {
    && i < |lines|
    && read(lines[i]).heading.Some?
    && forall k :: i < k < |lines| ==> read(lines[k]).heading.None? && !read(lines[k]).rule
  }

  lemma LastState(al: Allowlist, read: Reader, lines: seq<string>, line: string)
    ensures StateAfter(al, read, START, lines + [line]) == After(al, read, StateAfter(al, read, START, lines), line)
  {
    ScanAppend(al, read, START, lines, [line]);
    assert [line][1..] == [];
  }

  /** The scanner is inside the block of the last heading, and in no other. */
  lemma {:induction false} CurrentBlock(al: Allowlist, read: Reader, lines: seq<string>, i: nat)
    requires OpensBlock(read, lines, i)
    ensures var h := read(lines[i]).heading.value;
            StateAfter(al, read, START, lines).current == Some(Current(h, Allows(al, h.base, h.func, "")))
    decreases |lines|
  {
    var n := |lines| - 1;
    assert lines == lines[..n] + [lines[n]];
    LastState(al, read, lines[..n], lines[n]);
    if i < n {
      CurrentBlock(al, read, lines[..n], i);
    }
  }

  lemma {:induction false} OpenBlockExists(al: Allowlist, read: Reader, lines: seq<string>) returns (i: nat)
    requires StateAfter(al, read, START, lines).current.Some?
    ensures OpensBlock(read, lines, i)
    decreases |lines|
  {
    var n := |lines| - 1;
    assert lines == lines[..n] + [lines[n]];
    LastState(al, read, lines[..n], lines[n]);
    if read(lines[n]).heading.Some? {
      i := n;
    } else {
      i := OpenBlockExists(al, read, lines[..n]);
    }
  }

  /** A deserialization row is passed over exactly inside the block of an allowlisted function. */
  lemma DeserializeRowExcusedIff(al: Allowlist, read: Reader, lines: seq<string>, line: string)
    requires var f := read(line); f.heading.None? && !f.rule && f.deserialize && !f.hard
    ensures Scan(al, read, START, lines + [line])
            == Scan(al, read, START, lines)
               + if exists i: nat :: OpensBlock(read, lines, i) && AllowedHeading(al, read(lines[i]))
                 then [] else [Line(line)]
  {
    ScanAppend(al, read, START, lines, [line]);
    assert [line][1..] == [];
    var s := StateAfter(al, read, START, lines);
    if s.current.Some? {
      var i := OpenBlockExists(al, read, lines);
      CurrentBlock(al, read, lines, i);
    }
    forall i: nat | OpensBlock(read, lines, i)
      ensures s.current.Some? && s.current.value.allowed == AllowedHeading(al, read(lines[i]))
    {
      CurrentBlock(al, read, lines, i);
    }
  }

  predicate AllowedHeading(al: Allowlist, f: Features) {
    f.heading.Some? && Allows(al, f.heading.value.base, f.heading.value.func, "")
  }

  // ----- summaries

  /** A line that is passed over while a summary is awaited. */
  predicate PassedOver(f: Features) {
    f.heading.None? && !f.rule && !IsError(f) && f.cluster.None? && f.passed
  }

  lemma {:induction false} WaitForSummary(al: Allowlist, read: Reader, s: State, lines: seq<string>)
    requires s.awaiting && s.current.Some? && forall i :: 0 <= i < |lines| ==> PassedOver(read(lines[i]))
    ensures Scan(al, read, s, lines) == [] && StateAfter(al, read, s, lines) == s
    decreases |lines|
  {
    if lines != [] {
      WaitForSummary(al, read, s, lines[1..]);
    }
  }

  /**
   The first line below a heading that is not blank, a log line, an error or a cluster is its summary; a summary of
   zero coverage after at least one path is flagged exactly when the heading's function is not allowlisted.
   */
  lemma ZeroCoverageFlaggedIff(al: Allowlist, read: Reader, before: seq<string>, heading: string, between: seq<string>,
                               line: string)
    requires read(heading).heading.Some?
    requires forall i :: 0 <= i < |between| ==> PassedOver(read(between[i]))
    requires var f := read(line);
             f.heading.None? && !f.rule && !IsError(f) && f.cluster.None? && !f.passed && f.row.None?
    ensures var h, sum := read(heading).heading.value, read(line).summary;
            Scan(al, read, START, before + [heading] + between + [line])
            == Scan(al, read, START, before)
               + if sum.Some? && sum.value.zero && sum.value.paths >= 1 && !Allows(al, h.base, h.func, "")
                 then [ZeroCoverage(h.func, sum.value.paths, line)] else []
  {
    var s := StateAfter(al, read, START, before);
    var t := After(al, read, s, heading);
    ScanAppend(al, read, START, before, [heading]);
    OneLine(al, read, s, heading);
    ScanAppend(al, read, START, before + [heading], between);
    WaitForSummary(al, read, t, between);
    ScanAppend(al, read, START, before + [heading] + between, [line]);
    OneLine(al, read, t, line);
    assert FlagsOf(al, read, t, line) == SummaryFlags(t, read(line), line) + [];
  }

  lemma OneLine(al: Allowlist, read: Reader, s: State, line: string)
    ensures Scan(al, read, s, [line]) == FlagsOf(al, read, s, line)
    ensures StateAfter(al, read, s, [line]) == After(al, read, s, line)
  {
    assert [line][1..] == [];
  }

  // ----- the verdict on each line, from the lines before it

  /** Inside the block of an allowlisted function. */
  ghost predicate InAllowedBlock(al: Allowlist, read: Reader, before: seq<string>) {
    exists i: nat :: OpensBlock(read, before, i) && AllowedHeading(al, read(before[i]))
  }

  /** The block of heading `i` has had nothing but errors, cluster lines, blanks and log lines. */
  predicate AwaitsSummary(read: Reader, before: seq<string>, i: nat) {
    && OpensBlock(read, before, i)
    && forall k :: i < k < |before| ==>
         var f := read(before[k]); f.hard || f.deserialize || f.cluster.Some? || f.passed
  }

  ghost predicate Awaits(read: Reader, before: seq<string>, f: Features) {
    !f.rule && exists i: nat :: AwaitsSummary(read, before, i)
  }

  /** A scan row of zero coverage after at least one iteration, of a function without an empty pin. */
  predicate BadRow(al: Allowlist, f: Features) {
    && f.row.Some? && f.row.value.zero && f.row.value.iterations >= 1
    && !((f.row.value.base, f.row.value.func) in al.failures && "" in al.failures[(f.row.value.base, f.row.value.func)])
  }

  /** A summary of zero coverage after at least one path, awaited by the block of heading `i`. */
  ghost predicate BadSummary(al: Allowlist, read: Reader, before: seq<string>, f: Features, i: nat) {
    && !f.rule && AwaitsSummary(read, before, i)
    && f.summary.Some? && f.summary.value.zero && f.summary.value.paths >= 1
    && var h := read(before[i]).heading.value;
       !((h.base, h.func) in al.failures && "" in al.failures[(h.base, h.func)])
  }

  /** What a line is flagged for, given the lines before it and no state. */
  ghost predicate IsVerdict(al: Allowlist, read: Reader, before: seq<string>, line: string, flags: seq<Flag>) {
    var f := read(line);
    if f.heading.Some? then flags == []
    else if f.hard then flags == [Line(line)]
    else if f.deserialize then flags == if !f.rule && InAllowedBlock(al, read, before) then [] else [Line(line)]
    else if f.cluster.Some? then flags == if f.cluster.value in al.lifecycle then [] else [Line(line)]
    else if f.passed && Awaits(read, before, f) then flags == []
    else
      var row: seq<Flag> := if BadRow(al, f) then [Line(line)] else [];
      && (forall i: nat :: BadSummary(al, read, before, f, i) ==>
            flags == [ZeroCoverage(read(before[i]).heading.value.func, f.summary.value.paths, line)] + row)
      && ((forall i: nat :: !BadSummary(al, read, before, f, i)) ==> flags == row)
  }

  lemma {:induction false} AwaitingBlock(al: Allowlist, read: Reader, lines: seq<string>, i: nat)
    requires AwaitsSummary(read, lines, i)
    ensures StateAfter(al, read, START, lines).awaiting
    decreases |lines|
  {
    var n := |lines| - 1;
    assert lines == lines[..n] + [lines[n]];
    LastState(al, read, lines[..n], lines[n]);
    if i < n {
      AwaitingBlock(al, read, lines[..n], i);
    }
  }

  lemma {:induction false} AwaitingBlockExists(al: Allowlist, read: Reader, lines: seq<string>) returns (i: nat)
    requires StateAfter(al, read, START, lines).awaiting && StateAfter(al, read, START, lines).current.Some?
    ensures AwaitsSummary(read, lines, i)
    decreases |lines|
  {
    var n := |lines| - 1;
    assert lines == lines[..n] + [lines[n]];
    LastState(al, read, lines[..n], lines[n]);
    if read(lines[n]).heading.Some? {
      i := n;
    } else {
      i := AwaitingBlockExists(al, read, lines[..n]);
    }
  }

  lemma OneOpenBlock(read: Reader, lines: seq<string>, i: nat, j: nat)
    requires OpensBlock(read, lines, i) && OpensBlock(read, lines, j)
    ensures i == j
  {}

  /** What the scanner knows before a line, in terms of the lines before it. */
  lemma KnownBefore(al: Allowlist, read: Reader, before: seq<string>)
    ensures var s := StateAfter(al, read, START, before);
            && (s.current.Some? && s.current.value.allowed <==> InAllowedBlock(al, read, before))
            && (s.current.Some? && s.awaiting <==> exists i: nat :: AwaitsSummary(read, before, i))
            && (forall i: nat :: AwaitsSummary(read, before, i) ==>
                  s.current == Some(Current(read(before[i]).heading.value, AllowedHeading(al, read(before[i])))))
  {
    var s := StateAfter(al, read, START, before);
    if s.current.Some? {
      var i := OpenBlockExists(al, read, before);
      CurrentBlock(al, read, before, i);
      if s.awaiting {
        var j := AwaitingBlockExists(al, read, before);
      }
    }
    forall i: nat | OpensBlock(read, before, i)
      ensures s.current == Some(Current(read(before[i]).heading.value, AllowedHeading(al, read(before[i]))))
    {
      CurrentBlock(al, read, before, i);
    }
    forall i: nat | AwaitsSummary(read, before, i) ensures s.awaiting { AwaitingBlock(al, read, before, i); }
  }

  lemma ErrorVerdict(al: Allowlist, read: Reader, before: seq<string>, line: string, s: State)
    requires s == StateAfter(al, read, START, before) && IsError(read(line))
    ensures IsVerdict(al, read, before, line, FlagsOf(al, read, s, line))
  {
    KnownBefore(al, read, before);
  }

  lemma RowVerdict(al: Allowlist, f: Features, line: string)
    ensures RowFlags(al, f, line) == if BadRow(al, f) then [Line(line)] else []
  {
    if f.row.Some? {
      AllowsWithoutReason(al, f.row.value.base, f.row.value.func);
    }
  }

  lemma SummaryVerdict(al: Allowlist, read: Reader, before: seq<string>, line: string, s: State, i: nat)
    requires s == StateAfter(al, read, START, before) && AwaitsSummary(read, before, i) && !read(line).rule
    requires s.current == Some(Current(read(before[i]).heading.value, AllowedHeading(al, read(before[i]))))
    ensures SummaryFlags(s, read(line), line)
            == if BadSummary(al, read, before, read(line), i)
               then [ZeroCoverage(read(before[i]).heading.value.func, read(line).summary.value.paths, line)] else []
  {
    var h := read(before[i]).heading.value;
    AllowsWithoutReason(al, h.base, h.func);
  }

  lemma OtherVerdict(al: Allowlist, read: Reader, before: seq<string>, line: string, s: State)
    requires s == StateAfter(al, read, START, before)
    requires var f := read(line); f.heading.None? && !IsError(f) && f.cluster.None?
    ensures IsVerdict(al, read, before, line, FlagsOf(al, read, s, line))
  {
    var f := read(line);
    KnownBefore(al, read, before);
    RowVerdict(al, f, line);
    if !f.rule && s.current.Some? && s.awaiting {
      var i := AwaitingBlockExists(al, read, before);
      SummaryVerdict(al, read, before, line, s, i);
      forall j: nat | BadSummary(al, read, before, f, j) ensures j == i { OneOpenBlock(read, before, i, j); }
      if !BadSummary(al, read, before, f, i) {
        assert [] + RowFlags(al, f, line) == RowFlags(al, f, line);
      }
    } else {
      forall j: nat ensures !BadSummary(al, read, before, f, j) {}
    }
  }

  /** Each line of a transcript adds its verdict to the flags. */
  lemma LineAddsVerdict(al: Allowlist, read: Reader, before: seq<string>, line: string) returns (flags: seq<Flag>)
    ensures Scan(al, read, START, before + [line]) == Scan(al, read, START, before) + flags
    ensures IsVerdict(al, read, before, line, flags)
  {
    ScanAppend(al, read, START, before, [line]);
    assert [line][1..] == [];
    var s, f := StateAfter(al, read, START, before), read(line);
    flags := FlagsOf(al, read, s, line);
    assert Scan(al, read, s, [line]) == flags + [];
    if f.heading.None? && IsError(f) {
      ErrorVerdict(al, read, before, line, s);
    } else if f.heading.None? && f.cluster.None? {
      OtherVerdict(al, read, before, line, s);
    }
  }
}
