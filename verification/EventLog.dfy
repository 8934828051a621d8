/** The locked, size-bounded log of gate events (scripts/gate-event-log.py). */
module EventLog {
  import opened Json
  import opened Names
  import opened Text

  const NL := 10

  const MAX_LINE := 1024 * 1024

  const TRIGGER := 10000

  const KEEP := 8000

  /** The length of `s` up to the first line break from `i` on. */
  function NextBreak(s: Bytes, i: nat): (r: nat)
    requires i <= |s|
    ensures i <= r <= |s|
    ensures r < |s| ==> s[r] == NL
    ensures forall k :: i <= k < r ==> s[k] != NL
    decreases |s| - i
  {
    if i == |s| || s[i] == NL then i else NextBreak(s, i + 1)
  }

  /** The parts of `s` between line breaks; at least one, possibly empty. */
  function Split(s: Bytes): (r: seq<Bytes>)
    ensures r != []
    decreases |s|
  {
    var k := NextBreak(s, 0);
    if k == |s| then [s] else [s[..k]] + Split(s[k + 1..])
  }

  predicate Terminated(s: Bytes) { s != [] && s[|s| - 1] == NL }

  function SplitLines(content: Bytes): seq<Bytes> {
    if content == [] then [] else Split(if Terminated(content) then content[..|content| - 1] else content)
  }

  function Joined(lines: seq<Bytes>): Bytes {
    if lines == [] then [] else lines[0] + [NL] + Joined(lines[1..])
  }

  /** Content with its last line terminated. */
  function Repaired(content: Bytes): Bytes {
    if content == [] || Terminated(content) then content else content + [NL]
  }

  // ----- lines and bytes

  lemma {:induction false} JoinOfSplit(s: Bytes)
    ensures Joined(Split(s)) == s + [NL] && NoneHolds(Split(s), NL)
    decreases |s|
  {
    var k := NextBreak(s, 0);
    if k < |s| {
      JoinOfSplit(s[k + 1..]);
      assert s == s[..k] + [NL] + s[k + 1..];
      assert Split(s)[1..] == Split(s[k + 1..]);
    }
  }

  lemma {:induction false} SplitOfJoin(s: Bytes, lines: seq<Bytes>)
    requires lines != [] && NoneHolds(lines, NL) && Joined(lines) == s + [NL]
    ensures Split(s) == lines
    decreases |lines|
  {
    var l, rest := lines[0], Joined(lines[1..]);
    assert NL !in l;
    if |lines| == 1 {
      assert s + [NL] == l + [NL];
      assert s == (s + [NL])[..|s|] == l;
    } else {
      JoinedIsTerminated(lines[1..]);
      var more := rest[..|rest| - 1];
      WithoutLast(s, l + [NL] + more);
      SplitAtFirst(l, more);
      SplitOfJoin(more, lines[1..]);
      assert lines == [l] + lines[1..];
    }
  }

  lemma WithoutLast(a: Bytes, b: Bytes)
    requires a + [NL] == b + [NL]
    ensures a == b
  {
    assert a == (a + [NL])[..|a|] && b == (b + [NL])[..|b|];
  }

  lemma SplitAtFirst(l: Bytes, more: Bytes)
    requires NL !in l
    ensures Split(l + [NL] + more) == [l] + Split(more)
  {
    var s := l + [NL] + more;
    assert forall i :: 0 <= i < |l| ==> s[i] == l[i];
    assert s[|l|] == NL && NextBreak(s, 0) == |l|;
    assert s[..|l|] == l && s[|l| + 1..] == more;
  }

  lemma {:induction false} JoinedIsTerminated(lines: seq<Bytes>)
    requires lines != []
    ensures Terminated(Joined(lines)) && Joined(lines) == Joined(lines)[..|Joined(lines)| - 1] + [NL]
    decreases |lines|
  {
    if |lines| > 1 {
      JoinedIsTerminated(lines[1..]);
    }
  }

  /** Writing lines and splitting them again gives the lines. */
  lemma SplitLinesOfJoined(lines: seq<Bytes>)
    requires NoneHolds(lines, NL)
    ensures SplitLines(Joined(lines)) == lines
  {
    if lines != [] {
      JoinedIsTerminated(lines);
      SplitOfJoin(Joined(lines)[..|Joined(lines)| - 1], lines);
    }
  }

  /** Any bytes are their lines written out, up to a missing last line break. */
  lemma JoinedOfSplitLines(content: Bytes)
    ensures Joined(SplitLines(content)) == Repaired(content) && NoneHolds(SplitLines(content), NL)
  {
    if content != [] {
      JoinOfSplit(if Terminated(content) then content[..|content| - 1] else content);
    }
  }

  lemma {:induction false} JoinedAppend(lines: seq<Bytes>, line: Bytes)
    ensures Joined(lines + [line]) == Joined(lines) + line + [NL]
    decreases |lines|
  {
    if lines == [] {
      assert [line][1..] == [] && [] + [line] == [line];
    } else {
      assert (lines + [line])[1..] == lines[1..] + [line];
      JoinedAppend(lines[1..], line);
    }
  }

  // ----- one append

  /** The file after the record for `line` has been written at its end. */
  function Appended(content: Bytes, line: Bytes): Bytes { Repaired(content) + line + [NL] }

  /** Whatever the file held, an append adds exactly its own line. */
  lemma AppendAddsOneLine(content: Bytes, line: Bytes)
    requires NL !in line
    ensures SplitLines(Appended(content, line)) == SplitLines(content) + [line]
    ensures Appended(content, line) == Joined(SplitLines(content) + [line])
  {
    var lines := SplitLines(content);
    JoinedOfSplitLines(content);
    JoinedAppend(lines, line);
    SplitLinesOfJoined(lines + [line]);
  }

  /** A record cut short damages no earlier line and leaves at most one partial line. */
  lemma TornAppend(content: Bytes, line: Bytes, written: nat)
    requires NL !in line
    requires written <= |Repaired(content)| - |content| + |line|
    ensures var repair := |Repaired(content)| - |content|;
            SplitLines(Appended(content, line)[..|content| + written])
            == if written <= repair then SplitLines(content) else SplitLines(content) + [line[..written - repair]]
  {
    var repair := |Repaired(content)| - |content|;
    var torn := Appended(content, line)[..|content| + written];
    if written == 0 {
      assert torn == content;
    } else if written <= repair {
      assert torn == Repaired(content);
      RepairKeepsLines(content);
    } else {
      assert torn == Repaired(content) + line[..written - repair];
      PartialLine(content, line[..written - repair]);
    }
  }

  lemma RepairKeepsLines(content: Bytes)
    ensures SplitLines(Repaired(content)) == SplitLines(content)
  {
    JoinedOfSplitLines(content);
    SplitLinesOfJoined(SplitLines(content));
  }

  /** An unterminated last line counts like a terminated one. */
  lemma PartialLine(content: Bytes, part: Bytes)
    requires NL !in part && part != []
    ensures SplitLines(Repaired(content) + part) == SplitLines(content) + [part]
  {
    var torn := Repaired(content) + part;
    AppendAddsOneLine(content, part);
    assert torn[|torn| - 1] == part[|part| - 1];
    assert (torn + [NL])[..|torn|] == torn;
    assert Appended(content, part) == torn + [NL];
  }

  datatype Code = Done | Invalid | IoError

  datatype After = After(file: Bytes, code: Code)

  predicate AllValid(valid: Bytes -> bool, lines: seq<Bytes>) {
    forall i :: 0 <= i < |lines| ==> valid(lines[i])
  }

  function Newest(lines: seq<Bytes>): seq<Bytes> {
    if |lines| <= KEEP then lines else lines[|lines| - KEEP..]
  }

  /** Retention over freshly written content: all lines must be valid or nothing is dropped. */
  function Retained(valid: Bytes -> bool, content: Bytes): After {
    var lines := SplitLines(content);
    if |lines| <= TRIGGER then After(content, Done)
    else if !AllValid(valid, lines) then After(content, IoError)
    else After(Joined(Newest(lines)), Done)
  }

  /** One append by an appender that holds the lock; `line` is the canonical form of an accepted event. */
  function Append(valid: Bytes -> bool, content: Bytes, line: Bytes): After {
    if |line| > MAX_LINE then After(content, Invalid) else Retained(valid, Appended(content, line))
  }

  class LogFile {
    var content: Bytes

    constructor ()
      ensures content == []
    {
      content := [];
    }

    method PerformRetention(valid: Bytes -> bool, lines: seq<Bytes>) returns (ok: bool)
      modifies this
      ensures ok == AllValid(valid, lines)
      ensures content == if ok then Joined(Newest(lines)) else old(content)
    {
      for i := 0 to |lines|
        invariant AllValid(valid, lines[..i])
        invariant content == old(content)
      {
        if !valid(lines[i]) {
          return false;
        }
      }
      assert lines[..|lines|] == lines;
      var kept := Newest(lines);
      var staged: Bytes := [];
      for i := 0 to |kept|
        invariant staged == Joined(kept[..i])
        invariant content == old(content)
      {
        JoinedAppend(kept[..i], kept[i]);
        assert kept[..i + 1] == kept[..i] + [kept[i]];
        staged := staged + (kept[i] + [NL]);
      }
      assert kept[..|kept|] == kept;
      content := staged;
      ok := true;
    }

    /** The file is read back, and cut down when it has grown too long. */
    method Retain(valid: Bytes -> bool) returns (code: Code)
      modifies this
      ensures After(content, code) == Retained(valid, old(content))
    {
      var lines := SplitLines(content);
      if |lines| > TRIGGER {
        var ok := PerformRetention(valid, lines);
        if !ok {
          return IoError;
        }
      }
      code := Done;
    }

    /** The locked part of the append command. */
    method AppendLine(valid: Bytes -> bool, line: Bytes) returns (code: Code)
      modifies this
      ensures After(content, code) == Append(valid, old(content), line)
    {
      if |line| > MAX_LINE {
        return Invalid;
      }
      if |content| > 0 {
        if content[|content| - 1] != NL {
          content := content + [NL];
        }
      }
      content := content + line + [NL];
      code := Retain(valid);
    }
  }

  // ----- whole histories

  /** Lines that the command accepts: canonical, of one line, not too long. */
  predicate Accepted(valid: Bytes -> bool, history: seq<Bytes>) {
    forall i :: 0 <= i < |history| ==> NL !in history[i] && |history[i]| <= MAX_LINE && valid(history[i])
  }

  /** The file after appending `history` in lock order to `start`. */
  function File(valid: Bytes -> bool, start: Bytes, history: seq<Bytes>): Bytes {
    if history == [] then start
    else Append(valid, File(valid, start, history[..|history| - 1]), history[|history| - 1]).file
  }

  /** How many lines the log holds after `n` appends to an empty one. */
  function Size(n: nat): (r: nat)
    ensures n <= KEEP ==> r == n
    ensures r <= TRIGGER && (n >= KEEP ==> r >= KEEP) && r <= n
  {
    if n <= TRIGGER then n else KEEP + (n - TRIGGER - 1) % (TRIGGER - KEEP + 1)
  }

  lemma SizeStep(n: nat)
    ensures Size(n + 1) == if Size(n) < TRIGGER then Size(n) + 1 else KEEP
  {
    var d := TRIGGER - KEEP + 1;
    if n > TRIGGER {
      var k := n - TRIGGER - 1;
      if k % d == d - 1 {
        assert k + 1 == (k / d + 1) * d;
        assert (k + 1) % d == 0;
      } else {
        assert k + 1 == (k / d) * d + (k % d + 1);
        assert (k + 1) % d == k % d + 1;
      }
    }
  }

  function Kept(history: seq<Bytes>): seq<Bytes> { history[|history| - Size(|history|)..] }

  lemma KeptStep(before: seq<Bytes>, line: Bytes)
    ensures Kept(before + [line])
            == if Size(|before|) < TRIGGER then Kept(before) + [line] else Newest(Kept(before) + [line])
  {
    SizeStep(|before|);
    assert Kept(before) + [line] == (before + [line])[|before| - Size(|before|)..];
  }

  lemma FileStep(valid: Bytes -> bool, start: Bytes, before: seq<Bytes>, line: Bytes)
    ensures File(valid, start, before + [line]) == Append(valid, File(valid, start, before), line).file
  {
    var history := before + [line];
    assert history[..|history| - 1] == before;
  }

  /** After any history the log is exactly the newest `Size` lines of it. */
  lemma {:induction false} LogIsNewestLines(valid: Bytes -> bool, history: seq<Bytes>)
    requires Accepted(valid, history)
    ensures File(valid, [], history) == Joined(Kept(history))
    decreases |history|
  {
    if history != [] {
      var n := |history| - 1;
      var before, line := history[..n], history[n];
      assert history == before + [line];
      LogIsNewestLines(valid, before);
      FileStep(valid, [], before, line);
      KeptStep(before, line);
      AppendToLines(valid, Kept(before), line);
    }
  }

  /** Appending to a log of valid lines: one more, or the newest only. */
  lemma AppendToLines(valid: Bytes -> bool, kept: seq<Bytes>, line: Bytes)
    requires Accepted(valid, kept) && Accepted(valid, [line])
    ensures Append(valid, Joined(kept), line)
            == After(Joined(if |kept| < TRIGGER then kept + [line] else Newest(kept + [line])), Done)
  {
    assert [line][0] == line;
    SplitLinesOfJoined(kept);
    AppendAddsOneLine(Joined(kept), line);
  }

  lemma LogLines(valid: Bytes -> bool, history: seq<Bytes>)
    requires Accepted(valid, history)
    ensures SplitLines(File(valid, [], history)) == Kept(history)
  {
    LogIsNewestLines(valid, history);
    SplitLinesOfJoined(Kept(history));
  }

  /** A suffix of the history, never too long or too short, with the newest event last. */
  predicate Bounded(lines: seq<Bytes>, history: seq<Bytes>) {
    && |lines| <= TRIGGER
    && (|lines| >= KEEP || |lines| == |history|)
    && |lines| <= |history|
    && lines == history[|history| - |lines|..]
    && (history != [] ==> lines != [] && lines[|lines| - 1] == history[|history| - 1])
  }

  lemma KeptIsBounded(history: seq<Bytes>)
    ensures Bounded(Kept(history), history)
  {
    assert |Kept(history)| == Size(|history|);
  }

  /** The promised bounds. */
  lemma LogBounds(valid: Bytes -> bool, history: seq<Bytes>)
    requires Accepted(valid, history)
    ensures Bounded(SplitLines(File(valid, [], history)), history)
  {
    LogLines(valid, history);
    KeptIsBounded(history);
  }

  /** One invalid line in the file switches retention off for good: every line ever appended stays. */
  lemma {:induction false} InvalidLineStopsRetention(valid: Bytes -> bool, start: Bytes, history: seq<Bytes>)
    requires Accepted(valid, history) && !AllValid(valid, SplitLines(start))
    ensures SplitLines(File(valid, start, history)) == SplitLines(start) + history
    decreases |history|
  {
    if history == [] {
      assert SplitLines(start) + history == SplitLines(start);
    } else {
      var n := |history| - 1;
      var before, line := history[..n], history[n];
      assert history == before + [line];
      InvalidLineStopsRetention(valid, start, before);
      FileStep(valid, start, before, line);
      StuckAppend(valid, File(valid, start, before), SplitLines(start), before, line);
    }
  }

  lemma StuckAppend(valid: Bytes -> bool, content: Bytes, stuck: seq<Bytes>, more: seq<Bytes>, line: Bytes)
    requires NL !in line && |line| <= MAX_LINE
    requires !AllValid(valid, stuck) && SplitLines(content) == stuck + more
    ensures SplitLines(Append(valid, content, line).file) == stuck + (more + [line])
  {
    AppendAddsOneLine(content, line);
    assert (stuck + more) + [line] == stuck + (more + [line]);
    var i :| 0 <= i < |stuck| && !valid(stuck[i]);
    assert (stuck + (more + [line]))[i] == stuck[i];
  }

  lemma NewestOf(valid: Bytes -> bool, lines: seq<Bytes>)
    requires AllValid(valid, lines) && NoneHolds(lines, NL)
    ensures AllValid(valid, Newest(lines)) && NoneHolds(Newest(lines), NL) && |Newest(lines)| <= KEEP
  {
    var newest := Newest(lines);
    assert forall i :: 0 <= i < |newest| ==> newest[i] == lines[|lines| - |newest| + i];
  }

  /** Retention of valid lines: all of them, or the newest. */
  lemma RetainedLines(valid: Bytes -> bool, content: Bytes)
    requires AllValid(valid, SplitLines(content))
    ensures var lines := SplitLines(content);
            SplitLines(Retained(valid, content).file) == if |lines| <= TRIGGER then lines else Newest(lines)
  {
    JoinedOfSplitLines(content);
    NewestOf(valid, SplitLines(content));
    SplitLinesOfJoined(Newest(SplitLines(content)));
  }

  lemma OneMoreValid(valid: Bytes -> bool, lines: seq<Bytes>, line: Bytes)
    requires AllValid(valid, lines) && valid(line)
    ensures AllValid(valid, lines + [line])
  {
  }

  /** One append to valid lines, whatever the bytes: valid lines, and no more than the trigger. */
  lemma AppendToValid(valid: Bytes -> bool, content: Bytes, line: Bytes)
    requires AllValid(valid, SplitLines(content)) && Accepted(valid, [line])
    ensures var lines := SplitLines(Append(valid, content, line).file);
            AllValid(valid, lines) && |lines| <= TRIGGER
  {
    assert [line][0] == line;
    AppendAddsOneLine(content, line);
    OneMoreValid(valid, SplitLines(content), line);
    RetainedLines(valid, Appended(content, line));
    JoinedOfSplitLines(Appended(content, line));
    NewestOf(valid, SplitLines(Appended(content, line)));
  }

  lemma {:induction false} ValidStaysBounded(valid: Bytes -> bool, start: Bytes, history: seq<Bytes>)
    requires Accepted(valid, history) && AllValid(valid, SplitLines(start))
    ensures var lines := SplitLines(File(valid, start, history));
            AllValid(valid, lines) && (history != [] ==> |lines| <= TRIGGER)
    decreases |history|
  {
    if history != [] {
      var n := |history| - 1;
      var before, line := history[..n], history[n];
      assert history == before + [line];
      ValidStaysBounded(valid, start, before);
      FileStep(valid, start, before, line);
      AppendToValid(valid, File(valid, start, before), line);
    }
  }

  /** Every non-empty history of accepted lines leaves a log within the bound. */
  ghost predicate StaysBounded(valid: Bytes -> bool, start: Bytes) {
    forall history :: Accepted(valid, history) && history != [] ==> |SplitLines(File(valid, start, history))| <= TRIGGER
  }

  /** Retention bounds the log exactly when all the lines it starts from are valid. */
  lemma RetentionWorksIff(valid: Bytes -> bool, start: Bytes, line: Bytes)
    requires Accepted(valid, [line])
    ensures StaysBounded(valid, start) <==> AllValid(valid, SplitLines(start))
  {
    assert [line][0] == line;
    if AllValid(valid, SplitLines(start)) {
      forall history | Accepted(valid, history) && history != []
        ensures |SplitLines(File(valid, start, history))| <= TRIGGER
      {
        ValidStaysBounded(valid, start, history);
      }
    } else {
      var history := Repeated(line, TRIGGER + 1);
      InvalidLineStopsRetention(valid, start, history);
    }
  }

  function Repeated(line: Bytes, n: nat): (r: seq<Bytes>)
    ensures |r| == n && forall i :: 0 <= i < n ==> r[i] == line
  {
    seq(n, i => line)
  }

  /** Where the invalid line comes from: a record cut short inside its line, unless the part is itself valid. */
  lemma TornAppendStopsRetentionIff(valid: Bytes -> bool, content: Bytes, line: Bytes, written: nat)
    requires Accepted(valid, [line]) && AllValid(valid, SplitLines(content))
    requires written <= |Repaired(content)| - |content| + |line|
    ensures var repair := |Repaired(content)| - |content|;
            StaysBounded(valid, Appended(content, line)[..|content| + written])
            <==> written <= repair || valid(line[..written - repair])
  {
    assert [line][0] == line;
    var torn := Appended(content, line)[..|content| + written];
    TornAppend(content, line, written);
    RetentionWorksIff(valid, torn, line);
    var lines := SplitLines(content);
    if written > |Repaired(content)| - |content| {
      var part := line[..written - (|Repaired(content)| - |content|)];
      assert (lines + [part])[|lines|] == part;
    }
  }

  // ----- appenders and their lock

  datatype Pc = Waiting | Locked | Written | Finished(code: Code)

  datatype Appender = Appender(line: Bytes, pc: Pc)

  /** `history` records the lines in the order in which they were written. */
  datatype State = State(file: Bytes, holder: Option<nat>, appenders: map<nat, Appender>, history: seq<Bytes>)

  datatype Action = Start(id: nat, line: Bytes) | Acquire(id: nat) | GiveUp(id: nat) | Write(id: nat) | Finish(id: nat)

  predicate Enabled(s: State, a: Action) {
    match a
    case Start(id, line) => id !in s.appenders
    case Acquire(id) => id in s.appenders && s.appenders[id].pc.Waiting? && s.holder.None?
    case GiveUp(id) => id in s.appenders && s.appenders[id].pc.Waiting? && s.holder.Some?
    case Write(id) => id in s.appenders && s.appenders[id].pc.Locked?
    case Finish(id) => id in s.appenders && s.appenders[id].pc.Written?
  }

  function SetPc(s: State, id: nat, pc: Pc): map<nat, Appender>
    requires id in s.appenders
  {
    s.appenders[id := s.appenders[id].(pc := pc)]
  }

  /** Retention and the release of the lock are one step: nobody else can look in between. */
  function Apply(valid: Bytes -> bool, s: State, a: Action): State
    requires Enabled(s, a)
  {
    match a
    case Start(id, line) => s.(appenders := s.appenders[id := Appender(line, Waiting)])
    case Acquire(id) => s.(appenders := SetPc(s, id, Locked), holder := Some(id))
    case GiveUp(id) => s.(appenders := SetPc(s, id, Finished(IoError)))
    case Write(id) =>
      var line := s.appenders[id].line;
      s.(file := Appended(s.file, line), appenders := SetPc(s, id, Written), history := s.history + [line])
    case Finish(id) =>
      var after := Retained(valid, s.file);
      s.(file := after.file, appenders := SetPc(s, id, Finished(after.code)), holder := None)
  }

  predicate Inside(pc: Pc) { pc.Locked? || pc.Written? }

  /** The appender inside is the one that holds the lock. */
  predicate LockSound(s: State) {
    && (forall id :: id in s.appenders && Inside(s.appenders[id].pc) ==> s.holder == Some(id))
    && (s.holder.Some? ==> s.holder.value in s.appenders && Inside(s.appenders[s.holder.value].pc))
  }

  predicate LinesSound(valid: Bytes -> bool, s: State) {
    && Accepted(valid, s.history)
    && (forall id :: id in s.appenders ==> Accepted(valid, [s.appenders[id].line]))
  }

  predicate Between(s: State) {
    s.holder.Some? && s.holder.value in s.appenders && s.appenders[s.holder.value].pc.Written?
  }

  /** The last line of the history is written, and its retention still to come. */
  predicate JustWritten(valid: Bytes -> bool, file: Bytes, history: seq<Bytes>) {
    && history != []
    && file == Appended(File(valid, [], history[..|history| - 1]), history[|history| - 1])
  }

  predicate FileSound(valid: Bytes -> bool, s: State) {
    if Between(s) then JustWritten(valid, s.file, s.history) else s.file == File(valid, [], s.history)
  }

  predicate Sound(valid: Bytes -> bool, s: State) { LockSound(s) && LinesSound(valid, s) && FileSound(valid, s) }

  lemma StepKeepsLock(valid: Bytes -> bool, s: State, a: Action)
    requires LockSound(s) && Enabled(s, a)
    ensures LockSound(Apply(valid, s, a))
  {
  }

  lemma StepKeepsLines(valid: Bytes -> bool, s: State, a: Action)
    requires LinesSound(valid, s) && Enabled(s, a)
    requires a.Start? ==> Accepted(valid, [a.line])
    ensures LinesSound(valid, Apply(valid, s, a))
  {
    if a.Write? {
      var line := s.appenders[a.id].line;
      assert Accepted(valid, [line]) && [line][0] == line;
    }
  }

  lemma WriteThenFinish(valid: Bytes -> bool, file: Bytes, history: seq<Bytes>, line: Bytes)
    ensures file == File(valid, [], history) ==> JustWritten(valid, Appended(file, line), history + [line])
    ensures JustWritten(valid, file, history) && Accepted(valid, history) ==>
              Retained(valid, file).file == File(valid, [], history)
  {
    assert (history + [line])[..|history|] == history;
  }

  lemma StepKeepsFile(valid: Bytes -> bool, s: State, a: Action)
    requires Sound(valid, s) && Enabled(s, a)
    ensures FileSound(valid, Apply(valid, s, a))
  {
    var s' := Apply(valid, s, a);
    if a.Write? {
      assert s.holder == Some(a.id) && !Between(s) && Between(s');
      WriteThenFinish(valid, s.file, s.history, s.appenders[a.id].line);
    } else if a.Finish? {
      assert s.holder == Some(a.id) && Between(s) && !Between(s');
      WriteThenFinish(valid, s.file, s.history, []);
    } else {
      assert Between(s) == Between(s');
    }
  }

  lemma StepKeepsSound(valid: Bytes -> bool, s: State, a: Action)
    requires Sound(valid, s) && Enabled(s, a)
    requires a.Start? ==> Accepted(valid, [a.line])
    ensures Sound(valid, Apply(valid, s, a))
  {
    StepKeepsLock(valid, s, a);
    StepKeepsLines(valid, s, a);
    StepKeepsFile(valid, s, a);
  }

  ghost predicate IsTrace(valid: Bytes -> bool, trace: seq<State>, actions: seq<Action>) {
    && |trace| == |actions| + 1
    && trace[0] == State([], None, map[], [])
    && forall i :: 0 <= i < |actions| ==>
         && Enabled(trace[i], actions[i]) && trace[i + 1] == Apply(valid, trace[i], actions[i])
         && (actions[i].Start? ==> Accepted(valid, [actions[i].line]))
  }

  lemma {:induction false} TraceIsSound(valid: Bytes -> bool, trace: seq<State>, actions: seq<Action>, k: nat)
    requires IsTrace(valid, trace, actions) && k < |trace|
    ensures Sound(valid, trace[k])
  {
    if k > 0 {
      TraceIsSound(valid, trace, actions, k - 1);
      StepKeepsSound(valid, trace[k - 1], actions[k - 1]);
    }
  }

  /** In every state of every run in which the lock is free, the log meets its bounds. */
  lemma LogBoundsInEveryRun(valid: Bytes -> bool, trace: seq<State>, actions: seq<Action>, k: nat)
    requires IsTrace(valid, trace, actions) && k < |trace| && trace[k].holder == None
    ensures trace[k].file == Joined(Kept(trace[k].history))
    ensures Bounded(SplitLines(trace[k].file), trace[k].history)
  {
    TraceIsSound(valid, trace, actions, k);
    LogIsNewestLines(valid, trace[k].history);
    LogBounds(valid, trace[k].history);
  }

  // ----- one append, on lines

  /** The file and the exit code after an append, on the lines of the file and with the limits written out. */
  lemma AppendOnLines(valid: Bytes -> bool, content: Bytes, line: Bytes)
    requires NL !in line
    ensures var after := Append(valid, content, line); var lines := SplitLines(content) + [line];
            if |line| > 1048576 then after == After(content, Invalid)
            else if |lines| > 10000 && exists i :: 0 <= i < |lines| && !valid(lines[i])
            then after.code == IoError && SplitLines(after.file) == lines
            else if |lines| > 10000 then after.code == Done && SplitLines(after.file) == lines[|lines| - 8000..]
            else after.code == Done && SplitLines(after.file) == lines
  {
    AppendAddsOneLine(content, line);
    var lines := SplitLines(content) + [line];
    JoinedOfSplitLines(content);
    if |lines| > 10000 {
      NewestSplits(lines);
    }
  }

  lemma NewestSplits(lines: seq<Bytes>)
    requires NoneHolds(lines, NL)
    ensures SplitLines(Joined(Newest(lines))) == Newest(lines)
  {
    var kept := Newest(lines);
    forall i | 0 <= i < |kept| ensures NL !in kept[i] {
      assert kept[i] in lines;
    }
    SplitLinesOfJoined(kept);
  }
}
