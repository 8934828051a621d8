/**
 The coverage checker of `shatter doctor`, and its agreement with the block that
 `shatter init` writes (shatter-cli/src/generated_paths.rs).
 */
module Coverage {
  import opened Text
  import opened ManagedBlock

  /** Unicode white space, as the checker's trimming understands it. */
  predicate White(c: char) {
    || '\t' <= c <= '\r' || c == ' ' || c == '\U{0085}' || c == '\U{00A0}' || c == '\U{1680}'
    || '\U{2000}' <= c <= '\U{200A}' || c == '\U{2028}' || c == '\U{2029}' || c == '\U{202F}'
    || c == '\U{205F}' || c == '\U{3000}'
  }

  predicate IsSlash(c: char) { c == '/' }

  function TrimWhite(s: string): string { Trim(s, White) }

  function TrimSlashes(s: string): string { TrimEnd(s, IsSlash) }

  /** A terminated line loses one carriage return. */
  function StripCr(s: string): string {
    if s != "" && s[|s| - 1] == '\r' then s[..|s| - 1] else s
  }

  function Lines(s: string): seq<string>
    decreases |s|
  {
    var k := IndexOf(s, '\n');
    if s == "" then []
    else if k == |s| then [s]
    else [StripCr(s[..k])] + Lines(s[k + 1..])
  }

  /** The parts of `s` between occurrences of `/`. */
  function Segments(s: string): seq<string>
    decreases |s|
  {
    var k := IndexOf(s, '/');
    if k == |s| then [s] else [s[..k]] + Segments(s[k + 1..])
  }

  /** A pattern with a slash is anchored; one without matches any single component. */
  predicate PatternCovers(pat: string, full: string) {
    pat != "" && if '/' in pat then full == pat || pat + "/" <= full else pat in Segments(full)
  }

  /** One line, read as the checker reads it, covers the path `full`. */
  predicate LineCovers(line: string, full: string) {
    var l := TrimWhite(line);
    l != "" && l[0] != '#' && l[0] != '!' && PatternCovers(TrimSlashes(l), full)
  }

  function FullTarget(prefix: string, entry: string): string {
    if prefix == "" then TrimSlashes(entry) else prefix + "/" + TrimSlashes(entry)
  }

  predicate FileCovers(contents: string, prefix: string, entry: string) {
    exists line :: line in Lines(contents) && LineCovers(line, FullTarget(prefix, entry))
  }

  /** A `.gitignore` found on the walk to the repository root. */
  datatype Ancestor = Ancestor(prefix: string, contents: string)

  predicate Covers(gitignores: seq<Ancestor>, entry: string) {
    exists g :: g in gitignores && FileCovers(g.contents, g.prefix, entry)
  }

  /** The generated entries that no `.gitignore` covers, in order. */
  function Unignored(gitignores: seq<Ancestor>, entries: seq<string>): (r: seq<string>)
    ensures forall e :: e in r <==> e in entries && !Covers(gitignores, e)
  {
    if entries == [] then []
    else (if Covers(gitignores, entries[0]) then [] else [entries[0]])
         + Unignored(gitignores, entries[1..])
  }

  // ----- lines and segments

  lemma FirstLine(line: string, rest: string)
    requires '\n' !in line
    ensures Lines(line + "\n" + rest) == [StripCr(line)] + Lines(rest)
  {
    var s := line + "\n" + rest;
    assert s == line + ("\n" + rest);
    IndexOfAppend(line, "\n" + rest, '\n');
    assert s[..|line|] == line && s[|line| + 1..] == rest;
  }

  lemma {:induction false} LinesAfterNewline(a: string, b: string)
    ensures Lines(a + "\n" + b) == Lines(a + "\n") + Lines(b)
    decreases |a|
  {
    var k := IndexOf(a, '\n');
    if k == |a| {
      FirstLine(a, b);
      OneLine(a);
    } else {
      var x, y := a[..k], a[k + 1..];
      calc {
        Lines(a + "\n" + b);
        { assert a + "\n" + b == x + "\n" + (y + "\n" + b); }
        Lines(x + "\n" + (y + "\n" + b));
        { FirstLine(x, y + "\n" + b); }
        [StripCr(x)] + Lines(y + "\n" + b);
        { LinesAfterNewline(y, b); }
        [StripCr(x)] + Lines(y + "\n") + Lines(b);
        { FirstLine(x, y + "\n"); }
        Lines(x + "\n" + (y + "\n")) + Lines(b);
        { assert a + "\n" == x + "\n" + (y + "\n"); }
        Lines(a + "\n") + Lines(b);
      }
    }
  }

  lemma OneLine(s: string)
    requires '\n' !in s
    ensures Lines(s + "\n") == [StripCr(s)]
  {
    FirstLine(s, "");
    assert s + "\n" + "" == s + "\n";
  }

  /** What stands between two newlines keeps its lines. */
  lemma LinesBetween(a: string, s: string, b: string)
    ensures Lines(a + "\n" + s + "\n" + b) == Lines(a + "\n") + Lines(s + "\n") + Lines(b)
  {
    LinesAfterNewline(a + "\n" + s, b);
    assert a + "\n" + s + "\n" == a + "\n" + (s + "\n");
    LinesAfterNewline(a, s + "\n");
  }

  lemma OneSegment(s: string)
    requires '/' !in s
    ensures Segments(s) == [s]
  {}

  lemma FirstSegment(a: string, b: string)
    requires '/' !in a
    ensures a in Segments(a + "/" + b)
  {
    IndexOfAppend(a, "/" + b, '/');
    assert a + "/" + b == a + ("/" + b);
    assert (a + "/" + b)[..|a|] == a;
  }

  /** A segment stands at the start of the path or right after a slash. */
  lemma {:induction false} SegmentStands(s: string, seg: string) returns (i: nat)
    requires seg in Segments(s)
    ensures i + |seg| <= |s| && s[i..i + |seg|] == seg && (i == 0 || s[i - 1] == '/')
    decreases |s|
  {
    var k := IndexOf(s, '/');
    if k == |s| || seg == s[..k] {
      i := 0;
    } else {
      var j := SegmentStands(s[k + 1..], seg);
      i := k + 1 + j;
      StandsInRest(s, k + 1, j, seg);
    }
  }

  lemma StandsInRest(s: string, k: nat, j: nat, seg: string)
    requires 0 < k <= |s| && s[k - 1] == '/' && j + |seg| <= |s| - k
    requires s[k..][j..j + |seg|] == seg && (j == 0 || s[k..][j - 1] == '/')
    ensures s[k + j..k + j + |seg|] == seg && s[k + j - 1] == '/'
  {
    assert s[k + j..k + j + |seg|] == s[k..][j..j + |seg|];
  }

  // ----- when an entry's own line covers it

  /**
   What an entry must look like for the checker to recognise it: no white space in
   front, no comment or negation sign, something besides slashes, and no white space
   at the end unless a slash comes before it.
   */
  predicate Certifiable(e: string) {
    && e != "" && !White(e[0]) && e[0] != '#' && e[0] != '!'
    && TrimSlashes(TrimWhite(e)) != ""
    && (White(e[|e| - 1]) ==> TrimWhite(e)[|TrimWhite(e)| - 1] == '/')
  }

  lemma TrimWithoutLead(e: string) returns (trail: string)
    requires e != "" && !White(e[0])
    ensures e == TrimWhite(e) + trail && All(trail, White)
    ensures TrimWhite(e) != "" && TrimWhite(e)[0] == e[0] && !White(TrimWhite(e)[|TrimWhite(e)| - 1])
  {
    var lead;
    lead, trail := TrimParts(e, White);
    assert |lead| == 0;
    assert e == TrimWhite(e) + trail;
    assert TrimWhite(e) == "" ==> e == trail;
  }

  /** If the pattern of an entry's line has no slash, only slashes and white space follow a slash. */
  lemma NoWordAfterSlash(e: string, i: nat)
    requires '/' !in TrimSlashes(TrimWhite(e))
    requires 0 < i < |e| && e[i - 1] == '/'
    ensures White(e[i]) || e[i] == '/'
  {
    var lead, trail := TrimParts(e, White);
    NoWordAfterSlashInParts(lead, TrimWhite(e), trail, i);
  }

  lemma NoWordAfterSlashInParts(lead: string, l: string, trail: string, i: nat)
    requires All(lead, White) && All(trail, White)
    requires '/' !in TrimSlashes(l)
    requires var e := lead + l + trail; 0 < i < |e| && e[i - 1] == '/'
    ensures var e := lead + l + trail; White(e[i]) || e[i] == '/'
  {
    var e := lead + l + trail;
    var slashes := TrimEndParts(l, IsSlash);
    var pat := TrimSlashes(l);
    assert !White('/');
    assert e == lead + pat + slashes + trail;
    assert i - 1 >= |lead| + |pat|;
    if i < |lead| + |l| {
      assert e[i] == slashes[i - |lead| - |pat|];
    } else {
      assert e[i] == trail[i - |lead| - |l|];
    }
  }

  /** A word cannot be a segment if it starts neither the path nor anything after a slash. */
  lemma NoSuchSegment(target: string, pat: string)
    requires target != "" && pat != "" && White(target[0])
    requires '/' !in pat && !White(pat[0])
    requires forall i :: 0 < i < |target| && target[i - 1] == '/' ==> White(target[i]) || target[i] == '/'
    ensures pat !in Segments(target)
  {
    assert pat[0] != '/' by { assert pat[0] in pat; }
    if pat in Segments(target) {
      var i := SegmentStands(target, pat);
      assert false;
    }
  }

  lemma TargetKeepsItsStart(e: string)
    requires e != "" && e[0] != '/'
    ensures TrimSlashes(e) != "" && TrimSlashes(e)[0] == e[0] && TrimSlashes(e) <= e
  {
    var slashes := TrimEndParts(e, IsSlash);
    assert TrimSlashes(e) == "" ==> e == slashes;
  }

  lemma PatternStartsDark(e: string)
    requires TrimSlashes(TrimWhite(e)) != ""
    ensures !White(TrimSlashes(TrimWhite(e))[0])
  {
    var lead, trail := TrimParts(e, White);
    var slashes := TrimEndParts(TrimWhite(e), IsSlash);
  }

  lemma LeadingWhiteIsNeverCovered(e: string)
    requires e == "" || White(e[0])
    ensures !LineCovers(e, TrimSlashes(e))
  {
    var pat, target := TrimSlashes(TrimWhite(e)), TrimSlashes(e);
    if e != "" && pat != "" {
      PatternStartsDark(e);
      TargetKeepsItsStart(e);
      if '/' !in pat {
        forall i | 0 < i < |target| && target[i - 1] == '/'
          ensures White(target[i]) || target[i] == '/'
        {
          NoWordAfterSlash(e, i);
        }
        NoSuchSegment(target, pat);
      }
    }
  }

  lemma SlashThenWhite(pat: string, rest: string)
    requires pat != ""
    ensures PatternCovers(pat, pat + "/" + rest)
  {
    if '/' !in pat {
      FirstSegment(pat, rest);
    }
  }

  lemma WordThenWhite(pat: string, trail: string)
    requires trail != "" && All(trail, White)
    ensures !PatternCovers(pat, pat + trail)
  {
    var e := pat + trail;
    assert e[|pat|] == trail[0] && White(trail[0]);
    assert (pat + "/")[|pat|] == '/';
    assert '/' !in trail;
    if '/' !in pat {
      OneSegment(e);
    }
  }

  lemma TrailingWhite(l: string, trail: string)
    requires TrimSlashes(l) != "" && trail != "" && All(trail, White)
    ensures PatternCovers(TrimSlashes(l), l + trail) <==> l[|l| - 1] == '/'
  {
    var slashes := TrimEndParts(l, IsSlash);
    var pat := TrimSlashes(l);
    if slashes == "" {
      assert l == pat;
      WordThenWhite(pat, trail);
    } else {
      assert slashes[0] == '/' && slashes[|slashes| - 1] == l[|l| - 1];
      var rest := slashes[1..] + trail;
      assert l + trail == pat + "/" + rest;
      SlashThenWhite(pat, rest);
    }
  }

  /** An entry is covered by its own line exactly when it is certifiable. */
  lemma OwnLineCovers(e: string)
    ensures LineCovers(e, TrimSlashes(e)) <==> Certifiable(e)
  {
    if e == "" || White(e[0]) {
      LeadingWhiteIsNeverCovered(e);
    } else if TrimSlashes(TrimWhite(e)) != "" {
      var trail := TrimWithoutLead(e);
      if trail != "" {
        assert White(trail[|trail| - 1]) && e[|e| - 1] == trail[|trail| - 1];
        TrimEndIs(e, e, "", IsSlash);
        TrailingWhite(TrimWhite(e), trail);
      } else {
        assert TrimWhite(e) == e;
        if '/' !in TrimSlashes(e) { OneSegment(TrimSlashes(e)); }
      }
    } else {
      var _ := TrimWithoutLead(e);
    }
  }

  lemma CarriageReturnDoesNotMatter(line: string, full: string)
    ensures LineCovers(StripCr(line), full) <==> LineCovers(line, full)
  {
    var short := StripCr(line);
    if short != line {
      var lead, trail := TrimParts(short, White);
      assert line == lead + TrimWhite(short) + (trail + "\r");
      TrimIs(line, lead, TrimWhite(short), trail + "\r", White);
    }
  }

  /** The lines that an entry is written as cover it; an entry that holds a line break is written as several. */
  predicate SelfCovering(e: string) {
    exists line :: line in Lines(e + "\n") && LineCovers(line, TrimSlashes(e))
  }

  lemma SelfCoveringIff(e: string)
    requires '\n' !in e
    ensures SelfCovering(e) <==> Certifiable(e)
  {
    OneLine(e);
    CarriageReturnDoesNotMatter(e, TrimSlashes(e));
    OwnLineCovers(e);
    assert Lines(e + "\n")[0] == StripCr(e);
  }

  // ----- writer and checker agree

  lemma EntryInBlock(entries: seq<string>, i: nat) returns (front: string, back: string)
    requires i < |entries|
    ensures RenderBlock(entries) == front + "\n" + entries[i] + "\n" + back
  {
    var upTo, from := RenderEntries(entries[..i]), RenderEntries(entries[i + 1..]);
    assert RenderEntries(entries) == upTo + (entries[i] + "\n" + from) by {
      assert entries[i..][1..] == entries[i + 1..];
      assert entries == entries[..i] + entries[i..];
      RenderEntriesAppend(entries[..i], entries[i..]);
    }
    EntriesEndWithNewline(entries[..i]);
    front, back := BlockAround(BEGIN, upTo, entries[i], from, END);
  }

  /** A line of a block, with what stands before and after it. */
  lemma BlockAround(begin: string, upTo: string, line: string, from: string, end: string)
    returns (front: string, back: string)
    requires upTo == "" || upTo[|upTo| - 1] == '\n'
    ensures begin + "\n" + (upTo + (line + "\n" + from)) + end == front + "\n" + line + "\n" + back
  {
    back := from + end;
    if upTo == "" {
      front := begin;
    } else {
      front := begin + "\n" + upTo[..|upTo| - 1];
      assert upTo == upTo[..|upTo| - 1] + "\n";
    }
  }

  /** Every entry of a written block stands on a line of its own, whatever text was there. */
  lemma EntryHasItsLine(t: string, entries: seq<string>, i: nat)
    returns (before: string, after: string)
    requires i < |entries|
    ensures ReplaceOrAppend(t, RenderBlock(entries)) == before + "\n" + entries[i] + "\n" + after
  {
    var front, back := EntryInBlock(entries, i);
    var head, tail := Around(t, RenderBlock(entries));
    before, after := head + front, back + tail;
  }

  /** What the writer puts before and after a block. */
  lemma Around(t: string, block: string) returns (head: string, tail: string)
    ensures ReplaceOrAppend(t, block) == head + block + tail
  {
    var b, e := Find(t, BEGIN), Find(t, END);
    if b >= 0 && e >= 0 {
      head, tail := t[..b], t[LineEnd(t, e)..];
    } else {
      head, tail := t + Separator(t), "\n";
    }
  }

  /**
   After the block is written into any text, even one with misplaced markers, the checker
   accepts every entry of it whose own lines cover it.
   */
  lemma WrittenEntryIsCovered(t: string, entries: seq<string>, i: nat)
    requires i < |entries| && SelfCovering(entries[i])
    ensures FileCovers(ReplaceOrAppend(t, RenderBlock(entries)), "", entries[i])
  {
    var before, after := EntryHasItsLine(t, entries, i);
    LinesBetween(before, entries[i], after);
    var line :| line in Lines(entries[i] + "\n") && LineCovers(line, TrimSlashes(entries[i]));
    assert line in Lines(ReplaceOrAppend(t, RenderBlock(entries)));
  }

  lemma CommentCoversNothing(line: string, full: string)
    requires line != "" && line[0] == '#'
    ensures !LineCovers(line, full)
  {
    var _ := TrimWithoutLead(line);
  }

  lemma FreshLines(e: string)
    ensures Lines(ReplaceOrAppend("", RenderBlock([e]))) == [StripCr(BEGIN)] + Lines(e + "\n") + [StripCr(END)]
  {
    FreshText(e);
    MarkersHaveNoNewline();
    LinesOfThree(BEGIN, e, END);
  }

  lemma FreshText(e: string)
    ensures ReplaceOrAppend("", RenderBlock([e])) == BEGIN + "\n" + (e + "\n" + (END + "\n"))
  {
    assert RenderEntries([e]) == e + "\n";
    assert RenderBlock([e]) == BEGIN + "\n" + (e + "\n") + END;
    OneEntryBlock("", BEGIN, e, END);
  }

  lemma OneEntryBlock(t: string, begin: string, e: string, end: string)
    requires t == ""
    ensures t + t + (begin + "\n" + (e + "\n") + end) + "\n" == begin + "\n" + (e + "\n" + (end + "\n"))
  {}

  lemma LinesOfThree(a: string, e: string, b: string)
    requires '\n' !in a && '\n' !in b
    ensures Lines(a + "\n" + (e + "\n" + (b + "\n"))) == [StripCr(a)] + Lines(e + "\n") + [StripCr(b)]
  {
    FirstLine(a, e + "\n" + (b + "\n"));
    LinesAfterNewline(e, b + "\n");
    OneLine(b);
  }

  lemma MarkersCoverNothing(full: string)
    ensures !LineCovers(StripCr(BEGIN), full) && !LineCovers(StripCr(END), full)
  {
    CommentCoversNothing(StripCr(BEGIN), full);
    CommentCoversNothing(StripCr(END), full);
  }

  /**
   A fresh file holding only an entry's block covers the entry exactly when the entry's own lines do; for an entry
   on one line, exactly when it is certifiable.
   */
  lemma FreshBlockCoversIff(e: string)
    ensures FileCovers(ReplaceOrAppend("", RenderBlock([e])), "", e) <==> SelfCovering(e)
    ensures '\n' !in e ==> (FileCovers(ReplaceOrAppend("", RenderBlock([e])), "", e) <==> Certifiable(e))
  {
    var lines := Lines(ReplaceOrAppend("", RenderBlock([e])));
    FreshLines(e);
    MarkersCoverNothing(TrimSlashes(e));
    assert forall line :: line in lines <==> line == StripCr(BEGIN) || line in Lines(e + "\n") || line == StripCr(END);
    if '\n' !in e {
      SelfCoveringIff(e);
    }
  }

  /** A line break loses a certifiable entry: two plain names are written as two lines, and neither is the entry. */
  lemma LineBreakLosesEntry(a: string, b: string)
    requires Name(a) && Name(b)
    ensures Certifiable(a + "\n" + b) && !SelfCovering(a + "\n" + b)
  {
    var e := a + "\n" + b;
    TwoNames(a, b, e);
    NameLines(a, b);
    NameCoversOnlyItself(a, e);
    NameCoversOnlyItself(b, e);
  }

  lemma TwoNames(a: string, b: string, e: string)
    requires Name(a) && Name(b) && e == a + "\n" + b
    ensures TrimSlashes(e) == e && '/' !in e && Certifiable(e)
  {
    assert e[0] == a[0] && e[|e| - 1] == b[|b| - 1];
    assert forall i :: 0 <= i < |e| ==> e[i] != '/';
    TightText(e);
  }

  /** Trimming leaves alone what has no white space and no slash at its ends. */
  lemma TightText(s: string)
    requires s != "" && !White(s[0]) && !White(s[|s| - 1]) && s[|s| - 1] != '/'
    ensures TrimWhite(s) == s && TrimSlashes(s) == s
  {
    assert s == "" + s + "" && s == s + "";
    TrimIs(s, "", s, "", White);
    TrimEndIs(s, s, "", IsSlash);
  }

  /** A name without slashes, white space or a sign in front. */
  predicate Name(s: string) {
    s != "" && s[0] != '#' && s[0] != '!' && forall i :: 0 <= i < |s| ==> !White(s[i]) && s[i] != '/'
  }

  lemma NameLines(a: string, b: string)
    requires Name(a) && Name(b)
    ensures Lines(a + "\n" + b + "\n") == [a, b]
  {
    assert White('\n') && White('\r');
    assert a + "\n" + b + "\n" == a + "\n" + (b + "\n");
    FirstLine(a, b + "\n");
    OneLine(b);
  }

  lemma NameCoversOnlyItself(n: string, full: string)
    requires Name(n) && '/' !in full
    ensures LineCovers(n, full) <==> full == n
  {
    TightText(n);
    OneSegment(full);
  }

  lemma CoveredByOwnFile(own: Ancestor, others: seq<Ancestor>, e: string)
    requires FileCovers(own.contents, own.prefix, e)
    ensures Covers([own] + others, e)
  {
    assert ([own] + others)[0] == own;
  }

  lemma {:induction false} AllCovered(gitignores: seq<Ancestor>, entries: seq<string>)
    requires forall i :: 0 <= i < |entries| ==> Covers(gitignores, entries[i])
    ensures Unignored(gitignores, entries) == []
  {
    if entries != [] {
      AllCovered(gitignores, entries[1..]);
    }
  }

  /** After a sync, `doctor` reports no entry whose own lines cover it, whatever other files it reads. */
  lemma NothingUnignoredAfterSync(t: string, entries: seq<string>, others: seq<Ancestor>)
    requires forall i :: 0 <= i < |entries| ==> SelfCovering(entries[i])
    ensures Unignored([Ancestor("", ReplaceOrAppend(t, RenderBlock(entries)))] + others, entries) == []
  {
    var own := Ancestor("", ReplaceOrAppend(t, RenderBlock(entries)));
    forall i | 0 <= i < |entries| ensures Covers([own] + others, entries[i]) {
      WrittenEntryIsCovered(t, entries, i);
      CoveredByOwnFile(own, others, entries[i]);
    }
    AllCovered([own] + others, entries);
  }

  // ----- patterns and path components

  /** `seg` is a whole component of `s`: slashes, or the ends of the path, on both sides. */
  predicate ComponentAt(s: string, seg: string, i: nat) {
    && i + |seg| <= |s| && s[i..i + |seg|] == seg && '/' !in seg
    && (i == 0 || s[i - 1] == '/') && (i + |seg| == |s| || s[i + |seg|] == '/')
  }

  lemma {:induction false} ComponentIsSegment(s: string, seg: string, i: nat)
    requires ComponentAt(s, seg, i)
    ensures seg in Segments(s)
    decreases |s|
  {
    var k := IndexOf(s, '/');
    if i == 0 {
      LeadingComponent(s, seg);
    } else {
      ComponentBehind(s, seg, i, k);
      ComponentIsSegment(s[k + 1..], seg, i - k - 1);
    }
  }

  lemma ComponentBehind(s: string, seg: string, i: nat, k: nat)
    requires ComponentAt(s, seg, i) && i > 0 && k == IndexOf(s, '/')
    ensures k < i && ComponentAt(s[k + 1..], seg, i - k - 1)
  {
    assert s[i - 1] == '/';
    var rest, j := s[k + 1..], i - k - 1;
    assert rest[j..j + |seg|] == s[i..i + |seg|];
  }

  lemma LeadingComponent(s: string, seg: string)
    requires ComponentAt(s, seg, 0)
    ensures IndexOf(s, '/') == |seg| && s[..|seg|] == seg && Segments(s)[0] == seg
  {
    var rest := s[|seg|..];
    assert s == seg + rest;
    assert s[0..0 + |seg|] == s[..|seg|];
    IndexOfAppend(seg, rest, '/');
    assert rest != "" ==> rest[0] == s[|seg|];
    assert IndexOf(rest, '/') == 0;
    assert |seg| == |s| ==> s == seg;
  }

  lemma {:induction false} SegmentIsComponent(s: string, seg: string) returns (i: nat)
    requires seg in Segments(s)
    ensures ComponentAt(s, seg, i)
    decreases |s|
  {
    var k := IndexOf(s, '/');
    if k == |s| || seg == s[..k] {
      i := 0;
      assert s[..k] == seg;
    } else {
      var j := SegmentIsComponent(s[k + 1..], seg);
      i := k + 1 + j;
      ComponentInRest(s, k + 1, j, seg);
    }
  }

  lemma ComponentInRest(s: string, k: nat, j: nat, seg: string)
    requires 0 < k <= |s| && s[k - 1] == '/' && ComponentAt(s[k..], seg, j)
    ensures ComponentAt(s, seg, k + j)
  {
    assert s[k + j..k + j + |seg|] == s[k..][j..j + |seg|];
  }

  /** A pattern without a slash matches a component at any depth, and nothing else. */
  lemma UnanchoredIff(pat: string, full: string)
    requires pat != "" && '/' !in pat
    ensures PatternCovers(pat, full) <==> exists i: nat :: ComponentAt(full, pat, i)
  {
    if pat in Segments(full) {
      var i := SegmentIsComponent(full, pat);
    }
    if i: nat :| ComponentAt(full, pat, i) {
      ComponentIsSegment(full, pat, i);
    }
  }

  /** A pattern with a slash matches exactly the paths whose first components are those of the pattern. */
  lemma AnchoredIff(pat: string, full: string)
    requires '/' in pat
    ensures PatternCovers(pat, full) <==> Segments(pat) <= Segments(full)
  {
    SegmentsPrefix(pat, full);
  }

  lemma {:induction false} SegmentsPrefix(a: string, b: string)
    ensures Segments(a) <= Segments(b) <==> a == b || a + "/" <= b
    decreases |a|
  {
    var k, n := IndexOf(a, '/'), IndexOf(b, '/');
    if k == |a| {
      FirstSegmentIs(a, b);
    } else if n == |b| {
      assert |Segments(a)| > 1;
      NoSlashNoPrefix(a, b, k);
    } else {
      SegmentsPrefix(a[k + 1..], b[n + 1..]);
      SplitPrefix(a, b, k, n);
      ConsPrefix(a[..k], Segments(a[k + 1..]), b[..n], Segments(b[n + 1..]));
    }
  }

  lemma NoSlashNoPrefix(a: string, b: string, k: nat)
    requires k < |a| && a[k] == '/' && '/' !in b
    ensures a != b && !(a + "/" <= b)
  {
    if k < |b| {
      assert (a + "/")[k] == '/' && b[k] in b;
    }
  }

  lemma ConsPrefix(x: string, xs: seq<string>, y: string, ys: seq<string>)
    ensures [x] + xs <= [y] + ys <==> x == y && xs <= ys
  {
    if [x] + xs <= [y] + ys {
      assert ([x] + xs)[0] == ([y] + ys)[0];
      forall i | 0 <= i < |xs| ensures xs[i] == ys[i] {
        assert ([x] + xs)[i + 1] == ([y] + ys)[i + 1];
      }
    }
  }

  /** A single component is the first of a path exactly when the path is it or goes on with a slash. */
  lemma FirstSegmentIs(a: string, b: string)
    requires '/' !in a
    ensures Segments(a) <= Segments(b) <==> a == b || a + "/" <= b
  {
    var n := IndexOf(b, '/');
    OneSegment(a);
    assert Segments(a) <= Segments(b) <==> a == Segments(b)[0];
    if a + "/" <= b {
      var rest := b[|a|..];
      assert b == a + rest && rest[0] == b[|a|] == (a + "/")[|a|];
      IndexOfAppend(a, rest, '/');
      assert b[..n] == a;
    }
    if n < |b| && a == b[..n] {
      assert b[..n + 1] == a + "/";
    }
  }

  lemma SplitPrefix(a: string, b: string, k: nat, n: nat)
    requires k < |a| && n < |b| && a[k] == '/' && b[n] == '/' && '/' !in a[..k] && '/' !in b[..n]
    ensures a == b || a + "/" <= b <==>
            a[..k] == b[..n] && (a[k + 1..] == b[n + 1..] || a[k + 1..] + "/" <= b[n + 1..])
  {
    var x, y := a[k + 1..], b[n + 1..];
    assert a == a[..k] + "/" + x && b == b[..n] + "/" + y;
    if a == b || a + "/" <= b {
      assert forall i :: 0 <= i < |a| ==> a[i] == b[i];
      SameSlash(a, b, k, n);
    }
    if a[..k] == b[..n] && x + "/" <= y {
      assert a + "/" == a[..k] + "/" + (x + "/");
      assert b == a[..k] + "/" + ((x + "/") + y[|x| + 1..]);
    }
    if a[..k] == b[..n] && a + "/" <= b {
      assert x + "/" == (a + "/")[k + 1..] <= b[k + 1..];
    }
  }

  lemma SameSlash(a: string, b: string, k: nat, n: nat)
    requires k < |a| <= |b| && n < |b| && a[k] == '/' && b[n] == '/' && '/' !in a[..k] && '/' !in b[..n]
    requires forall i :: 0 <= i < |a| ==> a[i] == b[i]
    ensures k == n && a[..k] == b[..n]
  {
    NotBefore(b, k, n);
    NotBefore(a, n, k);
  }

  lemma NotBefore(s: string, k: nat, n: nat)
    requires n <= |s| && '/' !in s[..n]
    ensures k < n ==> s[k] != '/'
  {
    assert k < n ==> s[..n][k] == s[k];
  }
}
