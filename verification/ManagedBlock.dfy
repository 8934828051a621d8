/**
 The Shatter-managed block of a `.gitignore`: the writer that replaces or appends
 it, and when writing it twice is the same as writing it once
 (shatter-cli/src/generated_paths.rs).
 */
module ManagedBlock {
  import opened Text

  const BEGIN := "# >>> shatter generated paths" + " (managed by `shatter init`)"
  const END := "# <<< shatter generated paths"

  /** Entries, one per line, each followed by a newline. */
  function RenderEntries(entries: seq<string>): string {
    if entries == [] then "" else entries[0] + "\n" + RenderEntries(entries[1..])
  }

  function RenderBlock(entries: seq<string>): string {
    BEGIN + "\n" + RenderEntries(entries) + END
  }

  lemma {:induction false} RenderEntriesAppend(a: seq<string>, b: seq<string>)
    ensures RenderEntries(a + b) == RenderEntries(a) + RenderEntries(b)
  {
    if a == [] {
      assert a + b == b;
    } else {
      assert (a + b)[1..] == a[1..] + b;
      RenderEntriesAppend(a[1..], b);
    }
  }

  /** The writer's loop: push the markers and the entries onto a growing string. */
  method BuildBlock(entries: seq<string>) returns (block: string)
    ensures block == RenderBlock(entries)
  {
    block := BEGIN + "\n";
    for i := 0 to |entries|
      invariant block == BEGIN + "\n" + RenderEntries(entries[..i])
    {
      block := block + entries[i] + "\n";
      assert entries[..i + 1] == entries[..i] + [entries[i]];
      RenderEntriesAppend(entries[..i], [entries[i]]);
      assert RenderEntries([entries[i]]) == entries[i] + "\n";
    }
    assert entries[..|entries|] == entries;
    block := block + END;
  }

  /** Index of the end of the line on which the closing marker found at `e` stands. */
  function LineEnd(t: string, e: int): (r: int)
    requires OccursAt(t, END, e)
    ensures e + |END| <= r <= |t|
  {
    e + |END| + IndexOf(t[e + |END|..], '\n')
  }

  function Separator(t: string): string {
    if t == "" then "" else if t[|t| - 1] != '\n' then "\n\n" else "\n"
  }

  /** Replace the managed block of `t` by `block`, or append it. */
  function ReplaceOrAppend(t: string, block: string): string {
    var b, e := Find(t, BEGIN), Find(t, END);
    if b >= 0 && e >= 0 then t[..b] + block + t[LineEnd(t, e)..]
    else t + Separator(t) + block + "\n"
  }

  /** No marker at all, or the first opening marker before the first closing one. */
  predicate WellPlaced(t: string) {
    var b, e := Find(t, BEGIN), Find(t, END);
    (b < 0 && e < 0) || 0 <= b < e
  }

  /** No entry holds the closing marker. */
  predicate EndFree(entries: seq<string>) {
    forall i :: 0 <= i < |entries| ==> Find(entries[i], END) == -1
  }

  /** What the writer keeps before and after the block when the markers are well placed. */
  function Head(t: string): string
    requires WellPlaced(t)
  {
    var b := Find(t, BEGIN);
    if b >= 0 then t[..b] else t + Separator(t)
  }

  function Tail(t: string): string
    requires WellPlaced(t)
  {
    var b, e := Find(t, BEGIN), Find(t, END);
    if b >= 0 then t[LineEnd(t, e)..] else "\n"
  }

  /** Text in which a block can be put back: nothing before it can be taken for a marker. */
  predicate Slot(head: string, tail: string) {
    && Find(head + BEGIN, BEGIN) == |head|
    && Find(head + BEGIN, END) == -1
    && (tail == "" || tail[0] == '\n')
  }

  // ----- facts about the two markers

  lemma MarkersHaveNoNewline()
    ensures '\n' !in BEGIN && '\n' !in END
  {
    assert '\n' !in "# >>> shatter generated paths";
    assert '\n' !in " (managed by `shatter init`)";
  }

  lemma EndNotInBegin(i: int)
    ensures !OccursAt(BEGIN, END, i)
  {
    var left, right := "# >>> shatter generated paths", " (managed by `shatter init`)";
    assert BEGIN == left + right && |left| == 29 && |right| == 28 && |END| == 29;
    assert END[0] == '#' && END[2] == '<' && left[2] == '>';
    assert forall k :: 1 <= k < |left| ==> left[k] != '#';
    assert '#' !in right;
    assert forall k :: 1 <= k < |BEGIN| ==> BEGIN[k] != '#';
    if 0 <= i && i + |END| <= |BEGIN| {
      assert BEGIN[i..i + |END|][0] == BEGIN[i];
      assert BEGIN[i..i + |END|][2] == BEGIN[i + 2];
    }
  }

  /** An occurrence of a one-line pattern lies on one side of a newline. */
  lemma OneSide(a: string, b: string, p: string, i: int)
    requires OccursAt(a + "\n" + b, p, i) && '\n' !in p
    ensures OccursAt(a, p, i) || OccursAt(b, p, i - |a| - 1)
  {
    var s := a + "\n" + b;
    NeverSpans(s, p, i, |a|, '\n');
    if i + |p| <= |a| {
      OccursWithin("", a, "\n" + b, p, i) by { assert "" + a + ("\n" + b) == s; }
    } else {
      OccursWithin(a + "\n", b, "", p, i) by { assert a + "\n" + b + "" == s; }
    }
  }

  /** A one-line pattern is first found before a newline, or else after it. */
  lemma FindAcrossNewline(a: string, b: string, p: string)
    requires '\n' !in p
    ensures Find(a + "\n" + b, p) ==
            if Find(a, p) >= 0 then Find(a, p)
            else if Find(b, p) >= 0 then |a| + 1 + Find(b, p) else -1
  {
    var s := a + "\n" + b;
    var fa, fb, f := Find(a, p), Find(b, p), Find(s, p);
    assert s == "" + a + ("\n" + b) == a + "\n" + b + "";
    if fa >= 0 {
      OccursInPart("", a, "\n" + b, p, fa);
    }
    if fb >= 0 {
      OccursInPart(a + "\n", b, "", p, fb);
    }
    if f >= 0 {
      OneSide(a, b, p, f);
    }
  }

  // ----- where the closing marker is first found in a rendered block

  lemma EndAtEnd(s: string)
    ensures 0 <= Find(s + END, END) <= |s|
  {
    assert OccursAt(s + END, END, |s|);
  }

  lemma EndFreeSplit(entries: seq<string>)
    requires entries != []
    ensures EndFree(entries) <==> Find(entries[0], END) < 0 && EndFree(entries[1..])
  {
    assert forall i :: 1 <= i < |entries| ==> entries[i] == entries[1..][i - 1];
  }

  lemma RegroupEntry(entry: string, rest: string, end: string)
    ensures entry + "\n" + rest + end == entry + "\n" + (rest + end)
  {}

  lemma {:induction false} FirstEndInEntries(entries: seq<string>)
    ensures var body := RenderEntries(entries);
            EndFree(entries) <==> Find(body + END, END) == |body|
  {
    var body := RenderEntries(entries);
    EndAtEnd(body);
    if entries != [] {
      MarkersHaveNoNewline();
      var rest := RenderEntries(entries[1..]);
      RegroupEntry(entries[0], rest, END);
      FindAcrossNewline(entries[0], rest + END, END);
      EndAtEnd(rest);
      FirstEndInEntries(entries[1..]);
      EndFreeSplit(entries);
    }
  }

  lemma {:induction false} EntriesEndWithNewline(entries: seq<string>)
    ensures entries != [] ==> RenderEntries(entries) != ""
                              && RenderEntries(entries)[|RenderEntries(entries)| - 1] == '\n'
  {
    if entries != [] {
      EntriesEndWithNewline(entries[1..]);
    }
  }

  lemma FirstEndInBlock(entries: seq<string>)
    ensures var block := RenderBlock(entries); var k := Find(block, END);
            && 0 <= k <= |block| - |END|
            && block[|block| - |END| - 1] == '\n'
            && (EndFree(entries) <==> k == |block| - |END|)
  {
    var body := RenderEntries(entries);
    assert RenderBlock(entries) == BEGIN + "\n" + (body + END);
    MarkersHaveNoNewline();
    FindAcrossNewline(BEGIN, body + END, END);
    EndAtEnd(body);
    FirstEndInEntries(entries);
    EndNotInBegin(Find(BEGIN, END));
    EntriesEndWithNewline(entries);
  }

  // ----- the markers found after a block was written

  /** Inside the part of a text that ends at `n`, a pattern is found as in that part alone. */
  lemma OccursInPrefix(s: string, n: nat, p: string, i: int)
    requires n <= |s| && i + |p| <= n
    ensures OccursAt(s, p, i) <==> OccursAt(s[..n], p, i)
  {
    if 0 <= i {
      assert s[..n][i..i + |p|] == s[i..i + |p|];
    }
  }

  /** What a slot keeps out: no marker is found before the block. */
  lemma SlotKeepsMarkersOut(head: string, tail: string, t: string, i: int)
    requires Slot(head, tail) && head + BEGIN <= t
    ensures OccursAt(t, BEGIN, i) ==> |head| <= i
    ensures OccursAt(t, END, i) ==> |head| < i
  {
    var n := |head + BEGIN|;
    assert t[..n] == head + BEGIN;
    assert |END| < |BEGIN|;
    if i <= |head| {
      OccursInPrefix(t, n, BEGIN, i);
      OccursInPrefix(t, n, END, i);
    }
  }

  lemma MarkersAfterWrite(head: string, tail: string, entries: seq<string>)
    requires Slot(head, tail)
    ensures var block := RenderBlock(entries); var t := head + block + tail;
            Find(t, BEGIN) == |head| && Find(t, END) == |head| + Find(block, END)
  {
    var block := RenderBlock(entries);
    BlockBegins(entries);
    FirstEndInBlock(entries);
    BeginAfterWrite(head, tail, block);
    EndAfterWrite(head, tail, block);
  }

  lemma BlockBegins(entries: seq<string>)
    ensures BEGIN <= RenderBlock(entries)
  {
    StartsWithFirst(BEGIN, RenderEntries(entries), END);
  }

  lemma StartsWithFirst(begin: string, mid: string, end: string)
    ensures begin <= begin + "\n" + mid + end
  {}

  lemma BeginAfterWrite(head: string, tail: string, block: string)
    requires Slot(head, tail) && BEGIN <= block
    ensures Find(head + block + tail, BEGIN) == |head|
  {
    var t := head + block + tail;
    FoundWhereItStands(head, BEGIN, block, tail);
    SlotKeepsMarkersOut(head, tail, t, Find(t, BEGIN));
  }

  lemma FoundWhereItStands(head: string, m: string, block: string, tail: string)
    requires m <= block
    ensures OccursAt(head + block + tail, m, |head|) && head + m <= head + block + tail
  {
    var t := head + block + tail;
    assert t[|head|..|head| + |m|] == block[..|m|] == m;
    assert t[..|head| + |m|] == head + m;
  }

  lemma EndAfterWrite(head: string, tail: string, block: string)
    requires Slot(head, tail) && BEGIN <= block && Find(block, END) >= 0
    ensures Find(head + block + tail, END) == |head| + Find(block, END)
  {
    var t := head + block + tail;
    OccursInPart(head, block, tail, END, Find(block, END));
    var e := Find(t, END);
    SlotKeepsMarkersOut(head, tail, t, e);
    OccursWithin(head, block, tail, END, e);
  }

  /** Splitting a well-placed text leaves a slot for the block. */
  lemma SplitGivesSlot(t: string)
    requires WellPlaced(t)
    ensures Slot(Head(t), Tail(t))
  {
    if Find(t, BEGIN) >= 0 {
      FirstMarkerInHead(t, Head(t));
    } else {
      HeadOfUnmarked(t);
    }
  }

  /** Up to the end of its first opening marker, a well-placed text holds that marker once and no closing one. */
  lemma FirstMarkerInHead(t: string, head: string)
    requires WellPlaced(t) && Find(t, BEGIN) >= 0 && head == t[..Find(t, BEGIN)]
    ensures Find(head + BEGIN, BEGIN) == |head| && Find(head + BEGIN, END) == -1
  {
    var rest := t[|head| + |BEGIN|..];
    assert t == "" + (head + BEGIN) + rest;
    FoundInHead(t, head, BEGIN, rest);
    NoEndInHead(t, head, rest);
  }

  /** What is found first in a text is found there as soon as the text reaches so far. */
  lemma FoundInHead(t: string, head: string, m: string, rest: string)
    requires m != "" && t == "" + (head + m) + rest && Find(t, m) == |head|
    ensures Find(head + m, m) == |head|
  {
    var s := head + m;
    assert OccursAt(s, m, |head|);
    forall i | OccursAt(s, m, i) ensures |head| <= i {
      OccursInPart("", s, rest, m, i);
    }
  }

  lemma NoEndInHead(t: string, head: string, rest: string)
    requires t == "" + (head + BEGIN) + rest && Find(t, END) > |head|
    ensures Find(head + BEGIN, END) == -1
  {
    var e := Find(head + BEGIN, END);
    if e >= 0 {
      OccursInPart("", head + BEGIN, rest, END, e);
      EndInHead(head, e);
    }
  }

  lemma EndInHead(head: string, i: int)
    requires OccursAt(head + BEGIN, END, i)
    ensures i < |head|
  {
    EndNotInBegin(i - |head|);
    if i >= |head| {
      assert head + BEGIN + "" == head + BEGIN;
      OccursWithin(head, BEGIN, "", END, i);
    }
  }

  /** Without markers, the appended separator keeps the block away from the text. */
  lemma HeadOfUnmarked(t: string)
    requires Find(t, BEGIN) < 0 && Find(t, END) < 0
    ensures Find(Head(t) + BEGIN, BEGIN) == |Head(t)|
    ensures Find(Head(t) + BEGIN, END) == -1
  {
    var head := Head(t);
    assert OccursAt(head + BEGIN, BEGIN, |head|);
    MarkersHaveNoNewline();
    forall i, p | (p == BEGIN || p == END) && OccursAt(head + BEGIN, p, i)
      ensures |head| <= i && OccursAt(BEGIN, p, i - |head|)
    {
      NothingBeforeSeparator(t, BEGIN, p, i);
    }
    forall i ensures !OccursAt(head + BEGIN, END, i) {
      EndNotInBegin(i - |head|);
    }
  }

  /** A one-line pattern absent from `t` is found after `t` and its separator only in what follows. */
  lemma NothingBeforeSeparator(t: string, after: string, p: string, i: int)
    requires Find(t, p) < 0 && '\n' !in p && p != ""
    requires OccursAt(t + Separator(t) + after, p, i)
    ensures |t + Separator(t)| <= i && OccursAt(after, p, i - |t + Separator(t)|)
  {
    var head := t + Separator(t);
    if t == "" {
      assert head + after == after;
    } else {
      var k := |head| - 1;
      assert (head + after)[k] == '\n';
      NeverSpans(head + after, p, i, k, '\n');
      if k < i {
        OccursWithin(head, after, "", p, i) by { assert head + after + "" == head + after; }
      } else {
        // the only other place is inside `t` itself, where `p` does not occur
        if t[|t| - 1] != '\n' {
          NeverSpans(head + after, p, i, |t|, '\n');
        }
        OccursWithin("", t, Separator(t) + after, p, i) by {
          assert "" + t + (Separator(t) + after) == head + after;
        }
        assert false;
      }
    }
  }

  // ----- main results

  /** Writing the block into a slot again only changes the block. */
  lemma RewriteInSlot(head: string, tail: string, entries: seq<string>, block: string)
    requires Slot(head, tail) && EndFree(entries)
    ensures ReplaceOrAppend(head + RenderBlock(entries) + tail, block) == head + block + tail
  {
    var first := RenderBlock(entries);
    var t := head + first + tail;
    MarkersAfterWrite(head, tail, entries);
    FirstEndInBlock(entries);
    var e := Find(t, END);
    assert t[e + |END|..] == tail;
    assert IndexOf(tail, '\n') == 0;
    assert t[..|head|] == head && t[LineEnd(t, e)..] == tail;
  }

  /** The first write of a block into a well-placed text fills the text's slot. */
  lemma WriteFillsSlot(t: string, block: string)
    requires WellPlaced(t)
    ensures ReplaceOrAppend(t, block) == Head(t) + block + Tail(t)
  {}

  /** Nothing outside the replaced part changes, and an append keeps the whole text. */
  lemma TextOutsideIsKept(t: string, block: string)
    ensures var b, e, u := Find(t, BEGIN), Find(t, END), ReplaceOrAppend(t, block);
            if b >= 0 && e >= 0 then
              && |u| >= b + |t| - LineEnd(t, e)
              && u[..b] == t[..b] && u[|u| - (|t| - LineEnd(t, e))..] == t[LineEnd(t, e)..]
            else t <= u
  {
    var b, e := Find(t, BEGIN), Find(t, END);
    if b >= 0 && e >= 0 {
      var u := t[..b] + block + t[LineEnd(t, e)..];
      assert u[|t[..b] + block|..] == t[LineEnd(t, e)..];
    }
  }

  /** A second write has the same result as if the first had not been made. */
  predicate LastWriteWins(t: string, entries: seq<string>, block: string) {
    ReplaceOrAppend(ReplaceOrAppend(t, RenderBlock(entries)), block) == ReplaceOrAppend(t, block)
  }

  /** The line of a closing marker ends no later than any newline after the marker. */
  lemma LineEndsByNewline(t: string, e: int, k: int)
    requires OccursAt(t, END, e) && e + |END| <= k < |t| && t[k] == '\n'
    ensures LineEnd(t, e) <= k
  {
    assert t[e + |END|..][k - e - |END|] == '\n';
  }

  /** An entry that holds the closing marker leaves its remains behind on the next write. */
  lemma EndInEntryGrows(head: string, tail: string, entries: seq<string>, block: string)
    requires Slot(head, tail) && !EndFree(entries)
    ensures |ReplaceOrAppend(head + RenderBlock(entries) + tail, block)| > |head + block + tail|
  {
    var first := RenderBlock(entries);
    var t := head + first + tail;
    MarkersAfterWrite(head, tail, entries);
    FirstEndInBlock(entries);
    var e := Find(t, END);
    var k := |head| + |first| - |END| - 1;
    assert t[k] == first[k - |head|] == '\n';
    MarkersHaveNoNewline();
    NeverSpans(t, END, e, k, '\n');
    LineEndsByNewline(t, e, k);
  }

  /** Texts that agree up to the end of the first occurrence agree on where it is. */
  lemma FindInCommonPrefix(t: string, u: string, n: nat, p: string)
    requires n <= |t| && n <= |u| && t[..n] == u[..n]
    requires 0 <= Find(t, p) && Find(t, p) + |p| <= n
    ensures Find(u, p) == Find(t, p)
  {
    OccursInPrefix(t, n, p, Find(t, p));
    OccursInPrefix(u, n, p, Find(t, p));
    OccursInPrefix(u, n, p, Find(u, p));
    OccursInPrefix(t, n, p, Find(u, p));
  }

  /** After an append, a marker that was absent is found where the block has it. */
  lemma FindAfterAppend(t: string, block: string, p: string)
    requires Find(t, p) < 0 && '\n' !in p && p != "" && Find(block, p) >= 0
    ensures Find(t + Separator(t) + block + "\n", p) == |t + Separator(t)| + Find(block, p)
  {
    var head := t + Separator(t);
    var u := head + block + "\n";
    OccursInPart(head, block, "\n", p, Find(block, p));
    assert u == head + (block + "\n");
    NothingBeforeSeparator(t, block + "\n", p, Find(u, p));
    assert block + "\n" == block + "\n" + "";
    OneSide(block, "", p, Find(u, p) - |head|);
  }

  lemma BeginOfBlock(entries: seq<string>)
    ensures Find(RenderBlock(entries), BEGIN) == 0
  {
    assert OccursAt(RenderBlock(entries), BEGIN, 0);
  }

  lemma ReplaceLength(t: string, block: string)
    requires Find(t, BEGIN) >= 0 && Find(t, END) >= 0
    ensures |ReplaceOrAppend(t, block)|
            == Find(t, BEGIN) + |block| + |t| - LineEnd(t, Find(t, END))
  {}

  /** An opening marker without a closing one: the second write drops text. */
  lemma OnlyBeginShrinks(t: string, entries: seq<string>, block: string)
    requires Find(t, BEGIN) >= 0 && Find(t, END) < 0 && EndFree(entries)
    ensures |ReplaceOrAppend(ReplaceOrAppend(t, RenderBlock(entries)), block)|
            < |ReplaceOrAppend(t, block)|
  {
    var first := RenderBlock(entries);
    var u := ReplaceOrAppend(t, first);
    assert u[..|t|] == t == t[..|t|];
    FindInCommonPrefix(t, u, |t|, BEGIN);
    FirstEndInBlock(entries);
    MarkersHaveNoNewline();
    FindAfterAppend(t, first, END);
    ReplaceLength(u, block);
  }

  /** A closing marker without an opening one: the second write duplicates text. */
  lemma OnlyEndGrows(t: string, entries: seq<string>, block: string)
    requires Find(t, BEGIN) < 0 && Find(t, END) >= 0
    ensures |ReplaceOrAppend(ReplaceOrAppend(t, RenderBlock(entries)), block)|
            > |ReplaceOrAppend(t, block)|
  {
    var first := RenderBlock(entries);
    var head := t + Separator(t);
    var u := ReplaceOrAppend(t, first);
    assert u[..|t|] == t == t[..|t|];
    FindInCommonPrefix(t, u, |t|, END);
    BeginOfBlock(entries);
    MarkersHaveNoNewline();
    FindAfterAppend(t, first, BEGIN);
    assert u[|head| - 1] == '\n';
    NeverSpans(u, END, Find(u, END), |head| - 1, '\n');
    LineEndsByNewline(u, Find(u, END), |head| - 1);
    ReplaceLength(u, block);
  }

  /** With the closing marker first, a written block leaves both markers where they were. */
  lemma EndFirstKeepsMarkers(t: string, u: string, rest: string)
    requires 0 <= Find(t, END) <= Find(t, BEGIN)
    requires u == t[..Find(t, BEGIN)] + BEGIN + "\n" + rest
    ensures Find(u, BEGIN) == Find(t, BEGIN) && Find(u, END) == Find(t, END)
    ensures LineEnd(u, Find(u, END)) <= Find(t, BEGIN) + |BEGIN|
  {
    var b := Find(t, BEGIN);
    var n := b + |BEGIN|;
    assert t[..n] == t[..b] + BEGIN;
    assert u[..n] == t[..b] + BEGIN;
    FindInCommonPrefix(t, u, n, BEGIN);
    FindInCommonPrefix(t, u, n, END);
    LineEndsByNewline(u, Find(u, END), n);
  }

  /** A closing marker before the opening one: the second write duplicates text. */
  lemma EndFirstGrows(t: string, entries: seq<string>, block: string)
    requires 0 <= Find(t, END) <= Find(t, BEGIN)
    ensures |ReplaceOrAppend(ReplaceOrAppend(t, RenderBlock(entries)), block)|
            > |ReplaceOrAppend(t, block)|
  {
    var u := ReplaceOrAppend(t, RenderBlock(entries));
    var rest := RenderEntries(entries) + END + t[LineEnd(t, Find(t, END))..];
    WrittenBetween(t, entries, rest);
    EndFirstKeepsMarkers(t, u, rest);
    ReplaceLength(u, block);
    ReplaceLength(t, block);
  }

  lemma WrittenBetween(t: string, entries: seq<string>, rest: string)
    requires Find(t, BEGIN) >= 0 && Find(t, END) >= 0
    requires rest == RenderEntries(entries) + END + t[LineEnd(t, Find(t, END))..]
    ensures ReplaceOrAppend(t, RenderBlock(entries)) == t[..Find(t, BEGIN)] + BEGIN + "\n" + rest
  {
    Regroup(t[..Find(t, BEGIN)], BEGIN, RenderEntries(entries), END, t[LineEnd(t, Find(t, END))..]);
  }

  lemma Regroup(head: string, begin: string, mid: string, end: string, tail: string)
    ensures head + (begin + "\n" + mid + end) + tail == head + begin + "\n" + (mid + end + tail)
  {
  }

  /**
   For entries that do not hold the closing marker, the last write wins exactly on the
   texts whose markers are absent or well placed.
   */
  lemma LastWriteWinsIffWellPlaced(t: string, entries: seq<string>, block: string)
    requires EndFree(entries)
    ensures LastWriteWins(t, entries, block) <==> WellPlaced(t)
  {
    if WellPlaced(t) {
      WriteFillsSlot(t, RenderBlock(entries));
      WriteFillsSlot(t, block);
      SplitGivesSlot(t);
      RewriteInSlot(Head(t), Tail(t), entries, block);
    } else if Find(t, END) < 0 {
      OnlyBeginShrinks(t, entries, block);
    } else if Find(t, BEGIN) < 0 {
      OnlyEndGrows(t, entries, block);
    } else {
      EndFirstGrows(t, entries, block);
    }
  }

  /**
   On a text whose markers are absent or well placed, the last write wins exactly when
   no entry of the first write holds the closing marker.
   */
  lemma LastWriteWinsIffEndFree(t: string, entries: seq<string>, block: string)
    requires WellPlaced(t)
    ensures LastWriteWins(t, entries, block) <==> EndFree(entries)
  {
    WriteFillsSlot(t, RenderBlock(entries));
    WriteFillsSlot(t, block);
    SplitGivesSlot(t);
    if EndFree(entries) {
      RewriteInSlot(Head(t), Tail(t), entries, block);
    } else {
      EndInEntryGrows(Head(t), Tail(t), entries, block);
    }
  }

  /** A block is appended behind one blank line, whether or not the text ends with a line break. */
  lemma AppendedBehindBlankLine(t: string, block: string)
    requires t != "" && t[|t| - 1] != '\n'
    requires Find(t, BEGIN) < 0 || Find(t, END) < 0
    requires Find(t + "\n", BEGIN) < 0 || Find(t + "\n", END) < 0
    ensures ReplaceOrAppend(t, block) == t + "\n" + "\n" + block + "\n"
    ensures ReplaceOrAppend(t + "\n", block) == t + "\n" + "\n" + block + "\n"
  {
    assert t + "\n\n" == t + "\n" + "\n";
  }
}
