/**
 From text to logical lines, and the loader as it runs: a cursor that moves over the
 lines (scripts/validate-protocol-registry.py).
 */
module RegistryText {
  import opened Text
  import opened RegistryParser
  import opened RegistryLayout

  // ----- comments

  /** The line up to a `#` outside quotes. */
  function CutFrom(line: string, st: Scan): string {
    if line == "" || IsHash(st, line[0]) then "" else [line[0]] + CutFrom(line[1..], Step(st, line[0]))
  }

  method StripTrailingComment(line: string) returns (r: string)
    ensures r == CutFrom(line, OUTSIDE)
  {
    var st := OUTSIDE;
    r := "";
    for i := 0 to |line|
      invariant r + CutFrom(line[i..], st) == CutFrom(line, OUTSIDE)
      invariant r == line[..i]
    {
      assert line[i..][1..] == line[i + 1..];
      if IsHash(st, line[i]) {
        assert r + CutFrom(line[i..], st) == r;
        return;
      }
      var rest := CutFrom(line[i + 1..], Step(st, line[i]));
      assert r + ([line[i]] + rest) == r + [line[i]] + rest;
      st := Step(st, line[i]);
      r := r + [line[i]];
    }
    assert line[|line|..] == "";
  }

  predicate IsSpace(c: char) { c == ' ' }

  datatype Logical = Dropped | Kept(line: Line)

  /** A raw line without its comment; blank lines are dropped. */
  function LogicalLine(raw: string): Logical {
    var t := TrimEnd(CutFrom(raw, OUTSIDE), PythonWhite);
    var content := TrimStart(t, IsSpace);
    if t == "" then Dropped
    else if TrimStart(t, PythonWhite) != "" && TrimStart(t, PythonWhite)[0] == '#' then Dropped
    else Kept(Line(|t| - |content|, content))
  }

  function LogicalLines(raws: seq<string>): seq<Line> {
    if raws == [] then []
    else match LogicalLine(raws[0])
      case Dropped => LogicalLines(raws[1..])
      case Kept(l) => [l] + LogicalLines(raws[1..])
  }

  // ----- layouts survive as text

  /** Nothing, or white space and then a comment. */
  predicate CommentTail(s: string) {
    s == "" || exists k :: 0 <= k < |s| && s[k] == '#' && All(s[..k], PythonWhite)
  }

  predicate QuotesClosed(st: Scan) { !st.single && !st.double }

  /**
   The raw line writes out the logical line, perhaps with white space or a comment behind it. An apostrophe in the
   line opens a quote for the scanner, and where one stays open a comment would become part of the line.
   */
  predicate Writes(raw: string, l: Line) {
    var text := Spaces(l.indent) + l.content;
    && text <= raw
    && (All(raw[|text|..], PythonWhite)
        || (QuotesClosed(Scanned(OUTSIDE, l.content)) && CommentTail(raw[|text|..])))
  }

  /** A blank line or a comment line. */
  predicate Noise(raw: string) { All(raw, PythonWhite) || CommentTail(raw) }

  /** The raw lines write out the logical lines in order, with any noise between. */
  predicate WritesAll(raws: seq<string>, lines: seq<Line>) {
    if raws == [] then lines == []
    else (Noise(raws[0]) && WritesAll(raws[1..], lines))
         || (lines != [] && Writes(raws[0], lines[0]) && WritesAll(raws[1..], lines[1..]))
  }

  /** Content that is kept as it is. */
  predicate LineOk(l: Line) { Tight(l.content) && Clean(OUTSIDE, l.content) }

  lemma {:induction false} CutPasses(s: string, rest: string, st: Scan)
    requires Clean(st, s)
    ensures CutFrom(s + rest, st) == s + CutFrom(rest, Scanned(st, s))
    decreases |s|
  {
    if s == "" {
      assert s + rest == rest;
    } else {
      assert (s + rest)[1..] == s[1..] + rest;
      CutPasses(s[1..], rest, Step(st, s[0]));
    }
  }

  lemma {:induction false} WhitePasses(s: string, st: Scan)
    requires All(s, PythonWhite)
    ensures Clean(st, s) && Scanned(st, s) == st
    decreases |s|
  {
    if s != "" {
      assert PythonWhite(s[0]);
      WhitePasses(s[1..], st);
    }
  }

  lemma CutWhite(s: string, st: Scan)
    requires All(s, PythonWhite)
    ensures CutFrom(s, st) == s
  {
    WhitePasses(s, st);
    CutPasses(s, "", st);
    assert s + "" == s;
  }

  lemma CutCommentTail(s: string, st: Scan)
    requires CommentTail(s) && QuotesClosed(st)
    ensures All(CutFrom(s, st), PythonWhite)
  {
    if s != "" {
      var k :| 0 <= k < |s| && s[k] == '#' && All(s[..k], PythonWhite);
      WhitePasses(s[..k], st);
      CutPasses(s[..k], s[k..], st);
      assert s == s[..k] + s[k..];
    }
  }

  /** A written line is read as the logical line. */
  lemma WrittenLineIsRead(raw: string, l: Line)
    requires LineOk(l) && Writes(raw, l)
    ensures LogicalLine(raw) == Kept(l)
  {
    var lead := Spaces(l.indent);
    var tail := raw[|lead + l.content|..];
    var st := Scanned(OUTSIDE, l.content);
    if All(tail, PythonWhite) {
      CutWhite(tail, st);
    } else {
      CutCommentTail(tail, st);
    }
    assert raw == lead + l.content + tail;
    var trail := CutWritten(raw, lead, l.content, tail);
    TrimEndIs(lead + l.content + trail, lead + l.content, trail, PythonWhite);
    StartOfLine(lead, l.content);
  }

  /** Cutting the comment leaves the written line and white space. */
  lemma CutWritten(raw: string, lead: string, content: string, tail: string) returns (trail: string)
    requires All(lead, IsSpace) && Clean(OUTSIDE, content) && raw == lead + content + tail
    requires All(CutFrom(tail, Scanned(OUTSIDE, content)), PythonWhite)
    ensures CutFrom(raw, OUTSIDE) == lead + content + trail && All(trail, PythonWhite)
  {
    assert raw == lead + (content + tail);
    WhitePasses(lead, OUTSIDE);
    CutPasses(lead, content + tail, OUTSIDE);
    CutPasses(content, tail, OUTSIDE);
    trail := CutFrom(tail, Scanned(OUTSIDE, content));
  }

  lemma StartOfLine(lead: string, content: string)
    requires All(lead, IsSpace) && Tight(content) && content[0] != '#'
    ensures TrimStart(lead + content, IsSpace) == content
    ensures TrimStart(lead + content, PythonWhite) == content
  {
    var t := lead + content;
    assert forall i :: 0 <= i < |lead| ==> t[i] == lead[i];
    assert t[|lead|] == content[0];
    assert KeptStart(t, 0, IsSpace) == |lead|;
    assert KeptStart(t, 0, PythonWhite) == |lead|;
    assert t[|lead|..] == content;
  }

  lemma NoiseIsDropped(raw: string)
    requires Noise(raw)
    ensures LogicalLine(raw) == Dropped
  {
    if All(raw, PythonWhite) {
      CutWhite(raw, OUTSIDE);
      TrimEndIs(raw, "", raw, PythonWhite);
    } else {
      CutCommentTail(raw, OUTSIDE);
      var cut := CutFrom(raw, OUTSIDE);
      TrimEndIs(cut, "", cut, PythonWhite);
    }
  }

  lemma {:induction false} WrittenLinesAreRead(raws: seq<string>, lines: seq<Line>)
    requires WritesAll(raws, lines) && forall i :: 0 <= i < |lines| ==> LineOk(lines[i])
    ensures LogicalLines(raws) == lines
    decreases |raws|
  {
    if raws != [] {
      if Noise(raws[0]) && WritesAll(raws[1..], lines) {
        NoiseIsDropped(raws[0]);
        WrittenLinesAreRead(raws[1..], lines);
      } else {
        WrittenLineIsRead(raws[0], lines[0]);
        WrittenLinesAreRead(raws[1..], lines[1..]);
      }
    }
  }

  lemma {:induction false} PassIsClean(st: Scan, s: string)
    requires Pass(st, s).Through?
    ensures Clean(st, s) && Scanned(st, s) == Pass(st, s).st
    decreases |s|
  {
    if s != "" {
      PassIsClean(Step(st, s[0]), s[1..]);
    }
  }

  lemma {:induction false} CleanAppend(st: Scan, a: string, b: string)
    requires Clean(st, a) && Clean(Scanned(st, a), b)
    ensures Clean(st, a + b)
    decreases |a|
  {
    if a == "" {
      assert a + b == b;
    } else {
      assert (a + b)[1..] == a[1..] + b;
      CleanAppend(Step(st, a[0]), a[1..], b);
    }
  }

  lemma SafeIsClean(s: string)
    requires SafeText(s)
    ensures Clean(OUTSIDE, s) && Scanned(OUTSIDE, s) == OUTSIDE
  {
    SafeTextPasses(0, s);
    PassIsClean(OUTSIDE, s);
  }

  lemma RestIsClean(numeric: string -> bool, r: Rest)
    requires RestOk(numeric, r)
    ensures Clean(OUTSIDE, RenderRest(r))
  {
    match r
    case Words(_) =>
    case Enclosed(_, _) =>
    case Flowed(f) =>
      FlowPasses(numeric, f, 0);
      PassIsClean(OUTSIDE, RenderFlow(f));
  }

  lemma PairIsClean(numeric: string -> bool, k: string, r: Rest)
    requires KeyOk(k) && RestOk(numeric, r)
    ensures Tight(PairText(k, r)) && Clean(OUTSIDE, PairText(k, r))
  {
    SafeIsClean(k + ": ");
    RestIsTight(numeric, r);
    RestIsClean(numeric, r);
    CleanAppend(OUTSIDE, k + ": ", RenderRest(r));
  }

  lemma DashedLineOk(text: string, indent: nat)
    requires Tight(text) && Clean(OUTSIDE, text)
    ensures LineOk(Line(indent, DASH + text))
  {
    SafeIsClean(DASH);
    CleanAppend(OUTSIDE, DASH, text);
  }

  predicate LinesOk(lines: seq<Line>) { forall i :: 0 <= i < |lines| ==> LineOk(lines[i]) }

  lemma {:induction false} ElementLinesOk(numeric: string -> bool, el: Element, indent: nat)
    requires ElementOk(numeric, el)
    ensures LinesOk(LayoutElement(el, indent))
    decreases el, 1
  {
    match el
    case Item(r) =>
      RestIsTight(numeric, r);
      RestIsClean(numeric, r);
      DashedLineOk(RenderRest(r), indent);
    case Record(k, r, offset, entries) =>
      PairIsClean(numeric, k, r);
      DashedLineOk(PairText(k, r), indent);
      LayoutLinesOk(numeric, entries, indent + offset);
  }

  lemma {:induction false} ListLinesOk(numeric: string -> bool, elements: seq<Element>, indent: nat)
    requires ElementsOk(numeric, elements)
    ensures LinesOk(LayoutElements(elements, indent))
    decreases elements, 0
  {
    if elements != [] {
      ElementLinesOk(numeric, elements[0], indent);
      ListLinesOk(numeric, elements[1..], indent);
    }
  }

  lemma {:induction false} EntryLinesOk(numeric: string -> bool, e: Entry, indent: nat)
    requires EntryOk(numeric, e)
    ensures LinesOk(LayoutEntry(e, indent))
    decreases e, 1
  {
    SafeIsClean(AloneText(e.key));
    match e.node
    case Inline(r) => PairIsClean(numeric, e.key, r);
    case Listed(offset, elements) => ListLinesOk(numeric, elements, indent + offset);
    case Nested(offset, entries) => LayoutLinesOk(numeric, entries, indent + offset);
  }

  lemma {:induction false} LayoutLinesOk(numeric: string -> bool, entries: seq<Entry>, indent: nat)
    requires EntriesOk(numeric, entries)
    ensures LinesOk(Layout(entries, indent))
    decreases entries, 0
  {
    if entries != [] {
      EntryLinesOk(numeric, entries[0], indent);
      LayoutLinesOk(numeric, entries[1..], indent);
    }
  }

  /** The logical lines of a text. */
  function StripComments(text: string): seq<Line> { LogicalLines(PythonLines(text)) }

  /** Any text that writes out a document's layout, with comments and blank lines anywhere, loads as the document. */
  lemma TextLoadsAsDocument(numeric: string -> bool, text: string, entries: seq<Entry>)
    requires EntriesOk(numeric, entries) && WritesAll(PythonLines(text), Layout(entries, 0))
    ensures Load(numeric, StripComments(text)) == Done(Assign(map[], entries), |Layout(entries, 0)|)
  {
    LayoutLinesOk(numeric, entries, 0);
    WrittenLinesAreRead(PythonLines(text), Layout(entries, 0));
    LoaderInvertsLayout(numeric, entries);
  }

  function LineText(l: Line): string { Spaces(l.indent) + l.content }

  /** The plain text of a layout. */
  function LayoutText(lines: seq<Line>): string {
    Unlines(seq(|lines|, i requires 0 <= i < |lines| => LineText(lines[i])))
  }

  lemma {:induction false} PlainLinesWriteAll(lines: seq<Line>)
    ensures WritesAll(seq(|lines|, i requires 0 <= i < |lines| => LineText(lines[i])), lines)
    decreases |lines|
  {
    var raws := seq(|lines|, i requires 0 <= i < |lines| => LineText(lines[i]));
    if lines != [] {
      var rest := lines[1..];
      assert raws[1..] == seq(|rest|, i requires 0 <= i < |rest| => LineText(rest[i]));
      PlainLinesWriteAll(rest);
      assert raws[0] == LineText(lines[0]) && raws[0][|LineText(lines[0])|..] == "";
    }
  }

  lemma SpacesHoldNoBreak(n: nat)
    ensures All(Spaces(n), InLine)
  {
  }

  /** A document whose lines hold no line break, quoted scalars included, is written and loaded back. */
  lemma DocumentRoundTrip(numeric: string -> bool, entries: seq<Entry>)
    requires EntriesOk(numeric, entries)
    requires forall i :: 0 <= i < |Layout(entries, 0)| ==> All(Layout(entries, 0)[i].content, InLine)
    ensures Load(numeric, StripComments(LayoutText(Layout(entries, 0))))
            == Done(Assign(map[], entries), |Layout(entries, 0)|)
  {
    var lines := Layout(entries, 0);
    var raws := seq(|lines|, i requires 0 <= i < |lines| => LineText(lines[i]));
    forall i | 0 <= i < |raws| ensures All(raws[i], InLine) {
      SpacesHoldNoBreak(lines[i].indent);
      assert All(lines[i].content, InLine);
    }
    LinesOfUnlines(raws);
    PlainLinesWriteAll(lines);
    TextLoadsAsDocument(numeric, LayoutText(lines), entries);
  }

  // ----- the parser as it runs

  datatype Result<+T> = Fault | Got(value: T)

  /** The parser's position in the logical lines. */
  class Cursor {
    const lines: seq<Line>
    var pos: nat

    ghost predicate Valid()
      reads this
    {
      pos <= |lines|
    }

    constructor (lines: seq<Line>)
      ensures Valid() && this.lines == lines && pos == 0
    {
      this.lines := lines;
      pos := 0;
    }

    /** What a parse from `start` must leave in the result and in the cursor. */
    ghost predicate Agrees<T(!new)>(spec: Parsed<T>, r: Result<T>)
      reads this
    {
      match spec
      case Crashed => r.Fault?
      case Done(v, p) => r == Got(v) && pos == p
    }

    method ParseBlock(rd: Reader, indent: nat) returns (r: Result<Entries>)
      requires Valid()
      modifies this
      ensures Valid() && old(pos) <= pos && Agrees(Block(rd, lines, old(pos), indent, map[]), r)
      decreases |lines| - pos, 1
    {
      ghost var spec := Block(rd, lines, pos, indent, map[]);
      var result: Entries := map[];
      while pos < |lines| && lines[pos].indent >= indent
        invariant old(pos) <= pos <= |lines|
        invariant Block(rd, lines, pos, indent, result) == spec
        decreases |lines| - pos
      {
        var line := lines[pos];
        pos := pos + 1;
        if line.indent == indent {
          match rd.line(line.content) {
            case Stray(item) =>
              var added := AddStray(result, item);
              if added.NoList? {
                return Fault;
              }
              result := added.entries;
            case Pair(key, value) =>
              result := result[key := value];
            case Alone(key) =>
              var child := ParseChild(rd, indent);
              if child.Fault? {
                return Fault;
              }
              result := result[key := child.value];
          }
        }
      }
      r := Got(result);
    }

    /** Look ahead below a key: a nested mapping, a block list, or nothing. */
    method ParseChild(rd: Reader, indent: nat) returns (r: Result<Value>)
      requires Valid()
      modifies this
      ensures Valid() && old(pos) <= pos && Agrees(Child(rd, lines, old(pos), indent), r)
      decreases |lines| - pos, 2
    {
      if pos == |lines| || lines[pos].indent <= indent {
        return Got(Mapping(map[]));
      }
      var deeper := lines[pos].indent;
      if rd.line(lines[pos].content).Stray? {
        var items := ParseBlockList(rd, deeper);
        r := if items.Fault? then Fault else Got(Items(items.value));
      } else {
        var entries := ParseBlock(rd, deeper);
        r := if entries.Fault? then Fault else Got(Mapping(entries.value));
      }
    }

    method ParseBlockList(rd: Reader, indent: nat) returns (r: Result<seq<Value>>)
      requires Valid()
      modifies this
      ensures Valid() && old(pos) <= pos && Agrees(BlockList(rd, lines, old(pos), indent, []), r)
      decreases |lines| - pos, 0
    {
      ghost var spec := BlockList(rd, lines, pos, indent, []);
      var items: seq<Value> := [];
      while pos < |lines| && lines[pos].indent >= indent && !rd.item(lines[pos].content).NoItem?
        invariant old(pos) <= pos <= |lines|
        invariant BlockList(rd, lines, pos, indent, items) == spec
        decreases |lines| - pos
      {
        var reading := rd.item(lines[pos].content);
        pos := pos + 1;
        match reading {
          case Whole(value) => items := items + [value];
          case FirstPair(key, value) =>
            if pos < |lines| && lines[pos].indent > indent {
              var more := ParseBlock(rd, lines[pos].indent);
              if more.Fault? {
                return Fault;
              }
              items := items + [Mapping(map[key := value] + more.value)];
            } else {
              items := items + [Mapping(map[key := value])];
            }
        }
      }
      r := Got(items);
    }
  }

  /** Load a registry from its text; the parse ends on every input. */
  method LoadRegistry(numeric: string -> bool, text: string) returns (r: Result<Entries>)
    ensures match Load(numeric, StripComments(text))
            case Crashed => r.Fault?
            case Done(v, _) => r == Got(v)
  {
    var cursor := new Cursor(StripComments(text));
    r := cursor.ParseBlock(RegistryReader(numeric), 0);
  }

  /** Split on the commas outside brackets and quotes, by index. */
  method SplitParts(text: string) returns (parts: seq<string>)
    ensures parts == SplitFlow(text)
  {
    var pieces: seq<string> := [];
    var st, start := OUTSIDE, 0;
    for i := 0 to |text|
      invariant 0 <= start <= i
      invariant pieces + Pieces(text[i..], st, text[start..i]) == Pieces(text, OUTSIDE, "")
    {
      assert text[i..][1..] == text[i + 1..];
      if SplitsAt(st, text[i]) {
        ghost var rest := Pieces(text[i + 1..], st, "");
        assert pieces + ([text[start..i]] + rest) == pieces + [text[start..i]] + rest;
        pieces := pieces + [text[start..i]];
        start := i + 1;
        assert text[start..i + 1] == "";
      } else {
        assert text[start..i] + [text[i]] == text[start..i + 1];
        st := Step(st, text[i]);
      }
    }
    assert text[|text|..] == "";
    pieces := pieces + [text[start..]];
    assert text[start..|text|] == text[start..];
    parts := Stripped(pieces, |text|);
  }
}
