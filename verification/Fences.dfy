/**
 The fenced-block extractor of the documentation check (scripts/docs-smoke.py):
 a document is prose lines and fenced blocks, the last of which may be left open.
 */
module Fences {
  import opened Json
  import opened Text

  // ----- one line

  predicate IsTick(c: char) { c == '`' }

  /** Where the backticks start and end, white space before them left aside. */
  function TickStart(line: string): nat { KeptStart(line, 0, PythonWhite) }

  function TickEnd(line: string): nat { KeptStart(line, TickStart(line), IsTick) }

  function Ticks(line: string): nat { TickEnd(line) - TickStart(line) }

  function Info(line: string): string { line[TickEnd(line)..] }

  predicate Blank(s: string) { All(s, PythonWhite) }

  predicate Bare(line: string) { Blank(Info(line)) }

  predicate NotWhite(c: char) { !PythonWhite(c) }

  /** The first word of `s`, empty when there is none. */
  function FirstWord(s: string): string {
    var from := KeptStart(s, 0, PythonWhite);
    s[from..KeptStart(s, from, NotWhite)]
  }

  /** A run of characters that satisfy `p` ends where the next one does not. */
  lemma RunEnds(before: string, run: string, after: string, p: char -> bool)
    requires All(run, p) && (after == "" || !p(after[0]))
    ensures KeptStart(before + run + after, |before|, p) == |before| + |run|
  {
    var s := before + run + after;
    assert forall i :: |before| <= i < |before| + |run| ==> s[i] == run[i - |before|];
    assert after != "" ==> s[|before| + |run|] == after[0];
  }

  /** A rendered opening line has the length and info string it was rendered from. */
  lemma OpeningLine(indent: string, ticks: string, info: string)
    requires All(indent, PythonWhite) && All(ticks, IsTick) && ticks != ""
    requires info == "" || info[0] != '`'
    ensures Ticks(indent + ticks + info) == |ticks| && Info(indent + ticks + info) == info
  {
    var line := indent + ticks + info;
    RunEnds("", indent, ticks + info, PythonWhite);
    assert "" + indent + (ticks + info) == line;
    RunEnds(indent, ticks, info, IsTick);
  }

  // ----- directives

  /** The regular expressions over one line, and case folding. */
  datatype Markup = Markup(directive: string -> Option<string>, reason: string -> Option<string>,
                           kind: string -> Option<string>, lower: string -> string)

  datatype Fault = MissingReason | UnknownDirective(verb: string)

  datatype Directive = Directive(skip: bool, reason: Option<string>, error: Option<Fault>, kind: Option<string>)

  const NO_DIRECTIVE := Directive(false, None, None, None)

  function ExtractDirective(m: Markup, above: Option<string>): Directive {
    if above.None? || m.directive(above.value).None? then NO_DIRECTIVE
    else
      var body := Trim(m.directive(above.value).value, PythonWhite);
      var verb := FirstWord(body);
      if verb == "skip" then
        if m.reason(body).None? || Blank(m.reason(body).value) then Directive(true, None, Some(MissingReason), None)
        else Directive(true, Some(Trim(m.reason(body).value, PythonWhite)), None, None)
      else if m.kind(body).Some? then Directive(false, None, None, m.kind(body))
      else Directive(false, None, Some(UnknownDirective(verb)), None)
  }

  predicate IsSkip(m: Markup, line: string) {
    m.directive(line).Some? && FirstWord(Trim(m.directive(line).value, PythonWhite)) == "skip"
  }

  /** A skip always comes with a reason or with an error, never both; only a directive that is no skip forces a kind. */
  lemma SkipNeedsReason(m: Markup, above: Option<string>)
    ensures var d := ExtractDirective(m, above);
            && (d.skip ==> (d.error == Some(MissingReason) <==> d.reason.None?) && d.kind.None?)
            && (d.reason.Some? ==> d.skip && d.error.None? && !Blank(d.reason.value))
            && (d.kind.Some? ==> !d.skip && d.error.None?)
            && (!d.skip && d.error.None? && d.kind.None? <==> above.None? || m.directive(above.value).None?)
  {
    if above.Some? && m.directive(above.value).Some? {
      var reason := m.reason(Trim(m.directive(above.value).value, PythonWhite));
      if reason.Some? {
        var lead, trail := TrimParts(reason.value, PythonWhite);
        var kept := Trim(reason.value, PythonWhite);
        if kept == "" {
          assert reason.value == lead + trail;
        } else {
          assert !PythonWhite(kept[0]);
        }
      }
    }
  }

  /** The nearest non-blank line at the end of `above`. */
  function Nearest(above: seq<string>): Option<string> {
    if above == [] then None
    else if !Blank(above[|above| - 1]) then Some(above[|above| - 1])
    else Nearest(above[..|above| - 1])
  }

  /** Line `j` is the last non-blank one. */
  predicate NearestAt(above: seq<string>, j: nat) {
    && j < |above|
    && !Blank(above[j])
    && forall k :: j < k < |above| ==> Blank(above[k])
  }

  lemma {:induction false} NearestFound(above: seq<string>, j: nat)
    requires NearestAt(above, j)
    ensures Nearest(above) == Some(above[j])
  {
    if j < |above| - 1 {
      NearestFound(above[..|above| - 1], j);
    }
  }

  lemma {:induction false} NearestExists(above: seq<string>) returns (j: nat)
    requires Nearest(above).Some?
    ensures NearestAt(above, j)
  {
    if !Blank(above[|above| - 1]) {
      j := |above| - 1;
    } else {
      j := NearestExists(above[..|above| - 1]);
    }
  }

  // ----- the document

  /** What the parser asks of one line, and what it makes of a block with the lines above it. */
  datatype Grammar<!B> = Grammar(ticks: string -> nat, bare: string -> bool,
                                 block: (seq<string>, string, seq<string>) -> B)

  predicate IsFence<B>(g: Grammar<B>, line: string) { g.ticks(line) >= 3 }

  /** A closing fence for a block opened with `n` backticks. */
  predicate Closes<B>(g: Grammar<B>, line: string, n: nat) {
    IsFence(g, line) && g.ticks(line) >= n && g.bare(line)
  }

  datatype Piece = Prose(line: string) | Fenced(opening: string, body: seq<string>, closing: string)

  /** What follows the pieces: nothing, or a block that the text never closes. */
  datatype Rest = Nothing | Open(opening: string, body: seq<string>)

  predicate Unclosing<B>(g: Grammar<B>, body: seq<string>, n: nat) {
    forall i :: 0 <= i < |body| ==> !Closes(g, body[i], n)
  }

  predicate PieceOk<B>(g: Grammar<B>, p: Piece) {
    match p
    case Prose(line) => !IsFence(g, line)
    case Fenced(opening, body, closing) =>
      IsFence(g, opening) && Unclosing(g, body, g.ticks(opening)) && Closes(g, closing, g.ticks(opening))
  }

  predicate DocumentOk<B>(g: Grammar<B>, pieces: seq<Piece>, rest: Rest) {
    && (forall i :: 0 <= i < |pieces| ==> PieceOk(g, pieces[i]))
    && (rest.Open? ==> IsFence(g, rest.opening) && Unclosing(g, rest.body, g.ticks(rest.opening)))
  }

  function PieceLines(p: Piece): seq<string> {
    match p
    case Prose(line) => [line]
    case Fenced(opening, body, closing) => [opening] + body + [closing]
  }

  function Render(pieces: seq<Piece>, rest: Rest): seq<string> {
    if pieces != [] then PieceLines(pieces[0]) + Render(pieces[1..], rest)
    else if rest.Open? then [rest.opening] + rest.body
    else []
  }

  /** The blocks of a document that starts after the lines `above`. */
  function Blocks<B>(g: Grammar<B>, above: seq<string>, pieces: seq<Piece>, rest: Rest): seq<B>
    decreases |pieces|
  {
    if pieces == [] then
      if rest.Nothing? then [] else [g.block(above, rest.opening, rest.body)]
    else
      var more := Blocks(g, above + PieceLines(pieces[0]), pieces[1..], rest);
      if pieces[0].Prose? then more else [g.block(above, pieces[0].opening, pieces[0].body)] + more
  }

  // ----- the parser

  /** Index of the first line from `i` on that closes a block of `n` backticks, or the number of lines. */
  function BodyEnd<B>(g: Grammar<B>, lines: seq<string>, i: nat, n: nat): (r: nat)
    requires i <= |lines|
    ensures i <= r <= |lines|
    ensures r < |lines| ==> Closes(g, lines[r], n)
    ensures Unclosing(g, lines[i..r], n)
    decreases |lines| - i
  {
    if i == |lines| || Closes(g, lines[i], n) then i
    else
      var r := BodyEnd(g, lines, i + 1, n);
      assert lines[i..r] == [lines[i]] + lines[i + 1..r];
      r
  }

  function Parse<B>(g: Grammar<B>, lines: seq<string>, i: nat): seq<B>
    requires i <= |lines|
    decreases |lines| - i
  {
    if i == |lines| then []
    else if !IsFence(g, lines[i]) then Parse(g, lines, i + 1)
    else
      var e := BodyEnd(g, lines, i + 1, g.ticks(lines[i]));
      [g.block(lines[..i], lines[i], lines[i + 1..e])] + if e < |lines| then Parse(g, lines, e + 1) else []
  }

  lemma {:induction false} BodyEndIs<B>(g: Grammar<B>, lines: seq<string>, i: nat, n: nat, e: nat)
    requires i <= e <= |lines| && Unclosing(g, lines[i..e], n)
    requires e < |lines| ==> Closes(g, lines[e], n)
    ensures BodyEnd(g, lines, i, n) == e
    decreases e - i
  {
    if i < e {
      assert lines[i..e][0] == lines[i];
      assert lines[i..e][1..] == lines[i + 1..e];
      BodyEndIs(g, lines, i + 1, n, e);
    }
  }

  /** Parsing a rendered document gives its blocks, wherever in the text it starts. */
  lemma {:induction false} ParseRendered<B>(g: Grammar<B>, above: seq<string>, pieces: seq<Piece>, rest: Rest)
    requires DocumentOk(g, pieces, rest)
    ensures Parse(g, above + Render(pieces, rest), |above|) == Blocks(g, above, pieces, rest)
    decreases |pieces|
  {
    if pieces == [] {
      ParseRest(g, above, rest);
    } else {
      ParsePiece(g, above, pieces[0], Render(pieces[1..], rest));
      ParseRendered(g, above + PieceLines(pieces[0]), pieces[1..], rest);
    }
  }

  lemma ParseRest<B>(g: Grammar<B>, above: seq<string>, rest: Rest)
    requires DocumentOk(g, [], rest)
    ensures Parse(g, above + Render([], rest), |above|) == Blocks(g, above, [], rest)
  {
    var lines := above + Render([], rest);
    if rest.Open? {
      var i := |above|;
      assert lines[i] == rest.opening && lines[i + 1..|lines|] == rest.body && lines[..i] == above;
      BodyEndIs(g, lines, i + 1, g.ticks(rest.opening), |lines|);
    }
  }

  lemma ParsePiece<B>(g: Grammar<B>, above: seq<string>, p: Piece, more: seq<string>)
    requires PieceOk(g, p)
    ensures var later := Parse(g, (above + PieceLines(p)) + more, |above + PieceLines(p)|);
            Parse(g, above + (PieceLines(p) + more), |above|)
            == if p.Prose? then later else [g.block(above, p.opening, p.body)] + later
  {
    var lines := above + (PieceLines(p) + more);
    Regroup(above, PieceLines(p), more);
    if p.Fenced? {
      PieceParts(above, p, more);
      ParseFenced(g, lines, |above|, p);
    } else {
      ParseProse(g, lines, |above|, p.line);
    }
  }

  lemma Regroup(a: seq<string>, b: seq<string>, c: seq<string>)
    ensures a + (b + c) == (a + b) + c
  {
  }

  lemma ParseProse<B>(g: Grammar<B>, lines: seq<string>, i: nat, line: string)
    requires i < |lines| && lines[i] == line && !IsFence(g, line)
    ensures Parse(g, lines, i) == Parse(g, lines, i + 1)
  {
  }

  lemma ParseFenced<B>(g: Grammar<B>, lines: seq<string>, i: nat, p: Piece)
    requires PieceOk(g, p) && p.Fenced? && i + 1 + |p.body| < |lines|
    requires lines[i] == p.opening && lines[i + 1..i + 1 + |p.body|] == p.body && lines[i + 1 + |p.body|] == p.closing
    ensures Parse(g, lines, i) == [g.block(lines[..i], p.opening, p.body)] + Parse(g, lines, i + 1 + |p.body| + 1)
  {
    BodyEndIs(g, lines, i + 1, g.ticks(p.opening), i + 1 + |p.body|);
  }

  lemma PieceParts(above: seq<string>, p: Piece, more: seq<string>)
    requires p.Fenced?
    ensures var lines, i, e := above + (PieceLines(p) + more), |above|, |above| + 1 + |p.body|;
            && |above + PieceLines(p)| == e + 1 <= |lines|
            && lines[i] == p.opening && lines[i + 1..e] == p.body && lines[..i] == above && lines[e] == p.closing
  {
  }

  /** Every text is the rendering of such a document, so the law above covers all inputs. */
  lemma {:induction false} Decomposition<B>(g: Grammar<B>, lines: seq<string>, i: nat)
    returns (pieces: seq<Piece>, rest: Rest)
    requires i <= |lines|
    ensures DocumentOk(g, pieces, rest) && Render(pieces, rest) == lines[i..]
    decreases |lines| - i
  {
    if i == |lines| {
      return [], Nothing;
    }
    var e := if IsFence(g, lines[i]) then BodyEnd(g, lines, i + 1, g.ticks(lines[i])) else i;
    if e == |lines| {
      return [], Open(lines[i], lines[i + 1..e]);
    }
    var p := if e == i then Prose(lines[i]) else Fenced(lines[i], lines[i + 1..e], lines[e]);
    pieces, rest := Decomposition(g, lines, e + 1);
    PieceThenRest(lines, i, e, p);
    pieces := OnePieceMore(g, p, pieces, rest);
  }

  lemma PieceThenRest(lines: seq<string>, i: nat, e: nat, p: Piece)
    requires i <= e < |lines|
    requires p == if e == i then Prose(lines[i]) else Fenced(lines[i], lines[i + 1..e], lines[e])
    ensures PieceLines(p) + lines[e + 1..] == lines[i..]
  {
  }

  lemma OnePieceMore<B>(g: Grammar<B>, p: Piece, pieces: seq<Piece>, rest: Rest) returns (whole: seq<Piece>)
    requires PieceOk(g, p) && DocumentOk(g, pieces, rest)
    ensures DocumentOk(g, whole, rest) && Render(whole, rest) == PieceLines(p) + Render(pieces, rest)
  {
    whole := [p] + pieces;
    assert whole[1..] == pieces;
  }

  // ----- the extractor

  datatype Block = Block(lang: string, content: string, startLine: nat, directive: Directive)

  function Join(lines: seq<string>): string { JoinWith(lines, "\n") }

  /** The first line ends at the first line break. */
  lemma FirstLine(lines: seq<string>)
    requires NoneHolds(lines, '\n') && lines != []
    ensures IndexOf(Join(lines), '\n') == |lines[0]| && lines[0] <= Join(lines)
  {
    if |lines| == 1 {
      IndexOfAppend(lines[0], "", '\n');
      assert lines[0] + "" == lines[0];
    } else {
      var rest := "\n" + Join(lines[1..]);
      assert Join(lines) == lines[0] + rest;
      IndexOfAppend(lines[0], rest, '\n');
      assert rest[0] == '\n';
    }
  }

  /** The content determines the body, but for a body of no line and one of a single empty line. */
  lemma {:induction false} ContentDeterminesBody(a: seq<string>, b: seq<string>)
    requires NoneHolds(a, '\n') && NoneHolds(b, '\n')
    ensures Join(a) == Join(b) <==> a == b || (|a| <= 1 && |b| <= 1 && Join(a) == Join(b) == "")
    decreases |a|
  {
    if Join(a) == Join(b) && a != [] && b != [] {
      FirstLine(a);
      FirstLine(b);
      assert a[0] == Join(a)[..|a[0]|] && b[0] == Join(b)[..|b[0]|];
      if |a| > 1 && |b| > 1 {
        assert Join(a[1..]) == Join(a)[|a[0]| + 1..] && Join(b[1..]) == Join(b)[|b[0]| + 1..];
        ContentDeterminesBody(a[1..], b[1..]);
        assert a == [a[0]] + a[1..] && b == [b[0]] + b[1..];
      }
    }
  }

  /** The language that an opening line names, if it names one. */
  function Language(m: Markup, opening: string): string {
    var word := FirstWord(Info(opening));
    if word == "" then "" else m.lower(word)
  }

  /** The block opened by the line after `above`. */
  function BlockAfter(m: Markup, above: seq<string>, opening: string, body: seq<string>): Block {
    Block(Language(m, opening), Join(body), |above| + 1, ExtractDirective(m, Nearest(above)))
  }

  function Markdown(m: Markup): Grammar<Block> {
    Grammar(Ticks, Bare, (above, opening, body) => BlockAfter(m, above, opening, body))
  }

  /** A block is skipped exactly when the nearest non-blank line above it is a skip directive. */
  lemma SkippedIff(m: Markup, above: seq<string>, opening: string, body: seq<string>)
    ensures Markdown(m).block(above, opening, body).directive.skip
            <==> exists j: nat :: NearestAt(above, j) && IsSkip(m, above[j])
  {
    if Nearest(above).Some? {
      var j := NearestExists(above);
      NearestFound(above, j);
    }
    forall j: nat | NearestAt(above, j)
      ensures Nearest(above) == Some(above[j])
    {
      NearestFound(above, j);
    }
  }

  method NearestAbove(lines: seq<string>, start: nat) returns (above: Option<string>)
    requires start <= |lines|
    ensures above == Nearest(lines[..start])
  {
    var j := start - 1;
    while j >= 0
      invariant -1 <= j < start
      invariant Nearest(lines[..j + 1]) == Nearest(lines[..start])
    {
      assert lines[..j + 1][..j] == lines[..j];
      if !Blank(lines[j]) {
        return Some(lines[j]);
      }
      j := j - 1;
    }
    above := None;
  }

  method CollectBody<B>(g: Grammar<B>, lines: seq<string>, start: nat, n: nat)
    returns (body: seq<string>, end: nat, closed: bool)
    requires start <= |lines|
    ensures end == BodyEnd(g, lines, start, n) && body == lines[start..end] && closed == (end < |lines|)
  {
    body, end, closed := [], start, false;
    while end < |lines|
      invariant start <= end <= |lines| && !closed && body == lines[start..end]
      invariant BodyEnd(g, lines, start, n) == BodyEnd(g, lines, end, n)
    {
      if Closes(g, lines[end], n) {
        closed := true;
        break;
      }
      body, end := body + [lines[end]], end + 1;
    }
  }

  ghost predicate Makes(g: Grammar<Block>, m: Markup) {
    forall above, opening, body :: g.block(above, opening, body) == BlockAfter(m, above, opening, body)
  }

  method ReadBlock(g: Grammar<Block>, m: Markup, lines: seq<string>, i: nat)
    returns (block: Block, end: nat, closed: bool)
    requires Makes(g, m) && i < |lines|
    ensures end == BodyEnd(g, lines, i + 1, g.ticks(lines[i])) && closed == (end < |lines|)
    ensures block == g.block(lines[..i], lines[i], lines[i + 1..end])
  {
    var above := NearestAbove(lines, i);
    var directive := ExtractDirective(m, above);
    var body;
    body, end, closed := CollectBody(g, lines, i + 1, g.ticks(lines[i]));
    block := Block(Language(m, lines[i]), Join(body), i + 1, directive);
    assert |lines[..i]| == i;
  }

  lemma ParseAtFence<B>(g: Grammar<B>, lines: seq<string>, i: nat, end: nat, blocks: seq<B>, block: B)
    requires i < |lines| && IsFence(g, lines[i]) && end == BodyEnd(g, lines, i + 1, g.ticks(lines[i]))
    requires block == g.block(lines[..i], lines[i], lines[i + 1..end])
    ensures blocks + Parse(g, lines, i)
            == (blocks + [block]) + Parse(g, lines, if end < |lines| then end + 1 else |lines|)
  {
  }

  method ParseLines(g: Grammar<Block>, m: Markup, lines: seq<string>) returns (blocks: seq<Block>)
    requires Makes(g, m)
    ensures blocks == Parse(g, lines, 0)
  {
    blocks := [];
    var i := 0;
    while i < |lines|
      invariant i <= |lines|
      invariant blocks + Parse(g, lines, i) == Parse(g, lines, 0)
    {
      if !IsFence(g, lines[i]) {
        i := i + 1;
      } else {
        var block, end, closed := ReadBlock(g, m, lines, i);
        ParseAtFence(g, lines, i, end, blocks, block);
        blocks := blocks + [block];
        i := if closed then end + 1 else |lines|;
      }
    }
  }

  /** Every text is a document, and its lines hold no break, so the content shows the body. */
  lemma TextIsADocument<B>(g: Grammar<B>, text: string) returns (pieces: seq<Piece>, rest: Rest)
    ensures DocumentOk(g, pieces, rest) && Render(pieces, rest) == PythonLines(text)
    ensures NoneHolds(PythonLines(text), '\n')
  {
    pieces, rest := Decomposition(g, PythonLines(text), 0);
    var lines := PythonLines(text);
    assert lines[0..] == lines;
    LinesHoldNoBreak(text);
    forall i | 0 <= i < |lines| ensures '\n' !in lines[i] {
      assert All(lines[i], InLine);
    }
  }
}
