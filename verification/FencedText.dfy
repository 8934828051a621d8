/**
 Fenced documents as they are written, character by character, and what the extractor makes of them
 (scripts/docs-smoke.py).
 */
module FencedText {
  import opened Json
  import opened Text
  import opened Fences

  /** An opening line: blanks, backticks, and an info string whose first word names the language. */
  datatype Fence = Fence(indent: string, ticks: nat, lead: string, word: string, tail: string)

  datatype Chunk =
    | Plain(line: string)
    | Code(fence: Fence, body: seq<string>, indent: string, ticks: nat, tail: string)

  /** How the text ends: with its last chunk, or in a block that is never closed. */
  datatype Ending = Finished | Unclosed(fence: Fence, body: seq<string>)

  function Backticks(n: nat): string { seq(n, i => '`') }

  function InfoText(f: Fence): string { f.lead + f.word + f.tail }

  function OpeningText(f: Fence): string { f.indent + Backticks(f.ticks) + InfoText(f) }

  function ClosingText(indent: string, ticks: nat, tail: string): string { indent + Backticks(ticks) + tail }

  predicate FenceOk(f: Fence) {
    && f.ticks >= 3
    && Blank(f.indent) && Blank(f.lead) && All(f.word, NotWhite)
    && (f.tail != "" ==> f.word != "" && PythonWhite(f.tail[0]))
    && (f.lead == "" && f.word != "" ==> f.word[0] != '`')
  }

  /** A line of at least three backticks behind blanks, with anything after them. */
  ghost predicate Opens(line: string) {
    exists f :: FenceOk(f) && line == OpeningText(f)
  }

  /** A line of at least `n` backticks with nothing but blanks around them. */
  ghost predicate ClosesAfter(line: string, n: nat) {
    exists indent, ticks: nat, tail ::
      ticks >= n && Blank(indent) && Blank(tail) && line == ClosingText(indent, ticks, tail)
  }

  ghost predicate BodyOk(f: Fence, body: seq<string>) {
    FenceOk(f) && forall i :: 0 <= i < |body| ==> !ClosesAfter(body[i], f.ticks)
  }

  ghost predicate ChunkOk(c: Chunk) {
    match c
    case Plain(line) => !Opens(line)
    case Code(f, body, indent, ticks, tail) => BodyOk(f, body) && ticks >= f.ticks && Blank(indent) && Blank(tail)
  }

  ghost predicate WrittenOk(chunks: seq<Chunk>, ending: Ending) {
    && (forall i :: 0 <= i < |chunks| ==> ChunkOk(chunks[i]))
    && (ending.Unclosed? ==> BodyOk(ending.fence, ending.body))
  }

  function ChunkLines(c: Chunk): seq<string> {
    match c
    case Plain(line) => [line]
    case Code(f, body, indent, ticks, tail) => [OpeningText(f)] + body + [ClosingText(indent, ticks, tail)]
  }

  function Written(chunks: seq<Chunk>, ending: Ending): seq<string> {
    if chunks != [] then ChunkLines(chunks[0]) + Written(chunks[1..], ending)
    else if ending.Unclosed? then [OpeningText(ending.fence)] + ending.body
    else []
  }

  // ----- what is found in such a text

  /** `b` is the block that line `at` opens. */
  ghost predicate IsBlockOf(m: Markup, lines: seq<string>, at: nat, f: Fence, body: seq<string>, b: Block) {
    && at < |lines| && b.startLine == at + 1 && lines[b.startLine - 1] == OpeningText(f)
    && b.lang == (if f.word == "" then "" else m.lower(f.word))
    && b.content == Join(body)
    && b.directive == ExtractDirective(m, Nearest(lines[..at]))
  }

  /** The blocks are those of the fenced chunks, one for each and in order; the chunks start at line `at`. */
  ghost predicate BlocksOf(m: Markup, lines: seq<string>, at: nat, chunks: seq<Chunk>, ending: Ending,
                           blocks: seq<Block>)
    decreases |chunks|
  {
    if chunks == [] then
      match ending
      case Finished => blocks == []
      case Unclosed(f, body) => |blocks| == 1 && IsBlockOf(m, lines, at, f, body, blocks[0])
    else match chunks[0]
      case Plain(_) => BlocksOf(m, lines, at + 1, chunks[1..], ending, blocks)
      case Code(f, body, _, _, _) =>
        && blocks != [] && IsBlockOf(m, lines, at, f, body, blocks[0])
        && BlocksOf(m, lines, at + |body| + 2, chunks[1..], ending, blocks[1..])
  }

  // ----- lines

  lemma LineParts(line: string)
    ensures line == line[..TickStart(line)] + Backticks(Ticks(line)) + Info(line)
    ensures Blank(line[..TickStart(line)]) && (Info(line) == "" || Info(line)[0] != '`')
  {
    assert line[TickStart(line)..TickEnd(line)] == Backticks(Ticks(line));
  }

  lemma InfoParts(info: string) returns (lead: string, tail: string)
    ensures info == lead + FirstWord(info) + tail
    ensures Blank(lead) && All(FirstWord(info), NotWhite)
    ensures tail != "" ==> FirstWord(info) != "" && PythonWhite(tail[0])
  {
    var from := KeptStart(info, 0, PythonWhite);
    var to := KeptStart(info, from, NotWhite);
    lead, tail := info[..from], info[to..];
  }

  /** What a written opening line is read as. */
  lemma OpeningRead(f: Fence)
    requires FenceOk(f)
    ensures Ticks(OpeningText(f)) == f.ticks && FirstWord(Info(OpeningText(f))) == f.word
  {
    assert InfoText(f) == "" || InfoText(f)[0] != '`';
    OpeningLine(f.indent, Backticks(f.ticks), InfoText(f));
    WordRead(f.lead, f.word, f.tail);
  }

  lemma WordRead(lead: string, word: string, tail: string)
    requires Blank(lead) && All(word, NotWhite) && (tail != "" ==> word != "" && PythonWhite(tail[0]))
    ensures FirstWord(lead + word + tail) == word
  {
    RunEnds("", lead, word + tail, PythonWhite);
    assert "" + lead + (word + tail) == lead + word + tail;
    RunEnds(lead, word, tail, NotWhite);
  }

  lemma OpensIff(line: string)
    ensures Opens(line) <==> Ticks(line) >= 3
  {
    if Ticks(line) >= 3 {
      var f := FenceOf(line);
    }
    if f :| FenceOk(f) && line == OpeningText(f) {
      OpeningRead(f);
    }
  }

  lemma FenceOf(line: string) returns (f: Fence)
    requires Ticks(line) >= 3
    ensures FenceOk(f) && line == OpeningText(f) && f.ticks == Ticks(line)
  {
    LineParts(line);
    var lead, tail := InfoParts(Info(line));
    f := Fence(line[..TickStart(line)], Ticks(line), lead, FirstWord(Info(line)), tail);
    assert InfoText(f) == Info(line);
  }

  lemma ClosingRead(indent: string, ticks: nat, tail: string)
    requires Blank(indent) && Blank(tail) && ticks >= 1
    ensures Ticks(ClosingText(indent, ticks, tail)) == ticks && Bare(ClosingText(indent, ticks, tail))
  {
    assert tail != "" ==> PythonWhite(tail[0]) && !PythonWhite('`');
    OpeningLine(indent, Backticks(ticks), tail);
  }

  lemma ClosesIff(line: string, n: nat)
    requires n >= 3
    ensures ClosesAfter(line, n) <==> Ticks(line) >= n && Bare(line)
  {
    if Ticks(line) >= n && Bare(line) {
      LineParts(line);
      assert line == ClosingText(line[..TickStart(line)], Ticks(line), Info(line));
    }
    if indent, ticks: nat, tail :|
        ticks >= n && Blank(indent) && Blank(tail) && line == ClosingText(indent, ticks, tail) {
      ClosingRead(indent, ticks, tail);
    }
  }

  // ----- chunks are pieces

  function AsPiece(c: Chunk): Piece {
    match c
    case Plain(line) => Prose(line)
    case Code(f, body, indent, ticks, tail) => Fenced(OpeningText(f), body, ClosingText(indent, ticks, tail))
  }

  function AsPieces(chunks: seq<Chunk>): seq<Piece> {
    seq(|chunks|, i requires 0 <= i < |chunks| => AsPiece(chunks[i]))
  }

  function AsRest(ending: Ending): Rest {
    match ending
    case Finished => Nothing
    case Unclosed(f, body) => Open(OpeningText(f), body)
  }

  lemma BodyIsUnclosing(m: Markup, f: Fence, body: seq<string>)
    requires BodyOk(f, body)
    ensures IsFence(Markdown(m), OpeningText(f)) && Markdown(m).ticks(OpeningText(f)) == f.ticks
    ensures Unclosing(Markdown(m), body, f.ticks)
  {
    OpeningRead(f);
    forall i | 0 <= i < |body| ensures !Closes(Markdown(m), body[i], f.ticks) {
      ClosesIff(body[i], f.ticks);
    }
  }

  lemma ChunkIsPiece(m: Markup, c: Chunk)
    requires ChunkOk(c)
    ensures PieceOk(Markdown(m), AsPiece(c))
  {
    match c
    case Plain(line) => OpensIff(line);
    case Code(f, body, indent, ticks, tail) =>
      BodyIsUnclosing(m, f, body);
      ClosingRead(indent, ticks, tail);
  }

  lemma WrittenIsDocument(m: Markup, chunks: seq<Chunk>, ending: Ending)
    requires WrittenOk(chunks, ending)
    ensures DocumentOk(Markdown(m), AsPieces(chunks), AsRest(ending))
  {
    forall i | 0 <= i < |chunks| ensures PieceOk(Markdown(m), AsPieces(chunks)[i]) {
      ChunkIsPiece(m, chunks[i]);
    }
    if ending.Unclosed? {
      BodyIsUnclosing(m, ending.fence, ending.body);
    }
  }

  lemma {:induction false} WrittenIsRendered(chunks: seq<Chunk>, ending: Ending)
    ensures Written(chunks, ending) == Render(AsPieces(chunks), AsRest(ending))
    decreases |chunks|
  {
    if chunks != [] {
      WrittenIsRendered(chunks[1..], ending);
      assert AsPieces(chunks)[1..] == AsPieces(chunks[1..]);
    }
  }

  lemma BlockIsOf(m: Markup, lines: seq<string>, at: nat, f: Fence, body: seq<string>)
    requires FenceOk(f) && at < |lines| && lines[at] == OpeningText(f)
    ensures IsBlockOf(m, lines, at, f, body, BlockAfter(m, lines[..at], OpeningText(f), body))
  {
    OpeningRead(f);
  }

  /** The lines of the first chunk, and those that follow. */
  lemma FirstChunkLines(lines: seq<string>, at: nat, chunks: seq<Chunk>, ending: Ending, part: seq<string>)
    returns (next: nat)
    requires chunks != [] && at <= |lines| && lines[at..] == Written(chunks, ending) && part == ChunkLines(chunks[0])
    ensures next == at + |part| <= |lines| && lines[..next] == lines[..at] + part
    ensures lines[next..] == Written(chunks[1..], ending) && lines[at] == part[0]
  {
    var rest := Written(chunks[1..], ending);
    assert lines[at..] == part + rest;
    next := at + |part|;
    assert lines == lines[..at] + (part + rest);
  }

  lemma EndingIsFound(m: Markup, lines: seq<string>, at: nat, ending: Ending)
    requires WrittenOk([], ending) && at <= |lines| && lines[at..] == Written([], ending)
    ensures BlocksOf(m, lines, at, [], ending, Blocks(Markdown(m), lines[..at], [], AsRest(ending)))
  {
    if ending.Unclosed? {
      assert lines[at] == lines[at..][0];
      BlockIsOf(m, lines, at, ending.fence, ending.body);
    }
  }

  lemma CodeIsFound(m: Markup, lines: seq<string>, at: nat, chunks: seq<Chunk>, ending: Ending, block: Block,
                    more: seq<Block>)
    requires chunks != [] && chunks[0].Code?
    requires IsBlockOf(m, lines, at, chunks[0].fence, chunks[0].body, block)
    requires BlocksOf(m, lines, at + |chunks[0].body| + 2, chunks[1..], ending, more)
    ensures BlocksOf(m, lines, at, chunks, ending, [block] + more)
  {
    assert ([block] + more)[1..] == more;
  }

  lemma BlocksCons<B>(g: Grammar<B>, above: seq<string>, pieces: seq<Piece>, rest: Rest, p: Piece, others: seq<Piece>,
                      next: seq<string>)
    requires pieces == [p] + others && next == above + PieceLines(p)
    ensures Blocks(g, above, pieces, rest)
            == (if p.Prose? then [] else [g.block(above, p.opening, p.body)]) + Blocks(g, next, others, rest)
  {
    assert pieces[1..] == others;
  }

  lemma {:induction false} FoundAre(m: Markup, lines: seq<string>, at: nat, chunks: seq<Chunk>, ending: Ending)
    requires WrittenOk(chunks, ending) && at <= |lines| && lines[at..] == Written(chunks, ending)
    ensures BlocksOf(m, lines, at, chunks, ending, Blocks(Markdown(m), lines[..at], AsPieces(chunks), AsRest(ending)))
    decreases |chunks|
  {
    if chunks == [] {
      EndingIsFound(m, lines, at, ending);
    } else {
      var next := FirstChunkLines(lines, at, chunks, ending, ChunkLines(chunks[0]));
      FoundAre(m, lines, next, chunks[1..], ending);
      FirstIsFound(m, lines, at, chunks, ending, next);
    }
  }

  lemma FirstIsFound(m: Markup, lines: seq<string>, at: nat, chunks: seq<Chunk>, ending: Ending, next: nat)
    requires chunks != [] && ChunkOk(chunks[0]) && at < |lines| && next == at + |ChunkLines(chunks[0])| <= |lines|
    requires lines[..next] == lines[..at] + ChunkLines(chunks[0]) && lines[at] == ChunkLines(chunks[0])[0]
    requires BlocksOf(m, lines, next, chunks[1..], ending,
                      Blocks(Markdown(m), lines[..next], AsPieces(chunks[1..]), AsRest(ending)))
    ensures BlocksOf(m, lines, at, chunks, ending, Blocks(Markdown(m), lines[..at], AsPieces(chunks), AsRest(ending)))
  {
    FirstBlocks(m, chunks, AsRest(ending), lines[..at], lines[..next]);
    AddFirst(m, lines, at, chunks, ending, next,
             Blocks(Markdown(m), lines[..next], AsPieces(chunks[1..]), AsRest(ending)));
  }

  lemma FirstBlocks(m: Markup, chunks: seq<Chunk>, rest: Rest, above: seq<string>, next: seq<string>)
    requires chunks != [] && next == above + ChunkLines(chunks[0])
    ensures Blocks(Markdown(m), above, AsPieces(chunks), rest)
            == FoundIn(m, chunks[0], above) + Blocks(Markdown(m), next, AsPieces(chunks[1..]), rest)
  {
    var c, others := chunks[0], AsPieces(chunks[1..]);
    assert AsPieces(chunks) == [AsPiece(c)] + others;
    assert PieceLines(AsPiece(c)) == ChunkLines(c);
    BlocksCons(Markdown(m), above, AsPieces(chunks), rest, AsPiece(c), others, next);
  }

  function FoundIn(m: Markup, c: Chunk, above: seq<string>): seq<Block> {
    if c.Plain? then [] else [BlockAfter(m, above, OpeningText(c.fence), c.body)]
  }

  lemma AddFirst(m: Markup, lines: seq<string>, at: nat, chunks: seq<Chunk>, ending: Ending, next: nat,
                 more: seq<Block>)
    requires chunks != [] && ChunkOk(chunks[0]) && at < |lines| && next == at + |ChunkLines(chunks[0])|
    requires lines[at] == ChunkLines(chunks[0])[0] && BlocksOf(m, lines, next, chunks[1..], ending, more)
    ensures BlocksOf(m, lines, at, chunks, ending, FoundIn(m, chunks[0], lines[..at]) + more)
  {
    var c := chunks[0];
    if c.Code? {
      AddCode(m, lines, at, chunks, ending, next, more, c);
    } else {
      PlainIsFound(m, lines, at, chunks, ending, more);
      assert FoundIn(m, c, lines[..at]) + more == more;
    }
  }

  lemma AddCode(m: Markup, lines: seq<string>, at: nat, chunks: seq<Chunk>, ending: Ending, next: nat,
                more: seq<Block>, c: Chunk)
    requires c.Code? && ChunkOk(c) && chunks != [] && chunks[0] == c && at < |lines| && next == at + |c.body| + 2
    requires lines[at] == OpeningText(c.fence) && BlocksOf(m, lines, next, chunks[1..], ending, more)
    ensures BlocksOf(m, lines, at, chunks, ending, FoundIn(m, c, lines[..at]) + more)
  {
    var block := BlockAfter(m, lines[..at], OpeningText(c.fence), c.body);
    BlockIsOf(m, lines, at, c.fence, c.body);
    CodeIsFound(m, lines, at, chunks, ending, block, more);
  }

  lemma PlainIsFound(m: Markup, lines: seq<string>, at: nat, chunks: seq<Chunk>, ending: Ending, more: seq<Block>)
    requires chunks != [] && chunks[0].Plain? && BlocksOf(m, lines, at + 1, chunks[1..], ending, more)
    ensures BlocksOf(m, lines, at, chunks, ending, more)
  {
  }

  /**
   The extractor. However the lines of the text are written as prose, fenced blocks and perhaps an open one, there
   is one block for each fence, with the line, the language and the body that were written.
   */
  method ParseFencedBlocks(m: Markup, text: string) returns (blocks: seq<Block>)
    ensures forall chunks, ending :: WrittenOk(chunks, ending) && Written(chunks, ending) == PythonLines(text)
              ==> BlocksOf(m, PythonLines(text), 0, chunks, ending, blocks)
    ensures forall pieces, rest :: DocumentOk(Markdown(m), pieces, rest) && Render(pieces, rest) == PythonLines(text)
              ==> blocks == Blocks(Markdown(m), [], pieces, rest)
  {
    var lines := PythonLines(text);
    blocks := ParseLines(Markdown(m), m, lines);
    forall pieces, rest | DocumentOk(Markdown(m), pieces, rest) && Render(pieces, rest) == lines
      ensures blocks == Blocks(Markdown(m), [], pieces, rest)
    {
      ParseRendered(Markdown(m), [], pieces, rest);
      assert [] + lines == lines;
    }
    forall chunks, ending | WrittenOk(chunks, ending) && Written(chunks, ending) == lines
      ensures BlocksOf(m, lines, 0, chunks, ending, blocks)
    {
      WrittenIsDocument(m, chunks, ending);
      WrittenIsRendered(chunks, ending);
      assert lines[0..] == lines && lines[..0] == [];
      FoundAre(m, lines, 0, chunks, ending);
    }
  }

  // ----- every text is written in this way

  lemma PieceIsChunk(m: Markup, p: Piece) returns (c: Chunk)
    requires PieceOk(Markdown(m), p)
    ensures ChunkOk(c) && ChunkLines(c) == PieceLines(p)
  {
    match p
    case Prose(line) =>
      OpensIff(line);
      c := Plain(line);
    case Fenced(opening, body, closing) =>
      var f := BodyIs(m, opening, body);
      LineParts(closing);
      c := Chunk.Code(f, body, closing[..TickStart(closing)], Ticks(closing), Info(closing));
  }

  lemma BodyIs(m: Markup, opening: string, body: seq<string>) returns (f: Fence)
    requires IsFence(Markdown(m), opening) && Unclosing(Markdown(m), body, Ticks(opening))
    ensures BodyOk(f, body) && OpeningText(f) == opening && f.ticks == Ticks(opening)
  {
    f := FenceOf(opening);
    forall i | 0 <= i < |body| ensures !ClosesAfter(body[i], f.ticks) {
      assert !Closes(Markdown(m), body[i], Ticks(opening));
      ClosesIff(body[i], f.ticks);
    }
  }

  lemma {:induction false} DocumentIsWritten(m: Markup, pieces: seq<Piece>, rest: Rest)
    returns (chunks: seq<Chunk>, ending: Ending)
    requires DocumentOk(Markdown(m), pieces, rest)
    ensures WrittenOk(chunks, ending) && Written(chunks, ending) == Render(pieces, rest)
    decreases |pieces|
  {
    if pieces == [] {
      chunks, ending := [], Finished;
      if rest.Open? {
        var f := BodyIs(m, rest.opening, rest.body);
        ending := Unclosed(f, rest.body);
      }
    } else {
      var c := PieceIsChunk(m, pieces[0]);
      var more;
      more, ending := DocumentIsWritten(m, pieces[1..], rest);
      chunks := [c] + more;
      assert chunks[1..] == more;
    }
  }

  /** Every text is written in this way, so nothing is left undescribed. */
  lemma TextIsWritten(m: Markup, text: string) returns (chunks: seq<Chunk>, ending: Ending)
    ensures WrittenOk(chunks, ending) && Written(chunks, ending) == PythonLines(text)
  {
    var pieces, rest := TextIsADocument(Markdown(m), text);
    chunks, ending := DocumentIsWritten(m, pieces, rest);
  }

  // ----- directives

  /** What a directive says, on its text: blanks, a verb, and more behind it. */
  lemma DirectiveIs(m: Markup, line: string, lead: string, verb: string, more: string, trail: string)
    requires m.directive(line) == Some(lead + (verb + more) + trail)
    requires Blank(lead) && Blank(trail) && verb != "" && All(verb, NotWhite)
    requires more != "" ==> PythonWhite(more[0]) && !PythonWhite(more[|more| - 1])
    ensures var body := verb + more; var d := ExtractDirective(m, Some(line));
            && (verb == "skip" && (m.reason(body).None? || Blank(m.reason(body).value)) ==>
                  d == Directive(true, None, Some(MissingReason), None))
            && (verb == "skip" ==> forall a, reason, b ::
                  m.reason(body) == Some(a + reason + b) && Blank(a) && Blank(b) && reason != ""
                  && !PythonWhite(reason[0]) && !PythonWhite(reason[|reason| - 1]) ==>
                  d == Directive(true, Some(reason), None, None))
            && (verb != "skip" && m.kind(body).Some? ==> d == Directive(false, None, None, m.kind(body)))
            && (verb != "skip" && m.kind(body).None? ==>
                  d == Directive(false, None, Some(UnknownDirective(verb)), None))
  {
    var body := verb + more;
    TrimIs(lead + body + trail, lead, body, trail, PythonWhite);
    WordRead("", verb, more);
    assert "" + verb + more == body;
    forall a, reason, b | m.reason(body) == Some(a + reason + b) && Blank(a) && Blank(b) && reason != ""
                          && !PythonWhite(reason[0]) && !PythonWhite(reason[|reason| - 1])
      ensures Trim(a + reason + b, PythonWhite) == reason && !Blank(a + reason + b)
    {
      TrimIs(a + reason + b, a, reason, b, PythonWhite);
      assert (a + reason + b)[|a|] == reason[0];
    }
  }
}
