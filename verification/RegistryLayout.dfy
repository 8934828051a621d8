/**
 Documents of the registry's YAML subset, their indented layout, and the theorem
 that the loader inverts the layout (scripts/validate-protocol-registry.py).
 */
module RegistryLayout {
  import opened Text
  import opened RegistryParser

  /** A scalar, one constructor for each kind of value and way to write it. */
  datatype Atom =
    | Quoted(s: string)      // "s"
    | Ticked(s: string)      // 's'
    | Flag(b: bool)          // true, false
    | Null(tilde: bool)      // ~, null
    | Numeral(text: string)  // what `int` or `float` accepts
    | Word(text: string)     // anything else

  /** A flow value; a mapping may have blanks inside its braces. */
  datatype Flow = Single(atom: Atom) | FlowList(atoms: seq<Atom>) | FlowMap(blanks: nat, fields: seq<Field>)
  datatype Field = Field(key: string, value: Flow)

  /** What follows a key or a dash on its line: a flow value, text in quotes, or any other text. */
  datatype Rest = Flowed(flow: Flow) | Enclosed(quote: char, s: string) | Words(text: string)

  /** What a key holds: a value on its line, or deeper lines at an offset. */
  datatype Node =
    | Inline(rest: Rest)
    | Listed(offset: nat, elements: seq<Element>)
    | Nested(offset: nat, entries: seq<Entry>)

  datatype Entry = Entry(key: string, node: Node)

  /** An element of a block list: a value, or a mapping whose first pair stands behind the dash. */
  datatype Element = Item(rest: Rest) | Record(key: string, rest: Rest, offset: nat, entries: seq<Entry>)

  // ----- layout

  const QUOTE := "\""
  const TICK := "'"

  function RenderAtom(a: Atom): string {
    match a
    case Quoted(s) => QUOTE + s + QUOTE
    case Ticked(s) => TICK + s + TICK
    case Flag(b) => if b then "true" else "false"
    case Null(tilde) => if tilde then "~" else "null"
    case Numeral(t) => t
    case Word(t) => t
  }

  function Spaces(n: nat): string { seq(n, i => ' ') }

  function Padded(n: nat, s: string): string { Spaces(n) + s + Spaces(n) }

  function Join(parts: seq<string>): string { JoinWith(parts, ", ") }

  function RenderFlow(f: Flow): string {
    match f
    case Single(a) => RenderAtom(a)
    case FlowList(atoms) => "[" + Join(seq(|atoms|, i requires 0 <= i < |atoms| => RenderAtom(atoms[i]))) + "]"
    case FlowMap(blanks, fields) =>
      "{" + Padded(blanks, Join(seq(|fields|, i requires 0 <= i < |fields| =>
        fields[i].key + ": " + RenderFlow(fields[i].value)))) + "}"
  }

  function RenderRest(r: Rest): string {
    match r
    case Flowed(f) => RenderFlow(f)
    case Enclosed(q, s) => [q] + s + [q]
    case Words(t) => t
  }

  /** The four kinds of line in a layout. */
  function ItemText(r: Rest): string { DASH + RenderRest(r) }

  function RecordText(k: string, r: Rest): string { DASH + (k + ": " + RenderRest(r)) }

  function PairText(k: string, r: Rest): string { k + ": " + RenderRest(r) }

  function AloneText(k: string): string { k + ":" }

  function LayoutElement(el: Element, indent: nat): seq<Line> {
    match el
    case Item(r) => [Line(indent, ItemText(r))]
    case Record(k, r, offset, entries) => [Line(indent, RecordText(k, r))] + Layout(entries, indent + offset)
  }

  function LayoutElements(elements: seq<Element>, indent: nat): seq<Line> {
    if elements == [] then [] else LayoutElement(elements[0], indent) + LayoutElements(elements[1..], indent)
  }

  function LayoutEntry(e: Entry, indent: nat): seq<Line> {
    match e.node
    case Inline(r) => [Line(indent, PairText(e.key, r))]
    case Listed(offset, elements) => [Line(indent, AloneText(e.key))] + LayoutElements(elements, indent + offset)
    case Nested(offset, entries) => [Line(indent, AloneText(e.key))] + Layout(entries, indent + offset)
  }

  function Layout(entries: seq<Entry>, indent: nat): seq<Line> {
    if entries == [] then [] else LayoutEntry(entries[0], indent) + Layout(entries[1..], indent)
  }

  // ----- meaning; a later key replaces an earlier one

  function AtomValue(a: Atom): Value {
    match a
    case Quoted(s) => Value.Text(s)
    case Ticked(s) => Value.Text(s)
    case Flag(b) => Truth(b)
    case Null(_) => Value.Nothing
    case Numeral(t) => Number(t)
    case Word(t) => Value.Text(t)
  }

  function FlowValue(f: Flow): Value {
    match f
    case Single(a) => AtomValue(a)
    case FlowList(atoms) => Items(seq(|atoms|, i requires 0 <= i < |atoms| => AtomValue(atoms[i])))
    case FlowMap(_, fields) => Mapping(FieldValues(fields))
  }

  function FieldValues(fields: seq<Field>): Entries {
    if fields == [] then map[]
    else FieldValues(fields[..|fields| - 1])
         [fields[|fields| - 1].key := FlowValue(fields[|fields| - 1].value)]
  }

  function RestValue(r: Rest): Value {
    match r
    case Flowed(f) => FlowValue(f)
    case Enclosed(_, s) => Value.Text(s)
    case Words(t) => Value.Text(t)
  }

  function NodeValue(n: Node): Value {
    match n
    case Inline(r) => RestValue(r)
    case Listed(_, elements) => Items(ElementValues(elements))
    case Nested(_, entries) => Mapping(Assign(map[], entries))
  }

  function ElementValue(el: Element): Value {
    match el
    case Item(r) => RestValue(r)
    case Record(k, r, _, entries) => Mapping(map[k := RestValue(r)] + Assign(map[], entries))
  }

  function ElementValues(elements: seq<Element>): seq<Value> {
    if elements == [] then [] else [ElementValue(elements[0])] + ElementValues(elements[1..])
  }

  function Assign(result: Entries, entries: seq<Entry>): Entries
    decreases entries
  {
    if entries == [] then result
    else Assign(result[entries[0].key := NodeValue(entries[0].node)], entries[1..])
  }

  // ----- the supported subset

  /** Where the loader sees a comment. */
  predicate IsHash(st: Scan, c: char) { c == '#' && !st.single && !st.double }

  /** The state after scanning `s`. */
  function Scanned(st: Scan, s: string): Scan
    decreases |s|
  {
    if s == "" then st else Scanned(Step(st, s[0]), s[1..])
  }

  /** No comment starts in `s`. */
  predicate Clean(st: Scan, s: string)
    decreases |s|
  {
    s == "" || (!IsHash(st, s[0]) && Clean(Step(st, s[0]), s[1..]))
  }

  /** A character with no meaning to the scanner. */
  predicate Safe(c: char) {
    c != ',' && c != '{' && c != '}' && c != '[' && c != ']' && c != '"' && c != '\'' && c != '#'
  }

  predicate SafeText(s: string) { forall i :: 0 <= i < |s| ==> Safe(s[i]) }

  /** Text that stripping leaves alone. */
  predicate Tight(s: string) { s != "" && !PythonWhite(s[0]) && !PythonWhite(s[|s| - 1]) }

  /** Not a word that stands for another value. */
  predicate Unreserved(numeric: string -> bool, t: string) {
    t != "true" && t != "false" && t != "null" && t != "~" && !numeric(t)
  }

  predicate AtomOk(numeric: string -> bool, a: Atom) {
    match a
    case Quoted(s) => '"' !in s
    case Ticked(s) => '\'' !in s
    case Flag(_) => true
    case Null(_) => true
    case Numeral(t) => Tight(t) && SafeText(t) && numeric(t) && t !in {"true", "false", "null", "~"}
    case Word(t) => Tight(t) && SafeText(t) && Unreserved(numeric, t)
  }

  predicate KeyOk(k: string) { Tight(k) && SafeText(k) && ':' !in k && !StartsWith(k, DASH) }

  predicate FlowOk(numeric: string -> bool, f: Flow) {
    match f
    case Single(a) => AtomOk(numeric, a)
    case FlowList(atoms) => forall i :: 0 <= i < |atoms| ==> AtomOk(numeric, atoms[i])
    case FlowMap(_, fields) =>
      forall i :: 0 <= i < |fields| ==> KeyOk(fields[i].key) && FlowOk(numeric, fields[i].value)
  }

  /** The text starts with one of these and ends with the other. */
  predicate Between(t: string, open: char, close: char) { t != "" && t[0] == open && t[|t| - 1] == close }

  /**
   Any text that is not taken for a flow collection, quoted text or another value, or cut short by a comment;
   quotes in it may even stay open.
   */
  predicate WordsOk(numeric: string -> bool, t: string) {
    && Tight(t) && Clean(OUTSIDE, t) && Unreserved(numeric, t)
    && !Between(t, '{', '}') && !Between(t, '[', ']') && !Between(t, '"', '"') && !Between(t, '\'', '\'')
  }

  predicate RestOk(numeric: string -> bool, r: Rest) {
    match r
    case Flowed(f) => FlowOk(numeric, f)
    case Enclosed(q, s) => (q == '"' || q == '\'') && Clean(OUTSIDE, [q] + s + [q])
    case Words(t) => WordsOk(numeric, t)
  }

  /** A value in a block list has no colon, or is a flow collection by its first character. */
  predicate ItemOk(numeric: string -> bool, r: Rest) { RestOk(numeric, r) && NoPair(RenderRest(r)) }

  predicate NoPair(text: string) { ':' !in text || text[0] == '{' || text[0] == '[' }

  predicate EntriesOk(numeric: string -> bool, entries: seq<Entry>) {
    entries == [] || (EntryOk(numeric, entries[0]) && EntriesOk(numeric, entries[1..]))
  }

  predicate EntryOk(numeric: string -> bool, e: Entry) { KeyOk(e.key) && NodeOk(numeric, e.node) }

  predicate NodeOk(numeric: string -> bool, n: Node) {
    match n
    case Inline(r) => RestOk(numeric, r)
    case Listed(offset, elements) => offset > 0 && elements != [] && ElementsOk(numeric, elements)
    case Nested(offset, entries) => offset > 0 && EntriesOk(numeric, entries)
  }

  predicate ElementsOk(numeric: string -> bool, elements: seq<Element>) {
    elements == [] || (ElementOk(numeric, elements[0]) && ElementsOk(numeric, elements[1..]))
  }

  predicate ElementOk(numeric: string -> bool, el: Element) {
    match el
    case Item(r) => ItemOk(numeric, r)
    case Record(k, r, offset, entries) => KeyOk(k) && RestOk(numeric, r) && offset > 0 && EntriesOk(numeric, entries)
  }

  // ----- scanning

  /** Characters at which the scanner would do something: a splitting comma, a comment. */
  predicate Stops(st: Scan, c: char) {
    SplitsAt(st, c) || IsHash(st, c)
  }

  datatype Passage = Stopped | Through(st: Scan)

  /** The state after scanning `s`, if nothing stops the scan. */
  function Pass(st: Scan, s: string): Passage
    decreases |s|
  {
    if s == "" then Through(st) else if Stops(st, s[0]) then Stopped else Pass(Step(st, s[0]), s[1..])
  }

  function At(depth: int): Scan { Scan(depth, false, false) }

  lemma {:induction false} PassAppend(st: Scan, a: string, b: string)
    requires Pass(st, a).Through?
    ensures Pass(st, a + b) == Pass(Pass(st, a).st, b)
    decreases |a|
  {
    if a == "" {
      assert a + b == b;
    } else {
      assert (a + b)[1..] == a[1..] + b;
      PassAppend(Step(st, a[0]), a[1..], b);
    }
  }

  lemma {:induction false} SafeTextPasses(d: int, s: string)
    requires SafeText(s)
    ensures Pass(At(d), s) == Through(At(d))
  {
    if s != "" {
      SafeTextPasses(d, s[1..]);
    }
  }

  lemma {:induction false} QuotedTextPasses(d: int, s: string)
    requires '"' !in s
    ensures Pass(Scan(d, false, true), s) == Through(Scan(d, false, true))
  {
    if s != "" {
      assert s[0] in s;
      QuotedTextPasses(d, s[1..]);
    }
  }

  lemma {:induction false} TickedTextPasses(d: int, s: string)
    requires '\'' !in s
    ensures Pass(Scan(d, true, false), s) == Through(Scan(d, true, false))
  {
    if s != "" {
      assert s[0] in s;
      TickedTextPasses(d, s[1..]);
    }
  }

  lemma OneCharacterPasses(st: Scan, c: char)
    requires !Stops(st, c)
    ensures Pass(st, [c]) == Through(Step(st, c))
  {
    assert [c][1..] == "";
  }

  lemma AtomPasses(numeric: string -> bool, a: Atom, d: int)
    requires AtomOk(numeric, a)
    ensures Pass(At(d), RenderAtom(a)) == Through(At(d))
  {
    match a
    case Flag(_) => SafeTextPasses(d, RenderAtom(a));
    case Null(_) => SafeTextPasses(d, RenderAtom(a));
    case Numeral(t) => SafeTextPasses(d, t);
    case Word(t) => SafeTextPasses(d, t);
    case Ticked(s) =>
      OneCharacterPasses(At(d), '\'');
      TickedTextPasses(d, s);
      OneCharacterPasses(Scan(d, true, false), '\'');
      PassAppend(At(d), TICK, s);
      PassAppend(At(d), TICK + s, TICK);
    case Quoted(s) =>
      OneCharacterPasses(At(d), '"');
      QuotedTextPasses(d, s);
      OneCharacterPasses(Scan(d, false, true), '"');
      PassAppend(At(d), QUOTE, s);
      PassAppend(At(d), QUOTE + s, QUOTE);
  }

  /** Inside a bracket, joined parts pass if each does. */
  lemma {:induction false} JoinPasses(parts: seq<string>, d: int)
    requires d > 0 && forall i :: 0 <= i < |parts| ==> Pass(At(d), parts[i]) == Through(At(d))
    ensures Pass(At(d), Join(parts)) == Through(At(d))
  {
    if |parts| > 1 {
      JoinPasses(parts[1..], d);
      OneCharacterPasses(At(d), ',');
      OneCharacterPasses(At(d), ' ');
      PassAppend(At(d), ",", " ");
      assert "," + " " == ", ";
      PassAppend(At(d), parts[0], ", ");
      PassAppend(At(d), parts[0] + ", ", Join(parts[1..]));
    }
  }

  lemma BracketPasses(open: char, inner: string, close: char, d: int)
    requires (open == '{' && close == '}') || (open == '[' && close == ']')
    requires Pass(At(d + 1), inner) == Through(At(d + 1))
    ensures Pass(At(d), [open] + inner + [close]) == Through(At(d))
  {
    OneCharacterPasses(At(d), open);
    OneCharacterPasses(At(d + 1), close);
    PassAppend(At(d), [open], inner);
    PassAppend(At(d), [open] + inner, [close]);
  }

  function AtomTexts(atoms: seq<Atom>): seq<string> {
    seq(|atoms|, i requires 0 <= i < |atoms| => RenderAtom(atoms[i]))
  }

  function FieldTexts(fields: seq<Field>): seq<string> {
    seq(|fields|, i requires 0 <= i < |fields| => fields[i].key + ": " + RenderFlow(fields[i].value))
  }

  lemma FieldPasses(k: string, text: string, d: int)
    requires KeyOk(k) && Pass(At(d), text) == Through(At(d))
    ensures Pass(At(d), k + ": " + text) == Through(At(d))
  {
    SafeTextPasses(d, k + ": ");
    PassAppend(At(d), k + ": ", text);
  }

  lemma PaddedPasses(n: nat, text: string, d: int)
    requires Pass(At(d), text) == Through(At(d))
    ensures Pass(At(d), Padded(n, text)) == Through(At(d))
  {
    SafeTextPasses(d, Spaces(n));
    PassAppend(At(d), Spaces(n), text);
    PassAppend(At(d), Spaces(n) + text, Spaces(n));
  }

  /** A rendered flow value passes at every depth. */
  lemma {:induction false} FlowPasses(numeric: string -> bool, f: Flow, d: int)
    requires FlowOk(numeric, f) && d >= 0
    ensures Pass(At(d), RenderFlow(f)) == Through(At(d))
    decreases f
  {
    match f
    case Single(a) => AtomPasses(numeric, a, d);
    case FlowList(atoms) =>
      forall i | 0 <= i < |atoms| ensures Pass(At(d + 1), AtomTexts(atoms)[i]) == Through(At(d + 1)) {
        AtomPasses(numeric, atoms[i], d + 1);
      }
      JoinPasses(AtomTexts(atoms), d + 1);
      BracketPasses('[', Join(AtomTexts(atoms)), ']', d);
    case FlowMap(blanks, fields) =>
      forall i | 0 <= i < |fields| ensures Pass(At(d + 1), FieldTexts(fields)[i]) == Through(At(d + 1)) {
        FlowPasses(numeric, fields[i].value, d + 1);
        FieldPasses(fields[i].key, RenderFlow(fields[i].value), d + 1);
      }
      JoinPasses(FieldTexts(fields), d + 1);
      PaddedPasses(blanks, Join(FieldTexts(fields)), d + 1);
      BracketPasses('{', Padded(blanks, Join(FieldTexts(fields))), '}', d);
  }

  // ----- splitting inverts joining

  lemma TightIsStripped(s: string)
    requires Tight(s)
    ensures Strip(s) == s && Strip(" " + s) == s
  {
    assert s == "" + s + "" && " " + s == " " + s + "";
    TrimIs(s, "", s, "", PythonWhite);
    TrimIs(" " + s, " ", s, "", PythonWhite);
  }

  lemma {:induction false} PiecesPass(s: string, rest: string, st: Scan, piece: string)
    requires Pass(st, s).Through?
    ensures Pieces(s + rest, st, piece) == Pieces(rest, Pass(st, s).st, piece + s)
    decreases |s|
  {
    if s == "" {
      assert s + rest == rest && piece + s == piece;
    } else {
      assert (s + rest)[1..] == s[1..] + rest;
      assert piece + s == piece + [s[0]] + s[1..];
      PiecesPass(s[1..], rest, Step(st, s[0]), piece + [s[0]]);
    }
  }

  /** A part that can stand in a flow collection. */
  predicate Part(s: string) { Tight(s) && Pass(OUTSIDE, s) == Through(OUTSIDE) }

  lemma LastPiece(s: string, lead: string, bound: nat)
    requires Part(s) && (lead == "" || lead == " ") && |lead| + |s| <= bound
    ensures Stripped(Pieces(s, OUTSIDE, lead), bound) == [s]
  {
    PiecesPass(s, "", OUTSIDE, lead);
    assert s + "" == s;
    StripFirst(lead, s, [], bound);
    assert [lead + s] + [] == [lead + s] && [s] + [] == [s];
  }

  lemma FirstPiece(s: string, rest: string, lead: string)
    requires Part(s)
    ensures Pieces(s + ", " + rest, OUTSIDE, lead) == [lead + s] + Pieces(rest, OUTSIDE, " ")
  {
    assert s + ", " + rest == s + (", " + rest);
    PiecesPass(s, ", " + rest, OUTSIDE, lead);
    assert (", " + rest)[1..] == " " + rest && (" " + rest)[1..] == rest;
    assert Pieces(", " + rest, OUTSIDE, lead + s) == [lead + s] + Pieces(" " + rest, OUTSIDE, "");
    assert Pieces(" " + rest, OUTSIDE, "") == Pieces(rest, OUTSIDE, "" + " ");
    assert "" + " " == " ";
  }

  lemma {:induction false} SplitJoinFrom(parts: seq<string>, lead: string, bound: nat)
    requires parts != [] && forall i :: 0 <= i < |parts| ==> Part(parts[i])
    requires (lead == "" || lead == " ") && |lead| + |Join(parts)| <= bound
    ensures Stripped(Pieces(Join(parts), OUTSIDE, lead), bound) == parts
  {
    if |parts| == 1 {
      LastPiece(parts[0], lead, bound);
    } else {
      var rest := Join(parts[1..]);
      FirstPiece(parts[0], rest, lead);
      SplitJoinFrom(parts[1..], " ", bound);
      StripFirst(lead, parts[0], Pieces(rest, OUTSIDE, " "), bound);
      assert parts == [parts[0]] + parts[1..];
    }
  }

  lemma StripFirst(lead: string, part: string, rest: seq<string>, bound: nat)
    requires (lead == "" || lead == " ") && Tight(part)
    requires |lead + part| <= bound && forall i :: 0 <= i < |rest| ==> |rest[i]| <= bound
    ensures Stripped([lead + part] + rest, bound) == [part] + Stripped(rest, bound)
  {
    TightIsStripped(part);
    assert lead == "" ==> lead + part == part;
    var all := [lead + part] + rest;
    assert all[1..] == rest;
  }

  lemma SplitJoin(parts: seq<string>)
    requires parts != [] && forall i :: 0 <= i < |parts| ==> Part(parts[i])
    ensures SplitFlow(Join(parts)) == parts
  {
    SplitJoinFrom(parts, "", |Join(parts)|);
  }

  lemma {:induction false} JoinIsTight(parts: seq<string>)
    requires parts != [] && forall i :: 0 <= i < |parts| ==> Tight(parts[i])
    ensures Tight(Join(parts))
  {
    if |parts| > 1 {
      JoinIsTight(parts[1..]);
    }
  }

  // ----- reading a flow value back

  lemma AtomIsTight(numeric: string -> bool, a: Atom)
    requires AtomOk(numeric, a)
    ensures Tight(RenderAtom(a))
  {}

  lemma FlowIsTight(numeric: string -> bool, f: Flow)
    requires FlowOk(numeric, f)
    ensures Tight(RenderFlow(f))
  {
    match f
    case Single(a) => AtomIsTight(numeric, a);
    case _ =>
  }

  lemma AtomReadBack(numeric: string -> bool, a: Atom)
    requires AtomOk(numeric, a)
    ensures ParseScalar(numeric, RenderAtom(a)) == AtomValue(a)
  {
    AtomIsTight(numeric, a);
    TightIsStripped(RenderAtom(a));
    match a
    case Quoted(s) => assert Inside(RenderAtom(a)) == s;
    case Ticked(s) => assert Inside(RenderAtom(a)) == s;
    case Numeral(t) => assert Safe(t[0]);
    case Word(t) => assert Safe(t[0]);
    case _ =>
  }

  lemma AtomIsPart(numeric: string -> bool, a: Atom)
    requires AtomOk(numeric, a)
    ensures Part(RenderAtom(a))
  {
    AtomIsTight(numeric, a);
    AtomPasses(numeric, a, 0);
  }

  lemma FieldIsPart(numeric: string -> bool, field: Field)
    requires KeyOk(field.key) && FlowOk(numeric, field.value)
    ensures Part(field.key + ": " + RenderFlow(field.value))
  {
    FlowIsTight(numeric, field.value);
    FlowPasses(numeric, field.value, 0);
    FieldPasses(field.key, RenderFlow(field.value), 0);
  }

  lemma NothingSplits(s: string)
    requires s == ""
    ensures SplitFlow(Strip(s)) == []
  {
    var pieces := Pieces(s, OUTSIDE, "");
    assert Strip(s) == s == "";
    assert pieces == [s] && pieces[1..] == [];
    assert Stripped(pieces, |s|) == Stripped(pieces[1..], |s|);
  }

  lemma StrippedJoinSplits(parts: seq<string>)
    requires forall i :: 0 <= i < |parts| ==> Part(parts[i])
    ensures SplitFlow(Strip(Join(parts))) == parts
  {
    if parts == [] {
      NothingSplits(Join(parts));
    } else {
      JoinIsTight(parts);
      TightIsStripped(Join(parts));
      SplitJoin(parts);
    }
  }

  lemma InsideBrackets(inner: string, open: char, close: char)
    requires !PythonWhite(open) && !PythonWhite(close)
    ensures var t := [open] + inner + [close]; Strip(t) == t && Inside(t) == inner
  {
    TightIsStripped([open] + inner + [close]);
  }

  lemma KeyAndRest(k: string, rest: string)
    requires KeyOk(k)
    ensures BeforeColon(k + ":" + rest) == k && AfterColon(k + ":" + rest) == rest && Strip(k) == k
  {
    var s := k + ":" + rest;
    assert ':' !in k;
    assert s == k + (":" + rest);
    IndexOfAppend(k, ":" + rest, ':');
    assert s[..|k|] == k && s[|k| + 1..] == rest;
    TightIsStripped(k);
  }

  lemma KeyAndValue(k: string, text: string)
    requires KeyOk(k) && Tight(text)
    ensures var s := k + ": " + text;
            Strip(BeforeColon(s)) == k && Strip(AfterColon(s)) == text
  {
    assert k + ": " + text == k + ":" + (" " + text);
    KeyAndRest(k, " " + text);
    TightIsStripped(text);
  }

  lemma {:induction false} FlowReadBack(numeric: string -> bool, f: Flow)
    requires FlowOk(numeric, f)
    ensures ParseValue(numeric, RenderFlow(f)) == FlowValue(f)
    decreases f, 1
  {
    match f
    case Single(a) => SingleReadBack(numeric, a);
    case FlowList(atoms) => ListReadBack(numeric, atoms);
    case FlowMap(blanks, fields) => MapReadBack(numeric, blanks, fields);
  }

  lemma {:induction false} MapReadBack(numeric: string -> bool, blanks: nat, fields: seq<Field>)
    requires FlowOk(numeric, FlowMap(blanks, fields))
    ensures ParseValue(numeric, RenderFlow(FlowMap(blanks, fields))) == FlowValue(FlowMap(blanks, fields))
    decreases fields, 1
  {
    MapIsSplit(numeric, blanks, fields);
    FieldsReadBack(numeric, fields, |RenderFlow(FlowMap(blanks, fields))| - 1);
  }

  lemma PaddedJoinSplits(n: nat, parts: seq<string>)
    requires forall i :: 0 <= i < |parts| ==> Part(parts[i])
    ensures SplitFlow(Strip(Padded(n, Join(parts)))) == parts
  {
    if parts != [] {
      JoinIsTight(parts);
    }
    PaddedIsStripped(n, Join(parts));
    StrippedJoinSplits(parts);
  }

  lemma PaddedIsStripped(n: nat, text: string)
    requires text == "" || Tight(text)
    ensures Strip(Padded(n, text)) == Strip(text)
  {
    TrimIs(Padded(n, text), Spaces(n), text, Spaces(n), PythonWhite);
    assert text == "" + text + "";
    TrimIs(text, "", text, "", PythonWhite);
  }

  lemma MapIsSplit(numeric: string -> bool, blanks: nat, fields: seq<Field>)
    requires FlowOk(numeric, FlowMap(blanks, fields))
    ensures var t := RenderFlow(FlowMap(blanks, fields)); var parts := FieldTexts(fields);
            && (forall i :: 0 <= i < |parts| ==> parts[i] != "" && |parts[i]| <= |t| - 1)
            && ParseValue(numeric, t) == Mapping(ParseFlowEntries(numeric, parts, |t| - 1))
  {
    var parts := FieldTexts(fields);
    forall i | 0 <= i < |parts| ensures Part(parts[i]) {
      FieldIsPart(numeric, fields[i]);
    }
    var inner := Padded(blanks, Join(parts));
    var t := "{" + inner + "}";
    assert RenderFlow(FlowMap(blanks, fields)) == t;
    InsideBrackets(inner, '{', '}');
    PaddedJoinSplits(blanks, parts);
    assert Inside(t) == inner && |Strip(Inside(t))| <= |t| - 2;
  }

  lemma SingleReadBack(numeric: string -> bool, a: Atom)
    requires AtomOk(numeric, a)
    ensures ParseValue(numeric, RenderAtom(a)) == AtomValue(a)
  {
    AtomIsTight(numeric, a);
    TightIsStripped(RenderAtom(a));
    AtomReadBack(numeric, a);
    assert RenderAtom(a)[0] != '{' && RenderAtom(a)[0] != '[';
  }

  lemma ItemsReadBack(numeric: string -> bool, atoms: seq<Atom>)
    requires forall i :: 0 <= i < |atoms| ==> AtomOk(numeric, atoms[i])
    ensures Items(ParseFlowItems(numeric, AtomTexts(atoms))) == FlowValue(FlowList(atoms))
  {
    var items := ParseFlowItems(numeric, AtomTexts(atoms));
    forall i | 0 <= i < |atoms| ensures items[i] == AtomValue(atoms[i]) {
      AtomIsTight(numeric, atoms[i]);
      TightIsStripped(RenderAtom(atoms[i]));
      AtomReadBack(numeric, atoms[i]);
    }
    assert items == seq(|atoms|, i requires 0 <= i < |atoms| => AtomValue(atoms[i]));
  }

  lemma ListReadBack(numeric: string -> bool, atoms: seq<Atom>)
    requires forall i :: 0 <= i < |atoms| ==> AtomOk(numeric, atoms[i])
    ensures ParseValue(numeric, RenderFlow(FlowList(atoms))) == FlowValue(FlowList(atoms))
  {
    var parts := AtomTexts(atoms);
    forall i | 0 <= i < |parts| ensures Part(parts[i]) {
      AtomIsPart(numeric, atoms[i]);
    }
    var t := "[" + Join(parts) + "]";
    InsideBrackets(Join(parts), '[', ']');
    StrippedJoinSplits(parts);
    assert RenderFlow(FlowList(atoms)) == t;
    assert ParseValue(numeric, t) == Items(ParseFlowItems(numeric, parts));
    ItemsReadBack(numeric, atoms);
  }

  lemma {:induction false} FieldsReadBack(numeric: string -> bool, fields: seq<Field>, bound: nat)
    requires forall i :: 0 <= i < |fields| ==> KeyOk(fields[i].key) && FlowOk(numeric, fields[i].value)
    requires forall i :: 0 <= i < |fields| ==> FieldTexts(fields)[i] != "" && |FieldTexts(fields)[i]| <= bound
    ensures ParseFlowEntries(numeric, FieldTexts(fields), bound) == FieldValues(fields)
    decreases fields, 0
  {
    if fields != [] {
      var init, last := fields[..|fields| - 1], fields[|fields| - 1];
      assert FieldTexts(fields)[..|fields| - 1] == FieldTexts(init);
      FieldsReadBack(numeric, init, bound);
      FlowIsTight(numeric, last.value);
      KeyAndValue(last.key, RenderFlow(last.value));
      FlowReadBack(numeric, last.value);
    }
  }

  // ----- reading a layout back

  /** The lines from `pos` start with `part`. */
  predicate Holds(lines: seq<Line>, pos: nat, part: seq<Line>) {
    pos + |part| <= |lines| && lines[pos..pos + |part|] == part
  }

  /** Nothing at `indent` or deeper follows. */
  predicate Ends(lines: seq<Line>, pos: nat, indent: nat) {
    pos == |lines| || (pos < |lines| && lines[pos].indent < indent)
  }

  lemma HoldsSplit(lines: seq<Line>, pos: nat, a: seq<Line>, b: seq<Line>)
    requires Holds(lines, pos, a + b)
    ensures Holds(lines, pos, a) && Holds(lines, pos + |a|, b)
  {
    assert lines[pos..pos + |a|] == (a + b)[..|a|];
    assert lines[pos + |a|..pos + |a| + |b|] == (a + b)[|a|..];
  }

  lemma HoldsFirst(lines: seq<Line>, pos: nat, part: seq<Line>)
    requires Holds(lines, pos, part) && part != []
    ensures pos < |lines| && lines[pos] == part[0]
  {
    assert lines[pos..pos + |part|][0] == lines[pos];
  }

  lemma RestIsTight(numeric: string -> bool, r: Rest)
    requires RestOk(numeric, r)
    ensures Tight(RenderRest(r))
  {
    match r
    case Flowed(f) => FlowIsTight(numeric, f);
    case _ =>
  }

  lemma RestReadBack(numeric: string -> bool, r: Rest)
    requires RestOk(numeric, r)
    ensures ParseValue(numeric, RenderRest(r)) == RestValue(r)
  {
    match r
    case Flowed(f) => FlowReadBack(numeric, f);
    case Enclosed(q, s) => InsideBrackets(s, q, q);
    case Words(t) => TightIsStripped(t);
  }

  lemma ItemTextParts(r: string)
    requires Tight(r)
    ensures StartsWith(DASH + r, DASH) && Strip((DASH + r)[2..]) == r
  {
    assert (DASH + r)[2..] == r && (DASH + r)[..2] == DASH;
    TightIsStripped(r);
  }

  /** An element line of a block list is read as a whole value, not mistaken for a mapping. */
  lemma ItemReadBack(numeric: string -> bool, r: Rest)
    requires ItemOk(numeric, r)
    ensures ReadItem(numeric, ItemText(r)) == Whole(RestValue(r)) && ReadLine(numeric, ItemText(r)).Stray?
  {
    RestIsTight(numeric, r);
    RestReadBack(numeric, r);
    ItemTextParts(RenderRest(r));
  }

  lemma PairIsInline(k: string, text: string)
    requires KeyOk(k) && Tight(text)
    ensures Tight(k + ": " + text) && IsInlinePair(k + ": " + text)
  {
    var s := k + ": " + text;
    assert s[0] == k[0] && s[|k|] == ':' && Safe(k[0]);
  }

  /** The first line of a mapping in a block list is read as its first pair. */
  lemma RecordReadBack(numeric: string -> bool, k: string, r: Rest)
    requires KeyOk(k) && RestOk(numeric, r)
    ensures ReadItem(numeric, RecordText(k, r)) == FirstPair(k, RestValue(r))
    ensures ReadLine(numeric, RecordText(k, r)).Stray?
  {
    RestIsTight(numeric, r);
    RestReadBack(numeric, r);
    PairIsInline(k, RenderRest(r));
    ItemTextParts(k + ": " + RenderRest(r));
    KeyAndValue(k, RenderRest(r));
  }

  lemma NotAnItem(k: string, rest: string)
    requires KeyOk(k)
    ensures !StartsWith(k + ":" + rest, DASH)
  {
    var content := k + ":" + rest;
    assert |k| >= 2 ==> content[..2] == k[..2];
    assert |k| == 1 ==> content[1] == ':';
  }

  lemma PairReadBack(numeric: string -> bool, k: string, r: Rest)
    requires KeyOk(k) && RestOk(numeric, r)
    ensures ReadLine(numeric, PairText(k, r)) == Pair(k, RestValue(r))
  {
    assert PairText(k, r) == k + ":" + (" " + RenderRest(r));
    NotAnItem(k, " " + RenderRest(r));
    RestIsTight(numeric, r);
    KeyAndValue(k, RenderRest(r));
    RestReadBack(numeric, r);
  }

  lemma AloneReadBack(numeric: string -> bool, k: string)
    requires KeyOk(k)
    ensures ReadLine(numeric, k + ":") == Alone(k)
  {
    assert k + ":" == k + ":" + "";
    NotAnItem(k, "");
    KeyAndRest(k, "");
  }

  /** What the block parser needs to know about its reader. */
  ghost predicate Reads(numeric: string -> bool, rd: Reader) {
    && (forall k, r {:trigger PairText(k, r)} ::
          KeyOk(k) && RestOk(numeric, r) ==> rd.line(PairText(k, r)) == Pair(k, RestValue(r)))
    && (forall k {:trigger AloneText(k)} :: KeyOk(k) ==> rd.line(AloneText(k)) == Alone(k))
    && (forall r {:trigger ItemText(r)} :: ItemOk(numeric, r) ==>
          rd.item(ItemText(r)) == Whole(RestValue(r)) && rd.line(ItemText(r)).Stray?)
    && (forall k, r {:trigger RecordText(k, r)} :: KeyOk(k) && RestOk(numeric, r) ==>
          rd.item(RecordText(k, r)) == FirstPair(k, RestValue(r)) && rd.line(RecordText(k, r)).Stray?)
  }

  lemma RegistryReaderReads(numeric: string -> bool)
    ensures Reads(numeric, RegistryReader(numeric))
  {
    var rd := RegistryReader(numeric);
    forall k, r | KeyOk(k) && RestOk(numeric, r) ensures rd.line(PairText(k, r)) == Pair(k, RestValue(r)) {
      PairReadBack(numeric, k, r);
    }
    forall k | KeyOk(k) ensures rd.line(AloneText(k)) == Alone(k) {
      AloneReadBack(numeric, k);
    }
    forall r | ItemOk(numeric, r)
      ensures rd.item(ItemText(r)) == Whole(RestValue(r)) && rd.line(ItemText(r)).Stray?
    {
      ItemReadBack(numeric, r);
    }
    forall k, r | KeyOk(k) && RestOk(numeric, r)
      ensures rd.item(RecordText(k, r)) == FirstPair(k, RestValue(r)) && rd.line(RecordText(k, r)).Stray?
    {
      RecordReadBack(numeric, k, r);
    }
  }

  lemma ItemStep(rd: Reader, lines: seq<Line>, pos: nat, indent: nat, v: Value, done: seq<Value>)
    requires pos < |lines| && lines[pos].indent == indent && rd.item(lines[pos].content) == Whole(v)
    ensures BlockList(rd, lines, pos, indent, done) == BlockList(rd, lines, pos + 1, indent, done + [v])
  {}

  /** The first pair of a mapping in a list, over a block that is empty or has been read. */
  lemma RecordStep(rd: Reader, lines: seq<Line>, pos: nat, indent: nat, part: seq<Line>, key: string, v: Value,
                   more: Entries, done: seq<Value>)
    requires pos < |lines| && lines[pos].indent == indent && rd.item(lines[pos].content) == FirstPair(key, v)
    requires Holds(lines, pos + 1, part) && Ends(lines, pos + 1 + |part|, indent + 1)
    requires part == [] ==> more == map[]
    requires part != [] ==> part[0].indent > indent
    requires part != [] ==> Block(rd, lines, pos + 1, part[0].indent, map[]) == Done(more, pos + 1 + |part|)
    ensures BlockList(rd, lines, pos, indent, done)
            == BlockList(rd, lines, pos + 1 + |part|, indent, done + [Mapping(map[key := v] + more)])
  {
    if part == [] {
      assert map[key := v] + more == map[key := v];
    } else {
      HoldsFirst(lines, pos + 1, part);
    }
  }

  lemma PairStep(rd: Reader, lines: seq<Line>, pos: nat, indent: nat, result: Entries, key: string, v: Value)
    requires pos < |lines| && lines[pos].indent == indent && rd.line(lines[pos].content) == Pair(key, v)
    ensures Block(rd, lines, pos, indent, result) == Block(rd, lines, pos + 1, indent, result[key := v])
  {}

  lemma AloneStep(rd: Reader, lines: seq<Line>, pos: nat, indent: nat, result: Entries, key: string, v: Value,
                  next: nat)
    requires pos < |lines| && lines[pos].indent == indent && rd.line(lines[pos].content) == Alone(key)
    requires next <= |lines| && Child(rd, lines, pos + 1, indent) == Done(v, next)
    ensures Block(rd, lines, pos, indent, result) == Block(rd, lines, next, indent, result[key := v])
  {}

  lemma ListedChild(rd: Reader, lines: seq<Line>, pos: nat, indent: nat, values: seq<Value>, next: nat)
    requires pos < |lines| && lines[pos].indent > indent && rd.line(lines[pos].content).Stray?
    requires BlockList(rd, lines, pos, lines[pos].indent, []) == Done(values, next)
    ensures Child(rd, lines, pos, indent) == Done(Items(values), next)
  {}

  lemma NestedChild(rd: Reader, lines: seq<Line>, pos: nat, indent: nat, entries: Entries, next: nat)
    requires pos < |lines| && lines[pos].indent > indent && !rd.line(lines[pos].content).Stray?
    requires Block(rd, lines, pos, lines[pos].indent, map[]) == Done(entries, next)
    ensures Child(rd, lines, pos, indent) == Done(Mapping(entries), next)
  {}

  /** The first line of an entry belongs to a mapping. */
  lemma EntryLine(numeric: string -> bool, rd: Reader, e: Entry, indent: nat)
    requires Reads(numeric, rd) && EntryOk(numeric, e)
    ensures var part := LayoutEntry(e, indent);
            part != [] && part[0].indent == indent && !rd.line(part[0].content).Stray?
  {
    match e.node
    case Inline(r) =>
    case _ => assert LayoutEntry(e, indent)[0].content == AloneText(e.key);
  }

  lemma LayoutStarts(numeric: string -> bool, rd: Reader, entries: seq<Entry>, indent: nat)
    requires Reads(numeric, rd) && EntriesOk(numeric, entries) && entries != []
    ensures Layout(entries, indent) != [] && Layout(entries, indent)[0].indent == indent
    ensures !rd.line(Layout(entries, indent)[0].content).Stray?
  {
    var e := entries[0];
    assert EntryOk(numeric, e);
    assert Layout(entries, indent) == LayoutEntry(e, indent) + Layout(entries[1..], indent);
    EntryLine(numeric, rd, e, indent);
  }

  lemma ElementStarts(numeric: string -> bool, rd: Reader, elements: seq<Element>, indent: nat)
    requires Reads(numeric, rd) && elements != [] && ElementsOk(numeric, elements)
    ensures LayoutElements(elements, indent) != [] && LayoutElements(elements, indent)[0].indent == indent
    ensures rd.line(LayoutElements(elements, indent)[0].content).Stray?
  {
    var el := elements[0];
    assert ElementOk(numeric, el);
    assert LayoutElements(elements, indent) == LayoutElement(el, indent) + LayoutElements(elements[1..], indent);
  }

  /** A key alone on its line, over a list that has been read. */
  lemma ListedEntry(rd: Reader, lines: seq<Line>, pos: nat, indent: nat, key: string, part: seq<Line>,
                    values: seq<Value>, result: Entries)
    requires pos < |lines| && lines[pos].indent == indent && rd.line(lines[pos].content) == Alone(key)
    requires Holds(lines, pos + 1, part) && part != [] && part[0].indent > indent && rd.line(part[0].content).Stray?
    requires BlockList(rd, lines, pos + 1, part[0].indent, []) == Done(values, pos + 1 + |part|)
    ensures Block(rd, lines, pos, indent, result)
            == Block(rd, lines, pos + 1 + |part|, indent, result[key := Items(values)])
  {
    HoldsFirst(lines, pos + 1, part);
    ListedChild(rd, lines, pos + 1, indent, values, pos + 1 + |part|);
    AloneStep(rd, lines, pos, indent, result, key, Items(values), pos + 1 + |part|);
  }

  /** A key alone on its line, over a block that is empty or has been read. */
  lemma NestedEntry(rd: Reader, lines: seq<Line>, pos: nat, indent: nat, key: string, part: seq<Line>,
                    entries: Entries, result: Entries)
    requires pos < |lines| && lines[pos].indent == indent && rd.line(lines[pos].content) == Alone(key)
    requires Holds(lines, pos + 1, part) && Ends(lines, pos + 1 + |part|, indent + 1)
    requires part == [] ==> entries == map[]
    requires part != [] ==> part[0].indent > indent && !rd.line(part[0].content).Stray?
    requires part != [] ==> Block(rd, lines, pos + 1, part[0].indent, map[]) == Done(entries, pos + 1 + |part|)
    ensures Block(rd, lines, pos, indent, result)
            == Block(rd, lines, pos + 1 + |part|, indent, result[key := Mapping(entries)])
  {
    if part != [] {
      HoldsFirst(lines, pos + 1, part);
      NestedChild(rd, lines, pos + 1, indent, entries, pos + 1 + |part|);
    }
    AloneStep(rd, lines, pos, indent, result, key, Mapping(entries), pos + 1 + |part|);
  }

  /** What a reader makes of the first line of an entry. */
  lemma EntryStarts(numeric: string -> bool, rd: Reader, lines: seq<Line>, pos: nat, indent: nat, e: Entry)
    requires Reads(numeric, rd) && EntryOk(numeric, e) && Holds(lines, pos, LayoutEntry(e, indent))
    ensures pos < |lines| && lines[pos].indent == indent
    ensures match e.node
            case Inline(r) => rd.line(lines[pos].content) == Pair(e.key, RestValue(r))
            case _ => rd.line(lines[pos].content) == Alone(e.key)
  {
    HoldsFirst(lines, pos, LayoutEntry(e, indent));
  }

  /** What the loader makes of one entry: its value, and the position after its lines. */
  lemma {:induction false} EntryReadBack(numeric: string -> bool, rd: Reader, lines: seq<Line>, pos: nat, indent: nat,
                                         e: Entry, result: Entries)
    requires Reads(numeric, rd) && EntryOk(numeric, e)
    requires Holds(lines, pos, LayoutEntry(e, indent))
    requires Ends(lines, pos + |LayoutEntry(e, indent)|, indent + 1)
    ensures Block(rd, lines, pos, indent, result)
            == Block(rd, lines, pos + |LayoutEntry(e, indent)|, indent, result[e.key := NodeValue(e.node)])
    decreases e, 3
  {
    match e.node
    case Inline(_) =>
      EntryStarts(numeric, rd, lines, pos, indent, e);
      PairStep(rd, lines, pos, indent, result, e.key, NodeValue(e.node));
    case Listed(_, _) => EntryOverList(numeric, rd, lines, pos, indent, e, result);
    case Nested(_, _) =>
      BlockBelowReadBack(numeric, rd, lines, pos, indent, e);
      EntryOverBlock(numeric, rd, lines, pos, indent, e, result);
  }

  lemma {:induction false} BlockBelowReadBack(numeric: string -> bool, rd: Reader, lines: seq<Line>, pos: nat,
                                              indent: nat, e: Entry)
    requires Reads(numeric, rd) && EntryOk(numeric, e) && e.node.Nested?
    requires Holds(lines, pos, LayoutEntry(e, indent))
    requires Ends(lines, pos + |LayoutEntry(e, indent)|, indent + 1)
    ensures BlockBelow(numeric, rd, lines, pos + 1, indent, e.node.offset, e.node.entries)
    decreases e, 2
  {
    HoldsSplit(lines, pos, [Line(indent, AloneText(e.key))], Layout(e.node.entries, indent + e.node.offset));
    NestedReadBack(numeric, rd, lines, pos + 1, indent, e.node.offset, e.node.entries);
  }

  /** A key alone on its line, over the layout of a list. */
  lemma {:induction false} KeyOverList(numeric: string -> bool, rd: Reader, lines: seq<Line>, pos: nat, indent: nat,
                                       key: string, deeper: nat, elements: seq<Element>, result: Entries, next: nat,
                                       values: seq<Value>)
    requires Reads(numeric, rd) && elements != [] && ElementsOk(numeric, elements) && deeper > indent
    requires pos < |lines| && lines[pos].indent == indent && rd.line(lines[pos].content) == Alone(key)
    requires Holds(lines, pos + 1, LayoutElements(elements, deeper)) && Ends(lines, next, indent + 1)
    requires next == pos + 1 + |LayoutElements(elements, deeper)| && values == ElementValues(elements)
    ensures Block(rd, lines, pos, indent, result) == Block(rd, lines, next, indent, result[key := Items(values)])
    decreases elements, 2
  {
    assert [] + values == values;
    ElementsReadBack(numeric, rd, lines, pos + 1, deeper, elements, [], next, values);
    ElementStarts(numeric, rd, elements, deeper);
    ListedEntry(rd, lines, pos, indent, key, LayoutElements(elements, deeper), values, result);
  }

  lemma {:induction false} EntryOverList(numeric: string -> bool, rd: Reader, lines: seq<Line>, pos: nat, indent: nat,
                                         e: Entry, result: Entries)
    requires Reads(numeric, rd) && EntryOk(numeric, e) && e.node.Listed?
    requires Holds(lines, pos, LayoutEntry(e, indent))
    requires Ends(lines, pos + |LayoutEntry(e, indent)|, indent + 1)
    ensures Block(rd, lines, pos, indent, result)
            == Block(rd, lines, pos + |LayoutEntry(e, indent)|, indent, result[e.key := NodeValue(e.node)])
    decreases e, 2
  {
    var elements, deeper := e.node.elements, indent + e.node.offset;
    EntryStarts(numeric, rd, lines, pos, indent, e);
    HoldsSplit(lines, pos, [Line(indent, AloneText(e.key))], LayoutElements(elements, deeper));
    KeyOverList(numeric, rd, lines, pos, indent, e.key, deeper, elements, result, pos + |LayoutEntry(e, indent)|,
                ElementValues(elements));
  }

  /** What a reader makes of the first line of an element. */
  lemma ElementLine(numeric: string -> bool, rd: Reader, lines: seq<Line>, pos: nat, indent: nat, el: Element)
    requires Reads(numeric, rd) && ElementOk(numeric, el) && Holds(lines, pos, LayoutElement(el, indent))
    ensures pos < |lines| && lines[pos].indent == indent
    ensures match el
            case Item(r) => rd.item(lines[pos].content) == Whole(RestValue(r))
            case Record(k, r, _, _) => rd.item(lines[pos].content) == FirstPair(k, RestValue(r))
  {
    HoldsFirst(lines, pos, LayoutElement(el, indent));
  }

  lemma RecordOverBlock(numeric: string -> bool, rd: Reader, lines: seq<Line>, pos: nat, indent: nat, el: Element,
                        done: seq<Value>)
    requires Reads(numeric, rd) && ElementOk(numeric, el) && el.Record?
    requires Holds(lines, pos, LayoutElement(el, indent))
    requires Ends(lines, pos + |LayoutElement(el, indent)|, indent + 1)
    requires BlockBelow(numeric, rd, lines, pos + 1, indent, el.offset, el.entries)
    ensures BlockList(rd, lines, pos, indent, done)
            == BlockList(rd, lines, pos + |LayoutElement(el, indent)|, indent, done + [ElementValue(el)])
  {
    ElementLine(numeric, rd, lines, pos, indent, el);
    HoldsSplit(lines, pos, [Line(indent, RecordText(el.key, el.rest))], Layout(el.entries, indent + el.offset));
    PairOverBlock(numeric, rd, lines, pos, indent, el.key, RestValue(el.rest), el.offset, el.entries, done,
                  pos + |LayoutElement(el, indent)|);
  }

  /** The first pair of a mapping in a list, over the layout of its other entries. */
  lemma PairOverBlock(numeric: string -> bool, rd: Reader, lines: seq<Line>, pos: nat, indent: nat, key: string,
                      v: Value, offset: nat, entries: seq<Entry>, done: seq<Value>, next: nat)
    requires pos < |lines| && lines[pos].indent == indent && rd.item(lines[pos].content) == FirstPair(key, v)
    requires offset > 0 && next == pos + 1 + |Layout(entries, indent + offset)| && Ends(lines, next, indent + 1)
    requires Holds(lines, pos + 1, Layout(entries, indent + offset))
    requires BlockBelow(numeric, rd, lines, pos + 1, indent, offset, entries)
    ensures BlockList(rd, lines, pos, indent, done)
            == BlockList(rd, lines, next, indent, done + [Mapping(map[key := v] + Assign(map[], entries))])
  {
    RecordStep(rd, lines, pos, indent, Layout(entries, indent + offset), key, v, Assign(map[], entries), done);
  }

  /** What the loader makes of one element of a block list. */
  lemma {:induction false} ElementReadBack(numeric: string -> bool, rd: Reader, lines: seq<Line>, pos: nat, indent: nat,
                                           el: Element, done: seq<Value>)
    requires Reads(numeric, rd) && ElementOk(numeric, el)
    requires Holds(lines, pos, LayoutElement(el, indent))
    requires Ends(lines, pos + |LayoutElement(el, indent)|, indent + 1)
    ensures BlockList(rd, lines, pos, indent, done)
            == BlockList(rd, lines, pos + |LayoutElement(el, indent)|, indent, done + [ElementValue(el)])
    decreases el, 3
  {
    match el
    case Item(r) =>
      ElementLine(numeric, rd, lines, pos, indent, el);
      ItemStep(rd, lines, pos, indent, RestValue(r), done);
    case Record(k, r, offset, entries) =>
      HoldsSplit(lines, pos, [Line(indent, RecordText(k, r))], Layout(entries, indent + offset));
      NestedReadBack(numeric, rd, lines, pos + 1, indent, offset, entries);
      RecordOverBlock(numeric, rd, lines, pos, indent, el, done);
  }

  /** Where the first element of a list ends, and that the others follow there. */
  lemma FirstElementEnds(numeric: string -> bool, rd: Reader, lines: seq<Line>, pos: nat, indent: nat,
                         elements: seq<Element>)
    returns (next: nat)
    requires Reads(numeric, rd) && elements != [] && ElementsOk(numeric, elements)
    requires Holds(lines, pos, LayoutElements(elements, indent))
    requires Ends(lines, pos + |LayoutElements(elements, indent)|, indent)
    ensures next == pos + |LayoutElement(elements[0], indent)| && Ends(lines, next, indent + 1)
    ensures next + |LayoutElements(elements[1..], indent)| == pos + |LayoutElements(elements, indent)|
    ensures Holds(lines, pos, LayoutElement(elements[0], indent))
    ensures Holds(lines, next, LayoutElements(elements[1..], indent))
  {
    var rest := elements[1..];
    if rest != [] {
      ElementStarts(numeric, rd, rest, indent);
    }
    next := FirstPartEnds(lines, pos, indent, LayoutElements(elements, indent), LayoutElement(elements[0], indent),
                          LayoutElements(rest, indent));
  }

  lemma ListAtEnd(rd: Reader, lines: seq<Line>, pos: nat, indent: nat, done: seq<Value>)
    requires Ends(lines, pos, indent)
    ensures BlockList(rd, lines, pos, indent, done) == Done(done, pos)
  {}

  /** The first element of a list is read, and the others follow. */
  lemma {:induction false} FirstElementReadBack(numeric: string -> bool, rd: Reader, lines: seq<Line>, pos: nat,
                                                indent: nat, elements: seq<Element>, done: seq<Value>)
    returns (next: nat, rest: seq<Element>, done': seq<Value>)
    requires Reads(numeric, rd) && elements != [] && ElementsOk(numeric, elements)
    requires Holds(lines, pos, LayoutElements(elements, indent))
    requires Ends(lines, pos + |LayoutElements(elements, indent)|, indent)
    ensures rest == elements[1..] && ElementsOk(numeric, rest) && Holds(lines, next, LayoutElements(rest, indent))
    ensures next + |LayoutElements(rest, indent)| == pos + |LayoutElements(elements, indent)|
    ensures done' + ElementValues(rest) == done + ElementValues(elements)
    ensures BlockList(rd, lines, pos, indent, done) == BlockList(rd, lines, next, indent, done')
    decreases elements, 0
  {
    next := FirstElementEnds(numeric, rd, lines, pos, indent, elements);
    ElementReadBack(numeric, rd, lines, pos, indent, elements[0], done);
    rest, done' := elements[1..], done + [ElementValue(elements[0])];
    ElementValuesCons(elements, done);
  }

  lemma ElementValuesCons(elements: seq<Element>, done: seq<Value>)
    requires elements != []
    ensures done + ElementValues(elements)
            == done + [ElementValue(elements[0])] + ElementValues(elements[1..])
  {}

  /** A block list is read back, and the parser stops at the first shallower line. */
  lemma {:induction false} ElementsReadBack(numeric: string -> bool, rd: Reader, lines: seq<Line>, pos: nat,
                                            indent: nat, elements: seq<Element>, done: seq<Value>, end: nat,
                                            values: seq<Value>)
    requires Reads(numeric, rd) && ElementsOk(numeric, elements)
    requires Holds(lines, pos, LayoutElements(elements, indent)) && Ends(lines, end, indent)
    requires end == pos + |LayoutElements(elements, indent)| && values == done + ElementValues(elements)
    ensures BlockList(rd, lines, pos, indent, done) == Done(values, end)
    decreases elements, 1
  {
    if elements == [] {
      ListAtEnd(rd, lines, pos, indent, done);
      assert values == done;
    } else {
      var next, rest, done' := FirstElementReadBack(numeric, rd, lines, pos, indent, elements, done);
      ElementsReadBack(numeric, rd, lines, next, indent, rest, done', end, values);
    }
  }

  lemma EntryOverBlock(numeric: string -> bool, rd: Reader, lines: seq<Line>, pos: nat, indent: nat, e: Entry,
                       result: Entries)
    requires Reads(numeric, rd) && EntryOk(numeric, e) && e.node.Nested?
    requires Holds(lines, pos, LayoutEntry(e, indent))
    requires Ends(lines, pos + |LayoutEntry(e, indent)|, indent + 1)
    requires BlockBelow(numeric, rd, lines, pos + 1, indent, e.node.offset, e.node.entries)
    ensures Block(rd, lines, pos, indent, result)
            == Block(rd, lines, pos + |LayoutEntry(e, indent)|, indent, result[e.key := NodeValue(e.node)])
  {
    var part := Layout(e.node.entries, indent + e.node.offset);
    EntryStarts(numeric, rd, lines, pos, indent, e);
    HoldsSplit(lines, pos, [Line(indent, AloneText(e.key))], part);
    NestedEntry(rd, lines, pos, indent, e.key, part, Assign(map[], e.node.entries), result);
  }

  /** The block below a key is empty, or starts deeper and is read as its entries. */
  predicate BlockBelow(numeric: string -> bool, rd: Reader, lines: seq<Line>, pos: nat, indent: nat, offset: nat,
                       entries: seq<Entry>)
  {
    var part := Layout(entries, indent + offset);
    if part == [] then Assign(map[], entries) == map[]
    else
      && pos <= |lines|
      && part[0].indent == indent + offset && !rd.line(part[0].content).Stray?
      && Block(rd, lines, pos, indent + offset, map[]) == Done(Assign(map[], entries), pos + |part|)
  }

  /** What the loader makes of the block below a key. */
  lemma {:induction false} NestedReadBack(numeric: string -> bool, rd: Reader, lines: seq<Line>, pos: nat, indent: nat,
                                          offset: nat, entries: seq<Entry>)
    requires Reads(numeric, rd) && EntriesOk(numeric, entries) && offset > 0
    requires Holds(lines, pos, Layout(entries, indent + offset))
    requires Ends(lines, pos + |Layout(entries, indent + offset)|, indent + 1)
    ensures BlockBelow(numeric, rd, lines, pos, indent, offset, entries)
    decreases entries, 2
  {
    if entries != [] {
      LayoutStarts(numeric, rd, entries, indent + offset);
      EntriesReadBack(numeric, rd, lines, pos, indent + offset, entries, map[],
                      pos + |Layout(entries, indent + offset)|, Assign(map[], entries));
    }
  }

  /** The lines of one part end where the next begins, or at the end of the block. */
  lemma PartsEnd(lines: seq<Line>, pos: nat, indent: nat, a: seq<Line>, b: seq<Line>)
    requires Holds(lines, pos, a + b) && Ends(lines, pos + |a + b|, indent)
    requires b != [] ==> b[0].indent == indent
    ensures Holds(lines, pos, a) && Holds(lines, pos + |a|, b) && Ends(lines, pos + |a|, indent + 1)
  {
    HoldsSplit(lines, pos, a, b);
    if b != [] {
      HoldsFirst(lines, pos + |a|, b);
    }
  }

  lemma FirstPartEnds(lines: seq<Line>, pos: nat, indent: nat, all: seq<Line>, first: seq<Line>, rest: seq<Line>)
    returns (next: nat)
    requires Holds(lines, pos, all) && Ends(lines, pos + |all|, indent) && all == first + rest
    requires rest != [] ==> rest[0].indent == indent
    ensures next == pos + |first| && next + |rest| == pos + |all|
    ensures Holds(lines, pos, first) && Holds(lines, next, rest) && Ends(lines, next, indent + 1)
  {
    PartsEnd(lines, pos, indent, first, rest);
    next := pos + |first|;
  }

  /** Where the first entry of a layout ends, and that the others follow there. */
  lemma FirstEntryEnds(numeric: string -> bool, rd: Reader, lines: seq<Line>, pos: nat, indent: nat,
                       entries: seq<Entry>)
    returns (next: nat)
    requires Reads(numeric, rd) && EntriesOk(numeric, entries) && entries != []
    requires Holds(lines, pos, Layout(entries, indent))
    requires Ends(lines, pos + |Layout(entries, indent)|, indent)
    ensures next == pos + |LayoutEntry(entries[0], indent)| && Ends(lines, next, indent + 1)
    ensures next + |Layout(entries[1..], indent)| == pos + |Layout(entries, indent)|
    ensures Holds(lines, pos, LayoutEntry(entries[0], indent)) && Holds(lines, next, Layout(entries[1..], indent))
  {
    var rest := entries[1..];
    if rest != [] {
      LayoutStarts(numeric, rd, rest, indent);
    }
    next := FirstPartEnds(lines, pos, indent, Layout(entries, indent), LayoutEntry(entries[0], indent),
                          Layout(rest, indent));
  }

  /** The first entry of a layout is read, and the others follow. */
  lemma {:induction false} FirstEntryReadBack(numeric: string -> bool, rd: Reader, lines: seq<Line>, pos: nat,
                                              indent: nat, entries: seq<Entry>, result: Entries)
    returns (next: nat, rest: seq<Entry>, result': Entries)
    requires Reads(numeric, rd) && EntriesOk(numeric, entries) && entries != []
    requires Holds(lines, pos, Layout(entries, indent))
    requires Ends(lines, pos + |Layout(entries, indent)|, indent)
    ensures rest == entries[1..] && EntriesOk(numeric, rest) && Holds(lines, next, Layout(rest, indent))
    ensures next + |Layout(rest, indent)| == pos + |Layout(entries, indent)|
    ensures Assign(result', rest) == Assign(result, entries)
    ensures Block(rd, lines, pos, indent, result) == Block(rd, lines, next, indent, result')
    decreases entries, 0
  {
    next := FirstEntryEnds(numeric, rd, lines, pos, indent, entries);
    EntryReadBack(numeric, rd, lines, pos, indent, entries[0], result);
    rest, result' := entries[1..], result[entries[0].key := NodeValue(entries[0].node)];
  }

  lemma BlockAtEnd(rd: Reader, lines: seq<Line>, pos: nat, indent: nat, result: Entries)
    requires Ends(lines, pos, indent)
    ensures Block(rd, lines, pos, indent, result) == Done(result, pos)
  {
  }

  lemma {:induction false} EntriesReadBack(numeric: string -> bool, rd: Reader, lines: seq<Line>, pos: nat, indent: nat,
                                           entries: seq<Entry>, result: Entries, end: nat, value: Entries)
    requires Reads(numeric, rd) && EntriesOk(numeric, entries)
    requires Holds(lines, pos, Layout(entries, indent)) && Ends(lines, end, indent)
    requires end == pos + |Layout(entries, indent)| && value == Assign(result, entries)
    ensures Block(rd, lines, pos, indent, result) == Done(value, end)
    decreases entries, 1
  {
    if entries == [] {
      BlockAtEnd(rd, lines, pos, indent, result);
    } else {
      var next, rest, result' := FirstEntryReadBack(numeric, rd, lines, pos, indent, entries, result);
      EntriesReadBack(numeric, rd, lines, next, indent, rest, result', end, value);
    }
  }

  /** The block parser reads a layout back and stops at the first shallower line. */
  lemma BlockReadBack(numeric: string -> bool, rd: Reader, lines: seq<Line>, pos: nat, indent: nat,
                      entries: seq<Entry>, result: Entries)
    requires Reads(numeric, rd) && EntriesOk(numeric, entries)
    requires Holds(lines, pos, Layout(entries, indent))
    requires Ends(lines, pos + |Layout(entries, indent)|, indent)
    ensures Block(rd, lines, pos, indent, result)
            == Done(Assign(result, entries), pos + |Layout(entries, indent)|)
  {
    EntriesReadBack(numeric, rd, lines, pos, indent, entries, result,
                    pos + |Layout(entries, indent)|, Assign(result, entries));
  }

  /** Loading the layout of a document gives the document. */
  lemma LoaderInvertsLayout(numeric: string -> bool, entries: seq<Entry>)
    requires EntriesOk(numeric, entries)
    ensures Load(numeric, Layout(entries, 0)) == Done(Assign(map[], entries), |Layout(entries, 0)|)
  {
    var lines := Layout(entries, 0);
    assert lines[0..0 + |lines|] == lines;
    RegistryReaderReads(numeric);
    BlockReadBack(numeric, RegistryReader(numeric), lines, 0, 0, entries, map[]);
  }

  /** A value in a block list is read as itself exactly when the loader does not take it for a mapping. */
  lemma ListedValueReadIff(numeric: string -> bool, r: Rest)
    requires RestOk(numeric, r)
    ensures ReadItem(numeric, ItemText(r)) == Whole(RestValue(r)) <==> NoPair(RenderRest(r))
  {
    RestIsTight(numeric, r);
    RestReadBack(numeric, r);
    ItemTextParts(RenderRest(r));
  }

  /** A scalar in a block list is read as that scalar exactly when it holds no colon, quoted or not. */
  lemma ScalarItemReadIff(numeric: string -> bool, a: Atom)
    requires AtomOk(numeric, a)
    ensures ReadItem(numeric, DASH + RenderAtom(a)) == Whole(AtomValue(a)) <==> ':' !in RenderAtom(a)
  {
    ListedValueReadIff(numeric, Flowed(Single(a)));
    AtomIsTight(numeric, a);
    assert RenderAtom(a)[0] != '{' && RenderAtom(a)[0] != '[';
  }

  predicate DistinctKeys(entries: seq<Entry>) {
    forall i, j :: 0 <= i < j < |entries| ==> entries[i].key != entries[j].key
  }

  lemma {:induction false} AssignKeeps(result: Entries, entries: seq<Entry>, key: string)
    requires key in result.Keys && forall i :: 0 <= i < |entries| ==> entries[i].key != key
    ensures key in Assign(result, entries).Keys && Assign(result, entries)[key] == result[key]
    decreases |entries|
  {
    if entries != [] {
      AssignKeeps(result[entries[0].key := NodeValue(entries[0].node)], entries[1..], key);
    }
  }

  function KeysOf(entries: seq<Entry>): set<string> {
    set e | e in entries :: e.key
  }

  lemma KeysOfCons(entries: seq<Entry>)
    requires entries != []
    ensures KeysOf(entries) == {entries[0].key} + KeysOf(entries[1..])
  {
    assert entries == [entries[0]] + entries[1..];
  }

  /** Reading adds exactly the document's keys. */
  lemma {:induction false} AssignKeys(result: Entries, entries: seq<Entry>)
    ensures Assign(result, entries).Keys == result.Keys + KeysOf(entries)
    decreases |entries|
  {
    if entries != [] {
      AssignKeys(result[entries[0].key := NodeValue(entries[0].node)], entries[1..]);
      KeysOfCons(entries);
    }
  }

  /** With distinct keys every entry keeps its own value. */
  lemma {:induction false} AssignIsTheDocument(result: Entries, entries: seq<Entry>, i: nat)
    requires DistinctKeys(entries) && i < |entries|
    ensures entries[i].key in Assign(result, entries).Keys
    ensures Assign(result, entries)[entries[i].key] == NodeValue(entries[i].node)
    decreases |entries|
  {
    var e := entries[0];
    var next := result[e.key := NodeValue(e.node)];
    if i == 0 {
      AssignKeeps(next, entries[1..], e.key);
    } else {
      AssignIsTheDocument(next, entries[1..], i - 1);
    }
  }

  // ----- lines that no layout has

  function StrayLines(atoms: seq<Atom>, indent: nat): seq<Line> {
    seq(|atoms|, i requires 0 <= i < |atoms| => Line(indent, DASH + RenderAtom(atoms[i])))
  }

  function AtomValues(atoms: seq<Atom>): seq<Value> {
    seq(|atoms|, i requires 0 <= i < |atoms| => AtomValue(atoms[i]))
  }

  lemma StrayReadBack(numeric: string -> bool, a: Atom)
    requires AtomOk(numeric, a)
    ensures ReadLine(numeric, DASH + RenderAtom(a)) == Stray(AtomValue(a))
  {
    AtomIsTight(numeric, a);
    ItemTextParts(RenderAtom(a));
    AtomReadBack(numeric, a);
  }

  /** What the reserved key holds so far. */
  predicate Collected(result: Entries, items: seq<Value>) {
    if "__items__" in result.Keys then result["__items__"] == Items(items) else items == []
  }

  lemma StrayIsAdded(result: Entries, items: seq<Value>, v: Value)
    requires Collected(result, items)
    ensures AddStray(result, v) == Added(result["__items__" := Items(items + [v])])
  {
    assert [] + [v] == [v];
  }

  lemma StrayStep(rd: Reader, lines: seq<Line>, pos: nat, indent: nat, result: Entries, items: seq<Value>, v: Value)
    requires pos < |lines| && lines[pos].indent == indent && rd.line(lines[pos].content) == Stray(v)
    requires Collected(result, items)
    ensures Block(rd, lines, pos, indent, result)
            == Block(rd, lines, pos + 1, indent, result["__items__" := Items(items + [v])])
  {
    StrayIsAdded(result, items, v);
  }

  /** Lines read as these stray items. */
  predicate StraysAre(rd: Reader, part: seq<Line>, indent: nat, values: seq<Value>) {
    |part| == |values|
    && forall i :: 0 <= i < |part| ==> part[i].indent == indent && rd.line(part[i].content) == Stray(values[i])
  }

  lemma {:induction false} StraysInOrder(rd: Reader, lines: seq<Line>, pos: nat, indent: nat, part: seq<Line>,
                                         values: seq<Value>, result: Entries, items: seq<Value>)
    requires Holds(lines, pos, part) && Ends(lines, pos + |part|, indent) && part != []
    requires StraysAre(rd, part, indent, values) && Collected(result, items)
    ensures Block(rd, lines, pos, indent, result)
            == Done(result["__items__" := Items(items + values)], pos + |part|)
    decreases |part|
  {
    var rest, values', items', result' := FirstStray(rd, lines, pos, indent, part, values, result, items);
    if rest == [] {
      BlockAtEnd(rd, lines, pos + 1, indent, result');
    } else {
      StraysInOrder(rd, lines, pos + 1, indent, rest, values', result', items');
    }
  }

  lemma FirstStray(rd: Reader, lines: seq<Line>, pos: nat, indent: nat, part: seq<Line>, values: seq<Value>,
                   result: Entries, items: seq<Value>)
    returns (rest: seq<Line>, values': seq<Value>, items': seq<Value>, result': Entries)
    requires Holds(lines, pos, part) && part != [] && StraysAre(rd, part, indent, values) && Collected(result, items)
    ensures |rest| == |part| - 1 && Holds(lines, pos + 1, rest) && StraysAre(rd, rest, indent, values')
    ensures Collected(result', items') && items' + values' == items + values
    ensures result'["__items__" := Items(items + values)] == result["__items__" := Items(items + values)]
    ensures rest == [] ==> result' == result["__items__" := Items(items + values)]
    ensures Block(rd, lines, pos, indent, result) == Block(rd, lines, pos + 1, indent, result')
  {
    HoldsFirst(lines, pos, part);
    StrayStep(rd, lines, pos, indent, result, items, values[0]);
    OtherStrays(rd, part, indent, values, items);
    rest, values', items' := part[1..], values[1..], items + [values[0]];
    result' := result["__items__" := Items(items')];
    assert part == [part[0]] + rest;
    HoldsSplit(lines, pos, [part[0]], rest);
    assert rest == [] ==> items' == items + values;
  }

  lemma OtherStrays(rd: Reader, part: seq<Line>, indent: nat, values: seq<Value>, items: seq<Value>)
    requires part != [] && StraysAre(rd, part, indent, values)
    ensures StraysAre(rd, part[1..], indent, values[1..])
    ensures (items + [values[0]]) + values[1..] == items + values
  {
  }

  /** Items that stand where keys are expected are collected, in order, under a reserved key. */
  lemma StraysAreCollected(numeric: string -> bool, lines: seq<Line>, pos: nat, indent: nat, atoms: seq<Atom>,
                           result: Entries, items: seq<Value>)
    requires forall i :: 0 <= i < |atoms| ==> AtomOk(numeric, atoms[i])
    requires Holds(lines, pos, StrayLines(atoms, indent)) && Ends(lines, pos + |atoms|, indent) && atoms != []
    requires Collected(result, items)
    ensures Block(RegistryReader(numeric), lines, pos, indent, result)
            == Done(result["__items__" := Items(items + AtomValues(atoms))], pos + |atoms|)
  {
    var part := StrayLines(atoms, indent);
    forall i | 0 <= i < |part| ensures ReadLine(numeric, part[i].content) == Stray(AtomValues(atoms)[i]) {
      StrayReadBack(numeric, atoms[i]);
    }
    StraysInOrder(RegistryReader(numeric), lines, pos, indent, part, AtomValues(atoms), result, items);
  }

  /** A stray item crashes the loader exactly when the reserved key holds something else. */
  lemma StrayCrashesIff(numeric: string -> bool, a: Atom, result: Entries)
    requires AtomOk(numeric, a)
    ensures Block(RegistryReader(numeric), [Line(0, DASH + RenderAtom(a))], 0, 0, result).Crashed?
            <==> "__items__" in result.Keys && !result["__items__"].Items?
  {
    var lines := [Line(0, DASH + RenderAtom(a))];
    StrayReadBack(numeric, a);
    var added := AddStray(result, AtomValue(a));
    if added.Added? {
      BlockAtEnd(RegistryReader(numeric), lines, 1, 0, added.entries);
    }
  }

  /** Lines deeper than a mapping, where no key is open, are passed over. */
  lemma {:induction false} DeeperLinesAreSkipped(rd: Reader, lines: seq<Line>, pos: nat, next: nat, indent: nat,
                                                 result: Entries)
    requires pos <= next <= |lines| && forall i :: pos <= i < next ==> lines[i].indent > indent
    ensures Block(rd, lines, pos, indent, result) == Block(rd, lines, next, indent, result)
    decreases next - pos
  {
    if pos < next {
      DeeperLinesAreSkipped(rd, lines, pos + 1, next, indent, result);
    }
  }

  /** A dash deeper than its list is one more item of it. */
  lemma DeeperItemIsRead(numeric: string -> bool, lines: seq<Line>, pos: nat, indent: nat, done: seq<Value>, a: Atom)
    requires pos < |lines| && lines[pos].indent >= indent && lines[pos].content == DASH + RenderAtom(a)
    requires AtomOk(numeric, a) && ':' !in RenderAtom(a)
    ensures BlockList(RegistryReader(numeric), lines, pos, indent, done)
            == BlockList(RegistryReader(numeric), lines, pos + 1, indent, done + [AtomValue(a)])
  {
    ScalarItemReadIff(numeric, a);
  }

  /** A line without a dash ends the list, however deep it is. */
  lemma ListEndsWithoutDash(numeric: string -> bool, lines: seq<Line>, pos: nat, indent: nat, done: seq<Value>)
    requires pos < |lines| && !("- " <= lines[pos].content)
    ensures BlockList(RegistryReader(numeric), lines, pos, indent, done) == Done(done, pos)
  {
  }
}
