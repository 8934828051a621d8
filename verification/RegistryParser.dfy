/**
 The loader of the protocol registry: a small indentation parser with flow
 collections (scripts/validate-protocol-registry.py).
 */
module RegistryParser {
  import opened Text

  /** A logical line: its indentation and what follows it. */
  datatype Line = Line(indent: nat, content: string)

  /** Parsed values. A number is kept as the text that Python's `int` or `float` accepted. */
  datatype Value =
    | Nothing
    | Truth(b: bool)
    | Number(text: string)
    | Text(s: string)
    | Items(items: seq<Value>)
    | Mapping(entries: map<string, Value>)

  type Entries = map<string, Value>

  function Strip(s: string): (r: string)
    ensures |r| <= |s|
  {
    Trim(s, PythonWhite)
  }

  predicate StartsWith(s: string, p: string) { p <= s }

  predicate Bracketed(s: string, open: char, close: char) {
    |s| >= 1 && s[0] == open && s[|s| - 1] == close
  }

  /** `s[1:-1]`, also for a single character. */
  function Inside(s: string): string
    requires s != ""
  {
    if |s| == 1 then "" else s[1..|s| - 1]
  }

  /** What stands before the first colon, and what after it. */
  function BeforeColon(s: string): string { s[..IndexOf(s, ':')] }

  function AfterColon(s: string): (r: string)
    ensures s != "" ==> |r| < |s|
  {
    var k := IndexOf(s, ':'); if k == |s| then "" else s[k + 1..]
  }

  // ----- scalars and flow collections; `numeric` is what `int` and `float` accept

  function ParseScalar(numeric: string -> bool, text: string): Value {
    var t := Strip(text);
    if Bracketed(t, '"', '"') || Bracketed(t, '\'', '\'') then Text(Inside(t))
    else if t == "true" then Truth(true)
    else if t == "false" then Truth(false)
    else if t == "null" || t == "~" then Nothing
    else if numeric(t) then Number(t)
    else Text(t)
  }

  /** Where the scan of a flow collection stands. */
  datatype Scan = Scan(depth: int, single: bool, double: bool)

  const OUTSIDE := Scan(0, false, false)

  function Step(st: Scan, c: char): Scan {
    if c == '\'' && !st.double then st.(single := !st.single)
    else if c == '"' && !st.single then st.(double := !st.double)
    else if st.single || st.double then st
    else if c == '{' || c == '[' then st.(depth := st.depth + 1)
    else if c == '}' || c == ']' then st.(depth := st.depth - 1)
    else st
  }

  predicate SplitsAt(st: Scan, c: char) { c == ',' && st == OUTSIDE }

  /** The pieces between the commas that split; `piece` is what the current one holds so far. */
  function Pieces(text: string, st: Scan, piece: string): (r: seq<string>)
    ensures forall i :: 0 <= i < |r| ==> |r[i]| <= |piece| + |text|
  {
    if text == "" then [piece]
    else if SplitsAt(st, text[0]) then [piece] + Pieces(text[1..], st, "")
    else Pieces(text[1..], Step(st, text[0]), piece + [text[0]])
  }

  /** The stripped pieces that are not empty. */
  function Stripped(pieces: seq<string>, ghost bound: nat): (r: seq<string>)
    requires forall i :: 0 <= i < |pieces| ==> |pieces[i]| <= bound
    ensures forall i :: 0 <= i < |r| ==> r[i] != "" && |r[i]| <= bound
  {
    if pieces == [] then []
    else if Strip(pieces[0]) == "" then Stripped(pieces[1..], bound)
    else [Strip(pieces[0])] + Stripped(pieces[1..], bound)
  }

  function SplitFlow(text: string): (r: seq<string>)
    ensures forall i :: 0 <= i < |r| ==> r[i] != "" && |r[i]| <= |text|
  {
    Stripped(Pieces(text, OUTSIDE, ""), |text|)
  }

  function ParseValue(numeric: string -> bool, text: string): Value
    decreases |text|, 1
  {
    var t := Strip(text);
    if t == "" then Nothing
    else if Bracketed(t, '{', '}') then Mapping(ParseFlowEntries(numeric, SplitFlow(Strip(Inside(t))), |t| - 1))
    else if Bracketed(t, '[', ']') then Items(ParseFlowItems(numeric, SplitFlow(Strip(Inside(t)))))
    else ParseScalar(numeric, t)
  }

  /** `key: value` pieces of a flow mapping; a later key replaces an earlier one. */
  function ParseFlowEntries(numeric: string -> bool, parts: seq<string>, bound: nat): Entries
    requires forall i :: 0 <= i < |parts| ==> parts[i] != "" && |parts[i]| <= bound
    decreases bound, 2, |parts|
  {
    if parts == [] then map[]
    else
      var last := parts[|parts| - 1];
      ParseFlowEntries(numeric, parts[..|parts| - 1], bound)
      [Strip(BeforeColon(last)) := ParseValue(numeric, Strip(AfterColon(last)))]
  }

  function ParseFlowItems(numeric: string -> bool, parts: seq<string>): seq<Value> {
    seq(|parts|, i requires 0 <= i < |parts| => ParseScalar(numeric, Strip(parts[i])))
  }

  // ----- single lines

  const DASH := "- "
  const ITEMS_KEY := "__items__"

  /** A line of a mapping: a stray list item, a key with its value, or a key alone. */
  datatype Reading = Stray(item: Value) | Pair(key: string, value: Value) | Alone(key: string)

  function ReadLine(numeric: string -> bool, content: string): Reading {
    if StartsWith(content, DASH) then Stray(ParseScalar(numeric, Strip(content[2..])))
    else
      var key, rest := Strip(BeforeColon(content)), Strip(AfterColon(content));
      if rest == "" then Alone(key) else Pair(key, ParseValue(numeric, rest))
  }

  /** A line of a block list: no item, the first pair of a mapping, or a value. */
  datatype ItemReading = NoItem | FirstPair(key: string, value: Value) | Whole(value: Value)

  /** An item with a colon is taken for a mapping, unless it is a flow collection. */
  predicate IsInlinePair(text: string) {
    ':' in text && !StartsWith(text, "{") && !StartsWith(text, "[")
  }

  function ReadItem(numeric: string -> bool, content: string): ItemReading {
    if !StartsWith(content, DASH) then NoItem
    else
      var text := Strip(content[2..]);
      if IsInlinePair(text) then FirstPair(Strip(BeforeColon(text)), ParseValue(numeric, Strip(AfterColon(text))))
      else Whole(ParseValue(numeric, text))
  }

  /** How lines are read. */
  datatype Reader = Reader(line: string -> Reading, item: string -> ItemReading)

  function RegistryReader(numeric: string -> bool): Reader {
    Reader(s => ReadLine(numeric, s), s => ReadItem(numeric, s))
  }

  // ----- blocks

  /** What a parse leaves: its result and the position after it, or nothing if it crashed. */
  datatype Parsed<+T> = Crashed | Done(value: T, pos: nat)

  datatype Added = NoList | Added(entries: Entries)

  /** A list item outside a list is collected under a reserved key, if that holds a list. */
  function AddStray(result: Entries, v: Value): Added {
    if ITEMS_KEY !in result.Keys then Added(result[ITEMS_KEY := Items([v])])
    else match result[ITEMS_KEY]
      case Items(items) => Added(result[ITEMS_KEY := Items(items + [v])])
      case _ => NoList
  }

  /** A mapping at `indent`, continued from `pos` with what was collected so far. */
  function Block(rd: Reader, lines: seq<Line>, pos: nat, indent: nat, result: Entries): (r: Parsed<Entries>)
    requires pos <= |lines|
    ensures r.Done? ==> pos <= r.pos <= |lines|
    decreases |lines| - pos, 1
  {
    if pos == |lines| || lines[pos].indent < indent then Done(result, pos)
    else if lines[pos].indent > indent then Block(rd, lines, pos + 1, indent, result)
    else match rd.line(lines[pos].content)
      case Stray(v) =>
        var added := AddStray(result, v);
        if added.NoList? then Crashed else Block(rd, lines, pos + 1, indent, added.entries)
      case Pair(key, v) => Block(rd, lines, pos + 1, indent, result[key := v])
      case Alone(key) =>
        var v := Child(rd, lines, pos + 1, indent);
        if v.Crashed? then Crashed else Block(rd, lines, v.pos, indent, result[key := v.value])
  }

  /** What stands below a key without a value on its line. */
  function Child(rd: Reader, lines: seq<Line>, pos: nat, indent: nat): (r: Parsed<Value>)
    requires pos <= |lines|
    ensures r.Done? ==> pos <= r.pos <= |lines|
    decreases |lines| - pos, 2
  {
    if pos == |lines| || lines[pos].indent <= indent then Done(Mapping(map[]), pos)
    else if rd.line(lines[pos].content).Stray? then
      var r := BlockList(rd, lines, pos, lines[pos].indent, []);
      if r.Crashed? then Crashed else Done(Items(r.value), r.pos)
    else
      var r := Block(rd, lines, pos, lines[pos].indent, map[]);
      if r.Crashed? then Crashed else Done(Mapping(r.value), r.pos)
  }

  /** The items of a block list, continued from `pos`. */
  function BlockList(rd: Reader, lines: seq<Line>, pos: nat, indent: nat, items: seq<Value>): (r: Parsed<seq<Value>>)
    requires pos <= |lines|
    ensures r.Done? ==> pos <= r.pos <= |lines|
    decreases |lines| - pos, 0
  {
    if pos == |lines| || lines[pos].indent < indent then Done(items, pos)
    else match rd.item(lines[pos].content)
      case NoItem => Done(items, pos)
      case Whole(v) => BlockList(rd, lines, pos + 1, indent, items + [v])
      case FirstPair(key, v) =>
        if pos + 1 < |lines| && lines[pos + 1].indent > indent then
          var more := Block(rd, lines, pos + 1, lines[pos + 1].indent, map[]);
          if more.Crashed? then Crashed
          else BlockList(rd, lines, more.pos, indent, items + [Mapping(map[key := v] + more.value)])
        else BlockList(rd, lines, pos + 1, indent, items + [Mapping(map[key := v])])
  }

  /** Loading a registry: the top-level mapping, or a crash. */
  function Load(numeric: string -> bool, lines: seq<Line>): Parsed<Entries> {
    Block(RegistryReader(numeric), lines, 0, 0, map[])
  }
}
