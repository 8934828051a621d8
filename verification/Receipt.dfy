/**
 Gate receipts: the typed document, its JSON form, and the shape check
 (scripts/gate-receipt.py).
 */
module Receipt {
  import opened Text
  import opened Sorting
  import opened Json
  import opened Names

  /** JSON reading and canonical printing, SHA-256, and the test for a valid timestamp. */
  datatype Codec = Codec(
    parse: Bytes -> Option<Json>,
    canon: Json -> Option<Bytes>,
    sha: Bytes -> string,
    stamp: string -> bool)

  const NEWLINE: Bytes := [10]

  datatype GateResult = GateResult(gate: string, argv: seq<string>, startedAt: string, endedAt: string, exitCode: int)
  datatype CodeBinding = CodeBinding(path: string, sha256: string)
  datatype LockBinding = LockBinding(path: string, sha256: Option<string>)
  datatype Tool = Tool(name: string, version: string)

  /** `schema` is kept as JSON: 1 and 1.0 are both accepted. */
  datatype Receipt = Receipt(
    schema: Json, candidate: string, base: string, tier: string,
    results: seq<GateResult>, code: seq<CodeBinding>, locks: seq<LockBinding>, tools: seq<Tool>,
    startedAt: string, endedAt: string, digest: string)

  // ----- the JSON form

  function Strs(xs: seq<string>): seq<Json> { seq(|xs|, i requires 0 <= i < |xs| => Str(xs[i])) }

  function EncodeResult(r: GateResult): Json {
    Obj(map[Gate := Str(r.gate), Argv := List(Strs(r.argv)), StartedAt := Str(r.startedAt),
            EndedAt := Str(r.endedAt), ExitCode := Int(r.exitCode)])
  }

  function EncodeCode(b: CodeBinding): Json {
    Obj(map[Path := Str(b.path), Sha256 := Str(b.sha256)])
  }

  function EncodeLock(b: LockBinding): Json {
    Obj(map[Path := Str(b.path), IsPresent := Bool(b.sha256.Some?),
            Sha256 := if b.sha256.Some? then Str(b.sha256.value) else Null])
  }

  function EncodeTool(t: Tool): Json {
    Obj(map[Name := Str(t.name), Version := Str(t.version)])
  }

  function Each<A>(xs: seq<A>, f: A -> Json): seq<Json> { seq(|xs|, i requires 0 <= i < |xs| => f(xs[i])) }

  function EncodeBindings(code: seq<CodeBinding>, locks: seq<LockBinding>): Json {
    Obj(map[Code := List(Each(code, EncodeCode)), Locks := List(Each(locks, EncodeLock))])
  }

  function Unsigned(r: Receipt): map<Key, Json> {
    map[Schema := r.schema, CandidateTree := Str(r.candidate), BaseTree := Str(r.base), Tier := Str(r.tier),
        GateResults := List(Each(r.results, EncodeResult)),
        Bindings := EncodeBindings(r.code, r.locks),
        Tools := List(Each(r.tools, EncodeTool)),
        StartedAt := Str(r.startedAt), EndedAt := Str(r.endedAt)]
  }

  function Encode(r: Receipt): Json { Obj(Unsigned(r)[Digest := Str(r.digest)]) }

  // ----- conditions on strings

  predicate IsHex(s: string, n: nat) {
    |s| == n && forall i :: 0 <= i < |s| ==> '0' <= s[i] <= '9' || 'a' <= s[i] <= 'f'
  }

  const SHA_PREFIX := "sha256:"

  predicate IsDigest(s: string) {
    SHA_PREFIX <= s && IsHex(s[|SHA_PREFIX|..], 64)
  }

  predicate IsTier(s: string) { s == "local" || s == "ci" }

  function Least(xs: seq<string>): (r: string)
    requires xs != []
    ensures r in xs
  {
    if |xs| == 1 then xs[0]
    else var m := Least(xs[1..]); if LexLe(xs[0], m) then xs[0] else m
  }

  function Greatest(xs: seq<string>): (r: string)
    requires xs != []
    ensures r in xs
  {
    if |xs| == 1 then xs[0]
    else var m := Greatest(xs[1..]); if LexLe(m, xs[0]) then xs[0] else m
  }

  function Gates(rs: seq<GateResult>): seq<string> { seq(|rs|, i requires 0 <= i < |rs| => rs[i].gate) }
  function Starts(rs: seq<GateResult>): seq<string> { seq(|rs|, i requires 0 <= i < |rs| => rs[i].startedAt) }
  function Ends(rs: seq<GateResult>): seq<string> { seq(|rs|, i requires 0 <= i < |rs| => rs[i].endedAt) }

  /** The list equals its sorted form; see `InOrderIsSorted`. */
  predicate InOrder(xs: seq<string>) { Sorted(xs, LexLe) }

  lemma LexLeIsTotalPreorder()
    ensures TotalPreorder(LexLe)
  {
    forall x, y ensures LexLe(x, y) || LexLe(y, x) { LexLeTotal(x, y); }
    forall x, y, z | LexLe(x, y) && LexLe(y, z) ensures LexLe(x, z) { LexLeTransitive(x, y, z); }
  }

  lemma InOrderIsSorted(xs: seq<string>)
    ensures InOrder(xs) <==> xs == Sort(xs, LexLe)
  {
    LexLeIsTotalPreorder();
    SortFixesSorted(xs, LexLe);
  }

  // ----- well-formed receipts, stated on the typed document

  predicate ResultOk(c: Codec, r: GateResult) {
    && r.gate != "" && r.argv != []
    && c.stamp(r.startedAt) && c.stamp(r.endedAt)
    && LexLe(r.startedAt, r.endedAt)
  }

  predicate ResultsOk(c: Codec, rs: seq<GateResult>) {
    && rs != []
    && (forall i :: 0 <= i < |rs| ==> ResultOk(c, rs[i]))
    && InOrder(Gates(rs))
  }

  predicate CodeOk(b: CodeBinding) { b.path != "" && IsHex(b.sha256, 64) }

  predicate LockOk(b: LockBinding) {
    b.path != "" && (b.sha256.Some? ==> IsHex(b.sha256.value, 64))
  }

  function CodePaths(code: seq<CodeBinding>): seq<string> { seq(|code|, i requires 0 <= i < |code| => code[i].path) }

  function LockPaths(locks: seq<LockBinding>): seq<string> {
    seq(|locks|, i requires 0 <= i < |locks| => locks[i].path)
  }

  function ToolNames(tools: seq<Tool>): seq<string> { seq(|tools|, i requires 0 <= i < |tools| => tools[i].name) }

  predicate BindingsOk(code: seq<CodeBinding>, locks: seq<LockBinding>) {
    && (forall i :: 0 <= i < |code| ==> CodeOk(code[i]))
    && (forall i :: 0 <= i < |locks| ==> LockOk(locks[i]))
    && InOrder(CodePaths(code)) && InOrder(LockPaths(locks))
  }

  predicate ToolsOk(tools: seq<Tool>) {
    && (forall i :: 0 <= i < |tools| ==> tools[i].name != "" && tools[i].version != "")
    && InOrder(ToolNames(tools))
  }

  predicate HeaderOk(schema: Json, candidate: string, base: string, tier: string, digest: string) {
    && (schema == Int(1) || schema == Float(Finite(1.0)))
    && IsHex(candidate, 40) && IsHex(base, 40) && IsTier(tier) && IsDigest(digest)
  }

  predicate WellFormed(c: Codec, r: Receipt) {
    && HeaderOk(r.schema, r.candidate, r.base, r.tier, r.digest)
    && ResultsOk(c, r.results)
    && BindingsOk(r.code, r.locks)
    && ToolsOk(r.tools)
    && r.startedAt == Least(Starts(r.results)) && r.endedAt == Greatest(Ends(r.results))
  }

  // ----- the shape check, on JSON as it was read

  const RESULT_KEYS := {Gate, Argv, StartedAt, EndedAt, ExitCode}
  const RECEIPT_KEYS :=
    {Schema, CandidateTree, BaseTree, Tier, GateResults, Bindings, Tools, StartedAt, EndedAt, Digest}

  predicate HasKeys(v: Json, keys: set<Key>) { v.Obj? && v.fields.Keys == keys }

  predicate IsStrings(v: Json) {
    v.List? && v.items != [] && forall i :: 0 <= i < |v.items| ==> v.items[i].Str?
  }

  predicate ResultShape(c: Codec, v: Json) {
    && HasKeys(v, RESULT_KEYS)
    && v.fields[Gate].Str? && v.fields[Gate].s != ""
    && IsStrings(v.fields[Argv])
    && v.fields[ExitCode].Int?
    && v.fields[StartedAt].Str? && c.stamp(v.fields[StartedAt].s)
    && v.fields[EndedAt].Str? && c.stamp(v.fields[EndedAt].s)
    && LexLe(v.fields[StartedAt].s, v.fields[EndedAt].s)
  }

  predicate CodeShape(v: Json) {
    && HasKeys(v, {Path, Sha256})
    && v.fields[Path].Str? && v.fields[Path].s != ""
    && v.fields[Sha256].Str? && IsHex(v.fields[Sha256].s, 64)
  }

  predicate LockShape(v: Json) {
    && HasKeys(v, {Path, IsPresent, Sha256})
    && v.fields[Path].Str? && v.fields[Path].s != ""
    && v.fields[IsPresent].Bool?
    && if v.fields[IsPresent].b then v.fields[Sha256].Str? && IsHex(v.fields[Sha256].s, 64)
       else v.fields[Sha256].Null?
  }

  predicate ToolShape(v: Json) {
    && HasKeys(v, {Name, Version})
    && v.fields[Name].Str? && v.fields[Name].s != ""
    && v.fields[Version].Str? && v.fields[Version].s != ""
  }

  /** The text under `key` of an object that holds text there. */
  function TextOf(v: Json, key: Key): string {
    if v.Obj? && key in v.fields.Keys && v.fields[key].Str? then v.fields[key].s else ""
  }

  function Column(items: seq<Json>, key: Key): seq<string> {
    seq(|items|, i requires 0 <= i < |items| => TextOf(items[i], key))
  }

  predicate BindingsShape(v: Json) {
    && HasKeys(v, {Code, Locks})
    && v.fields[Code].List? && v.fields[Locks].List?
    && var code, locks := v.fields[Code].items, v.fields[Locks].items;
       && (forall i :: 0 <= i < |code| ==> CodeShape(code[i]))
       && (forall i :: 0 <= i < |locks| ==> LockShape(locks[i]))
       && InOrder(Column(code, Path))
       && InOrder(Column(locks, Path))
  }

  predicate ResultsShape(c: Codec, v: Json) {
    && v.List? && v.items != []
    && (forall i :: 0 <= i < |v.items| ==> ResultShape(c, v.items[i]))
    && InOrder(Column(v.items, Gate))
  }

  predicate ToolsShape(v: Json) {
    && v.List?
    && (forall i :: 0 <= i < |v.items| ==> ToolShape(v.items[i]))
    && InOrder(Column(v.items, Name))
  }

  predicate HeaderShape(v: Json)
    requires HasKeys(v, RECEIPT_KEYS)
  {
    && Same(v.fields[Schema], Int(1)) && !v.fields[Schema].Bool?
    && v.fields[CandidateTree].Str? && IsHex(v.fields[CandidateTree].s, 40)
    && v.fields[BaseTree].Str? && IsHex(v.fields[BaseTree].s, 40)
    && v.fields[Tier].Str? && IsTier(v.fields[Tier].s)
    && v.fields[Digest].Str? && IsDigest(v.fields[Digest].s)
  }

  /** The receipt's own time span is that of its results. */
  predicate SpanShape(c: Codec, v: Json, results: seq<Json>)
    requires HasKeys(v, RECEIPT_KEYS) && results != []
  {
    && v.fields[StartedAt].Str? && c.stamp(v.fields[StartedAt].s)
    && v.fields[EndedAt].Str? && c.stamp(v.fields[EndedAt].s)
    && v.fields[StartedAt].s == Least(Column(results, StartedAt))
    && v.fields[EndedAt].s == Greatest(Column(results, EndedAt))
  }

  predicate ReceiptShape(c: Codec, v: Json, raw: Bytes) {
    && HasKeys(v, RECEIPT_KEYS)
    && HeaderShape(v)
    && ResultsShape(c, v.fields[GateResults])
    && BindingsShape(v.fields[Bindings])
    && ToolsShape(v.fields[Tools])
    && SpanShape(c, v, v.fields[GateResults].items)
    && c.canon(v).Some? && raw == c.canon(v).value + NEWLINE
  }

  // ----- decoding what passed the check

  function Texts(v: Json): seq<string>
    requires v.List?
  {
    seq(|v.items|, i requires 0 <= i < |v.items| => if v.items[i].Str? then v.items[i].s else "")
  }

  function DecodeResult(v: Json): GateResult
    requires HasKeys(v, RESULT_KEYS) && v.fields[Argv].List? && v.fields[ExitCode].Int?
  {
    GateResult(TextOf(v, Gate), Texts(v.fields[Argv]), TextOf(v, StartedAt), TextOf(v, EndedAt),
               v.fields[ExitCode].n)
  }

  function DecodeCode(v: Json): CodeBinding { CodeBinding(TextOf(v, Path), TextOf(v, Sha256)) }

  function DecodeLock(v: Json): LockBinding
    requires LockShape(v)
  {
    LockBinding(TextOf(v, Path), if v.fields[IsPresent].b then Some(TextOf(v, Sha256)) else None)
  }

  function DecodeTool(v: Json): Tool { Tool(TextOf(v, Name), TextOf(v, Version)) }

  function DecodeResults(c: Codec, v: Json): seq<GateResult>
    requires ResultsShape(c, v)
  {
    seq(|v.items|, i requires 0 <= i < |v.items| => DecodeResult(v.items[i]))
  }

  function DecodeCodes(v: Json): seq<CodeBinding>
    requires BindingsShape(v)
  {
    var items := v.fields[Code].items;
    seq(|items|, i requires 0 <= i < |items| => DecodeCode(items[i]))
  }

  function DecodeLocks(v: Json): seq<LockBinding>
    requires BindingsShape(v)
  {
    var items := v.fields[Locks].items;
    seq(|items|, i requires 0 <= i < |items| => DecodeLock(items[i]))
  }

  function DecodeTools(v: Json): seq<Tool>
    requires ToolsShape(v)
  {
    seq(|v.items|, i requires 0 <= i < |v.items| => DecodeTool(v.items[i]))
  }

  function Decode(c: Codec, v: Json, raw: Bytes): Receipt
    requires ReceiptShape(c, v, raw)
  {
    Receipt(v.fields[Schema], TextOf(v, CandidateTree), TextOf(v, BaseTree), TextOf(v, Tier),
            DecodeResults(c, v.fields[GateResults]), DecodeCodes(v.fields[Bindings]),
            DecodeLocks(v.fields[Bindings]), DecodeTools(v.fields[Tools]),
            TextOf(v, StartedAt), TextOf(v, EndedAt), TextOf(v, Digest))
  }

  lemma ResultShapeIsEncoding(c: Codec, v: Json)
    requires ResultShape(c, v)
    ensures v == EncodeResult(DecodeResult(v)) && ResultOk(c, DecodeResult(v))
  {
    var r := DecodeResult(v);
    assert Strs(r.argv) == v.fields[Argv].items;
    assert v.fields == EncodeResult(r).fields;
  }

  lemma EncodingHasResultShape(c: Codec, r: GateResult)
    requires ResultOk(c, r)
    ensures ResultShape(c, EncodeResult(r)) && DecodeResult(EncodeResult(r)) == r
  {
    var v := EncodeResult(r);
    assert v.fields.Keys == RESULT_KEYS;
    assert Texts(v.fields[Argv]) == r.argv;
  }

  lemma ResultsShapeIsEncoding(c: Codec, v: Json)
    requires ResultsShape(c, v)
    ensures var rs := DecodeResults(c, v);
            && v == List(Each(rs, EncodeResult)) && ResultsOk(c, rs)
            && Starts(rs) == Column(v.items, StartedAt) && Ends(rs) == Column(v.items, EndedAt)
  {
    var rs := DecodeResults(c, v);
    forall i | 0 <= i < |v.items| ensures v.items[i] == EncodeResult(rs[i]) && ResultOk(c, rs[i]) {
      ResultShapeIsEncoding(c, v.items[i]);
    }
    assert v.items == Each(rs, EncodeResult);
    assert Gates(rs) == Column(v.items, Gate);
  }

  lemma CodeShapeIsEncoding(v: Json)
    requires CodeShape(v)
    ensures v == EncodeCode(DecodeCode(v)) && CodeOk(DecodeCode(v))
  {
    assert v.fields == EncodeCode(DecodeCode(v)).fields;
  }

  lemma LockShapeIsEncoding(v: Json)
    requires LockShape(v)
    ensures v == EncodeLock(DecodeLock(v)) && LockOk(DecodeLock(v))
  {
    assert v.fields == EncodeLock(DecodeLock(v)).fields;
  }

  lemma BindingsShapeIsEncoding(v: Json)
    requires BindingsShape(v)
    ensures v == EncodeBindings(DecodeCodes(v), DecodeLocks(v))
    ensures BindingsOk(DecodeCodes(v), DecodeLocks(v))
  {
    var code, locks := DecodeCodes(v), DecodeLocks(v);
    var codeItems, lockItems := v.fields[Code].items, v.fields[Locks].items;
    forall i | 0 <= i < |code| ensures codeItems[i] == EncodeCode(code[i]) && CodeOk(code[i]) {
      CodeShapeIsEncoding(codeItems[i]);
    }
    forall i | 0 <= i < |locks| ensures lockItems[i] == EncodeLock(locks[i]) && LockOk(locks[i]) {
      LockShapeIsEncoding(lockItems[i]);
    }
    assert codeItems == Each(code, EncodeCode) && lockItems == Each(locks, EncodeLock);
    assert v.fields == EncodeBindings(code, locks).fields;
    assert CodePaths(code) == Column(codeItems, Path);
    assert LockPaths(locks) == Column(lockItems, Path);
  }

  lemma ToolsShapeIsEncoding(v: Json)
    requires ToolsShape(v)
    ensures v == List(Each(DecodeTools(v), EncodeTool)) && ToolsOk(DecodeTools(v))
  {
    var tools := DecodeTools(v);
    forall i | 0 <= i < |tools| ensures v.items[i] == EncodeTool(tools[i]) {
      assert ToolShape(v.items[i]);
      assert v.items[i].fields == EncodeTool(tools[i]).fields;
    }
    assert v.items == Each(tools, EncodeTool);
    assert ToolNames(tools) == Column(v.items, Name);
  }

  lemma ShapeIsEncodingOfParts(c: Codec, v: Json, raw: Bytes)
    requires ReceiptShape(c, v, raw)
    ensures v == Encode(Decode(c, v, raw))
  {
    ResultsShapeIsEncoding(c, v.fields[GateResults]);
    BindingsShapeIsEncoding(v.fields[Bindings]);
    ToolsShapeIsEncoding(v.fields[Tools]);
    assert v.fields == Encode(Decode(c, v, raw)).fields;
  }

  lemma ShapeIsWellFormed(c: Codec, v: Json, raw: Bytes)
    requires ReceiptShape(c, v, raw)
    ensures WellFormed(c, Decode(c, v, raw))
  {
    ResultsShapeIsEncoding(c, v.fields[GateResults]);
    BindingsShapeIsEncoding(v.fields[Bindings]);
    ToolsShapeIsEncoding(v.fields[Tools]);
  }

  /** What passes the shape check is the encoding of a well-formed receipt. */
  lemma ShapeIsEncoding(c: Codec, v: Json, raw: Bytes)
    requires ReceiptShape(c, v, raw)
    ensures v == Encode(Decode(c, v, raw)) && WellFormed(c, Decode(c, v, raw))
  {
    ShapeIsEncodingOfParts(c, v, raw);
    ShapeIsWellFormed(c, v, raw);
  }

  // ----- encodings of well-formed receipts pass

  lemma EncodedResultsShape(c: Codec, rs: seq<GateResult>)
    requires ResultsOk(c, rs)
    ensures var items := Each(rs, EncodeResult);
            && ResultsShape(c, List(items)) && DecodeResults(c, List(items)) == rs
            && Column(items, StartedAt) == Starts(rs) && Column(items, EndedAt) == Ends(rs)
  {
    var items := Each(rs, EncodeResult);
    forall i | 0 <= i < |items| ensures ResultShape(c, items[i]) && DecodeResult(items[i]) == rs[i] {
      EncodingHasResultShape(c, rs[i]);
    }
    assert Column(items, Gate) == Gates(rs);
  }

  lemma EncodedCodeShape(b: CodeBinding)
    requires CodeOk(b)
    ensures CodeShape(EncodeCode(b))
  {
    assert EncodeCode(b).fields.Keys == {Path, Sha256};
  }

  lemma EncodedLockShape(b: LockBinding)
    requires LockOk(b)
    ensures LockShape(EncodeLock(b))
  {
    assert EncodeLock(b).fields.Keys == {Path, IsPresent, Sha256};
  }

  lemma EncodedBindingsShape(code: seq<CodeBinding>, locks: seq<LockBinding>)
    requires BindingsOk(code, locks)
    ensures var v := EncodeBindings(code, locks);
            BindingsShape(v) && DecodeCodes(v) == code && DecodeLocks(v) == locks
  {
    var codes, lockItems := Each(code, EncodeCode), Each(locks, EncodeLock);
    assert EncodeBindings(code, locks).fields.Keys == {Code, Locks};
    forall i | 0 <= i < |codes| ensures CodeShape(codes[i]) {
      assert codes[i] == EncodeCode(code[i]);
      EncodedCodeShape(code[i]);
    }
    forall i | 0 <= i < |lockItems| ensures LockShape(lockItems[i]) {
      assert lockItems[i] == EncodeLock(locks[i]);
      EncodedLockShape(locks[i]);
    }
    assert Column(codes, Path) == CodePaths(code);
    assert Column(lockItems, Path) == LockPaths(locks);
  }

  lemma EncodedToolShape(t: Tool)
    requires t.name != "" && t.version != ""
    ensures ToolShape(EncodeTool(t)) && DecodeTool(EncodeTool(t)) == t && TextOf(EncodeTool(t), Name) == t.name
  {
    assert EncodeTool(t).fields.Keys == {Name, Version};
  }

  lemma EncodedToolsShape(tools: seq<Tool>)
    requires ToolsOk(tools)
    ensures var v := List(Each(tools, EncodeTool)); ToolsShape(v) && DecodeTools(v) == tools
  {
    var items := Each(tools, EncodeTool);
    forall i | 0 <= i < |items|
      ensures ToolShape(items[i]) && DecodeTool(items[i]) == tools[i] && TextOf(items[i], Name) == tools[i].name
    {
      EncodedToolShape(tools[i]);
      assert items[i] == EncodeTool(tools[i]);
    }
    assert Column(items, Name) == ToolNames(tools);
  }

  lemma SpanIsValid(c: Codec, rs: seq<GateResult>)
    requires ResultsOk(c, rs)
    ensures c.stamp(Least(Starts(rs))) && c.stamp(Greatest(Ends(rs)))
  {
    var i :| 0 <= i < |rs| && Starts(rs)[i] == Least(Starts(rs));
    var j :| 0 <= j < |rs| && Ends(rs)[j] == Greatest(Ends(rs));
    assert ResultOk(c, rs[i]) && ResultOk(c, rs[j]);
  }

  lemma EncodedHeaderShape(r: Receipt)
    requires HeaderOk(r.schema, r.candidate, r.base, r.tier, r.digest)
    requires HasKeys(Encode(r), RECEIPT_KEYS)
    ensures HeaderShape(Encode(r))
  {}

  lemma EncodedSpanShape(c: Codec, r: Receipt)
    requires ResultsOk(c, r.results) && HasKeys(Encode(r), RECEIPT_KEYS)
    requires r.startedAt == Least(Starts(r.results)) && r.endedAt == Greatest(Ends(r.results))
    ensures SpanShape(c, Encode(r), Each(r.results, EncodeResult))
  {
    EncodedResultsShape(c, r.results);
    SpanIsValid(c, r.results);
  }

  lemma EncodedParts(r: Receipt)
    ensures var f := Encode(r).fields;
            && f.Keys == RECEIPT_KEYS
            && f[GateResults] == List(Each(r.results, EncodeResult))
            && f[Bindings] == EncodeBindings(r.code, r.locks)
            && f[Tools] == List(Each(r.tools, EncodeTool))
  {}

  /** A canonical encoding of a well-formed receipt passes the shape check. */
  lemma EncodingHasShape(c: Codec, r: Receipt, raw: Bytes)
    requires WellFormed(c, r)
    requires c.canon(Encode(r)).Some? && raw == c.canon(Encode(r)).value + NEWLINE
    ensures ReceiptShape(c, Encode(r), raw)
  {
    EncodedParts(r);
    EncodedHeaderShape(r);
    EncodedResultsShape(c, r.results);
    EncodedBindingsShape(r.code, r.locks);
    EncodedToolsShape(r.tools);
    EncodedSpanShape(c, r);
  }

  /** A receipt is read back from its encoding. */
  lemma DecodeInvertsEncode(c: Codec, r: Receipt, raw: Bytes)
    requires WellFormed(c, r) && ReceiptShape(c, Encode(r), raw)
    ensures Decode(c, Encode(r), raw) == r
  {
    EncodedParts(r);
    EncodedResultsShape(c, r.results);
    EncodedBindingsShape(r.code, r.locks);
    EncodedToolsShape(r.tools);
  }
}
