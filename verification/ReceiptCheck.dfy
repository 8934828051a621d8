/**
 The independent validation of a gate receipt (scripts/gate-receipt.py): what is
 recomputed from the candidate tree, the comparison of every field, and the
 theorem that the verdict is exact.
 */
module ReceiptCheck {
  import opened Text
  import opened Sorting
  import opened Json
  import opened Names
  import opened Receipt

  datatype Entry = Entry(isBlob: bool, data: Bytes)

  type Tree = map<string, Entry>

  /** What opening the receipt file gives: an error, something that is no regular file, or bytes. */
  datatype Opened = Unopenable(missing: bool) | NotAFile | File(raw: Bytes, private: bool)

  /** Everything the validator learns from Git, the file system and the installed tools. */
  datatype World = World(
    repository: bool, candidateIsTree: bool, baseIsTree: bool,
    receipt: Opened, ownDirectories: Option<bool>, requirements: Option<Bytes>,
    tree: Tree, tools: Option<seq<Tool>>)

  datatype Query = Query(candidate: string, base: string, tier: string)

  datatype Reason =
    | Malformed | Permissions | DigestDiffers | TreeDiffers | BaseDiffers | CodeDiffers | LockDiffers
    | ToolDiffers | TierDiffers | DuplicateGate | MissingGate | FailedGate | ArgvDiffers

  const REASON_ORDER: seq<Reason> :=
    [Malformed, Permissions, DigestDiffers, TreeDiffers, BaseDiffers, CodeDiffers, LockDiffers,
     ToolDiffers, TierDiffers, DuplicateGate, MissingGate, FailedGate, ArgvDiffers]

  /** A printed verdict, or an exit because of an I/O failure. */
  datatype Outcome = Printed(valid: bool, reasons: seq<Reason>) | IoFailure(missingReceipt: bool)

  // ----- bindings recomputed from the candidate tree

  const REQUIRED_CODE := ["scripts/gate-wrapper.sh", "scripts/gate-receipt.py"]
  const PROJECT := "shatter-"
  const RUST := "rust"
  const LOCK_PATHS: seq<string> :=
    ["Cargo.lock", PROJECT + "go/go.sum", PROJECT + (RUST + "-runtime/Cargo.lock"),
     PROJECT + (RUST + "/Cargo.lock"), PROJECT + "ts/package-lock.json"]

  /** The glob `*Taskfile*.yml`. */
  predicate IsTaskfile(path: string) {
    var i := Find(path, "Taskfile");
    i >= 0 && i + |"Taskfile"| + |".yml"| <= |path| && path[|path| - |".yml"|..] == ".yml"
  }

  function CodeSet(tree: Tree): set<string> {
    (set p | p in tree.Keys && tree[p].isBlob && IsTaskfile(p)) + (set p | p in REQUIRED_CODE)
  }

  /** The path matches `*stem*suffix`. */
  ghost predicate Matches(path: string, stem: string, suffix: string) {
    exists a, b :: path == a + stem + b + suffix
  }

  lemma MatchesIff(path: string, stem: string, suffix: string)
    ensures Matches(path, stem, suffix) <==>
            var i := Find(path, stem);
            i >= 0 && i + |stem| + |suffix| <= |path| && path[|path| - |suffix|..] == suffix
  {
    var i, n := Find(path, stem), |path| - |suffix|;
    if i >= 0 && i + |stem| <= n && path[n..] == suffix {
      assert path == path[..i] + stem + path[i + |stem|..n] + suffix;
    }
    if a, b :| path == a + stem + b + suffix {
      assert path[|a|..|a| + |stem|] == stem;
      assert OccursAt(path, stem, |a|);
      assert path[n..] == suffix;
    }
  }

  /** The files that a receipt must bind: two scripts, and every blob that `*Taskfile*.yml` matches anywhere. */
  ghost predicate MustBind(tree: Tree, path: string) {
    || path == "scripts/gate-wrapper.sh" || path == "scripts/gate-receipt.py"
    || (path in tree.Keys && tree[path].isBlob && Matches(path, "Taskfile", ".yml"))
  }

  lemma CodeSetIs(tree: Tree, path: string)
    ensures path in CodeSet(tree) <==> MustBind(tree, path)
  {
    MatchesIff(path, "Taskfile", ".yml");
    assert path in REQUIRED_CODE <==> path == REQUIRED_CODE[0] || path == REQUIRED_CODE[1];
  }

  /** The bindings are those of the tree: which files, in which order, with which digests. */
  ghost predicate IsCode(c: Codec, tree: Tree, code: seq<CodeBinding>) {
    && InOrder(CodePaths(code)) && Distinct(CodePaths(code))
    && (forall p :: p in CodePaths(code) <==> MustBind(tree, p))
    && (forall i :: 0 <= i < |code| ==>
          code[i].path in tree.Keys && tree[code[i].path].isBlob
          && code[i].sha256 == c.sha(tree[code[i].path].data))
  }

  ghost predicate IsLocks(c: Codec, tree: Tree, locks: seq<LockBinding>) {
    && LockPaths(locks) == LOCK_PATHS
    && (forall i :: 0 <= i < |locks| ==>
          if locks[i].path in tree.Keys
          then tree[locks[i].path].isBlob && locks[i].sha256 == Some(c.sha(tree[locks[i].path].data))
          else locks[i].sha256 == None)
  }

  /** Every file to be bound exists as a blob; a lock file may be absent. */
  predicate Bindable(tree: Tree) {
    && (forall i :: 0 <= i < |REQUIRED_CODE| ==> REQUIRED_CODE[i] in tree.Keys && tree[REQUIRED_CODE[i]].isBlob)
    && (forall i :: 0 <= i < |LOCK_PATHS| && LOCK_PATHS[i] in tree.Keys ==> tree[LOCK_PATHS[i]].isBlob)
  }

  /** Python's `sorted` of a set. */
  method SortSet(s: set<string>) returns (xs: seq<string>)
    ensures InOrder(xs) && Distinct(xs) && forall x :: x in xs <==> x in s
  {
    var rest := s;
    xs := [];
    while rest != {}
      invariant rest <= s
      invariant Distinct(xs)
      invariant forall x :: x in xs <==> x in s && x !in rest
      decreases |rest|
    {
      var x :| x in rest;
      xs, rest := xs + [x], rest - {x};
    }
    ghost var picked := xs;
    xs := Sort(xs, LexLe);
    LexLeIsTotalPreorder();
    SortIsSorted(picked, LexLe);
    SortKeepsElements(picked, LexLe);
    SortKeepsMembers(picked, LexLe);
    DistinctByCount(picked, xs);
  }

  lemma CodeIsUnique(c: Codec, tree: Tree, a: seq<CodeBinding>, b: seq<CodeBinding>)
    requires IsCode(c, tree, a) && IsCode(c, tree, b)
    ensures a == b
  {
    LexLeIsTotalPreorder();
    forall x, y | LexLe(x, y) && LexLe(y, x) ensures x == y { LexLeAntisymmetric(x, y); }
    SortedIsUnique(CodePaths(a), CodePaths(b), LexLe);
    forall i | 0 <= i < |a| ensures a[i] == b[i] {
      assert CodePaths(a)[i] == CodePaths(b)[i];
    }
  }

  lemma LocksAreUnique(c: Codec, tree: Tree, a: seq<LockBinding>, b: seq<LockBinding>)
    requires IsLocks(c, tree, a) && IsLocks(c, tree, b)
    ensures a == b
  {
    assert |a| == |LockPaths(a)| == |b|;
    forall i | 0 <= i < |a| ensures a[i] == b[i] {
      assert LockPaths(a)[i] == LockPaths(b)[i];
    }
  }

  datatype Bound = Refused | Bound(code: seq<CodeBinding>, locks: seq<LockBinding>)

  method CollectBindings(c: Codec, tree: Tree) returns (r: Bound)
    ensures r.Bound? <==> Bindable(tree)
    ensures r.Bound? ==> IsCode(c, tree, r.code) && IsLocks(c, tree, r.locks)
  {
    var paths := SortSet(CodeSet(tree));
    var code: seq<CodeBinding> := [];
    for i := 0 to |paths|
      invariant |code| == i
      invariant forall k :: 0 <= k < i ==>
                  paths[k] in tree.Keys && tree[paths[k]].isBlob
                  && code[k] == CodeBinding(paths[k], c.sha(tree[paths[k]].data))
    {
      if paths[i] !in tree.Keys || !tree[paths[i]].isBlob {
        assert paths[i] in CodeSet(tree);
        assert exists k :: 0 <= k < |REQUIRED_CODE| && REQUIRED_CODE[k] == paths[i];
        return Refused;
      }
      code := code + [CodeBinding(paths[i], c.sha(tree[paths[i]].data))];
    }
    assert CodePaths(code) == paths;
    forall p ensures p in CodePaths(code) <==> MustBind(tree, p) { CodeSetIs(tree, p); }
    forall k | 0 <= k < |REQUIRED_CODE| ensures REQUIRED_CODE[k] in tree.Keys && tree[REQUIRED_CODE[k]].isBlob {
      assert REQUIRED_CODE[k] in paths;
    }
    var locks: seq<LockBinding> := [];
    for i := 0 to |LOCK_PATHS|
      invariant |locks| == i
      invariant forall k :: 0 <= k < i ==>
                  && locks[k].path == LOCK_PATHS[k]
                  && if LOCK_PATHS[k] in tree.Keys
                     then tree[LOCK_PATHS[k]].isBlob && locks[k].sha256 == Some(c.sha(tree[LOCK_PATHS[k]].data))
                     else locks[k].sha256 == None
    {
      var p := LOCK_PATHS[i];
      if p !in tree.Keys {
        locks := locks + [LockBinding(p, None)];
      } else if !tree[p].isBlob {
        return Refused;
      } else {
        locks := locks + [LockBinding(p, Some(c.sha(tree[p].data)))];
      }
    }
    assert LockPaths(locks) == LOCK_PATHS;
    r := Bound(code, locks);
  }

  // ----- requirement lists

  datatype Requirement = Requirement(gate: string, argv: seq<string>)

  predicate RequirementShape(v: Json) {
    && HasKeys(v, {Gate, Argv})
    && v.fields[Gate].Str? && v.fields[Gate].s != ""
    && IsStrings(v.fields[Argv])
  }

  predicate RequirementsShape(v: Json) {
    && HasKeys(v, {Schema, Requirements})
    && Same(v.fields[Schema], Int(1)) && !v.fields[Schema].Bool?
    && v.fields[Requirements].List? && v.fields[Requirements].items != []
    && (forall i :: 0 <= i < |v.fields[Requirements].items| ==>
          RequirementShape(v.fields[Requirements].items[i]))
    && Distinct(Column(v.fields[Requirements].items, Gate))
  }

  function DecodeRequirements(v: Json): seq<Requirement>
    requires RequirementsShape(v)
  {
    var items := v.fields[Requirements].items;
    seq(|items|, i requires 0 <= i < |items| => Requirement(TextOf(items[i], Gate), Texts(items[i].fields[Argv])))
  }

  /** What a requirement document asks for, or nothing if it is not one. */
  function ReadRequirements(c: Codec, raw: Bytes): Option<seq<Requirement>> {
    var v := c.parse(raw);
    if v.Some? && RequirementsShape(v.value) then Some(DecodeRequirements(v.value)) else None
  }

  /** Requirements that a document may ask for: some, each with a name of its own and a command. */
  predicate RequirementsOk(reqs: seq<Requirement>) {
    && reqs != []
    && (forall i :: 0 <= i < |reqs| ==> reqs[i].gate != "" && reqs[i].argv != [])
    && (forall i, j :: 0 <= i < j < |reqs| ==> reqs[i].gate != reqs[j].gate)
  }

  function EncodeRequirement(r: Requirement): Json { Obj(map[Gate := Str(r.gate), Argv := List(Strs(r.argv))]) }

  /** The document, with a schema number that counts as one. */
  function EncodeRequirements(schema: Json, reqs: seq<Requirement>): Json {
    Obj(map[Schema := schema, Requirements := List(Each(reqs, EncodeRequirement))])
  }

  predicate SchemaOne(schema: Json) { schema == Int(1) || schema == Float(Finite(1.0)) }

  lemma EncodedRequirement(r: Requirement)
    requires r.gate != "" && r.argv != []
    ensures RequirementShape(EncodeRequirement(r))
    ensures Requirement(TextOf(EncodeRequirement(r), Gate), Texts(EncodeRequirement(r).fields[Argv])) == r
  {
    assert EncodeRequirement(r).fields.Keys == {Gate, Argv};
    assert Texts(EncodeRequirement(r).fields[Argv]) == r.argv;
  }

  /** A document that encodes acceptable requirements is read as them. */
  lemma RequirementsReadBack(c: Codec, raw: Bytes, schema: Json, reqs: seq<Requirement>)
    requires SchemaOne(schema) && RequirementsOk(reqs) && c.parse(raw) == Some(EncodeRequirements(schema, reqs))
    ensures ReadRequirements(c, raw) == Some(reqs)
  {
    var v := EncodeRequirements(schema, reqs);
    var items := Each(reqs, EncodeRequirement);
    assert v.fields.Keys == {Schema, Requirements};
    forall i | 0 <= i < |items|
      ensures RequirementShape(items[i])
      ensures Requirement(TextOf(items[i], Gate), Texts(items[i].fields[Argv])) == reqs[i]
    {
      EncodedRequirement(reqs[i]);
    }
    forall i | 0 <= i < |items| ensures Column(items, Gate)[i] == reqs[i].gate {}
    assert RequirementsShape(v);
    assert DecodeRequirements(v) == reqs;
  }

  lemma ShapedRequirement(item: Json) returns (r: Requirement)
    requires RequirementShape(item)
    ensures r == Requirement(TextOf(item, Gate), Texts(item.fields[Argv]))
    ensures r.gate != "" && r.argv != [] && EncodeRequirement(r) == item
  {
    r := Requirement(TextOf(item, Gate), Texts(item.fields[Argv]));
    assert Strs(r.argv) == item.fields[Argv].items;
    assert EncodeRequirement(r).fields == item.fields;
  }

  /** And nothing else is read. */
  lemma ReadRequirementsIff(c: Codec, raw: Bytes)
    ensures ReadRequirements(c, raw).Some? <==>
            exists schema, reqs :: SchemaOne(schema) && RequirementsOk(reqs)
                                   && c.parse(raw) == Some(EncodeRequirements(schema, reqs))
  {
    if ReadRequirements(c, raw).Some? {
      var v := c.parse(raw).value;
      var items, reqs := v.fields[Requirements].items, DecodeRequirements(v);
      forall i | 0 <= i < |items|
        ensures reqs[i].gate != "" && reqs[i].argv != [] && EncodeRequirement(reqs[i]) == items[i]
      {
        var r := ShapedRequirement(items[i]);
      }
      forall i, j | 0 <= i < j < |reqs| ensures reqs[i].gate != reqs[j].gate {
        assert Column(items, Gate)[i] != Column(items, Gate)[j];
      }
      assert Each(reqs, EncodeRequirement) == items;
      assert EncodeRequirements(v.fields[Schema], reqs).fields == v.fields;
    }
    forall schema, reqs | SchemaOne(schema) && RequirementsOk(reqs)
                          && c.parse(raw) == Some(EncodeRequirements(schema, reqs))
      ensures ReadRequirements(c, raw).Some?
    {
      RequirementsReadBack(c, raw, schema, reqs);
    }
  }

  // ----- comparing fields, each only if it is there

  predicate Has(v: Json, key: Key) { v.Obj? && key in v.fields.Keys }

  function DigestOf(c: Codec, fields: map<Key, Json>): Json {
    var printed := c.canon(Obj(fields - {Digest}));
    if printed.Some? then Str(SHA_PREFIX + c.sha(printed.value)) else Null
  }

  predicate Differs(v: Json, key: Key, expected: Json) {
    Has(v, key) && !Same(v.fields[key], expected)
  }

  /** Whether comparing the fields of a document gives a reason. */
  predicate Flagged(c: Codec, q: Query, v: Json, b: Bound, tools: seq<Tool>, reason: Reason)
    requires b.Bound? && v.Obj?
  {
    match reason
    case DigestDiffers => Has(v, Digest) && !Same(v.fields[Digest], DigestOf(c, v.fields))
    case TreeDiffers => Differs(v, CandidateTree, Str(q.candidate))
    case BaseDiffers => Differs(v, BaseTree, Str(q.base))
    case CodeDiffers => Has(v, Bindings) && Differs(v.fields[Bindings], Code, List(Each(b.code, EncodeCode)))
    case LockDiffers => Has(v, Bindings) && Differs(v.fields[Bindings], Locks, List(Each(b.locks, EncodeLock)))
    case ToolDiffers => Differs(v, Tools, List(Each(tools, EncodeTool)))
    case TierDiffers => Differs(v, Tier, Str(q.tier))
    case _ => false
  }

  function FieldReasons(c: Codec, q: Query, v: Json, b: Bound, tools: seq<Tool>): set<Reason>
    requires b.Bound?
  {
    if !v.Obj? then {} else set x | x in REASON_ORDER && Flagged(c, q, v, b, tools, x)
  }

  // ----- gate results against requirements

  predicate NamedGate(item: Json, gate: string) {
    item.Obj? && Gate in item.fields.Keys && item.fields[Gate] == Str(gate) && gate != ""
  }

  /** The results that carry a gate's name, in order. */
  function Named(items: seq<Json>, gate: string): seq<Json> {
    Filter(items, item => NamedGate(item, gate))
  }

  predicate Failed(item: Json) {
    item.Obj? && ExitCode in item.fields.Keys && item.fields[ExitCode].Int? && item.fields[ExitCode].n != 0
  }

  /** A result whose argument vector is a list of strings other than the required one. */
  predicate OtherArgv(item: Json, argv: seq<string>) {
    && item.Obj? && Argv in item.fields.Keys && item.fields[Argv].List?
    && (forall i :: 0 <= i < |item.fields[Argv].items| ==> item.fields[Argv].items[i].Str?)
    && Texts(item.fields[Argv]) != argv
  }

  ghost predicate AnyDuplicate(items: seq<Json>) {
    exists g :: |Named(items, g)| > 1
  }

  predicate AnyFailed(items: seq<Json>) {
    exists i :: 0 <= i < |items| && Failed(items[i])
  }

  predicate AnyMissing(items: seq<Json>, reqs: seq<Requirement>) {
    exists k :: 0 <= k < |reqs| && Named(items, reqs[k].gate) == []
  }

  predicate MismatchAt(items: seq<Json>, req: Requirement) {
    exists m :: m in Named(items, req.gate) && OtherArgv(m, req.argv)
  }

  predicate AnyMismatch(items: seq<Json>, reqs: seq<Requirement>) {
    exists k :: 0 <= k < |reqs| && MismatchAt(items, reqs[k])
  }

  /** `byName` maps each gate name that occurs to the results that carry it. */
  ghost predicate Groups(items: seq<Json>, byName: map<string, seq<Json>>) {
    && (forall g :: g in byName.Keys <==> Named(items, g) != [])
    && (forall g :: g in byName.Keys ==> byName[g] == Named(items, g))
  }

  lemma NamedGrows(items: seq<Json>, i: nat, g: string)
    requires i < |items|
    ensures Named(items[..i + 1], g) ==
            Named(items[..i], g) + (if NamedGate(items[i], g) then [items[i]] else [])
  {
    assert items[..i + 1] == items[..i] + [items[i]];
    FilterAppend(items[..i], [items[i]], item => NamedGate(item, g));
  }

  method GroupByGate(items: seq<Json>) returns (byName: map<string, seq<Json>>)
    ensures Groups(items, byName)
  {
    byName := map[];
    for i := 0 to |items|
      invariant Groups(items[..i], byName)
    {
      var item := items[i];
      forall g
        ensures Named(items[..i + 1], g) ==
                Named(items[..i], g) + (if NamedGate(item, g) then [item] else [])
      {
        NamedGrows(items, i, g);
      }
      if item.Obj? && Gate in item.fields.Keys && item.fields[Gate].Str? && item.fields[Gate].s != "" {
        var g := item.fields[Gate].s;
        byName := byName[g := (if g in byName.Keys then byName[g] else []) + [item]];
      }
    }
    assert items[..|items|] == items;
  }

  method CompareRequirements(items: seq<Json>, byName: map<string, seq<Json>>, reqs: seq<Requirement>)
    returns (missing: bool, mismatch: bool)
    requires Groups(items, byName)
    ensures missing <==> AnyMissing(items, reqs)
    ensures mismatch <==> AnyMismatch(items, reqs)
  {
    missing, mismatch := false, false;
    for i := 0 to |reqs|
      invariant missing <==> exists k :: 0 <= k < i && Named(items, reqs[k].gate) == []
      invariant mismatch <==> exists k :: 0 <= k < i && MismatchAt(items, reqs[k])
    {
      var matches := if reqs[i].gate in byName.Keys then byName[reqs[i].gate] else [];
      assert matches == Named(items, reqs[i].gate);
      if matches == [] {
        missing := true;
      } else if exists m :: m in matches && OtherArgv(m, reqs[i].argv) {
        mismatch := true;
      }
    }
  }

  /** Group the results by gate name and collect what is wrong with them. */
  method GateReasons(items: seq<Json>, requirements: Option<seq<Requirement>>) returns (reasons: set<Reason>)
    ensures reasons <= {DuplicateGate, FailedGate, MissingGate, ArgvDiffers}
    ensures DuplicateGate in reasons <==> AnyDuplicate(items)
    ensures FailedGate in reasons <==> AnyFailed(items)
    ensures MissingGate in reasons <==> requirements.Some? && AnyMissing(items, requirements.value)
    ensures ArgvDiffers in reasons <==> requirements.Some? && AnyMismatch(items, requirements.value)
  {
    var byName := GroupByGate(items);
    reasons := {};
    if exists g :: g in byName.Keys && |byName[g]| > 1 {
      reasons := reasons + {DuplicateGate};
    }
    if AnyFailed(items) {
      reasons := reasons + {FailedGate};
    }
    if requirements.Some? {
      var missing, mismatch := CompareRequirements(items, byName, requirements.value);
      if missing {
        reasons := reasons + {MissingGate};
      }
      if mismatch {
        reasons := reasons + {ArgvDiffers};
      }
    }
  }

  // ----- what a valid receipt proves

  /** Every requirement has a result of that name with the same argument vector. */
  ghost predicate Satisfies(rs: seq<GateResult>, reqs: seq<Requirement>) {
    forall k :: 0 <= k < |reqs| ==>
      exists i :: 0 <= i < |rs| && rs[i].gate == reqs[k].gate && rs[i].argv == reqs[k].argv
  }

  /** The digest, both trees, the tier, the bindings and the tools are those recomputed. */
  ghost predicate FieldsProve(c: Codec, w: World, q: Query, r: Receipt)
    requires w.tools.Some?
  {
    && c.canon(Obj(Unsigned(r))).Some?
    && r.digest == SHA_PREFIX + c.sha(c.canon(Obj(Unsigned(r))).value)
    && r.candidate == q.candidate && r.base == q.base && r.tier == q.tier
    && IsCode(c, w.tree, r.code) && IsLocks(c, w.tree, r.locks) && r.tools == w.tools.value
  }

  /** Gate names are unique, all gates passed, and every requirement has a result with its argv. */
  ghost predicate GatesProve(rs: seq<GateResult>, reqs: seq<Requirement>) {
    Distinct(Gates(rs)) && (forall i :: 0 <= i < |rs| ==> rs[i].exitCode == 0) && Satisfies(rs, reqs)
  }

  /** The receipt `r` is what the file holds, is genuine, and matches what was recomputed. */
  ghost predicate Proves(c: Codec, w: World, q: Query, raw: Bytes, r: Receipt, reqs: seq<Requirement>)
    requires w.tools.Some?
  {
    && c.parse(raw) == Some(Encode(r)) && WellFormed(c, r)
    && c.canon(Encode(r)).Some? && raw == c.canon(Encode(r)).value + NEWLINE
    && FieldsProve(c, w, q, r) && GatesProve(r.results, reqs)
  }

  // ----- the gate comparison is exact

  lemma {:induction false} FilterCount<T>(s: seq<T>, p: T -> bool)
    ensures |Filter(s, p)| > 1 <==> exists i, j :: 0 <= i < j < |s| && p(s[i]) && p(s[j])
    ensures Filter(s, p) == [] <==> forall i :: 0 <= i < |s| ==> !p(s[i])
  {
    if s != [] {
      var rest := s[1..];
      FilterCount(rest, p);
      assert forall i :: 1 <= i < |s| ==> s[i] == rest[i - 1];
      if i, j :| 0 <= i < j < |rest| && p(rest[i]) && p(rest[j]) {
        assert p(s[i + 1]) && p(s[j + 1]);
      }
      if p(s[0]) && Filter(rest, p) != [] {
        var j :| 0 <= j < |rest| && p(rest[j]);
        assert p(s[0]) && p(s[j + 1]);
      }
    }
  }

  lemma NamedResult(r: GateResult, g: string)
    requires r.gate != ""
    ensures NamedGate(EncodeResult(r), g) <==> r.gate == g
  {
    assert EncodeResult(r).fields[Gate] == Str(r.gate);
  }

  lemma NamedTwice(rs: seq<GateResult>, g: string)
    requires forall i :: 0 <= i < |rs| ==> rs[i].gate != ""
    ensures |Named(Each(rs, EncodeResult), g)| > 1 <==>
            exists i, j :: 0 <= i < j < |rs| && rs[i].gate == g && rs[j].gate == g
  {
    var items := Each(rs, EncodeResult);
    forall i | 0 <= i < |rs| ensures NamedGate(items[i], g) <==> rs[i].gate == g {
      NamedResult(rs[i], g);
    }
    FilterCount(items, item => NamedGate(item, g));
  }

  lemma DuplicatesExact(rs: seq<GateResult>)
    requires forall i :: 0 <= i < |rs| ==> rs[i].gate != ""
    ensures AnyDuplicate(Each(rs, EncodeResult)) <==> !Distinct(Gates(rs))
  {
    var items := Each(rs, EncodeResult);
    assert forall i :: 0 <= i < |rs| ==> Gates(rs)[i] == rs[i].gate;
    if g :| |Named(items, g)| > 1 {
      NamedTwice(rs, g);
      var i, j :| 0 <= i < j < |rs| && rs[i].gate == g && rs[j].gate == g;
      assert Gates(rs)[i] == Gates(rs)[j];
    }
    if i, j :| 0 <= i < j < |rs| && Gates(rs)[i] == Gates(rs)[j] {
      assert rs[i].gate == rs[j].gate;
      NamedTwice(rs, rs[i].gate);
    }
  }

  lemma MembersExact(rs: seq<GateResult>, g: string, m: Json)
    requires forall i :: 0 <= i < |rs| ==> rs[i].gate != ""
    ensures m in Named(Each(rs, EncodeResult), g) <==>
            exists i :: 0 <= i < |rs| && rs[i].gate == g && m == EncodeResult(rs[i])
  {
    var items := Each(rs, EncodeResult);
    FilterMembers(items, item => NamedGate(item, g));
    forall i | 0 <= i < |rs| ensures NamedGate(items[i], g) <==> rs[i].gate == g {
      NamedResult(rs[i], g);
    }
    if i :| 0 <= i < |rs| && rs[i].gate == g && m == EncodeResult(rs[i]) {
      assert items[i] == m;
    }
  }

  lemma ArgvExact(r: GateResult, argv: seq<string>)
    ensures OtherArgv(EncodeResult(r), argv) <==> r.argv != argv
  {
    assert Texts(List(Strs(r.argv))) == r.argv;
  }

  predicate NoResultFor(rs: seq<GateResult>, req: Requirement) {
    forall i :: 0 <= i < |rs| ==> rs[i].gate != req.gate
  }

  predicate OtherResultFor(rs: seq<GateResult>, req: Requirement) {
    exists i :: 0 <= i < |rs| && rs[i].gate == req.gate && rs[i].argv != req.argv
  }

  lemma MissingExact(rs: seq<GateResult>, req: Requirement)
    requires forall i :: 0 <= i < |rs| ==> rs[i].gate != ""
    ensures Named(Each(rs, EncodeResult), req.gate) == [] <==> NoResultFor(rs, req)
  {
    var items := Each(rs, EncodeResult);
    forall i | 0 <= i < |rs| ensures NamedGate(items[i], req.gate) <==> rs[i].gate == req.gate {
      NamedResult(rs[i], req.gate);
    }
    FilterCount(items, item => NamedGate(item, req.gate));
  }

  lemma MismatchExact(rs: seq<GateResult>, req: Requirement)
    requires forall i :: 0 <= i < |rs| ==> rs[i].gate != ""
    ensures MismatchAt(Each(rs, EncodeResult), req) <==> OtherResultFor(rs, req)
  {
    var named := Named(Each(rs, EncodeResult), req.gate);
    if m :| m in named && OtherArgv(m, req.argv) {
      MembersExact(rs, req.gate, m);
      var i :| 0 <= i < |rs| && rs[i].gate == req.gate && m == EncodeResult(rs[i]);
      ArgvExact(rs[i], req.argv);
    }
    if i :| 0 <= i < |rs| && rs[i].gate == req.gate && rs[i].argv != req.argv {
      MembersExact(rs, req.gate, EncodeResult(rs[i]));
      ArgvExact(rs[i], req.argv);
      assert EncodeResult(rs[i]) in named;
    }
  }

  /** For one requirement: a result of that name exists, and none of that name has another argv. */
  lemma RequirementExact(rs: seq<GateResult>, req: Requirement)
    requires forall i :: 0 <= i < |rs| ==> rs[i].gate != ""
    requires Distinct(Gates(rs))
    ensures Named(Each(rs, EncodeResult), req.gate) != [] && !MismatchAt(Each(rs, EncodeResult), req)
            <==> exists i :: 0 <= i < |rs| && rs[i].gate == req.gate && rs[i].argv == req.argv
  {
    var items := Each(rs, EncodeResult);
    var named := Named(items, req.gate);
    forall m ensures m in named <==> exists i :: 0 <= i < |rs| && rs[i].gate == req.gate && m == EncodeResult(rs[i]) {
      MembersExact(rs, req.gate, m);
    }
    forall r ensures OtherArgv(EncodeResult(r), req.argv) <==> r.argv != req.argv {
      ArgvExact(r, req.argv);
    }
    if i :| 0 <= i < |rs| && rs[i].gate == req.gate && rs[i].argv == req.argv {
      assert EncodeResult(rs[i]) in named;
      forall m | m in named ensures !OtherArgv(m, req.argv) {
        var j :| 0 <= j < |rs| && rs[j].gate == req.gate && m == EncodeResult(rs[j]);
        assert Gates(rs)[i] == Gates(rs)[j];
      }
    } else if named != [] {
      assert named[0] in named;
      var i :| 0 <= i < |rs| && rs[i].gate == req.gate && named[0] == EncodeResult(rs[i]);
      assert OtherArgv(named[0], req.argv);
    }
  }

  lemma GatesExact(rs: seq<GateResult>, reqs: seq<Requirement>)
    requires forall i :: 0 <= i < |rs| ==> rs[i].gate != ""
    ensures var items := Each(rs, EncodeResult);
            !AnyDuplicate(items) && !AnyFailed(items) && !AnyMissing(items, reqs) && !AnyMismatch(items, reqs)
            <==> GatesProve(rs, reqs)
  {
    var items := Each(rs, EncodeResult);
    DuplicatesExact(rs);
    assert forall i :: 0 <= i < |rs| ==> (Failed(items[i]) <==> rs[i].exitCode != 0);
    if Distinct(Gates(rs)) {
      forall k | 0 <= k < |reqs|
        ensures Named(items, reqs[k].gate) != [] && !MismatchAt(items, reqs[k])
                <==> exists i :: 0 <= i < |rs| && rs[i].gate == reqs[k].gate && rs[i].argv == reqs[k].argv
      {
        RequirementExact(rs, reqs[k]);
      }
    }
  }

  // ----- the field comparison is exact

  lemma SameLock(a: LockBinding, b: LockBinding)
    ensures Same(EncodeLock(a), EncodeLock(b)) <==> a == b
  {
    var x, y := EncodeLock(a), EncodeLock(b);
    if Same(x, y) {
      assert Same(x.fields[Path], y.fields[Path]);
      assert Same(x.fields[IsPresent], y.fields[IsPresent]);
      assert Same(x.fields[Sha256], y.fields[Sha256]);
    } else if a == b {
      SameIsReflexive(x);
    }
  }

  lemma SameLocks(a: seq<LockBinding>, b: seq<LockBinding>)
    ensures Same(List(Each(a, EncodeLock)), List(Each(b, EncodeLock))) <==> a == b
  {
    var x, y := Each(a, EncodeLock), Each(b, EncodeLock);
    if |a| == |b| {
      forall i | 0 <= i < |a| ensures Same(x[i], y[i]) <==> a[i] == b[i] {
        SameLock(a[i], b[i]);
      }
    }
  }

  lemma SameCodeItem(a: CodeBinding, b: CodeBinding)
    ensures Same(EncodeCode(a), EncodeCode(b)) <==> a == b
  {
    var x, y := EncodeCode(a), EncodeCode(b);
    if Same(x, y) {
      assert Same(x.fields[Path], y.fields[Path]) && Same(x.fields[Sha256], y.fields[Sha256]);
    } else if a == b {
      SameIsReflexive(x);
    }
  }

  lemma SameCode(a: seq<CodeBinding>, b: seq<CodeBinding>)
    ensures Same(List(Each(a, EncodeCode)), List(Each(b, EncodeCode))) <==> a == b
  {
    var x, y := Each(a, EncodeCode), Each(b, EncodeCode);
    if |a| == |b| {
      forall i | 0 <= i < |a| ensures Same(x[i], y[i]) <==> a[i] == b[i] {
        SameCodeItem(a[i], b[i]);
      }
    }
  }

  lemma SameTool(a: Tool, b: Tool)
    ensures Same(EncodeTool(a), EncodeTool(b)) <==> a == b
  {
    var x, y := EncodeTool(a), EncodeTool(b);
    if Same(x, y) {
      assert Same(x.fields[Name], y.fields[Name]) && Same(x.fields[Version], y.fields[Version]);
    } else if a == b {
      SameIsReflexive(x);
    }
  }

  lemma SameTools(a: seq<Tool>, b: seq<Tool>)
    ensures Same(List(Each(a, EncodeTool)), List(Each(b, EncodeTool))) <==> a == b
  {
    var x, y := Each(a, EncodeTool), Each(b, EncodeTool);
    if |a| == |b| {
      forall i | 0 <= i < |a| ensures Same(x[i], y[i]) <==> a[i] == b[i] {
        SameTool(a[i], b[i]);
      }
    }
  }

  /** The recomputed digest is the digest of everything but the digest. */
  lemma DigestIgnoresItself(c: Codec, r: Receipt)
    ensures DigestOf(c, Encode(r).fields) ==
            if c.canon(Obj(Unsigned(r))).Some?
            then Str(SHA_PREFIX + c.sha(c.canon(Obj(Unsigned(r))).value)) else Null
  {
    assert Encode(r).fields - {Digest} == Unsigned(r);
  }

  predicate FieldMatches(c: Codec, q: Query, r: Receipt, b: Bound, tools: seq<Tool>, reason: Reason)
    requires b.Bound?
  {
    match reason
    case DigestDiffers =>
      c.canon(Obj(Unsigned(r))).Some? && r.digest == SHA_PREFIX + c.sha(c.canon(Obj(Unsigned(r))).value)
    case TreeDiffers => r.candidate == q.candidate
    case BaseDiffers => r.base == q.base
    case CodeDiffers => r.code == b.code
    case LockDiffers => r.locks == b.locks
    case ToolDiffers => r.tools == tools
    case TierDiffers => r.tier == q.tier
    case _ => true
  }

  /** On a receipt none of the comparisons is skipped: each flags exactly a difference. */
  lemma FlaggedExact(c: Codec, q: Query, r: Receipt, b: Bound, tools: seq<Tool>, reason: Reason)
    requires b.Bound?
    ensures Flagged(c, q, Encode(r), b, tools, reason) <==> !FieldMatches(c, q, r, b, tools, reason)
  {
    match reason
    case DigestDiffers => DigestIgnoresItself(c, r);
    case CodeDiffers => SameCode(r.code, b.code);
    case LockDiffers => SameLocks(r.locks, b.locks);
    case ToolDiffers => SameTools(r.tools, tools);
    case _ =>
  }

  lemma FieldsExact(c: Codec, q: Query, r: Receipt, b: Bound, tools: seq<Tool>)
    requires b.Bound?
    ensures FieldReasons(c, q, Encode(r), b, tools) == {} <==>
            forall x :: x in REASON_ORDER ==> FieldMatches(c, q, r, b, tools, x)
  {
    forall x ensures Flagged(c, q, Encode(r), b, tools, x) <==> !FieldMatches(c, q, r, b, tools, x) {
      FlaggedExact(c, q, r, b, tools, x);
    }
    var reasons := FieldReasons(c, q, Encode(r), b, tools);
    if x :| x in reasons {
      assert !FieldMatches(c, q, r, b, tools, x);
    } else {
      forall x | x in REASON_ORDER ensures FieldMatches(c, q, r, b, tools, x) {
        assert x !in reasons;
      }
    }
  }

  lemma EveryReasonIsListed(x: Reason)
    ensures x in REASON_ORDER
  {
    var order := [Malformed, Permissions, DigestDiffers, TreeDiffers, BaseDiffers, CodeDiffers, LockDiffers,
                  ToolDiffers, TierDiffers, DuplicateGate, MissingGate, FailedGate, ArgvDiffers];
    assert order == REASON_ORDER;
    match x
    case Malformed => assert order[0] == x;
    case Permissions => assert order[1] == x;
    case DigestDiffers => assert order[2] == x;
    case TreeDiffers => assert order[3] == x;
    case BaseDiffers => assert order[4] == x;
    case CodeDiffers => assert order[5] == x;
    case LockDiffers => assert order[6] == x;
    case ToolDiffers => assert order[7] == x;
    case TierDiffers => assert order[8] == x;
    case DuplicateGate => assert order[9] == x;
    case MissingGate => assert order[10] == x;
    case FailedGate => assert order[11] == x;
    case ArgvDiffers => assert order[12] == x;
  }

  // ----- the verdict

  /** The reasons in their fixed order. */
  function Ordered(reasons: set<Reason>): seq<Reason> {
    Filter(REASON_ORDER, x => x in reasons)
  }

  lemma OrderedMembers(reasons: set<Reason>)
    ensures forall x :: x in Ordered(reasons) <==> x in reasons
    ensures Ordered(reasons) == [] <==> reasons == {}
  {
    FilterMembers(REASON_ORDER, x => x in reasons);
    forall x ensures x in Ordered(reasons) <==> x in reasons { EveryReasonIsListed(x); }
    EmptyByMembers(Ordered(reasons), reasons);
  }

  lemma EmptyByMembers<T>(s: seq<T>, a: set<T>)
    requires forall x :: x in s <==> x in a
    ensures s == [] <==> a == {}
  {
    if s != [] {
      assert s[0] in a;
    }
  }

  /** Shape, fields and gates together: nothing is found wrong exactly when the receipt proves. */
  lemma NothingWrongIffProves(c: Codec, w: World, q: Query, raw: Bytes, r: Receipt, b: Bound, reqs: seq<Requirement>)
    requires w.tools.Some? && b.Bound? && IsCode(c, w.tree, b.code) && IsLocks(c, w.tree, b.locks)
    requires c.parse(raw) == Some(Encode(r)) && WellFormed(c, r)
    requires c.canon(Encode(r)).Some? && raw == c.canon(Encode(r)).value + NEWLINE
    ensures var items := Each(r.results, EncodeResult);
            && FieldReasons(c, q, Encode(r), b, w.tools.value) == {}
            && !AnyDuplicate(items) && !AnyFailed(items) && !AnyMissing(items, reqs) && !AnyMismatch(items, reqs)
            <==> Proves(c, w, q, raw, r, reqs)
  {
    FieldsProveIff(c, w, q, r, b);
    GatesExact(r.results, reqs);
  }

  lemma FieldsProveIff(c: Codec, w: World, q: Query, r: Receipt, b: Bound)
    requires w.tools.Some? && b.Bound? && IsCode(c, w.tree, b.code) && IsLocks(c, w.tree, b.locks)
    ensures FieldReasons(c, q, Encode(r), b, w.tools.value) == {} <==> FieldsProve(c, w, q, r)
  {
    FieldsExact(c, q, r, b, w.tools.value);
    AllFieldsMatchIff(c, q, r, b, w.tools.value);
    if IsCode(c, w.tree, r.code) {
      CodeIsUnique(c, w.tree, r.code, b.code);
    }
    if IsLocks(c, w.tree, r.locks) {
      LocksAreUnique(c, w.tree, r.locks, b.locks);
    }
  }

  /** The seven reasons that are about fields. */
  lemma AllFieldsMatchIff(c: Codec, q: Query, r: Receipt, b: Bound, tools: seq<Tool>)
    requires b.Bound?
    ensures (forall x :: x in REASON_ORDER ==> FieldMatches(c, q, r, b, tools, x)) <==>
            && FieldMatches(c, q, r, b, tools, DigestDiffers)
            && FieldMatches(c, q, r, b, tools, TreeDiffers)
            && FieldMatches(c, q, r, b, tools, BaseDiffers)
            && FieldMatches(c, q, r, b, tools, CodeDiffers)
            && FieldMatches(c, q, r, b, tools, LockDiffers)
            && FieldMatches(c, q, r, b, tools, ToolDiffers)
            && FieldMatches(c, q, r, b, tools, TierDiffers)
  {
    forall x ensures x in REASON_ORDER { EveryReasonIsListed(x); }
  }

  /** Nothing is found wrong with the fields and gates of a document. */
  ghost predicate NoFault(c: Codec, q: Query, v: Json, items: seq<Json>, b: Bound, tools: seq<Tool>,
                          reqs: seq<Requirement>)
    requires b.Bound?
  {
    && FieldReasons(c, q, v, b, tools) == {}
    && !AnyDuplicate(items) && !AnyFailed(items) && !AnyMissing(items, reqs) && !AnyMismatch(items, reqs)
  }

  /** Some receipt in the file proves what is asked. */
  ghost predicate Proven(c: Codec, w: World, q: Query, raw: Bytes, reqs: seq<Requirement>)
    requires w.tools.Some?
  {
    exists r :: Proves(c, w, q, raw, r, reqs)
  }

  lemma ShapedProvenIffNoFault(c: Codec, w: World, q: Query, raw: Bytes, v: Json, b: Bound, reqs: seq<Requirement>)
    requires w.tools.Some? && b.Bound? && IsCode(c, w.tree, b.code) && IsLocks(c, w.tree, b.locks)
    requires c.parse(raw) == Some(v) && ReceiptShape(c, v, raw)
    ensures NoFault(c, q, v, v.fields[GateResults].items, b, w.tools.value, reqs) <==> Proven(c, w, q, raw, reqs)
  {
    var r := Decode(c, v, raw);
    ShapeIsEncoding(c, v, raw);
    EncodedParts(r);
    NothingWrongIffProves(c, w, q, raw, r, b, reqs);
    if r' :| Proves(c, w, q, raw, r', reqs) {
      DecodeInvertsEncode(c, r', raw);
    }
  }

  lemma UnshapedIsNotProven(c: Codec, w: World, q: Query, raw: Bytes, reqs: seq<Requirement>)
    requires w.tools.Some?
    requires c.parse(raw).None? || !ReceiptShape(c, c.parse(raw).value, raw)
    ensures !Proven(c, w, q, raw, reqs)
  {
    if r :| Proves(c, w, q, raw, r, reqs) {
      EncodingHasShape(c, r, raw);
    }
  }

  function GateItems(v: Json): Option<seq<Json>> {
    if Has(v, GateResults) && v.fields[GateResults].List? then Some(v.fields[GateResults].items) else None
  }

  /** The reasons that the fields and gates of a document give. */
  ghost predicate Given(c: Codec, q: Query, v: Json, b: Bound, tools: seq<Tool>,
                        requirements: Option<seq<Requirement>>, x: Reason)
    requires b.Bound? && v.Obj?
  {
    match x
    case DuplicateGate => GateItems(v).Some? && AnyDuplicate(GateItems(v).value)
    case FailedGate => GateItems(v).Some? && AnyFailed(GateItems(v).value)
    case MissingGate => GateItems(v).Some? && requirements.Some? && AnyMissing(GateItems(v).value, requirements.value)
    case ArgvDiffers => GateItems(v).Some? && requirements.Some? && AnyMismatch(GateItems(v).value, requirements.value)
    case _ => Flagged(c, q, v, b, tools, x)
  }

  /** Everything that is reported about a receipt file whose bytes could be read. */
  ghost predicate Reported(c: Codec, w: World, q: Query, raw: Bytes, b: Bound,
                           requirements: Option<seq<Requirement>>, x: Reason)
    requires w.tools.Some? && b.Bound?
  {
    match x
    case Malformed => requirements.None? || c.parse(raw).None? || !ReceiptShape(c, c.parse(raw).value, raw)
    case Permissions => !Private(w)
    case _ =>
      && c.parse(raw).Some? && c.parse(raw).value.Obj?
      && Given(c, q, c.parse(raw).value, b, w.tools.value, requirements, x)
  }

  /** What each reason means for a receipt: the field that differs, or the fault in its gate results. */
  predicate Wrong(c: Codec, w: World, q: Query, b: Bound, reqs: seq<Requirement>, r: Receipt, x: Reason)
    requires w.tools.Some? && b.Bound?
  {
    match x
    case Malformed => false
    case Permissions => !Private(w)
    case DuplicateGate => !Distinct(Gates(r.results))
    case FailedGate => exists i :: 0 <= i < |r.results| && r.results[i].exitCode != 0
    case MissingGate => exists k :: 0 <= k < |reqs| && NoResultFor(r.results, reqs[k])
    case ArgvDiffers => exists k :: 0 <= k < |reqs| && OtherResultFor(r.results, reqs[k])
    case _ => !FieldMatches(c, q, r, b, w.tools.value, x)
  }

  /** On a genuine encoding of a receipt each reason is reported exactly when what it names is wrong. */
  lemma ReportedExact(c: Codec, w: World, q: Query, raw: Bytes, b: Bound, reqs: seq<Requirement>, r: Receipt, x: Reason)
    requires w.tools.Some? && b.Bound? && c.parse(raw) == Some(Encode(r))
    requires ReceiptShape(c, Encode(r), raw) && WellFormed(c, r)
    ensures Reported(c, w, q, raw, b, Some(reqs), x) <==> Wrong(c, w, q, b, reqs, r, x)
  {
    if x != Malformed {
      ReportedFault(c, w, q, raw, b, reqs, r, x);
    }
  }

  lemma ReportedFault(c: Codec, w: World, q: Query, raw: Bytes, b: Bound, reqs: seq<Requirement>, r: Receipt, x: Reason)
    requires w.tools.Some? && b.Bound? && c.parse(raw) == Some(Encode(r)) && x != Malformed
    requires forall i :: 0 <= i < |r.results| ==> r.results[i].gate != ""
    ensures Reported(c, w, q, raw, b, Some(reqs), x) <==> Wrong(c, w, q, b, reqs, r, x)
  {
    if IsGateReason(x) {
      EncodedGateItems(r);
      GatesGivenExact(c, q, Encode(r), b, w.tools.value, reqs, r.results, x);
    } else {
      FieldGivenExact(c, q, r, b, w.tools.value, reqs, x);
    }
  }

  lemma FieldGivenExact(c: Codec, q: Query, r: Receipt, b: Bound, tools: seq<Tool>, reqs: seq<Requirement>, x: Reason)
    requires b.Bound? && !IsGateReason(x)
    ensures Given(c, q, Encode(r), b, tools, Some(reqs), x) <==> !FieldMatches(c, q, r, b, tools, x)
  {
    FlaggedExact(c, q, r, b, tools, x);
  }

  predicate IsGateReason(x: Reason) { x.DuplicateGate? || x.FailedGate? || x.MissingGate? || x.ArgvDiffers? }

  lemma EncodedGateItems(r: Receipt)
    ensures GateItems(Encode(r)) == Some(Each(r.results, EncodeResult))
  {
    EncodedParts(r);
  }

  lemma GatesGivenExact(c: Codec, q: Query, v: Json, b: Bound, tools: seq<Tool>, reqs: seq<Requirement>,
                        rs: seq<GateResult>, x: Reason)
    requires b.Bound? && v.Obj? && GateItems(v) == Some(Each(rs, EncodeResult)) && IsGateReason(x)
    requires forall i :: 0 <= i < |rs| ==> rs[i].gate != ""
    ensures Given(c, q, v, b, tools, Some(reqs), x) <==>
            if x.DuplicateGate? then !Distinct(Gates(rs))
            else if x.FailedGate? then exists i :: 0 <= i < |rs| && rs[i].exitCode != 0
            else if x.MissingGate? then exists k :: 0 <= k < |reqs| && NoResultFor(rs, reqs[k])
            else exists k :: 0 <= k < |reqs| && OtherResultFor(rs, reqs[k])
  {
    GateReasonsExact(rs, reqs);
  }

  lemma GateReasonsExact(rs: seq<GateResult>, reqs: seq<Requirement>)
    requires forall i :: 0 <= i < |rs| ==> rs[i].gate != ""
    ensures var items := Each(rs, EncodeResult);
            && (AnyDuplicate(items) <==> !Distinct(Gates(rs)))
            && (AnyFailed(items) <==> exists i :: 0 <= i < |rs| && rs[i].exitCode != 0)
            && (AnyMissing(items, reqs) <==> exists k :: 0 <= k < |reqs| && NoResultFor(rs, reqs[k]))
            && (AnyMismatch(items, reqs) <==> exists k :: 0 <= k < |reqs| && OtherResultFor(rs, reqs[k]))
  {
    var items := Each(rs, EncodeResult);
    DuplicatesExact(rs);
    assert forall i :: 0 <= i < |rs| ==> (Failed(items[i]) <==> rs[i].exitCode != 0);
    forall k | 0 <= k < |reqs|
      ensures Named(items, reqs[k].gate) == [] <==> NoResultFor(rs, reqs[k])
      ensures MismatchAt(items, reqs[k]) <==> OtherResultFor(rs, reqs[k])
    {
      MissingExact(rs, reqs[k]);
      MismatchExact(rs, reqs[k]);
    }
  }

  /** What is wrong with the document itself: its shape, its fields, its gates. */
  method DocumentReasons(c: Codec, w: World, q: Query, raw: Bytes, b: Bound, requirements: Option<seq<Requirement>>)
    returns (reasons: set<Reason>)
    requires w.tools.Some? && b.Bound?
    ensures forall x :: x in reasons <==>
              if x == Malformed then c.parse(raw).None? || !ReceiptShape(c, c.parse(raw).value, raw)
              else x != Permissions && Reported(c, w, q, raw, b, requirements, x)
  {
    reasons := {};
    var receipt := c.parse(raw);
    if receipt.None? || !ReceiptShape(c, receipt.value, raw) {
      reasons := reasons + {Malformed};
    }
    if receipt.Some? && receipt.value.Obj? {
      var more := FieldAndGateReasons(c, q, receipt.value, b, w.tools.value, requirements);
      reasons := reasons + more;
    }
  }

  method FieldAndGateReasons(c: Codec, q: Query, v: Json, b: Bound, tools: seq<Tool>,
                             requirements: Option<seq<Requirement>>)
    returns (reasons: set<Reason>)
    requires b.Bound? && v.Obj?
    ensures forall x :: x in reasons <==> Given(c, q, v, b, tools, requirements, x)
  {
    reasons := FieldReasons(c, q, v, b, tools);
    forall x ensures x in reasons <==> Flagged(c, q, v, b, tools, x) { EveryReasonIsListed(x); }
    if Has(v, GateResults) && v.fields[GateResults].List? {
      var gates := GateReasons(v.fields[GateResults].items, requirements);
      reasons := reasons + gates;
    }
  }

  /** Nothing is reported exactly when permissions are in order and some receipt in the file proves the query. */
  lemma NothingReportedIff(c: Codec, w: World, q: Query, raw: Bytes, b: Bound, requirements: Option<seq<Requirement>>)
    requires w.tools.Some? && b.Bound? && IsCode(c, w.tree, b.code) && IsLocks(c, w.tree, b.locks)
    ensures (forall x :: !Reported(c, w, q, raw, b, requirements, x))
            <==> Private(w) && requirements.Some? && Proven(c, w, q, raw, requirements.value)
  {
    if !Private(w) || requirements.None? || c.parse(raw).None? || !ReceiptShape(c, c.parse(raw).value, raw) {
      var x := SomethingReported(c, w, q, raw, b, requirements);
      if Private(w) && requirements.Some? {
        UnshapedIsNotProven(c, w, q, raw, requirements.value);
      }
    } else {
      ShapedReportedIff(c, w, q, raw, b, requirements.value, c.parse(raw).value);
    }
  }

  lemma SomethingReported(c: Codec, w: World, q: Query, raw: Bytes, b: Bound, requirements: Option<seq<Requirement>>)
    returns (x: Reason)
    requires w.tools.Some? && b.Bound?
    requires !Private(w) || requirements.None? || c.parse(raw).None? || !ReceiptShape(c, c.parse(raw).value, raw)
    ensures Reported(c, w, q, raw, b, requirements, x)
  {
    x := if Private(w) then Malformed else Permissions;
  }

  lemma ShapedReportedIff(c: Codec, w: World, q: Query, raw: Bytes, b: Bound, reqs: seq<Requirement>, v: Json)
    requires w.tools.Some? && b.Bound? && IsCode(c, w.tree, b.code) && IsLocks(c, w.tree, b.locks) && Private(w)
    requires c.parse(raw) == Some(v) && ReceiptShape(c, v, raw)
    ensures (forall x :: !Reported(c, w, q, raw, b, Some(reqs), x)) <==> Proven(c, w, q, raw, reqs)
  {
    ShapedProvenIffNoFault(c, w, q, raw, v, b, reqs);
    NoFaultIffNoneGiven(c, q, v, v.fields[GateResults].items, b, w.tools.value, reqs);
    forall x ensures Reported(c, w, q, raw, b, Some(reqs), x) <==> Given(c, q, v, b, w.tools.value, Some(reqs), x) {
    }
  }

  lemma NoFaultIffNoneGiven(c: Codec, q: Query, v: Json, items: seq<Json>, b: Bound, tools: seq<Tool>,
                            reqs: seq<Requirement>)
    requires b.Bound? && v.Obj? && GateItems(v) == Some(items)
    ensures NoFault(c, q, v, items, b, tools, reqs) <==> forall x :: !Given(c, q, v, b, tools, Some(reqs), x)
  {
    var fields := FieldReasons(c, q, v, b, tools);
    forall x ensures x in fields <==> Flagged(c, q, v, b, tools, x) { EveryReasonIsListed(x); }
    if forall x :: !Given(c, q, v, b, tools, Some(reqs), x) {
      forall x ensures x !in fields { assert !Given(c, q, v, b, tools, Some(reqs), x); }
      assert fields == {};
      assert !Given(c, q, v, b, tools, Some(reqs), DuplicateGate) && !Given(c, q, v, b, tools, Some(reqs), FailedGate);
      assert !Given(c, q, v, b, tools, Some(reqs), MissingGate) && !Given(c, q, v, b, tools, Some(reqs), ArgvDiffers);
    }
  }

  /** A full object name that Git resolves to itself as a tree. */
  predicate NamesTree(id: string, isTree: bool) { IsHex(id, 40) && isTree }

  predicate TreesNamed(w: World, q: Query) {
    NamesTree(q.candidate, w.candidateIsTree) && NamesTree(q.base, w.baseIsTree)
  }

  /** Whether the receipt may be relied on by its permissions. */
  predicate Private(w: World) {
    w.receipt.File? && w.receipt.private && (w.ownDirectories.Some? ==> w.ownDirectories.value)
  }

  /** The validator gets as far as comparing the receipt. */
  predicate Comparable(w: World, q: Query) {
    && w.repository && TreesNamed(w, q) && w.receipt.File? && w.requirements.Some? && Bindable(w.tree) && w.tools.Some?
  }

  /** The worlds in which a receipt is valid evidence. */
  ghost predicate Accepts(c: Codec, w: World, q: Query) {
    && Comparable(w, q) && Private(w)
    && ReadRequirements(c, w.requirements.value).Some?
    && Proven(c, w, q, w.receipt.raw, ReadRequirements(c, w.requirements.value).value)
  }

  /** The reasons of a verdict are those reported, against the bindings of the candidate tree. */
  ghost predicate ReasonsExact(c: Codec, w: World, q: Query, b: Bound, reasons: seq<Reason>)
    requires Comparable(w, q)
  {
    && b.Bound? && IsCode(c, w.tree, b.code) && IsLocks(c, w.tree, b.locks)
    && forall x :: x in reasons <==>
         Reported(c, w, q, w.receipt.raw, b, ReadRequirements(c, w.requirements.value), x)
  }

  /** Collect what is wrong with permissions, requirements and document. */
  method CollectReasons(c: Codec, w: World, q: Query, raw: Bytes, b: Bound, requirements: Option<seq<Requirement>>)
    returns (reasons: set<Reason>)
    requires w.tools.Some? && b.Bound?
    ensures forall x :: x in reasons <==> Reported(c, w, q, raw, b, requirements, x)
  {
    reasons := if Private(w) then {} else {Permissions};
    if requirements.None? {
      reasons := reasons + {Malformed};
    }
    var document := DocumentReasons(c, w, q, raw, b, requirements);
    reasons := reasons + document;
  }

  /** The comparison of a receipt that could be read with what was recomputed. */
  method JudgeReceipt(c: Codec, w: World, q: Query, b: Bound) returns (o: Outcome)
    requires Comparable(w, q) && b.Bound? && IsCode(c, w.tree, b.code) && IsLocks(c, w.tree, b.locks)
    ensures o.Printed? && (o.valid <==> o.reasons == []) && (o.valid <==> Accepts(c, w, q))
    ensures ReasonsExact(c, w, q, b, o.reasons)
    ensures exists reasons :: o.reasons == Ordered(reasons)
  {
    var requirements := ReadRequirements(c, w.requirements.value);
    var reasons := CollectReasons(c, w, q, w.receipt.raw, b, requirements);
    OrderedMembers(reasons);
    NothingReportedIff(c, w, q, w.receipt.raw, b, requirements);
    EmptyIffNoneReported(c, w, q, w.receipt.raw, b, requirements, reasons);
    o := Printed(Ordered(reasons) == [], Ordered(reasons));
  }

  lemma EmptyIffNoneReported(c: Codec, w: World, q: Query, raw: Bytes, b: Bound,
                             requirements: Option<seq<Requirement>>, reasons: set<Reason>)
    requires w.tools.Some? && b.Bound?
    requires forall x :: x in reasons <==> Reported(c, w, q, raw, b, requirements, x)
    ensures reasons == {} <==> forall x :: !Reported(c, w, q, raw, b, requirements, x)
  {
  }

  /**
   The validator. Its verdict is "valid" exactly for the worlds that `Accepts` describes, a printed verdict is
   invalid exactly when it gives reasons, and once it compares the receipt the reasons are exactly those reported.
   */
  method ValidateReceipt(c: Codec, w: World, q: Query) returns (o: Outcome)
    ensures o.Printed? ==> (o.valid <==> o.reasons == [])
    ensures o.Printed? && o.valid <==> Accepts(c, w, q)
    ensures o.IoFailure? <==>
            || !w.repository
            || (TreesNamed(w, q) && w.receipt.Unopenable?)
            || (TreesNamed(w, q) && w.receipt.File? && (w.requirements.None? || (Bindable(w.tree) && w.tools.None?)))
    ensures o.IoFailure? ==> (o.missingReceipt <==> w.repository && w.receipt == Unopenable(true))
    ensures w.repository && !TreesNamed(w, q) ==> o == Printed(false, [Malformed])
    ensures w.repository && TreesNamed(w, q) && w.receipt.NotAFile? ==> o == Printed(false, [Permissions])
    ensures w.repository && TreesNamed(w, q) && w.receipt.File? && w.requirements.Some? && !Bindable(w.tree) ==>
              o == Printed(false, [Malformed])
    ensures Comparable(w, q) ==> exists b :: ReasonsExact(c, w, q, b, o.reasons)
  {
    if !w.repository {
      return IoFailure(false);
    }
    if !TreesNamed(w, q) {
      return Printed(false, [Malformed]);
    }
    if w.receipt.Unopenable? {
      return IoFailure(w.receipt.missing);
    }
    if w.receipt.NotAFile? {
      return Printed(false, [Permissions]);
    }
    if w.requirements.None? {
      return IoFailure(false);
    }
    var bindings := CollectBindings(c, w.tree);
    if bindings.Refused? {
      return Printed(false, [Malformed]);
    }
    if w.tools.None? {
      return IoFailure(false);
    }
    o := JudgeReceipt(c, w, q, bindings);
  }
}
