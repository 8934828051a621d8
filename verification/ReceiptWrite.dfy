/**
 Writing a gate receipt, and reading it back: what was written validates exactly
 when the timestamps are in order as text too (scripts/gate-receipt.py).
 */
module ReceiptWrite {
  import opened Text
  import opened Sorting
  import opened Json
  import opened Names
  import opened Receipt
  import opened ReceiptCheck
  import T = Timestamps

  // ----- gate results as they are accepted

  /** A passing result with valid timestamps, the end not before the start. */
  predicate Accepted(digit: char -> int, r: GateResult) {
    && r.gate != "" && r.argv != [] && r.exitCode == 0
    && T.Valid(digit, r.startedAt) && T.Valid(digit, r.endedAt)
    && T.NotAfter(T.MomentOf(digit, r.startedAt), T.MomentOf(digit, r.endedAt))
  }

  /** The checks made on one result document. */
  predicate Loads(digit: char -> int, v: Json) {
    && HasKeys(v, RESULT_KEYS)
    && v.fields[Gate].Str? && v.fields[Gate].s != ""
    && IsStrings(v.fields[Argv])
    && v.fields[ExitCode].Int? && v.fields[ExitCode].n == 0
    && v.fields[StartedAt].Str? && T.Valid(digit, v.fields[StartedAt].s)
    && v.fields[EndedAt].Str? && T.Valid(digit, v.fields[EndedAt].s)
    && T.NotAfter(T.MomentOf(digit, v.fields[StartedAt].s), T.MomentOf(digit, v.fields[EndedAt].s))
  }

  lemma LoadedIsAccepted(digit: char -> int, v: Json)
    requires Loads(digit, v)
    ensures Accepted(digit, DecodeResult(v)) && EncodeResult(DecodeResult(v)) == v
  {
    var r := DecodeResult(v);
    assert Strs(r.argv) == v.fields[Argv].items;
    assert v.fields == EncodeResult(r).fields;
  }

  /** Accepted are exactly the documents that encode an acceptable result. */
  lemma LoadsIff(digit: char -> int, v: Json)
    ensures Loads(digit, v) <==> exists r :: Accepted(digit, r) && v == EncodeResult(r)
  {
    if Loads(digit, v) {
      LoadedIsAccepted(digit, v);
    }
    if r :| Accepted(digit, r) && v == EncodeResult(r) {
      assert v.fields.Keys == RESULT_KEYS;
    }
  }

  predicate GateLe(a: GateResult, b: GateResult) { LexLe(a.gate, b.gate) }

  lemma GateLeIsTotalPreorder()
    ensures TotalPreorder(GateLe)
  {
    forall x, y ensures GateLe(x, y) || GateLe(y, x) { LexLeTotal(x.gate, y.gate); }
    forall x, y, z | GateLe(x, y) && GateLe(y, z) ensures GateLe(x, z) {
      LexLeTransitive(x.gate, y.gate, z.gate);
    }
  }

  function LoadOne(digit: char -> int, doc: Json): Option<GateResult> {
    if Loads(digit, doc) then Some(DecodeResult(doc)) else None
  }

  /** Read each document, or stop at the first that is refused. */
  method ReadEach(load: Json -> Option<GateResult>, docs: seq<Json>) returns (r: Option<seq<GateResult>>)
    ensures r.Some? <==> forall i :: 0 <= i < |docs| ==> load(docs[i]).Some?
    ensures r.Some? ==> |r.value| == |docs| && forall i :: 0 <= i < |docs| ==> load(docs[i]) == Some(r.value[i])
  {
    var loaded: seq<GateResult> := [];
    for i := 0 to |docs|
      invariant |loaded| == i
      invariant forall k :: 0 <= k < i ==> load(docs[k]) == Some(loaded[k])
    {
      var one := load(docs[i]);
      if one.None? {
        return None;
      }
      loaded := loaded + [one.value];
    }
    r := Some(loaded);
  }

  /** Check each document; the result is the list of accepted results, in the order given. */
  method LoadEach(digit: char -> int, docs: seq<Json>) returns (r: Option<seq<GateResult>>)
    ensures r.Some? <==> forall i :: 0 <= i < |docs| ==> Loads(digit, docs[i])
    ensures r.Some? ==>
      |r.value| == |docs|
      && forall i :: 0 <= i < |docs| ==> r.value[i] == DecodeResult(docs[i]) && Accepted(digit, r.value[i])
  {
    var load := doc => LoadOne(digit, doc);
    r := ReadEach(load, docs);
    if r.Some? {
      forall i | 0 <= i < |docs|
        ensures Loads(digit, docs[i]) && r.value[i] == DecodeResult(docs[i]) && Accepted(digit, r.value[i])
      {
        assert load(docs[i]) == Some(r.value[i]);
        LoadedIsAccepted(digit, docs[i]);
      }
    } else {
      var i :| 0 <= i < |docs| && load(docs[i]).None?;
      assert !Loads(digit, docs[i]);
    }
  }

  /** Sort by gate name and refuse a name that occurs twice, looking only at neighbours. */
  method SortByGate(loaded: seq<GateResult>) returns (r: Option<seq<GateResult>>)
    ensures r.Some? <==> Distinct(Gates(loaded))
    ensures r.Some? ==> multiset(r.value) == multiset(loaded) && InOrder(Gates(r.value)) && Distinct(Gates(r.value))
  {
    var results := Sort(loaded, GateLe);
    GateLeIsTotalPreorder();
    SortIsSorted(loaded, GateLe);
    SortKeepsElements(loaded, GateLe);
    var i := 1;
    while i < |results|
      invariant 1 <= i
      invariant forall k :: 1 <= k < i && k < |results| ==> results[k - 1].gate != results[k].gate
    {
      if results[i - 1].gate == results[i].gate {
        if Distinct(Gates(loaded)) {
          DistinctGatesByCount(loaded, results);
        }
        assert Gates(results)[i - 1] == Gates(results)[i];
        return None;
      }
      i := i + 1;
    }
    NeighboursSuffice(results);
    DistinctGatesByCount(results, loaded);
    r := Some(results);
  }

  /** Whether names repeat does not depend on the order of the results. */
  lemma DistinctGatesByCount(a: seq<GateResult>, b: seq<GateResult>)
    requires multiset(a) == multiset(b) && Distinct(Gates(a))
    ensures Distinct(Gates(b))
  {
    forall i, j | 0 <= i < j < |a| ensures a[i] != a[j] {
      assert Gates(a)[i] != Gates(a)[j];
    }
    DistinctByCount(a, b);
    forall i, j | 0 <= i < j < |b| ensures Gates(b)[i] != Gates(b)[j] {
      assert b[i] in multiset(b) && b[j] in multiset(b);
      var p :| 0 <= p < |a| && a[p] == b[i];
      var q :| 0 <= q < |a| && a[q] == b[j];
      assert Gates(a)[p] != Gates(a)[q];
    }
  }

  /** The results in documents that load, in the order given. */
  function Decoded(digit: char -> int, docs: seq<Json>): seq<GateResult>
    requires forall i :: 0 <= i < |docs| ==> Loads(digit, docs[i])
  {
    seq(|docs|, i requires 0 <= i < |docs| && Loads(digit, docs[i]) => DecodeResult(docs[i]))
  }

  /** `rs` are the results in `docs`, sorted by gate. */
  ghost predicate AreLoaded(digit: char -> int, docs: seq<Json>, rs: seq<GateResult>) {
    && (forall i :: 0 <= i < |docs| ==> Loads(digit, docs[i]))
    && multiset(rs) == multiset(Decoded(digit, docs))
    && InOrder(Gates(rs)) && Distinct(Gates(rs))
  }

  /** Read all result documents; one bad document or a repeated gate refuses them all. */
  method LoadGateResults(digit: char -> int, docs: seq<Json>) returns (r: Option<seq<GateResult>>)
    ensures r.Some? <==> (forall i :: 0 <= i < |docs| ==> Loads(digit, docs[i])) && Distinct(Column(docs, Gate))
    ensures r.Some? ==> AreLoaded(digit, docs, r.value)
    ensures r.Some? ==> |r.value| == |docs| && forall i :: 0 <= i < |r.value| ==> Accepted(digit, r.value[i])
  {
    var loaded := LoadEach(digit, docs);
    if loaded.None? {
      return None;
    }
    assert Gates(loaded.value) == Column(docs, Gate);
    r := SortByGate(loaded.value);
    if r.Some? {
      assert loaded.value == Decoded(digit, docs);
      assert |multiset(r.value)| == |multiset(loaded.value)|;
      forall i | 0 <= i < |r.value| ensures Accepted(digit, r.value[i]) {
        assert r.value[i] in multiset(loaded.value);
      }
    }
  }

  /** A sorted list of results with distinct gates is determined by its elements. */
  lemma ResultsAreUnique(rs: seq<GateResult>, rs': seq<GateResult>)
    requires multiset(rs) == multiset(rs')
    requires InOrder(Gates(rs)) && Distinct(Gates(rs)) && InOrder(Gates(rs')) && Distinct(Gates(rs'))
    ensures rs == rs'
  {
    GatesAreUnique(rs, rs');
    forall i | 0 <= i < |rs| ensures rs[i] == rs'[i] {
      assert rs[i] in multiset(rs');
      var j :| 0 <= j < |rs'| && rs'[j] == rs[i];
      SameIndex(rs, rs', i, j);
    }
  }

  lemma SameIndex(rs: seq<GateResult>, rs': seq<GateResult>, i: nat, j: nat)
    requires Gates(rs) == Gates(rs') && Distinct(Gates(rs')) && i < |rs| && i < |rs'| && j < |rs'| && rs'[j] == rs[i]
    ensures i == j
  {
    assert Gates(rs)[i] == rs[i].gate && Gates(rs')[j] == rs'[j].gate && Gates(rs')[i] == Gates(rs)[i];
  }

  lemma LoadedIsUnique(digit: char -> int, docs: seq<Json>, rs: seq<GateResult>, rs': seq<GateResult>)
    requires AreLoaded(digit, docs, rs) && AreLoaded(digit, docs, rs')
    ensures rs == rs'
  {
    ResultsAreUnique(rs, rs');
  }

  lemma GatesAreUnique(rs: seq<GateResult>, rs': seq<GateResult>)
    requires multiset(rs) == multiset(rs')
    requires InOrder(Gates(rs)) && Distinct(Gates(rs)) && InOrder(Gates(rs')) && Distinct(Gates(rs'))
    ensures Gates(rs) == Gates(rs') && |rs| == |rs'|
  {
    SameGates(rs, rs');
    SameGates(rs', rs);
    LexLeIsTotalPreorder();
    forall x, y | LexLe(x, y) && LexLe(y, x) ensures x == y { LexLeAntisymmetric(x, y); }
    SortedIsUnique(Gates(rs), Gates(rs'), LexLe);
    assert |Gates(rs)| == |rs| && |Gates(rs')| == |rs'|;
  }

  lemma SameGates(rs: seq<GateResult>, rs': seq<GateResult>)
    requires multiset(rs) == multiset(rs')
    ensures forall g :: g in Gates(rs) ==> g in Gates(rs')
  {
    forall g | g in Gates(rs) ensures g in Gates(rs') {
      var i :| 0 <= i < |rs| && Gates(rs)[i] == g;
      assert rs[i] in multiset(rs');
      var j :| 0 <= j < |rs'| && rs'[j] == rs[i];
      assert Gates(rs')[j] == g;
    }
  }

  /** In a sorted list a repeated name shows up next to itself. */
  lemma NeighboursSuffice(rs: seq<GateResult>)
    requires Sorted(rs, GateLe)
    requires forall k :: 1 <= k < |rs| ==> rs[k - 1].gate != rs[k].gate
    ensures InOrder(Gates(rs)) && Distinct(Gates(rs))
  {
    forall i, j | 0 <= i < j < |rs| ensures rs[i].gate != rs[j].gate {
      assert GateLe(rs[i], rs[i + 1]);
      if i + 1 < j {
        assert GateLe(rs[i + 1], rs[j]);
        if rs[i].gate == rs[j].gate {
          LexLeAntisymmetric(rs[i].gate, rs[i + 1].gate);
          assert false;
        }
      }
    }
    forall i, j | 0 <= i < j < |rs| ensures LexLe(Gates(rs)[i], Gates(rs)[j]) {
      assert GateLe(rs[i], rs[j]);
    }
  }

  // ----- the receipt

  const TOOL_NAMES := ["cargo", "go", "node", "npm", "rustc", "task"]

  /** The versions of the six tools, in name order. */
  predicate IsTools(tools: seq<Tool>) {
    ToolNames(tools) == TOOL_NAMES && forall i :: 0 <= i < |tools| ==> tools[i].version != ""
  }

  /** The receipt that is written for accepted results. */
  ghost predicate IsBuilt(c: Codec, digit: char -> int, w: World, q: Query, r: Receipt) {
    && r.schema == Int(1) && r.candidate == q.candidate && r.base == q.base && r.tier == q.tier
    && r.results != [] && (forall i :: 0 <= i < |r.results| ==> Accepted(digit, r.results[i]))
    && InOrder(Gates(r.results)) && Distinct(Gates(r.results))
    && IsCode(c, w.tree, r.code) && IsLocks(c, w.tree, r.locks) && w.tools == Some(r.tools)
    && r.startedAt == Least(Starts(r.results)) && r.endedAt == Greatest(Ends(r.results))
    && c.canon(Obj(Unsigned(r))).Some?
    && r.digest == SHA_PREFIX + c.sha(c.canon(Obj(Unsigned(r))).value)
  }

  /** The receipt built from these documents, if its two canonical forms exist. */
  ghost predicate BuiltFrom(c: Codec, digit: char -> int, w: World, q: Query, docs: seq<Json>, r: Receipt) {
    IsBuilt(c, digit, w, q, r) && AreLoaded(digit, docs, r.results) && c.canon(Encode(r)).Some?
  }

  /** Everything that writing needs apart from the canonical forms. */
  predicate Ready(digit: char -> int, w: World, q: Query, docs: seq<Json>) {
    && w.repository && TreesNamed(w, q)
    && (forall i :: 0 <= i < |docs| ==> Loads(digit, docs[i])) && Distinct(Column(docs, Gate))
    && Bindable(w.tree) && w.tools.Some?
  }

  /** `raw` is what is written. */
  ghost predicate Writes(c: Codec, digit: char -> int, w: World, q: Query, docs: seq<Json>, raw: Bytes) {
    && Ready(digit, w, q, docs)
    && exists r :: BuiltFrom(c, digit, w, q, docs, r) && raw == c.canon(Encode(r)).value + NEWLINE
  }

  /** The receipt without its digest. */
  function Draft(w: World, q: Query, results: seq<GateResult>, code: seq<CodeBinding>, locks: seq<LockBinding>): Receipt
    requires w.tools.Some? && results != []
  {
    Receipt(Int(1), q.candidate, q.base, q.tier, results, code, locks, w.tools.value,
            Least(Starts(results)), Greatest(Ends(results)), "")
  }

  /** Any receipt built from the documents is the signed draft. */
  lemma BuiltIsSignedDraft(c: Codec, digit: char -> int, w: World, q: Query, docs: seq<Json>,
                           results: seq<GateResult>, code: seq<CodeBinding>, locks: seq<LockBinding>, r: Receipt)
    requires w.tools.Some? && results != [] && AreLoaded(digit, docs, results)
    requires IsCode(c, w.tree, code) && IsLocks(c, w.tree, locks)
    requires IsBuilt(c, digit, w, q, r) && AreLoaded(digit, docs, r.results)
    ensures var unsigned := c.canon(Obj(Unsigned(Draft(w, q, results, code, locks))));
            unsigned.Some? && r == Draft(w, q, results, code, locks).(digest := SHA_PREFIX + c.sha(unsigned.value))
  {
    LoadedIsUnique(digit, docs, r.results, results);
    CodeIsUnique(c, w.tree, r.code, code);
    LocksAreUnique(c, w.tree, r.locks, locks);
    assert Unsigned(r) == Unsigned(Draft(w, q, results, code, locks));
  }

  /** Sign the draft and print it. */
  method PrintReceipt(c: Codec, digit: char -> int, w: World, q: Query, docs: seq<Json>,
                      results: seq<GateResult>, code: seq<CodeBinding>, locks: seq<LockBinding>)
    returns (raw: Option<Bytes>)
    requires Ready(digit, w, q, docs) && results != [] && AreLoaded(digit, docs, results)
    requires forall i :: 0 <= i < |results| ==> Accepted(digit, results[i])
    requires IsCode(c, w.tree, code) && IsLocks(c, w.tree, locks)
    ensures raw.Some? ==> Writes(c, digit, w, q, docs, raw.value)
    ensures raw.None? ==> forall r :: !BuiltFrom(c, digit, w, q, docs, r)
  {
    var draft := Draft(w, q, results, code, locks);
    var unsigned := c.canon(Obj(Unsigned(draft)));
    forall r | BuiltFrom(c, digit, w, q, docs, r)
      ensures unsigned.Some? && r == draft.(digest := SHA_PREFIX + c.sha(unsigned.value))
    {
      BuiltIsSignedDraft(c, digit, w, q, docs, results, code, locks, r);
    }
    if unsigned.None? {
      return None;
    }
    var signed := draft.(digest := SHA_PREFIX + c.sha(unsigned.value));
    assert Unsigned(signed) == Unsigned(draft);
    var printed := c.canon(Encode(signed));
    if printed.None? {
      return None;
    }
    assert BuiltFrom(c, digit, w, q, docs, signed);
    raw := Some(printed.value + NEWLINE);
  }

  /** A receipt is written exactly when everything is ready and its canonical forms exist. */
  method WriteReceipt(c: Codec, digit: char -> int, w: World, q: Query, docs: seq<Json>) returns (raw: Option<Bytes>)
    requires docs != []
    ensures raw.Some? <==> Ready(digit, w, q, docs) && exists r :: BuiltFrom(c, digit, w, q, docs, r)
    ensures raw.Some? ==> Writes(c, digit, w, q, docs, raw.value)
  {
    if !w.repository || !TreesNamed(w, q) {
      return None;
    }
    var results := LoadGateResults(digit, docs);
    if results.None? {
      return None;
    }
    var bindings := CollectBindings(c, w.tree);
    if bindings.Refused? || w.tools.None? {
      return None;
    }
    raw := PrintReceipt(c, digit, w, q, docs, results.value, bindings.code, bindings.locks);
  }

  // ----- what was written is well formed

  lemma {:induction false} LexLePrefix(p: string, a: string, b: string)
    ensures LexLe(p + a, p + b) <==> LexLe(a, b)
  {
    if p == "" {
      assert p + a == a && p + b == b;
    } else {
      assert (p + a)[1..] == p[1..] + a && (p + b)[1..] == p[1..] + b;
      LexLePrefix(p[1..], a, b);
    }
  }

  lemma {:induction false} InOrderByNeighbours(xs: seq<string>, i: nat, j: nat)
    requires i < j < |xs| && forall k :: 0 < k < |xs| ==> LexLe(xs[k - 1], xs[k])
    ensures LexLe(xs[i], xs[j])
  {
    if i + 1 < j {
      InOrderByNeighbours(xs, i, j - 1);
      LexLeTransitive(xs[i], xs[j - 1], xs[j]);
    }
  }

  lemma HeadDecides(a: string, b: string)
    requires a != "" && b != "" && a[0] < b[0]
    ensures LexLe(a, b)
  {}

  lemma {:induction false} NeighboursInOrder(xs: seq<string>)
    requires forall k :: 0 < k < |xs| ==> LexLe(xs[k - 1], xs[k])
    ensures InOrder(xs)
  {
    forall i, j | 0 <= i < j < |xs| ensures LexLe(xs[i], xs[j]) {
      InOrderByNeighbours(xs, i, j);
    }
  }

  /** Five paths of this form are in order, whatever the parts. */
  lemma LocksInOrder(xs: seq<string>, p: string, r: string, go: string, runtime: string, lock: string, ts: string)
    requires |xs| == 5 && p != "" && xs[0] != "" && xs[0][0] < p[0]
    requires xs[1] == p + go && xs[2] == p + (r + runtime) && xs[3] == p + (r + lock) && xs[4] == p + ts
    requires r != "" && go != "" && runtime != "" && lock != "" && ts != ""
    requires go[0] < r[0] < ts[0] && runtime[0] < lock[0]
    ensures InOrder(xs)
  {
    HeadDecides(xs[0], xs[1]);
    HeadDecides(go, r + runtime);
    LexLePrefix(p, go, r + runtime);
    HeadDecides(runtime, lock);
    LexLePrefix(r, runtime, lock);
    LexLePrefix(p, r + runtime, r + lock);
    HeadDecides(r + lock, ts);
    LexLePrefix(p, r + lock, ts);
    NeighboursInOrder(xs);
  }

  lemma LockPathsInOrder()
    ensures InOrder(LOCK_PATHS)
  {
    LocksInOrder(LOCK_PATHS, PROJECT, RUST, "go/go.sum", "-runtime/Cargo.lock", "/Cargo.lock", "ts/package-lock.json");
  }

  lemma ToolNamesInOrder()
    ensures InOrder(TOOL_NAMES)
  {
    LexLePrefix("n", "ode", "pm");
    assert "n" + "ode" == "node" && "n" + "pm" == "npm";
    NeighboursInOrder(TOOL_NAMES);
  }

  lemma ToolsAreOk(tools: seq<Tool>)
    requires IsTools(tools)
    ensures ToolsOk(tools)
  {
    ToolNamesInOrder();
    forall i | 0 <= i < |tools| ensures tools[i].name != "" {
      assert tools[i].name == ToolNames(tools)[i] == TOOL_NAMES[i];
    }
  }

  /** The codec tests timestamps as `Timestamps` does, and its digests are SHA-256 in hexadecimal. */
  ghost predicate Real(c: Codec, digit: char -> int) {
    && (forall s :: c.stamp(s) <==> T.Valid(digit, s))
    && (forall b :: IsHex(c.sha(b), 64))
  }

  /** No result ends before it starts when the two timestamps are compared as text. */
  predicate InTextOrder(rs: seq<GateResult>) {
    forall i :: 0 <= i < |rs| ==> LexLe(rs[i].startedAt, rs[i].endedAt)
  }

  lemma BoundPathIsNotEmpty(tree: Tree, path: string)
    requires MustBind(tree, path)
    ensures path != ""
  {
    MatchesIff(path, "Taskfile", ".yml");
    assert |"Taskfile"| == 8;
  }

  lemma BindingsAreOk(c: Codec, tree: Tree, code: seq<CodeBinding>, locks: seq<LockBinding>)
    requires IsCode(c, tree, code) && IsLocks(c, tree, locks)
    requires forall b :: IsHex(c.sha(b), 64)
    ensures BindingsOk(code, locks)
  {
    forall i | 0 <= i < |code| ensures CodeOk(code[i]) {
      assert CodePaths(code)[i] in CodePaths(code);
      BoundPathIsNotEmpty(tree, code[i].path);
    }
    forall i | 0 <= i < |locks| ensures LockOk(locks[i]) {
      assert locks[i].path == LockPaths(locks)[i] == LOCK_PATHS[i];
    }
    LockPathsInOrder();
  }

  lemma BuiltHeaderIsOk(c: Codec, r: Receipt, printed: Bytes)
    requires r.schema == Int(1) && IsHex(r.candidate, 40) && IsHex(r.base, 40) && IsTier(r.tier)
    requires r.digest == SHA_PREFIX + c.sha(printed) && IsHex(c.sha(printed), 64)
    ensures HeaderOk(r.schema, r.candidate, r.base, r.tier, r.digest)
  {
    assert r.digest[|SHA_PREFIX|..] == c.sha(printed);
  }

  lemma BuiltIsWellFormed(c: Codec, digit: char -> int, w: World, q: Query, r: Receipt)
    requires Real(c, digit) && IsBuilt(c, digit, w, q, r) && IsTools(r.tools)
    requires IsHex(q.candidate, 40) && IsHex(q.base, 40) && IsTier(q.tier)
    requires InTextOrder(r.results)
    ensures WellFormed(c, r)
  {
    BuiltHeaderIsOk(c, r, c.canon(Obj(Unsigned(r))).value);
    BindingsAreOk(c, w.tree, r.code, r.locks);
    ToolsAreOk(r.tools);
    forall i | 0 <= i < |r.results| ensures ResultOk(c, r.results[i]) {
      assert Accepted(digit, r.results[i]);
    }
  }

  lemma EncodedResultsAreInjective(a: seq<GateResult>, b: seq<GateResult>)
    requires Each(a, EncodeResult) == Each(b, EncodeResult)
    ensures a == b
  {
    assert |a| == |Each(a, EncodeResult)| == |b|;
    forall i | 0 <= i < |a| ensures a[i] == b[i] {
      var x, y := EncodeResult(a[i]), EncodeResult(b[i]);
      assert x == Each(a, EncodeResult)[i] == Each(b, EncodeResult)[i] == y;
      assert x.fields[Gate] == y.fields[Gate] && x.fields[Argv] == y.fields[Argv];
      assert x.fields[StartedAt] == y.fields[StartedAt] && x.fields[EndedAt] == y.fields[EndedAt];
      assert x.fields[ExitCode] == y.fields[ExitCode];
      assert Texts(x.fields[Argv]) == a[i].argv && Texts(y.fields[Argv]) == b[i].argv;
    }
  }

  /**
   Write, then validate: with the same trees, tier and tools, a receipt built from accepted
   results is valid exactly when its timestamps are in order as text and the results
   satisfy the requirements.
   */
  lemma WriteThenValidate(c: Codec, digit: char -> int, w: World, q: Query, r: Receipt, raw: Bytes,
                          reqs: seq<Requirement>)
    requires Real(c, digit) && IsBuilt(c, digit, w, q, r) && IsTools(r.tools) && IsTier(q.tier)
    requires c.canon(Encode(r)).Some? && raw == c.canon(Encode(r)).value + NEWLINE
    // the reader inverts the printer on what was written
    requires c.parse(raw) == Some(Encode(r))
    // the world in which the receipt is validated
    requires w.repository && NamesTree(q.candidate, w.candidateIsTree) && NamesTree(q.base, w.baseIsTree)
    requires Bindable(w.tree) && Private(w) && w.receipt.raw == raw
    requires w.requirements.Some? && ReadRequirements(c, w.requirements.value) == Some(reqs)
    ensures Accepts(c, w, q) <==> InTextOrder(r.results) && Satisfies(r.results, reqs)
  {
    if InTextOrder(r.results) && Satisfies(r.results, reqs) {
      BuiltIsWellFormed(c, digit, w, q, r);
      assert forall i :: 0 <= i < |r.results| ==> Accepted(digit, r.results[i]);
      assert Proves(c, w, q, raw, r, reqs);
    }
    if Accepts(c, w, q) {
      var p :| Proves(c, w, q, raw, p, reqs);
      SameReceiptProves(c, w, q, raw, r, p, reqs);
    }
  }

  /** A receipt in the file that proves the query has the results of the one that was written. */
  lemma SameReceiptProves(c: Codec, w: World, q: Query, raw: Bytes, r: Receipt, p: Receipt, reqs: seq<Requirement>)
    requires w.tools.Some? && Proves(c, w, q, raw, p, reqs) && c.parse(raw) == Some(Encode(r))
    ensures InTextOrder(r.results) && Satisfies(r.results, reqs)
  {
    EncodedParts(r);
    EncodedParts(p);
    EncodedResultsAreInjective(r.results, p.results);
    forall i | 0 <= i < |r.results| ensures LexLe(r.results[i].startedAt, r.results[i].endedAt) {
      assert ResultOk(c, p.results[i]);
    }
  }

  /** The reader inverts the printer on receipts. */
  ghost predicate Inverts(c: Codec) {
    forall r :: c.canon(Encode(r)).Some? ==> c.parse(c.canon(Encode(r)).value + NEWLINE) == Some(Encode(r))
  }

  lemma OrderDoesNotMatter(rs: seq<GateResult>, rs': seq<GateResult>, reqs: seq<Requirement>)
    requires multiset(rs) == multiset(rs')
    ensures InTextOrder(rs) ==> InTextOrder(rs')
    ensures Satisfies(rs, reqs) ==> Satisfies(rs', reqs)
  {
    forall i | 0 <= i < |rs'| ensures rs'[i] in rs { assert rs'[i] in multiset(rs); }
    forall i | 0 <= i < |rs| ensures rs[i] in rs' { assert rs[i] in multiset(rs'); }
    if Satisfies(rs, reqs) {
      forall k | 0 <= k < |reqs|
        ensures exists i :: 0 <= i < |rs'| && rs'[i].gate == reqs[k].gate && rs'[i].argv == reqs[k].argv
      {
        var i :| 0 <= i < |rs| && rs[i].gate == reqs[k].gate && rs[i].argv == reqs[k].argv;
        var j :| 0 <= j < |rs'| && rs'[j] == rs[i];
      }
    }
  }

  /**
   From documents to verdict: the bytes that were written for the documents are accepted, in a repository where they
   are private and the requirements can be read, exactly when the documents' timestamps are in text order and the
   documents satisfy the requirements.
   */
  lemma WrittenBytesValidateIff(c: Codec, digit: char -> int, w: World, q: Query, docs: seq<Json>, raw: Bytes,
                                reqs: seq<Requirement>)
    requires Real(c, digit) && Inverts(c) && IsTier(q.tier) && w.tools.Some? && IsTools(w.tools.value)
    requires Writes(c, digit, w, q, docs, raw)
    requires Private(w) && w.receipt.raw == raw
    requires w.requirements.Some? && ReadRequirements(c, w.requirements.value) == Some(reqs)
    ensures Accepts(c, w, q)
            <==> InTextOrder(Decoded(digit, docs)) && Satisfies(Decoded(digit, docs), reqs)
  {
    var r :| BuiltFrom(c, digit, w, q, docs, r) && raw == c.canon(Encode(r)).value + NEWLINE;
    WriteThenValidate(c, digit, w, q, r, raw, reqs);
    OrderDoesNotMatter(r.results, Decoded(digit, docs), reqs);
    OrderDoesNotMatter(Decoded(digit, docs), r.results, reqs);
  }

  /** Accepted results whose timestamps are ASCII are always in text order. */
  lemma AsciiIsInTextOrder(digit: char -> int, rs: seq<GateResult>)
    requires T.DigitTable(digit)
    requires forall i :: 0 <= i < |rs| ==>
               Accepted(digit, rs[i]) && T.Ascii(rs[i].startedAt) && T.Ascii(rs[i].endedAt)
    ensures InTextOrder(rs)
  {
    forall i | 0 <= i < |rs| ensures LexLe(rs[i].startedAt, rs[i].endedAt) {
      T.AsciiOrderIsChronological(digit, rs[i].startedAt, rs[i].endedAt);
    }
  }

  /** A result that is accepted for writing although the written receipt can never be valid. */
  lemma AcceptedButNotInTextOrder(digit: char -> int, r: GateResult)
    requires T.DigitTable(digit)
    requires digit('\U{0660}') == 0 && digit('\U{0662}') == 2 && digit('\U{0664}') == 4
    requires r.gate != "" && r.argv != [] && r.exitCode == 0
    requires r.startedAt == "\U{0662}\U{0660}\U{0662}\U{0664}" + "-01-01T00:00:00Z"
    requires r.endedAt == "2024" + "-01-01T00:00:00Z"
    ensures Accepted(digit, r) && !InTextOrder([r])
  {
    T.OtherDigitsBreakTheOrder(digit, r.startedAt, r.endedAt);
    assert [r][0] == r;
  }
}
