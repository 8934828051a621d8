/**
 Extraction of the TypeScript frontend bundle and its fixed-name worker, one caller after
 another (shatter-cli/src/embedded_frontend.rs, with the hash of shatter-cli/build.rs).
 */
module BundleCache {
  import opened Json
  import opened Names

  /** What one CLI build embeds; `digest` names it by the concatenation of the two files. */
  datatype Release = Release(bundle: Bytes, worker: Bytes)

  type Digest = Bytes -> string

  ghost predicate Ideal(digest: Digest) {
    && (forall a, b :: digest(a) == digest(b) ==> a == b)
    && (forall a :: '.' !in digest(a))
  }

  type Dir = map<string, Bytes>

  const WORKER := "worker" + ".js"

  function BundleName(digest: Digest, r: Release): string { "frontend-" + digest(r.bundle + r.worker) + ".js" }

  predicate IsBundle(name: string) { "frontend-" <= name && EndsWith(name, ".js") }

  lemma BundleNames(digest: Digest, r: Release)
    ensures IsBundle(BundleName(digest, r)) && !IsBundle(WORKER)
  {
    var h := digest(r.bundle + r.worker);
    assert BundleName(digest, r) == "frontend-" + (h + ".js");
    assert WORKER[0] == 'w' && "frontend-"[0] == 'f';
  }

  /** Two releases share a name exactly when their concatenations agree. */
  lemma NamesDiffer(digest: Digest, a: Release, b: Release)
    requires Ideal(digest)
    ensures BundleName(digest, a) == BundleName(digest, b) <==> a.bundle + a.worker == b.bundle + b.worker
  {
    var x, y := digest(a.bundle + a.worker), digest(b.bundle + b.worker);
    if BundleName(digest, a) == BundleName(digest, b) {
      assert x == BundleName(digest, a)[9..|BundleName(digest, a)| - 3];
      assert y == BundleName(digest, b)[9..|BundleName(digest, b)| - 3];
    }
  }

  /** Of two releases that share a name, the split point decides whether they are the same. */
  lemma SameNameSamePairIff(digest: Digest, a: Release, b: Release)
    requires Ideal(digest) && BundleName(digest, a) == BundleName(digest, b)
    ensures a == b <==> |a.bundle| == |b.bundle|
  {
    NamesDiffer(digest, a, b);
    var whole := a.bundle + a.worker;
    assert a.bundle == whole[..|a.bundle|] && a.worker == whole[|a.bundle|..];
    assert b.bundle == whole[..|b.bundle|] && b.worker == whole[|b.bundle|..];
  }

  // ----- one extraction

  datatype Fault =
    | NoFault
    | NoDirectory
    | WriteFails(left: Option<Bytes>)
    | RenameFails(stays: bool)

  /** What goes wrong in one extraction; `stuck` are the files that cleanup cannot remove. */
  datatype Plan = Plan(bundle: Fault, stuck: set<string>, worker: Fault)

  const SMOOTH := Plan(NoFault, {}, NoFault)

  datatype Caller = Caller(pid: nat, count: nat)

  datatype Result = Result(files: Dir, count: nat, ok: bool)

  /** Stage under a fresh name and rename; a rename that loses to an existing file still succeeds. */
  function Store(files: Dir, c: Caller, dest: string, data: Bytes, fault: Fault): Result {
    var tmp := Staging(dest, c.pid, c.count);
    match fault
    case NoDirectory => Result(files, c.count, false)
    case NoFault => Result((files - {tmp})[dest := data], c.count + 1, true)
    case WriteFails(left) => Result(if left.Some? then files[tmp := left.value] else files, c.count + 1, false)
    case RenameFails(stays) =>
      Result(if dest in files[tmp := data] && !stays then files - {tmp} else files[tmp := data], c.count + 1,
             dest in files[tmp := data])
  }

  function Cleaned(files: Dir, current: string, stuck: set<string>): Dir {
    map n | n in files && (n == current || !IsBundle(n) || n in stuck) :: files[n]
  }

  function Extract(digest: Digest, files: Dir, c: Caller, r: Release, plan: Plan): Result {
    var name := BundleName(digest, r);
    var first := if name in files then Result(files, c.count, true) else Store(files, c, name, r.bundle, plan.bundle);
    if !first.ok then first
    else
      var cleaned := if name in files then files else Cleaned(first.files, name, plan.stuck);
      if name in files && WORKER in files then first
      else Store(cleaned, Caller(c.pid, first.count), WORKER, r.worker, plan.worker)
  }

  class Cache {
    const pid: nat
    var files: Dir
    var count: nat

    constructor (pid: nat, files: Dir)
      ensures this.pid == pid && this.files == files && count == 0
    {
      this.pid, this.files, this.count := pid, files, 0;
    }

    function Here(): Caller
      reads this
    {
      Caller(pid, count)
    }

    method WriteAtomicFile(dest: string, data: Bytes, fault: Fault) returns (ok: bool)
      modifies this
      ensures Result(files, count, ok) == Store(old(files), old(Here()), dest, data, fault)
    {
      if fault.NoDirectory? {
        return false;
      }
      var tmp := Staging(dest, pid, count);
      count := count + 1;
      if fault.WriteFails? {
        if fault.left.Some? {
          files := files[tmp := fault.left.value];
        }
        return false;
      }
      files := files[tmp := data];
      if fault.NoFault? {
        files := (files - {tmp})[dest := files[tmp]];
        return true;
      }
      ok := dest in files;
      if ok && !fault.stays {
        files := files - {tmp};
      }
    }

    /** Whatever order the directory is listed in. */
    method CleanupOldBundles(current: string, stuck: set<string>)
      modifies `files
      ensures files == Cleaned(old(files), current, stuck)
    {
      var entries := files.Keys;
      ghost var done: set<string> := {};
      while entries != {}
        invariant entries !! done && entries + done == old(files.Keys)
        invariant files == map n | n in old(files) && (n in entries || n == current || !IsBundle(n) || n in stuck)
                             :: old(files)[n]
        decreases |entries|
      {
        var name :| name in entries;
        entries, done := entries - {name}, done + {name};
        if name != current && IsBundle(name) && name !in stuck {
          files := files - {name};
        }
      }
    }

    method ExtractTo(digest: Digest, r: Release, plan: Plan) returns (ok: bool)
      modifies this
      ensures Result(files, count, ok) == Extract(digest, old(files), old(Here()), r, plan)
    {
      var name := BundleName(digest, r);
      var extracted := name !in files;
      if extracted {
        ok := WriteAtomicFile(name, r.bundle, plan.bundle);
        if !ok {
          return;
        }
        CleanupOldBundles(name, plan.stuck);
      }
      ok := true;
      if extracted || WORKER !in files {
        ok := WriteAtomicFile(WORKER, r.worker, plan.worker);
      }
    }
  }

  // ----- one caller after another

  datatype Call = Call(caller: Caller, release: Release)

  /** The cache after undisturbed calls, from an empty one. */
  function After(digest: Digest, calls: seq<Call>): Dir {
    if calls == [] then map[]
    else
      var last := calls[|calls| - 1];
      Extract(digest, After(digest, calls[..|calls| - 1]), last.caller, last.release, SMOOTH).files
  }

  /** The release whose files are in the cache: the first of the last callers that share a name. */
  function Effective(digest: Digest, calls: seq<Call>): Release
    requires calls != []
  {
    var last, before := calls[|calls| - 1].release, calls[..|calls| - 1];
    if before != [] && BundleName(digest, before[|before| - 1].release) == BundleName(digest, last)
    then Effective(digest, before) else last
  }

  function Pair(digest: Digest, r: Release): Dir { map[BundleName(digest, r) := r.bundle, WORKER := r.worker] }

  lemma {:induction false} EffectiveSharesName(digest: Digest, calls: seq<Call>)
    requires calls != []
    ensures BundleName(digest, Effective(digest, calls)) == BundleName(digest, calls[|calls| - 1].release)
  {
    if |calls| > 1 && Effective(digest, calls) != calls[|calls| - 1].release {
      EffectiveSharesName(digest, calls[..|calls| - 1]);
    }
  }

  lemma StagingIsOther(digest: Digest, dest: string, c: Caller, r: Release)
    ensures Staging(dest, c.pid, c.count) != BundleName(digest, r)
    ensures Staging(dest, c.pid, c.count) != WORKER
    ensures !IsBundle(Staging(dest, c.pid, c.count))
  {
    StagingIsNoScript(dest, c.pid, c.count);
    BundleNames(digest, r);
    assert WORKER[|WORKER| - 3..] == ".js";
  }

  /** Extraction into an empty cache leaves exactly the caller's pair. */
  lemma FirstExtraction(digest: Digest, c: Caller, r: Release)
    ensures Extract(digest, map[], c, r, SMOOTH).files == Pair(digest, r)
  {
    StagingIsOther(digest, BundleName(digest, r), c, r);
    StagingIsOther(digest, WORKER, Caller(c.pid, c.count + 1), r);
    BundleNames(digest, r);
  }

  /** Extraction over another release's pair keeps it when the names agree and replaces it otherwise. */
  lemma NextExtraction(digest: Digest, c: Caller, e: Release, r: Release)
    ensures Extract(digest, Pair(digest, e), c, r, SMOOTH).files
            == Pair(digest, if BundleName(digest, e) == BundleName(digest, r) then e else r)
  {
    var name := BundleName(digest, r);
    BundleNames(digest, e);
    BundleNames(digest, r);
    StagingIsOther(digest, name, c, e);
    StagingIsOther(digest, name, c, r);
    StagingIsOther(digest, WORKER, Caller(c.pid, c.count + 1), r);
    if BundleName(digest, e) != name {
      var first := (Pair(digest, e) - {Staging(name, c.pid, c.count)})[name := r.bundle];
      assert Cleaned(first, name, {}) == map[name := r.bundle, WORKER := e.worker];
    }
  }

  /** The cache always holds exactly one bundle, named for the last caller, and the worker beside it. */
  lemma {:induction false} CacheHoldsOnePair(digest: Digest, calls: seq<Call>)
    requires calls != []
    ensures After(digest, calls) == Pair(digest, Effective(digest, calls))
    ensures BundleName(digest, calls[|calls| - 1].release) in After(digest, calls)
  {
    var last, before := calls[|calls| - 1], calls[..|calls| - 1];
    if before == [] {
      FirstExtraction(digest, last.caller, last.release);
    } else {
      CacheHoldsOnePair(digest, before);
      NextExtraction(digest, last.caller, Effective(digest, before), last.release);
      EffectiveSharesName(digest, before);
    }
    EffectiveSharesName(digest, calls);
  }

  /** The last caller finds its own pair exactly when the pair that was left has the same split point. */
  lemma LastCallerFindsItsPairIff(digest: Digest, calls: seq<Call>)
    requires Ideal(digest) && calls != []
    ensures var last := calls[|calls| - 1].release;
            After(digest, calls) == Pair(digest, last) <==> |Effective(digest, calls).bundle| == |last.bundle|
  {
    var e, last := Effective(digest, calls), calls[|calls| - 1].release;
    CacheHoldsOnePair(digest, calls);
    EffectiveSharesName(digest, calls);
    SameNameSamePairIff(digest, e, last);
    if Pair(digest, e) == Pair(digest, last) {
      BundleNames(digest, e);
      assert Pair(digest, e)[BundleName(digest, e)] == e.bundle;
      assert Pair(digest, last)[BundleName(digest, last)] == last.bundle;
    }
  }

  /** Releases with the same concatenation, cut at different points, are confused. */
  lemma MovedSplitIsMissed(digest: Digest, c: Caller, d: Caller)
    ensures var a, b := Release([1, 2], [3]), Release([1], [2, 3]);
            After(digest, [Call(c, a), Call(d, b)]) == Pair(digest, a) != Pair(digest, b)
  {
    var a, b := Release([1, 2], [3]), Release([1], [2, 3]);
    var calls := [Call(c, a), Call(d, b)];
    assert a.bundle + a.worker == b.bundle + b.worker;
    assert calls[..1] == [Call(c, a)];
    assert [Call(c, a)][..0] == [];
    CacheHoldsOnePair(digest, calls);
    assert Pair(digest, a)[WORKER] == [3] && Pair(digest, b)[WORKER] == [2, 3];
  }

  // ----- from any state, and with failures

  predicate Matches(files: Dir, r: Release) { WORKER in files && files[WORKER] == r.worker }

  /** Whether this extraction writes the worker. */
  predicate WritesWorker(digest: Digest, files: Dir, r: Release, plan: Plan) {
    plan.worker.NoFault? && if BundleName(digest, r) in files then WORKER !in files else plan.bundle.NoFault?
  }

  /** The names that one extraction works with are all different. */
  lemma ExtractNames(digest: Digest, c: Caller, n: nat, r: Release)
    ensures BundleName(digest, r) != WORKER && !IsBundle(WORKER)
    ensures Staging(BundleName(digest, r), c.pid, c.count) !in {WORKER, BundleName(digest, r)}
    ensures Staging(WORKER, c.pid, n) !in {WORKER, BundleName(digest, r)}
  {
    BundleNames(digest, r);
    StagingIsOther(digest, BundleName(digest, r), c, r);
    StagingIsOther(digest, WORKER, Caller(c.pid, n), r);
  }

  /** After an extraction with any faults the worker is the caller's exactly when it was already, or was written now. */
  lemma WorkerMatchesIff(digest: Digest, files: Dir, c: Caller, r: Release, plan: Plan)
    ensures Matches(Extract(digest, files, c, r, plan).files, r)
            <==> Matches(files, r) || WritesWorker(digest, files, r, plan)
  {
    ExtractNames(digest, c, c.count, r);
    ExtractNames(digest, c, c.count + 1, r);
  }

  /** A successful extraction leaves a stale worker exactly in these cases, the second with a rename that failed. */
  lemma SuccessWithStaleWorkerIff(digest: Digest, files: Dir, c: Caller, r: Release, plan: Plan)
    ensures var after := Extract(digest, files, c, r, plan);
            after.ok && !Matches(after.files, r) <==>
            && WORKER in files && files[WORKER] != r.worker
            && (BundleName(digest, r) in files || (plan.bundle.NoFault? && plan.worker.RenameFails?))
  {
    ExtractNames(digest, c, c.count, r);
    ExtractNames(digest, c, c.count + 1, r);
  }

  /** The stale worker that a failed rename leaves behind a success, on the smallest input. */
  lemma RenameFailureIsSilent(digest: Digest, c: Caller, r: Release, stays: bool)
    requires r.worker != []
    ensures var after := Extract(digest, map[WORKER := []], c, r, SMOOTH.(worker := RenameFails(stays)));
            after.ok && !Matches(after.files, r) && BundleName(digest, r) in after.files
  {
    BundleNames(digest, r);
    ExtractNames(digest, c, c.count + 1, r);
    SuccessWithStaleWorkerIff(digest, map[WORKER := []], c, r, SMOOTH.(worker := RenameFails(stays)));
  }

  datatype Attempt = Attempt(caller: Caller, plan: Plan)

  function Attempts(digest: Digest, files: Dir, attempts: seq<Attempt>, r: Release): Dir
    decreases |attempts|
  {
    if attempts == [] then files
    else Attempts(digest, Extract(digest, files, attempts[0].caller, r, attempts[0].plan).files, attempts[1..], r)
  }

  /** A stale worker that this extraction does not replace although it leaves the release's bundle. */
  predicate Lost(digest: Digest, files: Dir, r: Release, plan: Plan) {
    && WORKER in files && files[WORKER] != r.worker
    && (BundleName(digest, r) in files || (plan.bundle.NoFault? && !plan.worker.NoFault?))
  }

  lemma {:induction false} NothingToDo(digest: Digest, files: Dir, attempts: seq<Attempt>, r: Release)
    requires BundleName(digest, r) in files && WORKER in files
    ensures Attempts(digest, files, attempts, r) == files
    decreases |attempts|
  {
    if attempts != [] {
      NothingToDo(digest, files, attempts[1..], r);
    }
  }

  /** Once lost, always lost: no later extraction of the release, whatever happens in it, changes anything. */
  lemma StaleWorkerStays(digest: Digest, files: Dir, c: Caller, r: Release, plan: Plan, attempts: seq<Attempt>)
    requires Lost(digest, files, r, plan)
    ensures var after := Extract(digest, files, c, r, plan).files;
            Attempts(digest, after, attempts, r) == after && !Matches(after, r)
  {
    var after := Extract(digest, files, c, r, plan).files;
    ExtractNames(digest, c, c.count, r);
    ExtractNames(digest, c, c.count + 1, r);
    assert BundleName(digest, r) in after && WORKER in after && after[WORKER] == files[WORKER];
    NothingToDo(digest, after, attempts, r);
  }

  /** Otherwise one undisturbed extraction is enough, and nothing later undoes it. */
  lemma NextRepairs(digest: Digest, files: Dir, c: Caller, r: Release, plan: Plan, next: Caller)
    requires !Lost(digest, files, r, plan)
    ensures Matches(Extract(digest, Extract(digest, files, c, r, plan).files, next, r, SMOOTH).files, r)
  {
    var after := Extract(digest, files, c, r, plan).files;
    ExtractNames(digest, c, c.count, r);
    ExtractNames(digest, c, c.count + 1, r);
    WorkerMatchesIff(digest, files, c, r, plan);
    WorkerMatchesIff(digest, after, next, r, SMOOTH);
  }

  /** Some later extractions of the release put the worker right. */
  ghost predicate Repairable(digest: Digest, files: Dir, r: Release) {
    exists attempts: seq<Attempt> :: Matches(Attempts(digest, files, attempts, r), r)
  }

  /** They can exactly when the worker is not lost. */
  lemma RepairableIff(digest: Digest, files: Dir, c: Caller, r: Release, plan: Plan)
    ensures var after := Extract(digest, files, c, r, plan).files;
            Repairable(digest, after, r) <==> !Lost(digest, files, r, plan)
  {
    var after := Extract(digest, files, c, r, plan).files;
    if Lost(digest, files, r, plan) {
      forall attempts: seq<Attempt> ensures !Matches(Attempts(digest, after, attempts, r), r) {
        StaleWorkerStays(digest, files, c, r, plan, attempts);
      }
    } else {
      NextRepairs(digest, files, c, r, plan, c);
      OneAttempt(digest, after, c, r);
    }
  }

  lemma OneAttempt(digest: Digest, files: Dir, c: Caller, r: Release)
    requires Matches(Extract(digest, files, c, r, SMOOTH).files, r)
    ensures Repairable(digest, files, r)
  {
    var attempts := [Attempt(c, SMOOTH)];
    var next := Extract(digest, files, c, r, SMOOTH).files;
    assert Attempts(digest, next, [], r) == next;
    assert attempts[1..] == [];
    assert Attempts(digest, files, attempts, r) == Attempts(digest, next, attempts[1..], r);
    assert Matches(Attempts(digest, files, attempts, r), r);
  }

  /** Cleanup keeps every staging file, the worker and the current bundle, and no other bundle that it can remove. */
  lemma CleanupKeeps(digest: Digest, files: Dir, r: Release, stuck: set<string>, dest: string, c: Caller)
    ensures var cleaned := Cleaned(files, BundleName(digest, r), stuck);
            && (Staging(dest, c.pid, c.count) in files ==> Staging(dest, c.pid, c.count) in cleaned)
            && (WORKER in files ==> WORKER in cleaned)
            && (forall n :: n in cleaned && IsBundle(n) ==> n == BundleName(digest, r) || n in stuck)
  {
    StagingIsOther(digest, dest, c, r);
    BundleNames(digest, r);
  }

  // ----- verdicts, staging files and counters

  /** An extraction succeeds exactly when nothing is to be done or each file it has to write gets there. */
  lemma SucceedsIff(digest: Digest, files: Dir, c: Caller, r: Release, plan: Plan)
    ensures var name := BundleName(digest, r);
            Extract(digest, files, c, r, plan).ok <==>
            || (name in files && WORKER in files)
            || (&& (name in files || plan.bundle.NoFault?)
                && (plan.worker.NoFault? || (plan.worker.RenameFails? && WORKER in files)))
  {
    ExtractNames(digest, c, c.count, r);
    ExtractNames(digest, c, c.count + 1, r);
  }

  /** A staging file is left behind exactly by a torn write, or by a failed rename that found no file or cannot undo. */
  lemma LeavesStagingIff(files: Dir, c: Caller, dest: string, data: Bytes, fault: Fault)
    requires Staging(dest, c.pid, c.count) !in files && Staging(dest, c.pid, c.count) != dest
    ensures Staging(dest, c.pid, c.count) in Store(files, c, dest, data, fault).files <==>
            || (fault.WriteFails? && fault.left.Some?)
            || (fault.RenameFails? && (dest !in files || fault.stays))
  {
  }

  /** Every staging name is used once: the counter moves past it, unless the directory is missing and none is used. */
  lemma CounterMoves(files: Dir, c: Caller, base: string, data: Bytes, fault: Fault, base': string)
    requires '.' !in base && '.' !in base' && !fault.NoDirectory?
    ensures var count := Store(files, c, base + ".js", data, fault).count;
            count == c.count + 1 && Staging(base' + ".js", c.pid, count) != Staging(base + ".js", c.pid, c.count)
  {
    var count := Store(files, c, base + ".js", data, fault).count;
    if Staging(base' + ".js", c.pid, count) == Staging(base + ".js", c.pid, c.count) {
      StagingOfScriptIsInjective(base', c.pid, count, base, c.pid, c.count);
    }
  }
}
