/**
 One caller of the interleaved extraction, alone: its steps add up to one extraction
 (shatter-cli/src/embedded_frontend.rs).
 */
module BundleSolo {
  import opened BundleCache
  import opened BundleRace
  import opened Names

  /** The files after the bundle has been put in place, and after the others have been removed. */
  function Placed(digest: Digest, files: Dir, c: Caller, r: Release): Dir {
    (files - {Staging(BundleName(digest, r), c.pid, c.count)})[BundleName(digest, r) := r.bundle]
  }

  function Base(digest: Digest, files: Dir, c: Caller, r: Release): Result {
    if BundleName(digest, r) in files then Result(files, c.count, true)
    else Result(Cleaned(Placed(digest, files, c, r), BundleName(digest, r), {}), c.count + 1, true)
  }

  /** Where a caller alone stands in its extraction of `r` that began with `files`. */
  ghost predicate Stands(digest: Digest, files: Dir, c: Caller, r: Release, pc: Pc, now: Dir, count: nat) {
    var name, base := BundleName(digest, r), Base(digest, files, c, r);
    match pc
    case Check => now == files && count == c.count
    case StageBundle => name !in files && now == files && count == c.count
    case RenameBundle(n) =>
      name !in files && n == c.count && now == files[Staging(name, c.pid, n) := r.bundle] && count == c.count + 1
    case List => name !in files && now == Placed(digest, files, c, r) && count == c.count + 1
    case Remove(todo) => name !in files && now - todo == base.files && count == c.count + 1
    case CheckWorker => name in files && now == files && count == c.count
    case StageWorker => (name in files ==> WORKER !in files) && now == base.files && count == base.count
    case RenameWorker(n) =>
      && (name in files ==> WORKER !in files)
      && n == base.count && now == base.files[Staging(WORKER, c.pid, n) := r.worker] && count == base.count + 1
    case Done => Result(now, count, true) == Extract(digest, files, c, r, SMOOTH)
  }

  ghost predicate SoloAt(digest: Digest, files: Dir, c: Caller, r: Release, s: State, id: nat) {
    && id in s.runs && s.runs[id].pid == c.pid && s.runs[id].release == r
    && Stands(digest, files, c, r, s.runs[id].pc, s.files, Counter(s, c.pid))
  }

  lemma PlacedIsStored(digest: Digest, files: Dir, c: Caller, r: Release)
    requires BundleName(digest, r) !in files
    ensures Store(files, c, BundleName(digest, r), r.bundle, NoFault)
            == Result(Placed(digest, files, c, r), c.count + 1, true)
    ensures Extract(digest, files, c, r, SMOOTH)
            == Store(Base(digest, files, c, r).files, Caller(c.pid, c.count + 1), WORKER, r.worker, NoFault)
  {
  }

  lemma BundleSteps(digest: Digest, files: Dir, c: Caller, r: Release, s: State, id: nat)
    requires SoloAt(digest, files, c, r, s, id)
    requires s.runs[id].pc.Check? || s.runs[id].pc.StageBundle? || s.runs[id].pc.CheckWorker?
    ensures SoloAt(digest, files, c, r, ApplyGo(CacheNames(digest), s, id), id)
  {
  }

  lemma RenameBundleStep(digest: Digest, files: Dir, c: Caller, r: Release, s: State, id: nat)
    requires SoloAt(digest, files, c, r, s, id) && s.runs[id].pc.RenameBundle?
    ensures SoloAt(digest, files, c, r, ApplyGo(CacheNames(digest), s, id), id)
  {
    var name, n := BundleName(digest, r), s.runs[id].pc.n;
    var tmp := Staging(name, c.pid, n);
    assert files[tmp := r.bundle] - {tmp} == files - {tmp};
  }

  lemma ListStep(digest: Digest, files: Dir, c: Caller, r: Release, s: State, id: nat)
    requires SoloAt(digest, files, c, r, s, id) && s.runs[id].pc.List?
    ensures SoloAt(digest, files, c, r, ApplyGo(CacheNames(digest), s, id), id)
  {
    var name := BundleName(digest, r);
    assert s.files - Others(CacheNames(digest), s.files, name) == Cleaned(s.files, name, {});
  }

  lemma RemoveStep(digest: Digest, files: Dir, c: Caller, r: Release, s: State, id: nat)
    requires SoloAt(digest, files, c, r, s, id) && s.runs[id].pc == Remove({})
    ensures SoloAt(digest, files, c, r, ApplyGo(CacheNames(digest), s, id), id)
  {
    assert s.files - {} == s.files;
  }

  lemma UnlinkStep(digest: Digest, files: Dir, c: Caller, r: Release, s: State, id: nat, name: string)
    requires SoloAt(digest, files, c, r, s, id) && Enabled(s, Unlink(id, name))
    ensures SoloAt(digest, files, c, r, Apply(CacheNames(digest), s, Unlink(id, name)), id)
  {
    var todo := s.runs[id].pc.todo;
    assert (s.files - {name}) - (todo - {name}) == s.files - todo;
  }

  lemma WorkerSteps(digest: Digest, files: Dir, c: Caller, r: Release, s: State, id: nat)
    requires SoloAt(digest, files, c, r, s, id) && (s.runs[id].pc.StageWorker? || s.runs[id].pc.RenameWorker?)
    ensures SoloAt(digest, files, c, r, ApplyGo(CacheNames(digest), s, id), id)
  {
    var base := Base(digest, files, c, r);
    var tmp := Staging(WORKER, c.pid, base.count);
    assert base.files[tmp := r.worker] - {tmp} == base.files - {tmp};
    if BundleName(digest, r) !in files {
      PlacedIsStored(digest, files, c, r);
    }
  }

  predicate IsOwn(a: Action, id: nat) { !a.Enter? && a.id == id }

  lemma SoloStep(digest: Digest, files: Dir, c: Caller, r: Release, s: State, id: nat, a: Action)
    requires SoloAt(digest, files, c, r, s, id) && Enabled(s, a) && IsOwn(a, id)
    ensures SoloAt(digest, files, c, r, Apply(CacheNames(digest), s, a), id)
  {
    if a.Unlink? {
      UnlinkStep(digest, files, c, r, s, id, a.name);
    } else {
      match s.runs[id].pc
      case RenameBundle(_) => RenameBundleStep(digest, files, c, r, s, id);
      case List => ListStep(digest, files, c, r, s, id);
      case Remove(_) => RemoveStep(digest, files, c, r, s, id);
      case StageWorker => WorkerSteps(digest, files, c, r, s, id);
      case RenameWorker(_) => WorkerSteps(digest, files, c, r, s, id);
      case _ => BundleSteps(digest, files, c, r, s, id);
    }
  }

  /** States from `trace[0]` by steps of the caller `id` alone. */
  ghost predicate SoloTrace(nm: Naming, trace: seq<State>, actions: seq<Action>, id: nat) {
    && |trace| == |actions| + 1
    && forall i :: 0 <= i < |actions| ==>
         IsOwn(actions[i], id) && Enabled(trace[i], actions[i]) && trace[i + 1] == Apply(nm, trace[i], actions[i])
  }

  lemma {:induction false} SoloStands(digest: Digest, c: Caller, r: Release, trace: seq<State>, actions: seq<Action>,
                                      id: nat, k: nat)
    requires SoloTrace(CacheNames(digest), trace, actions, id) && k < |trace|
    requires id in trace[0].runs && trace[0].runs[id] == Run(c.pid, r, Check) && Counter(trace[0], c.pid) == c.count
    ensures SoloAt(digest, trace[0].files, c, r, trace[k], id)
  {
    if k > 0 {
      SoloStands(digest, c, r, trace, actions, id, k - 1);
      SoloStep(digest, trace[0].files, c, r, trace[k - 1], id, actions[k - 1]);
    }
  }

  /**
   The interleaved steps refine the extraction: a caller that is not interleaved with any other, on any files and
   with its removals in any order, leaves exactly the files and the counter of one undisturbed extraction.
   */
  lemma SoloIsExtract(digest: Digest, c: Caller, r: Release, trace: seq<State>, actions: seq<Action>, id: nat)
    requires SoloTrace(CacheNames(digest), trace, actions, id)
    requires id in trace[0].runs && trace[0].runs[id] == Run(c.pid, r, Check) && Counter(trace[0], c.pid) == c.count
    requires id in trace[|actions|].runs && trace[|actions|].runs[id].pc.Done?
    ensures Result(trace[|actions|].files, Counter(trace[|actions|], c.pid), true)
            == Extract(digest, trace[0].files, c, r, SMOOTH)
  {
    SoloStands(digest, c, r, trace, actions, id, |actions|);
  }
}
