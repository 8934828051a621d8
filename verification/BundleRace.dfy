/**
 The same extraction by many threads and processes at once, interleaved at its file-system
 steps (shatter-cli/src/embedded_frontend.rs).
 */
module BundleRace {
  import opened BundleCache
  import opened Names

  /** The names that the extractor forms and the test that its cleanup applies to them. */
  datatype Naming = Naming(bundle: Release -> string, worker: string,
                           stage: (string, nat, nat) -> string, isBundle: string -> bool)

  function CacheNames(digest: Digest): Naming {
    Naming(r => BundleName(digest, r), WORKER, Staging, IsBundle)
  }

  /** Where one call stands; `n` is the counter value in its staging name. */
  datatype Pc =
    | Check
    | StageBundle
    | RenameBundle(n: nat)
    | List
    | Remove(todo: set<string>)
    | CheckWorker
    | StageWorker
    | RenameWorker(n: nat)
    | Done

  datatype Run = Run(pid: nat, release: Release, pc: Pc)

  datatype State = State(files: Dir, counters: map<nat, nat>, runs: map<nat, Run>)

  datatype Action =
    | Enter(id: nat, pid: nat, release: Release)
    | Go(id: nat)
    | Unlink(id: nat, name: string)

  function Counter(s: State, pid: nat): nat { if pid in s.counters then s.counters[pid] else 0 }

  predicate Enabled(s: State, a: Action) {
    match a
    case Enter(id, _, _) => id !in s.runs
    case Go(id) => id in s.runs && !s.runs[id].pc.Done? && (s.runs[id].pc.Remove? ==> s.runs[id].pc.todo == {})
    case Unlink(id, name) => id in s.runs && s.runs[id].pc.Remove? && name in s.runs[id].pc.todo
  }

  function SetPc(s: State, id: nat, pc: Pc): State
    requires id in s.runs
  {
    s.(runs := s.runs[id := s.runs[id].(pc := pc)])
  }

  /** Draw a number from the process's counter and write the staging file. */
  function Stage(s: State, id: nat, tmp: string, data: Bytes, pc: Pc): State
    requires id in s.runs
  {
    var pid := s.runs[id].pid;
    SetPc(s.(files := s.files[tmp := data], counters := s.counters[pid := Counter(s, pid) + 1]), id, pc)
  }

  /** A staging file that is not there cannot be renamed. */
  function Renamed(files: Dir, tmp: string, dest: string): Dir {
    if tmp in files then (files - {tmp})[dest := files[tmp]] else files
  }

  function Others(nm: Naming, files: Dir, current: string): set<string> {
    set n | n in files.Keys && n != current && nm.isBundle(n)
  }

  function Apply(nm: Naming, s: State, a: Action): State
    requires Enabled(s, a)
  {
    match a
    case Enter(id, pid, release) => s.(runs := s.runs[id := Run(pid, release, Check)])
    case Unlink(id, name) => SetPc(s.(files := s.files - {name}), id, Remove(s.runs[id].pc.todo - {name}))
    case Go(id) => ApplyGo(nm, s, id)
  }

  function ApplyGo(nm: Naming, s: State, id: nat): State
    requires id in s.runs
  {
    var run := s.runs[id];
    var name, next := nm.bundle(run.release), Counter(s, run.pid);
    match run.pc
    case Check => SetPc(s, id, if name in s.files then CheckWorker else StageBundle)
    case StageBundle => Stage(s, id, nm.stage(name, run.pid, next), run.release.bundle, RenameBundle(next))
    case RenameBundle(n) => SetPc(s.(files := Renamed(s.files, nm.stage(name, run.pid, n), name)), id, List)
    case List => SetPc(s, id, Remove(Others(nm, s.files, name)))
    case Remove(_) => SetPc(s, id, StageWorker)
    case CheckWorker => SetPc(s, id, if nm.worker in s.files then Done else StageWorker)
    case StageWorker => Stage(s, id, nm.stage(nm.worker, run.pid, next), run.release.worker, RenameWorker(next))
    case RenameWorker(n) => SetPc(s.(files := Renamed(s.files, nm.stage(nm.worker, run.pid, n), nm.worker)), id, Done)
    case Done => s
  }

  // ----- callers whose bundles have one name

  /** Releases that share a bundle name: those with the same concatenation. */
  datatype Group = Group(name: string, releases: set<Release>)

  predicate BundleOf(g: Group, data: Bytes) { exists r :: r in g.releases && r.bundle == data }

  predicate WorkerOf(g: Group, data: Bytes) { exists r :: r in g.releases && r.worker == data }

  predicate Holds(pc: Pc) { pc.RenameBundle? || pc.RenameWorker? }

  /** The staging file that a run is about to rename, and what it must hold. */
  function Staged(nm: Naming, run: Run): string
    requires Holds(run.pc)
  {
    nm.stage(if run.pc.RenameBundle? then nm.bundle(run.release) else nm.worker, run.pid, run.pc.n)
  }

  function Data(run: Run): Bytes { if run.pc.RenameBundle? then run.release.bundle else run.release.worker }

  predicate Past(pc: Pc) { !pc.Check? && !pc.StageBundle? && !pc.RenameBundle? }

  ghost predicate RunOk(nm: Naming, g: Group, s: State, run: Run) {
    && run.release in g.releases
    && (Holds(run.pc) ==>
          && run.pc.n < Counter(s, run.pid)
          && Staged(nm, run) in s.files && s.files[Staged(nm, run)] == Data(run))
    && (run.pc.Remove? ==> forall n :: n in run.pc.todo ==> nm.isBundle(n) && n != g.name)
    && (Past(run.pc) ==> g.name in s.files)
  }

  /** No two runs share a process and a number. */
  predicate Apart(run: Run, other: Run) {
    Holds(run.pc) && Holds(other.pc) && run.pid == other.pid ==> run.pc.n != other.pc.n
  }

  predicate OwesWorker(pc: Pc) { pc.List? || pc.Remove? || pc.StageWorker? || pc.RenameWorker? }

  predicate OwesCleanup(pc: Pc, others: set<string>) { pc.List? || (pc.Remove? && others <= pc.todo) }

  predicate WorkerGood(nm: Naming, g: Group, files: Dir) { nm.worker in files && WorkerOf(g, files[nm.worker]) }

  ghost predicate RunsOk(nm: Naming, g: Group, s: State) {
    && (forall id :: id in s.runs ==> RunOk(nm, g, s, s.runs[id]))
    && (forall i, j :: i in s.runs && j in s.runs && i != j ==> Apart(s.runs[i], s.runs[j]))
  }

  /** Once the bundle is there, the pair is complete or some run is still going to complete it. */
  predicate Owed(nm: Naming, g: Group, s: State) {
    var name := g.name;
    name in s.files ==>
      && BundleOf(g, s.files[name])
      && (WorkerGood(nm, g, s.files) || exists id :: id in s.runs && OwesWorker(s.runs[id].pc))
      && (Others(nm, s.files, name) == {}
          || exists id :: id in s.runs && OwesCleanup(s.runs[id].pc, Others(nm, s.files, name)))
  }

  ghost predicate Inv(nm: Naming, g: Group, s: State) { RunsOk(nm, g, s) && Owed(nm, g, s) }

  /** What callers need of the names. */
  ghost predicate NamesOk(nm: Naming, g: Group) {
    && (forall r :: r in g.releases ==> nm.bundle(r) == g.name)
    && nm.isBundle(g.name) && !nm.isBundle(nm.worker)
    && (forall dest, pid, n :: !nm.isBundle(nm.stage(dest, pid, n)) && nm.stage(dest, pid, n) != nm.worker)
    && (forall dest, pid, n, dest', pid', n' ::
          (dest in {g.name, nm.worker} && dest' in {g.name, nm.worker}
           && nm.stage(dest, pid, n) == nm.stage(dest', pid', n'))
          ==> dest == dest' && pid == pid' && n == n')
  }

  /** The releases of the group, of which `r` is one, all have its name. */
  predicate Shares(digest: Digest, g: Group, r: Release) {
    r in g.releases && forall x :: x in g.releases ==> BundleName(digest, x) == g.name
  }

  lemma CacheNamesOk(digest: Digest, g: Group, r: Release)
    requires Ideal(digest) && Shares(digest, g, r)
    ensures NamesOk(CacheNames(digest), g)
  {
    var name := BundleName(digest, r);
    BundleNames(digest, r);
    forall dest, pid: nat, n: nat
      ensures !IsBundle(Staging(dest, pid, n)) && Staging(dest, pid, n) != WORKER
    {
      StagingIsOther(digest, dest, Caller(pid, n), r);
    }
    var base := "frontend-" + digest(r.bundle + r.worker);
    assert '.' !in base && name == base + ".js";
    forall dest, pid: nat, n: nat, dest', pid': nat, n': nat |
      dest in {name, WORKER} && dest' in {name, WORKER} && Staging(dest, pid, n) == Staging(dest', pid', n')
      ensures dest == dest' && pid == pid' && n == n'
    {
      StagingOfScriptIsInjective(if dest == name then base else "worker", pid, n,
                                 if dest' == name then base else "worker", pid', n');
    }
  }

  // ----- every step keeps the invariant

  /** A run is untouched by a step that keeps its staging file and the bundle, and returns no numbers. */
  lemma RunKept(nm: Naming, g: Group, s: State, s': State, run: Run)
    requires RunOk(nm, g, s, run)
    requires forall pid :: Counter(s, pid) <= Counter(s', pid)
    requires Holds(run.pc) ==> Staged(nm, run) in s'.files && s'.files[Staged(nm, run)] == s.files[Staged(nm, run)]
    requires g.name in s.files ==> g.name in s'.files
    ensures RunOk(nm, g, s', run)
  {
  }

  /** A step of one run leaves the others alone when it keeps their staging files. */
  lemma RunsKept(nm: Naming, g: Group, s: State, s': State, id: nat)
    requires RunsOk(nm, g, s)
    requires id in s'.runs && s'.runs == s.runs[id := s'.runs[id]] && RunOk(nm, g, s', s'.runs[id])
    requires forall i :: i in s.runs && i != id ==> Apart(s'.runs[id], s.runs[i]) && Apart(s.runs[i], s'.runs[id])
    requires forall pid :: Counter(s, pid) <= Counter(s', pid)
    requires forall i :: i in s.runs && i != id && Holds(s.runs[i].pc) ==>
               && Staged(nm, s.runs[i]) in s'.files
               && s'.files[Staged(nm, s.runs[i])] == s.files[Staged(nm, s.runs[i])]
    requires g.name in s.files ==> g.name in s'.files
    ensures RunsOk(nm, g, s')
  {
    forall i | i in s'.runs
      ensures RunOk(nm, g, s', s'.runs[i])
    {
      if i != id {
        RunKept(nm, g, s, s', s.runs[i]);
      }
    }
  }

  /** Two runs of the group never hold the same staging file. */
  lemma StagedApart(nm: Naming, g: Group, run: Run, other: Run)
    requires NamesOk(nm, g) && run.release in g.releases && other.release in g.releases
    requires Holds(run.pc) && Holds(other.pc) && Apart(run, other)
    ensures Staged(nm, run) != Staged(nm, other)
  {
  }

  /** Debts survive a step that changes one run and adds nothing to clean. */
  lemma OwedKept(nm: Naming, g: Group, s: State, s': State, id: nat)
    requires Owed(nm, g, s) && g.name in s.files
    requires g.name in s'.files && BundleOf(g, s'.files[g.name])
    requires id in s'.runs && s'.runs == s.runs[id := s'.runs[id]]
    requires WorkerGood(nm, g, s.files) ==> WorkerGood(nm, g, s'.files)
    requires id in s.runs && OwesWorker(s.runs[id].pc) ==> OwesWorker(s'.runs[id].pc) || WorkerGood(nm, g, s'.files)
    requires Others(nm, s'.files, g.name) <= Others(nm, s.files, g.name)
    requires id in s.runs && OwesCleanup(s.runs[id].pc, Others(nm, s.files, g.name)) ==>
               || OwesCleanup(s'.runs[id].pc, Others(nm, s'.files, g.name))
               || Others(nm, s'.files, g.name) == {}
    ensures Owed(nm, g, s')
  {
    var name := g.name;
    var before, after := Others(nm, s.files, name), Others(nm, s'.files, name);
    if !WorkerGood(nm, g, s'.files) {
      var i :| i in s.runs && OwesWorker(s.runs[i].pc);
      assert i in s'.runs && OwesWorker(s'.runs[i].pc);
    }
    if after != {} {
      var i :| i in s.runs && OwesCleanup(s.runs[i].pc, before);
      assert i in s'.runs && OwesCleanup(s'.runs[i].pc, after);
    }
  }

  /** Entering, looking and listing change no file. */
  lemma QuietStep(nm: Naming, g: Group, s: State, id: nat)
    requires NamesOk(nm, g) && Inv(nm, g, s) && id in s.runs
    requires s.runs[id].pc in {Check, List, CheckWorker} || s.runs[id].pc == Remove({})
    ensures Inv(nm, g, ApplyGo(nm, s, id))
  {
    var s' := ApplyGo(nm, s, id);
    RunsKept(nm, g, s, s', id);
    if g.name in s.files {
      OwedKept(nm, g, s, s', id);
    }
  }

  lemma EnterStep(nm: Naming, g: Group, s: State, id: nat, pid: nat, r: Release)
    requires Inv(nm, g, s) && id !in s.runs && r in g.releases
    ensures Inv(nm, g, Apply(nm, s, Enter(id, pid, r)))
  {
    var s' := Apply(nm, s, Enter(id, pid, r));
    RunsKept(nm, g, s, s', id);
    if g.name in s.files {
      OwedKept(nm, g, s, s', id);
    }
  }

  lemma StageStep(nm: Naming, g: Group, s: State, id: nat)
    requires NamesOk(nm, g) && Inv(nm, g, s) && id in s.runs
    requires s.runs[id].pc in {StageBundle, StageWorker}
    ensures Inv(nm, g, ApplyGo(nm, s, id))
  {
    var s' := ApplyGo(nm, s, id);
    var run := s'.runs[id];
    forall i | i in s.runs && i != id && Holds(s.runs[i].pc)
      ensures Apart(run, s.runs[i]) && Staged(nm, s.runs[i]) != Staged(nm, run)
    {
      StagedApart(nm, g, run, s.runs[i]);
    }
    RunsKept(nm, g, s, s', id);
    if g.name in s.files {
      StagedIsNew(nm, g, s, Staged(nm, run), Data(run));
      OwedKept(nm, g, s, s', id);
    }
  }

  lemma StagedIsNew(nm: Naming, g: Group, s: State, tmp: string, data: Bytes)
    requires NamesOk(nm, g) && !nm.isBundle(tmp)
    ensures Others(nm, s.files[tmp := data], g.name) == Others(nm, s.files, g.name)
    ensures tmp != g.name
  {
  }

  lemma RenameStep(nm: Naming, g: Group, s: State, id: nat)
    requires NamesOk(nm, g) && Inv(nm, g, s) && id in s.runs && Holds(s.runs[id].pc)
    ensures Inv(nm, g, ApplyGo(nm, s, id))
  {
    var s', run, name := ApplyGo(nm, s, id), s.runs[id], g.name;
    forall i | i in s.runs && i != id && Holds(s.runs[i].pc)
      ensures Staged(nm, s.runs[i]) != Staged(nm, run)
    {
      StagedApart(nm, g, run, s.runs[i]);
    }
    RunsKept(nm, g, s, s', id);
    assert s'.runs[id].pc.List? || WorkerGood(nm, g, s'.files);
    assert Others(nm, s'.files, name) == Others(nm, s.files, name);
    if name in s.files {
      OwedKept(nm, g, s, s', id);
    }
  }

  lemma UnlinkStep(nm: Naming, g: Group, s: State, id: nat, x: string)
    requires NamesOk(nm, g) && Inv(nm, g, s) && Enabled(s, Unlink(id, x))
    ensures Inv(nm, g, Apply(nm, s, Unlink(id, x)))
  {
    var s' := Apply(nm, s, Unlink(id, x));
    RunsKept(nm, g, s, s', id);
    assert Others(nm, s'.files, g.name) == Others(nm, s.files, g.name) - {x};
    OwedKept(nm, g, s, s', id);
  }

  // ----- whole runs

  predicate Enters(a: Action, releases: set<Release>) { a.Enter? ==> a.release in releases }

  lemma StepKeepsInv(nm: Naming, g: Group, s: State, a: Action)
    requires NamesOk(nm, g) && Inv(nm, g, s) && Enabled(s, a) && Enters(a, g.releases)
    ensures Inv(nm, g, Apply(nm, s, a))
  {
    match a {
      case Enter(id, pid, r) => EnterStep(nm, g, s, id, pid, r);
      case Unlink(id, name) => UnlinkStep(nm, g, s, id, name);
      case Go(id) =>
        if Holds(s.runs[id].pc) {
          RenameStep(nm, g, s, id);
        } else if s.runs[id].pc in {StageBundle, StageWorker} {
          StageStep(nm, g, s, id);
        } else {
          QuietStep(nm, g, s, id);
        }
    }
  }

  /** `trace` is a run of the system: each state follows from the one before it by one action. */
  ghost predicate IsTrace(nm: Naming, trace: seq<State>, actions: seq<Action>) {
    && |trace| == |actions| + 1
    && forall i :: 0 <= i < |actions| ==>
         Enabled(trace[i], actions[i]) && trace[i + 1] == Apply(nm, trace[i], actions[i])
  }

  predicate OnlyEnter(actions: seq<Action>, releases: set<Release>) {
    forall i :: 0 <= i < |actions| ==> Enters(actions[i], releases)
  }

  /** One bundle, of the group's name and one of its contents, and a worker of the group. */
  predicate Paired(nm: Naming, g: Group, files: Dir) {
    && g.name in files && BundleOf(g, files[g.name])
    && WorkerGood(nm, g, files)
    && Others(nm, files, g.name) == {}
  }

  lemma {:induction false} TraceKeepsInv(nm: Naming, g: Group, trace: seq<State>, actions: seq<Action>, k: nat)
    requires NamesOk(nm, g) && IsTrace(nm, trace, actions) && Inv(nm, g, trace[0])
    requires OnlyEnter(actions, g.releases) && k < |trace|
    ensures Inv(nm, g, trace[k])
  {
    if k > 0 {
      TraceKeepsInv(nm, g, trace, actions, k - 1);
      StepKeepsInv(nm, g, trace[k - 1], actions[k - 1]);
    }
  }

  predicate AllDone(s: State) { s.runs != map[] && forall id :: id in s.runs ==> s.runs[id].pc.Done? }

  /**
   Any number of callers of releases that share a name, in any interleaving, from a cache that lacks the bundle or
   already holds a pair: whenever all have finished there is exactly one bundle, with a caller's contents, and a
   caller's worker.
   */
  lemma CallersOfOneNamePair(digest: Digest, g: Group, r: Release, trace: seq<State>, actions: seq<Action>, k: nat)
    requires Ideal(digest) && Shares(digest, g, r) && IsTrace(CacheNames(digest), trace, actions)
    requires trace[0].runs == map[]
    requires g.name in trace[0].files ==> Paired(CacheNames(digest), g, trace[0].files)
    requires OnlyEnter(actions, g.releases) && k < |trace| && AllDone(trace[k])
    ensures Paired(CacheNames(digest), g, trace[k].files)
  {
    CacheNamesOk(digest, g, r);
    TraceKeepsInv(CacheNames(digest), g, trace, actions, k);
    var id :| id in trace[k].runs;
    assert RunOk(CacheNames(digest), g, trace[k], trace[k].runs[id]);
  }

  /** The cache holds this release's pair and no other bundle. */
  predicate HoldsPair(digest: Digest, r: Release, files: Dir) {
    && BundleName(digest, r) in files && files[BundleName(digest, r)] == r.bundle
    && WORKER in files && files[WORKER] == r.worker
    && forall n :: n in files && IsBundle(n) ==> n == BundleName(digest, r)
  }

  lemma HoldsPairIff(digest: Digest, r: Release, files: Dir)
    ensures HoldsPair(digest, r, files) <==> Paired(CacheNames(digest), Group(BundleName(digest, r), {r}), files)
  {
    var g := Group(BundleName(digest, r), {r});
    assert forall data :: BundleOf(g, data) <==> data == r.bundle;
    assert forall data :: WorkerOf(g, data) <==> data == r.worker;
    var others := Others(CacheNames(digest), files, g.name);
    assert others == {} <==> forall n :: n in files && IsBundle(n) ==> n == g.name by {
      assert forall n :: n in others <==> n in files && n != g.name && IsBundle(n);
    }
  }

  /** With one release, the pair is that release's. */
  lemma CallersOfOneReleasePair(digest: Digest, r: Release, trace: seq<State>, actions: seq<Action>, k: nat)
    requires Ideal(digest) && IsTrace(CacheNames(digest), trace, actions)
    requires trace[0].runs == map[]
    requires BundleName(digest, r) in trace[0].files ==> HoldsPair(digest, r, trace[0].files)
    requires OnlyEnter(actions, {r}) && k < |trace| && AllDone(trace[k])
    ensures HoldsPair(digest, r, trace[k].files)
  {
    HoldsPairIff(digest, r, trace[0].files);
    HoldsPairIff(digest, r, trace[k].files);
    CallersOfOneNamePair(digest, Group(BundleName(digest, r), {r}), r, trace, actions, k);
  }

  // ----- callers of two releases

  /** Two callers, in processes 0 and 1, that have drawn the same number of staging names. */
  function Two(files: Dir, drawn: nat, a: Release, b: Release, p: Pc, q: Pc): State {
    State(files, map[0 := drawn, 1 := drawn], map[0 := Run(0, a, p), 1 := Run(1, b, q)])
  }

  /** A run of callers of `a` and `b`. */
  ghost predicate Of(nm: Naming, a: Release, b: Release, trace: seq<State>, actions: seq<Action>) {
    IsTrace(nm, trace, actions) && OnlyEnter(actions, {a, b})
  }

  lemma Extend(nm: Naming, a: Release, b: Release, trace: seq<State>, actions: seq<Action>, act: Action)
    returns (trace': seq<State>, actions': seq<Action>)
    requires Of(nm, a, b, trace, actions) && Enabled(trace[|actions|], act) && Enters(act, {a, b})
    ensures Of(nm, a, b, trace', actions') && trace'[0] == trace[0]
    ensures trace'[|actions'|] == Apply(nm, trace[|actions|], act)
  {
    trace', actions' := trace + [Apply(nm, trace[|actions|], act)], actions + [act];
  }

  /** Both callers take one step, `first` before the other. */
  lemma BothGo(nm: Naming, a: Release, b: Release, trace: seq<State>, actions: seq<Action>, first: nat, t: State)
    returns (trace': seq<State>, actions': seq<Action>)
    requires Of(nm, a, b, trace, actions) && first <= 1
    requires Enabled(trace[|actions|], Go(first)) && Enabled(Apply(nm, trace[|actions|], Go(first)), Go(1 - first))
    requires t == Apply(nm, Apply(nm, trace[|actions|], Go(first)), Go(1 - first))
    ensures Of(nm, a, b, trace', actions') && trace'[0] == trace[0] && trace'[|actions'|] == t
  {
    trace', actions' := Extend(nm, a, b, trace, actions, Go(first));
    trace', actions' := Extend(nm, a, b, trace', actions', Go(1 - first));
  }

  /** Staging names of the two callers, and the names they are renamed to. */
  ghost predicate TwoNames(nm: Naming, a: Release, b: Release) {
    var A, B := nm.bundle(a), nm.bundle(b);
    && nm.isBundle(A) && nm.isBundle(B) && !nm.isBundle(nm.worker)
    && (forall dest, pid, n :: !nm.isBundle(nm.stage(dest, pid, n)) && nm.stage(dest, pid, n) != nm.worker)
    && nm.stage(A, 0, 0) != nm.stage(B, 1, 0) && nm.stage(nm.worker, 0, 1) != nm.stage(nm.worker, 1, 1)
  }

  lemma SetEach(s: State, a: Release, b: Release, p: Pc, q: Pc, p': Pc, q': Pc)
    requires s.runs == map[0 := Run(0, a, p), 1 := Run(1, b, q)]
    ensures SetPc(s, 0, p').runs == map[0 := Run(0, a, p'), 1 := Run(1, b, q)]
    ensures SetPc(s, 1, q').runs == map[0 := Run(0, a, p), 1 := Run(1, b, q')]
  {
  }

  lemma BothPoint(s: State, a: Release, b: Release, p: Pc, q: Pc, p': Pc, q': Pc)
    requires s.runs == map[0 := Run(0, a, p), 1 := Run(1, b, q)]
    ensures SetPc(SetPc(s, 0, p'), 1, q') == s.(runs := map[0 := Run(0, a, p'), 1 := Run(1, b, q')])
  {
    SetEach(s, a, b, p, q, p', q);
    SetEach(SetPc(s, 0, p'), a, b, p', q, p', q');
  }

  lemma BothStaged(files: Dir, drawn: nat, a: Release, b: Release, p: Pc, q: Pc,
                   x: string, xs: Bytes, p': Pc, y: string, ys: Bytes, q': Pc)
    ensures Stage(Stage(Two(files, drawn, a, b, p, q), 0, x, xs, p'), 1, y, ys, q')
            == Two(files[x := xs][y := ys], drawn + 1, a, b, p', q')
  {
    var s := Two(files, drawn, a, b, p, q);
    var t := s.(files := files[x := xs], counters := s.counters[0 := drawn + 1]);
    SetEach(t, a, b, p, q, p', q);
    var u := SetPc(t, 0, p');
    SetEach(u.(files := u.files[y := ys], counters := u.counters[1 := drawn + 1]), a, b, p', q, p', q');
    assert u.counters[1 := drawn + 1] == map[0 := drawn + 1, 1 := drawn + 1];
  }

  /** Caller 0 leaves `once`, then caller 1 leaves `both`. */
  lemma FilesInTurn(s: State, a: Release, b: Release, p: Pc, q: Pc, once: Dir, both: Dir, p': Pc, q': Pc)
    requires s.runs == map[0 := Run(0, a, p), 1 := Run(1, b, q)]
    ensures var t := SetPc(s.(files := once), 0, p');
            && 1 in t.runs && t.runs[1] == s.runs[1]
            && SetPc(t.(files := both), 1, q') == s.(files := both, runs := map[0 := Run(0, a, p'), 1 := Run(1, b, q')])
  {
    SetEach(s.(files := once), a, b, p, q, p', q);
    var t := SetPc(s.(files := once), 0, p');
    SetEach(t.(files := both), a, b, p', q, p', q');
  }

  /** The same with caller 1 first. */
  lemma FilesInTurnBack(s: State, a: Release, b: Release, p: Pc, q: Pc, once: Dir, both: Dir, p': Pc, q': Pc)
    requires s.runs == map[0 := Run(0, a, p), 1 := Run(1, b, q)]
    ensures var t := SetPc(s.(files := once), 1, q');
            && 0 in t.runs && t.runs[0] == s.runs[0]
            && SetPc(t.(files := both), 0, p') == s.(files := both, runs := map[0 := Run(0, a, p'), 1 := Run(1, b, q')])
  {
    SetEach(s.(files := once), a, b, p, q, p, q');
    var t := SetPc(s.(files := once), 1, q');
    SetEach(t.(files := both), a, b, p, q', p', q');
  }

  const EMPTY := State(map[], map[0 := 0, 1 := 0], map[])

  /** Both enter. */
  lemma BothEnter(nm: Naming, a: Release, b: Release) returns (trace: seq<State>, actions: seq<Action>)
    ensures Of(nm, a, b, trace, actions) && trace[0] == EMPTY
    ensures trace[|actions|] == Two(map[], 0, a, b, Check, Check)
  {
    trace, actions := [EMPTY], [];
    trace, actions := Extend(nm, a, b, trace, actions, Enter(0, 0, a));
    trace, actions := Extend(nm, a, b, trace, actions, Enter(1, 1, b));
    assert map[0 := Run(0, a, Check)][1 := Run(1, b, Check)] == map[0 := Run(0, a, Check), 1 := Run(1, b, Check)];
  }

  /** Both find no bundle of theirs and write it. */
  lemma BothStage(nm: Naming, a: Release, b: Release) returns (trace: seq<State>, actions: seq<Action>)
    requires TwoNames(nm, a, b)
    ensures Of(nm, a, b, trace, actions) && trace[0] == EMPTY
    ensures trace[|actions|]
            == Two(map[nm.stage(nm.bundle(a), 0, 0) := a.bundle, nm.stage(nm.bundle(b), 1, 0) := b.bundle], 1, a, b,
                   RenameBundle(0), RenameBundle(0))
  {
    trace, actions := BothEnter(nm, a, b);
    BothPoint(trace[|actions|], a, b, Check, Check, StageBundle, StageBundle);
    trace, actions := BothGo(nm, a, b, trace, actions, 0, Two(map[], 0, a, b, StageBundle, StageBundle));
    var x, y := nm.stage(nm.bundle(a), 0, 0), nm.stage(nm.bundle(b), 1, 0);
    BothStaged(map[], 0, a, b, StageBundle, StageBundle, x, a.bundle, RenameBundle(0), y, b.bundle, RenameBundle(0));
    trace, actions := BothGo(nm, a, b, trace, actions, 0,
      Two(map[][x := a.bundle][y := b.bundle], 1, a, b, RenameBundle(0), RenameBundle(0)));
    assert map[][x := a.bundle][y := b.bundle] == map[x := a.bundle, y := b.bundle];
  }

  /** Both publish, `a` first; under one name `b` overwrites it. */
  lemma BothPublish(nm: Naming, a: Release, b: Release) returns (trace: seq<State>, actions: seq<Action>)
    requires TwoNames(nm, a, b)
    ensures Of(nm, a, b, trace, actions) && trace[0] == EMPTY
    ensures trace[|actions|]
            == Two(map[nm.bundle(a) := a.bundle][nm.bundle(b) := b.bundle], 1, a, b, List, List)
  {
    var A, B := nm.bundle(a), nm.bundle(b);
    var x, y := nm.stage(A, 0, 0), nm.stage(B, 1, 0);
    assert !nm.isBundle(x) && !nm.isBundle(y);
    trace, actions := BothStage(nm, a, b);
    var files := trace[|actions|].files;
    var once, both := Renamed(files, x, A), Renamed(Renamed(files, x, A), y, B);
    assert once == map[y := b.bundle, A := a.bundle] && both == map[A := a.bundle][B := b.bundle];
    FilesInTurn(trace[|actions|], a, b, RenameBundle(0), RenameBundle(0), once, both, List, List);
    trace, actions := BothGo(nm, a, b, trace, actions, 0, Two(both, 1, a, b, List, List));
  }

  // ----- different names

  /** Each removes the other's bundle. */
  lemma BothClean(nm: Naming, a: Release, b: Release) returns (trace: seq<State>, actions: seq<Action>)
    requires TwoNames(nm, a, b) && nm.bundle(a) != nm.bundle(b)
    ensures Of(nm, a, b, trace, actions) && trace[0] == EMPTY
    ensures trace[|actions|] == Two(map[], 1, a, b, StageWorker, StageWorker)
  {
    var A, B := nm.bundle(a), nm.bundle(b);
    trace, actions := BothPublish(nm, a, b);
    var files := trace[|actions|].files;
    assert Others(nm, files, A) == {B} && Others(nm, files, B) == {A};
    BothPoint(trace[|actions|], a, b, List, List, Remove({B}), Remove({A}));
    trace, actions := BothGo(nm, a, b, trace, actions, 0, Two(files, 1, a, b, Remove({B}), Remove({A})));
    UnlinkEach(nm, trace[|actions|], a, b, A, B);
    trace, actions := Extend(nm, a, b, trace, actions, Unlink(0, B));
    trace, actions := Extend(nm, a, b, trace, actions, Unlink(1, A));
    assert files - {B} - {A} == map[];
    BothPoint(trace[|actions|], a, b, Remove({}), Remove({}), StageWorker, StageWorker);
    trace, actions := BothGo(nm, a, b, trace, actions, 0, Two(map[], 1, a, b, StageWorker, StageWorker));
  }

  lemma UnlinkEach(nm: Naming, s: State, a: Release, b: Release, A: string, B: string)
    requires s.runs == map[0 := Run(0, a, Remove({B})), 1 := Run(1, b, Remove({A}))]
    ensures var t := Apply(nm, s, Unlink(0, B));
            && Enabled(t, Unlink(1, A))
            && Apply(nm, t, Unlink(1, A))
               == s.(files := s.files - {B} - {A}, runs := map[0 := Run(0, a, Remove({})), 1 := Run(1, b, Remove({}))])
  {
    assert {B} - {B} == {} && {A} - {A} == {};
    SetEach(s.(files := s.files - {B}), a, b, Remove({B}), Remove({A}), Remove({}), Remove({A}));
    var t := Apply(nm, s, Unlink(0, B));
    SetEach(t.(files := t.files - {A}), a, b, Remove({}), Remove({A}), Remove({}), Remove({}));
  }

  // ----- the workers

  /** Both write the worker; `b` renames first, so that the worker of `a` stays. */
  lemma BothFinish(nm: Naming, a: Release, b: Release, trace: seq<State>, actions: seq<Action>, files: Dir)
    returns (trace': seq<State>, actions': seq<Action>)
    requires TwoNames(nm, a, b) && Of(nm, a, b, trace, actions) && trace[0] == EMPTY
    requires trace[|actions|] == Two(files, 1, a, b, StageWorker, StageWorker)
    requires forall n :: n in files ==> nm.isBundle(n)
    ensures Of(nm, a, b, trace', actions') && trace'[0] == EMPTY
    ensures trace'[|actions'|] == Two(files[nm.worker := a.worker], 2, a, b, Done, Done)
  {
    var w, x, y := nm.worker, nm.stage(nm.worker, 0, 1), nm.stage(nm.worker, 1, 1);
    BothStaged(files, 1, a, b, StageWorker, StageWorker, x, a.worker, RenameWorker(1), y, b.worker, RenameWorker(1));
    var staged: Dir := files[x := a.worker][y := b.worker];
    trace', actions' := BothGo(nm, a, b, trace, actions, 0, Two(staged, 2, a, b, RenameWorker(1), RenameWorker(1)));
    WorkersInTurn(files, w, x, a.worker, y, b.worker);
    var once, both := Renamed(staged, y, w), Renamed(Renamed(staged, y, w), x, w);
    FilesInTurnBack(trace'[|actions'|], a, b, RenameWorker(1), RenameWorker(1), once, both, Done, Done);
    trace', actions' := BothGo(nm, a, b, trace', actions', 1, Two(both, 2, a, b, Done, Done));
  }

  lemma WorkersInTurn(files: Dir, w: string, x: string, xs: Bytes, y: string, ys: Bytes)
    requires x != y && x != w && y != w && x !in files && y !in files
    ensures Renamed(Renamed(files[x := xs][y := ys], y, w), x, w) == files[w := xs]
  {
    var once := Renamed(files[x := xs][y := ys], y, w);
    assert once == files[x := xs][w := ys];
    assert files[x := xs][w := ys] - {x} == files[w := ys];
  }

  // ----- what two releases leave behind

  /** Callers of `a` and `b` on an empty cache, all of them finished. */
  ghost predicate Finished(digest: Digest, a: Release, b: Release, trace: seq<State>, actions: seq<Action>) {
    && Of(CacheNames(digest), a, b, trace, actions)
    && trace[0].files == map[] && trace[0].runs == map[] && AllDone(trace[|actions|])
  }

  lemma CacheTwoNames(digest: Digest, a: Release, b: Release)
    requires Ideal(digest)
    ensures TwoNames(CacheNames(digest), a, b)
  {
    BundleNames(digest, a);
    BundleNames(digest, b);
    forall dest, pid: nat, n: nat
      ensures !IsBundle(Staging(dest, pid, n)) && Staging(dest, pid, n) != WORKER
    {
      StagingIsOther(digest, dest, Caller(pid, n), a);
    }
    StagesOfTwo("frontend-" + digest(a.bundle + a.worker), "frontend-" + digest(b.bundle + b.worker), 0);
    StagesOfTwo("worker", "worker", 1);
  }

  lemma StagesOfTwo(x: string, y: string, n: nat)
    requires '.' !in x && '.' !in y
    ensures Staging(x + ".js", 0, n) != Staging(y + ".js", 1, n)
  {
    if Staging(x + ".js", 0, n) == Staging(y + ".js", 1, n) {
      StagingOfScriptIsInjective(x, 0, n, y, 1, n);
    }
  }

  lemma BothDone(files: Dir, a: Release, b: Release)
    ensures AllDone(Two(files, 2, a, b, Done, Done))
  {
    assert 0 in Two(files, 2, a, b, Done, Done).runs;
  }

  /** Two releases that start together on an empty cache can both succeed and leave no bundle at all. */
  lemma RacingReleasesLoseBoth(digest: Digest, a: Release, b: Release)
    returns (trace: seq<State>, actions: seq<Action>)
    requires Ideal(digest) && BundleName(digest, a) != BundleName(digest, b)
    ensures Finished(digest, a, b, trace, actions)
    ensures forall name :: name in trace[|actions|].files ==> !IsBundle(name)
  {
    var nm := CacheNames(digest);
    CacheTwoNames(digest, a, b);
    trace, actions := BothClean(nm, a, b);
    trace, actions := BothFinish(nm, a, b, trace, actions, map[]);
    BothDone(map[][nm.worker := a.worker], a, b);
    BundleNames(digest, a);
  }

  /** Two releases of one name can leave the bundle of one beside the worker of the other. */
  lemma RacingReleasesMix(digest: Digest, a: Release, b: Release)
    returns (trace: seq<State>, actions: seq<Action>)
    requires Ideal(digest) && BundleName(digest, a) == BundleName(digest, b)
    ensures Finished(digest, a, b, trace, actions)
    ensures trace[|actions|].files == map[BundleName(digest, a) := b.bundle, WORKER := a.worker]
  {
    var nm, A := CacheNames(digest), BundleName(digest, a);
    CacheTwoNames(digest, a, b);
    trace, actions := BothPublish(nm, a, b);
    var files: Dir := map[A := b.bundle];
    assert map[A := a.bundle][A := b.bundle] == files;
    assert Others(nm, files, A) == {};
    BothPoint(trace[|actions|], a, b, List, List, Remove({}), Remove({}));
    trace, actions := BothGo(nm, a, b, trace, actions, 0, Two(files, 1, a, b, Remove({}), Remove({})));
    BothPoint(trace[|actions|], a, b, Remove({}), Remove({}), StageWorker, StageWorker);
    trace, actions := BothGo(nm, a, b, trace, actions, 0, Two(files, 1, a, b, StageWorker, StageWorker));
    trace, actions := BothFinish(nm, a, b, trace, actions, files);
    BothDone(files[WORKER := a.worker], a, b);
    assert files[WORKER := a.worker] == map[A := b.bundle, WORKER := a.worker];
  }

  /** Every finished run leaves some bundle. */
  ghost predicate AlwaysLeavesBundle(digest: Digest, a: Release, b: Release) {
    forall trace: seq<State>, actions: seq<Action> :: Finished(digest, a, b, trace, actions) ==>
      exists n :: n in trace[|actions|].files && IsBundle(n)
  }

  /** Every finished run leaves the pair of one of the two releases. */
  ghost predicate AlwaysLeavesPair(digest: Digest, a: Release, b: Release) {
    forall trace: seq<State>, actions: seq<Action> :: Finished(digest, a, b, trace, actions) ==>
      HoldsPair(digest, a, trace[|actions|].files) || HoldsPair(digest, b, trace[|actions|].files)
  }

  lemma LeavesBundleIff(digest: Digest, a: Release, b: Release)
    requires Ideal(digest)
    ensures AlwaysLeavesBundle(digest, a, b) <==> BundleName(digest, a) == BundleName(digest, b)
  {
    if BundleName(digest, a) == BundleName(digest, b) {
      var g := Group(BundleName(digest, a), {a, b});
      BundleNames(digest, a);
      forall trace: seq<State>, actions: seq<Action> | Finished(digest, a, b, trace, actions)
        ensures exists n :: n in trace[|actions|].files && IsBundle(n)
      {
        CallersOfOneNamePair(digest, g, a, trace, actions, |actions|);
        assert g.name in trace[|actions|].files;
      }
    } else {
      var trace, actions := RacingReleasesLoseBoth(digest, a, b);
    }
  }

  lemma LeavesPairIff(digest: Digest, a: Release, b: Release)
    requires Ideal(digest)
    ensures AlwaysLeavesPair(digest, a, b)
            <==> BundleName(digest, a) == BundleName(digest, b) && |a.bundle| == |b.bundle|
  {
    if BundleName(digest, a) != BundleName(digest, b) {
      var trace, actions := RacingReleasesLoseBoth(digest, a, b);
      BundleNames(digest, a);
      BundleNames(digest, b);
    } else if |a.bundle| == |b.bundle| {
      SameNameSamePairIff(digest, a, b);
      forall trace: seq<State>, actions: seq<Action> | Finished(digest, a, b, trace, actions)
        ensures HoldsPair(digest, a, trace[|actions|].files)
      {
        assert {a, b} == {a};
        CallersOfOneReleasePair(digest, a, trace, actions, |actions|);
      }
    } else {
      NamesDiffer(digest, a, b);
      assert |a.bundle + a.worker| == |b.bundle + b.worker|;
      var trace, actions := RacingReleasesMix(digest, a, b);
      assert trace[|actions|].files[BundleName(digest, a)] == b.bundle && trace[|actions|].files[WORKER] == a.worker;
    }
  }
}
