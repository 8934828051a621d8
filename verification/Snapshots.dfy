/**
 The shared examples checkout and its commit-named snapshots: every process works under one
 exclusive lock and may be killed at any point (scripts/examples_checkout.py).
 */
module Snapshots {
  import opened Json
  import opened Names

  type Commit = nat

  type Files = map<string, Bytes>

  /**
   Git, of which nothing is assumed: the tree of each commit, and whether the files of a repository serve a commit,
   that is, whether `git status` and the like work in it. A stricter reading, that no file at all is missing, is the
   instance in which `serves` is equality with one repository for each commit.
   */
  datatype Git = Git(trees: Commit -> Files, serves: (Commit, Files) -> bool)

  /** A directory made by `git clone`: the files in its `.git`, if that is there, and the files of the worktree. */
  datatype Clone = Clone(repo: Option<Files>, files: Files)

  /** The file in `.git` that says the worktree is read-only already; Git does not know of it. */
  const MARKER := ".shatter-read-only-v1"

  function Marked(d: Clone, text: Bytes): Clone
    requires d.repo.Some?
  {
    d.(repo := Some(d.repo.value[MARKER := text]))
  }

  /** What a clone holds apart from the marker. */
  function Bare(d: Clone): Clone { if d.repo.None? then d else d.(repo := Some(d.repo.value - {MARKER})) }

  /** Entries of the snapshot cache: named by a commit, or staged under a name that begins with a dot. */
  datatype Root = Published(commit: Commit) | Staged(id: nat)

  /** The shared checkout: whether it has a `.git`, and the commit Git finds in it, if any. */
  datatype Checkout = Absent | There(git: bool, head: Option<Commit>)

  function Ready(c: Commit): Checkout { There(true, Some(c)) }

  datatype Request = Ensure(noUpdate: bool) | Cleanup

  /** What the holder of the lock is doing. */
  datatype Pc =
    | Begin(request: Request)
    | Cloning
    | Refreshing
    | Snapshot
    | Filling(id: nat, commit: Commit)
    | Publishing(id: nat, commit: Commit)
    | Marking(commit: Commit)
    | Returning(commit: Commit)
    | RemovingCheckout
    | RemovingCache

  datatype State = State(remote: Commit, checkout: Checkout, cache: map<Root, Clone>, holder: Option<Pc>)

  datatype Action =
    | Push(commit: Commit)                      // the remote branch moves
    | Acquire(request: Request)
    | Go(recent: bool, id: nat)                 // the holder's next step succeeds
    | Spoil(git: bool, head: Option<Commit>)    // cloning or removing the checkout gets part of the way
    | Part(left: Clone)                         // cloning a snapshot gets part of the way
    | Cloned(repo: Files, text: Bytes)          // it succeeds and the marker is written
    | Mark(text: Bytes)                         // some of the marker of a published entry is written
    | Shrink(root: Root, left: Clone)           // removal takes something out of one cache entry
    | Drop(root: Root)                          // removal finishes with one cache entry
    | Fail(kept: Option<Clone>)                 // an error the holder reports; of its staged clone something may stay
    | Crash                                     // the holder is killed; the lock is released, files stay

  /** The holder has a snapshot to mark, and its `.git` is there. */
  predicate MarksEntry(s: State, pc: Pc) {
    pc.Marking? && Published(pc.commit) in s.cache && s.cache[Published(pc.commit)].repo.Some?
  }

  predicate Enabled(git: Git, s: State, a: Action) {
    match a
    case Push(_) => true
    case Acquire(_) => s.holder.None?
    case Crash => s.holder.Some?
    case Fail(_) => s.holder.Some?
    case Spoil(_, _) => s.holder == Some(Cloning) || s.holder == Some(RemovingCheckout)
    case Part(_) => s.holder.Some? && s.holder.value.Filling?
    case Cloned(repo, _) =>
      s.holder.Some? && s.holder.value.Filling? && git.serves(s.holder.value.commit, repo - {MARKER})
    case Mark(_) =>
      && s.holder.Some? && MarksEntry(s, s.holder.value)
      && MARKER !in s.cache[Published(s.holder.value.commit)].repo.value
    case Shrink(root, left) => s.holder == Some(RemovingCache) && root in s.cache && Within(left, s.cache[root])
    case Drop(root) => s.holder == Some(RemovingCache) && root in s.cache
    case Go(recent, id) => s.holder.Some? && CanGo(s, s.holder.value, id)
  }

  predicate FilesWithin(left: Files, files: Files) {
    forall n :: n in left ==> n in files && left[n] == files[n]
  }

  predicate Within(left: Clone, d: Clone) {
    && (left.repo.Some? ==> d.repo.Some? && FilesWithin(left.repo.value, d.repo.value))
    && FilesWithin(left.files, d.files)
  }

  /** The checks that stop a holder with an error message. */
  predicate CanGo(s: State, pc: Pc, id: nat) {
    match pc
    case Begin(Ensure(_)) => s.checkout.Absent? || s.checkout.git
    case Snapshot =>
      && s.checkout.There? && s.checkout.git && s.checkout.head.Some?
      && var root := Published(s.checkout.head.value);
         if root in s.cache then s.cache[root].repo.Some? else Staged(id) !in s.cache
    case Filling(_, _) => false
    case Marking(c) => MarksEntry(s, pc) && MARKER in s.cache[Published(c)].repo.value
    case RemovingCache => s.cache == map[]
    case _ => true
  }

  function At(s: State, pc: Pc): State { s.(holder := Some(pc)) }

  function Apply(git: Git, s: State, a: Action): State
    requires Enabled(git, s, a)
  {
    match a
    case Push(c) => s.(remote := c)
    case Acquire(request) => At(s, Begin(request))
    case Crash => s.(holder := None)
    case Fail(kept) =>
      var pc := s.holder.value;
      s.(holder := None,
         cache := if !pc.Filling? && !pc.Publishing? then s.cache
                  else if kept.Some? then s.cache[Staged(pc.id) := kept.value]
                  else s.cache - {Staged(pc.id)})
    case Spoil(there, head) => s.(checkout := There(there, head))
    case Part(left) => s.(cache := s.cache[Staged(s.holder.value.id) := left])
    case Cloned(repo, text) =>
      var Filling(i, c) := s.holder.value;
      At(s.(cache := s.cache[Staged(i) := Marked(Clone(Some(repo), git.trees(c)), text)]), Publishing(i, c))
    case Mark(text) =>
      var root := Published(s.holder.value.commit);
      s.(cache := s.cache[root := Marked(s.cache[root], text)])
    case Shrink(root, left) => s.(cache := s.cache[root := left])
    case Drop(root) => s.(cache := s.cache - {root})
    case Go(recent, id) => ApplyGo(s, recent, id)
  }

  function ApplyGo(s: State, recent: bool, id: nat): State
    requires s.holder.Some? && CanGo(s, s.holder.value, id)
  {
    match s.holder.value
    case Begin(Ensure(noUpdate)) =>
      if s.checkout.Absent? then At(s.(checkout := There(false, None)), Cloning)
      else At(s, if noUpdate || recent then Snapshot else Refreshing)
    case Begin(Cleanup) => At(s, RemovingCheckout)
    case Cloning => At(s.(checkout := Ready(s.remote)), Snapshot)
    case Refreshing => At(s.(checkout := Ready(s.remote)), Snapshot)
    case Snapshot =>
      var c := s.checkout.head.value;
      if Published(c) in s.cache then At(s, Marking(c))
      else At(s.(cache := s.cache[Staged(id) := Clone(None, map[])]), Filling(id, c))
    case Publishing(i, c) =>
      if Staged(i) in s.cache
      then At(s.(cache := (s.cache - {Staged(i)})[Published(c) := s.cache[Staged(i)]]), Returning(c))
      else At(s, Returning(c))
    case Marking(c) => At(s, Returning(c))
    case Returning(_) => s.(holder := None)
    case RemovingCheckout => At(s.(checkout := Absent), RemovingCache)
    case RemovingCache => s.(holder := None)
  }

  // ----- what every step keeps

  /** The worktree is the commit's, and the repository serves the commit. */
  predicate Complete(git: Git, c: Commit, d: Clone) {
    d.repo.Some? && d.files == git.trees(c) && git.serves(c, d.repo.value - {MARKER})
  }

  /** No published entry has its `.git` without being complete. */
  predicate Safe(git: Git, cache: map<Root, Clone>) {
    forall r :: r in cache && r.Published? && cache[r].repo.Some? ==> Complete(git, r.commit, cache[r])
  }

  /** The staged clone is whole before it is published, and the slot it goes to is still free. */
  predicate HolderOk(git: Git, s: State) {
    match s.holder
    case None => true
    case Some(Filling(id, c)) => Published(c) !in s.cache
    case Some(Publishing(id, c)) =>
      Published(c) !in s.cache && Staged(id) in s.cache && Complete(git, c, s.cache[Staged(id)])
    case Some(Marking(c)) => Published(c) in s.cache && s.cache[Published(c)].repo.Some?
    case Some(Returning(c)) => Published(c) in s.cache && s.cache[Published(c)].repo.Some?
    case Some(RemovingCache) => s.checkout.Absent?
    case Some(_) => true
  }

  predicate Inv(git: Git, s: State) {
    HolderOk(git, s) && (s.holder == Some(RemovingCache) || Safe(git, s.cache))
  }

  /** The holder is killed or reports an error while it removes the cache. */
  predicate BreaksOff(s: State, a: Action) { (a.Crash? || a.Fail?) && s.holder == Some(RemovingCache) }

  lemma MarkKeepsBare(d: Clone, text: Bytes)
    requires d.repo.Some?
    ensures Bare(Marked(d, text)) == Bare(d)
  {
    assert d.repo.value[MARKER := text] - {MARKER} == d.repo.value - {MARKER};
  }

  /** Every other step keeps the invariant, and so does one that breaks off where no entry is half removed. */
  lemma StepKeepsInv(git: Git, s: State, a: Action)
    requires Inv(git, s) && Enabled(git, s, a)
    requires BreaksOff(s, a) ==> Safe(git, s.cache)
    ensures Inv(git, Apply(git, s, a))
  {
    if a.Cloned? {
      MarkKeepsBare(Clone(Some(a.repo), git.trees(s.holder.value.commit)), a.text);
    } else if a.Mark? {
      MarkKeepsBare(s.cache[Published(s.holder.value.commit)], a.text);
    }
  }

  // ----- whole runs

  function Start(remote: Commit): State { State(remote, Absent, map[], None) }

  ghost predicate IsTrace(git: Git, trace: seq<State>, actions: seq<Action>) {
    && |trace| == |actions| + 1
    && forall i :: 0 <= i < |actions| ==>
         Enabled(git, trace[i], actions[i]) && trace[i + 1] == Apply(git, trace[i], actions[i])
  }

  /** No removal of the cache is broken off half way through an entry. */
  ghost predicate TidyRun(git: Git, trace: seq<State>, actions: seq<Action>) {
    && |trace| == |actions| + 1
    && forall i :: 0 <= i < |actions| && BreaksOff(trace[i], actions[i]) ==> Safe(git, trace[i].cache)
  }

  lemma {:induction false} RunKeepsInv(git: Git, trace: seq<State>, actions: seq<Action>, k: nat)
    requires IsTrace(git, trace, actions) && TidyRun(git, trace, actions) && k < |trace|
    requires Inv(git, trace[0])
    ensures Inv(git, trace[k])
  {
    if k > 0 {
      RunKeepsInv(git, trace, actions, k - 1);
      StepKeepsInv(git, trace[k - 1], actions[k - 1]);
    }
  }

  /** Every path that is returned names a complete clone of the commit in its name. */
  lemma ReturnedIsComplete(git: Git, trace: seq<State>, actions: seq<Action>, k: nat, c: Commit)
    requires IsTrace(git, trace, actions) && TidyRun(git, trace, actions) && k < |trace|
    requires exists remote :: trace[0] == Start(remote)
    requires trace[k].holder == Some(Returning(c))
    ensures Published(c) in trace[k].cache && Complete(git, c, trace[k].cache[Published(c)])
  {
    RunKeepsInv(git, trace, actions, k);
  }

  /** Outside a removal no step changes what is under a commit's name, the marker apart. */
  lemma StepKeepsSnapshot(git: Git, s: State, a: Action, c: Commit)
    requires Inv(git, s) && Enabled(git, s, a) && s.holder != Some(RemovingCache) && Published(c) in s.cache
    ensures var s' := Apply(git, s, a);
            Published(c) in s'.cache && Bare(s'.cache[Published(c)]) == Bare(s.cache[Published(c)])
  {
    if a.Mark? && s.holder.value.commit == c {
      MarkKeepsBare(s.cache[Published(c)], a.text);
    }
  }

  lemma {:induction false} SnapshotIsStable(git: Git, trace: seq<State>, actions: seq<Action>, j: nat, k: nat,
                                            c: Commit)
    requires IsTrace(git, trace, actions) && TidyRun(git, trace, actions) && j <= k < |trace|
    requires Inv(git, trace[0]) && Published(c) in trace[j].cache
    requires forall i :: j <= i < k ==> trace[i].holder != Some(RemovingCache)
    ensures Published(c) in trace[k].cache && Bare(trace[k].cache[Published(c)]) == Bare(trace[j].cache[Published(c)])
    decreases k - j
  {
    if j < k {
      SnapshotIsStable(git, trace, actions, j, k - 1, c);
      RunKeepsInv(git, trace, actions, k - 1);
      StepKeepsSnapshot(git, trace[k - 1], actions[k - 1], c);
    }
  }

  // ----- interruptions and what later calls return

  /** A published entry that has lost something, from its worktree or inside its `.git`, and still has a `.git`. */
  predicate Gutted(git: Git, cache: map<Root, Clone>, c: Commit) {
    Published(c) in cache && cache[Published(c)].repo.Some? && !Complete(git, c, cache[Published(c)])
  }

  /** A run in which no removal is broken off. */
  ghost predicate Unbroken(git: Git, trace: seq<State>, actions: seq<Action>) {
    IsTrace(git, trace, actions) && forall i :: 0 <= i < |actions| ==> !BreaksOff(trace[i], actions[i])
  }

  /** The last state of the run returns an incomplete snapshot of `c`. */
  ghost predicate ReturnsIncomplete(git: Git, trace: seq<State>, actions: seq<Action>, c: Commit) {
    && Unbroken(git, trace, actions)
    && trace[|actions|].holder == Some(Returning(c))
    && Published(c) in trace[|actions|].cache && !Complete(git, c, trace[|actions|].cache[Published(c)])
  }

  /** From `s` some call can return an incomplete snapshot although no further removal is broken off. */
  ghost predicate CanReturnIncomplete(git: Git, s: State) {
    exists trace, actions, c :: ReturnsIncomplete(git, trace, actions, c) && trace[0] == s
  }

  lemma Extend(git: Git, trace: seq<State>, actions: seq<Action>, a: Action, t: State)
    returns (trace': seq<State>, actions': seq<Action>)
    requires Unbroken(git, trace, actions) && Enabled(git, trace[|actions|], a) && !BreaksOff(trace[|actions|], a)
    requires t == Apply(git, trace[|actions|], a)
    ensures Unbroken(git, trace', actions') && trace'[0] == trace[0] && trace'[|actions'|] == t
  {
    trace', actions' := trace + [t], actions + [a];
  }

  /** From a free lock and no checkout, a call for the remote's commit comes to what is published with a `.git`. */
  lemma CallFinds(git: Git, s: State, c: Commit) returns (trace: seq<State>, actions: seq<Action>)
    requires s.holder.None? && s.checkout.Absent? && Published(c) in s.cache && s.cache[Published(c)].repo.Some?
    ensures Unbroken(git, trace, actions) && trace[0] == s
    ensures trace[|actions|] == State(c, Ready(c), s.cache, Some(Marking(c)))
  {
    var go := Go(false, 0);
    trace, actions := [s], [];
    trace, actions := Extend(git, trace, actions, Push(c), State(c, Absent, s.cache, None));
    trace, actions := Extend(git, trace, actions, Acquire(Ensure(false)),
      State(c, Absent, s.cache, Some(Begin(Ensure(false)))));
    trace, actions := Extend(git, trace, actions, go, State(c, There(false, None), s.cache, Some(Cloning)));
    trace, actions := Extend(git, trace, actions, go, State(c, Ready(c), s.cache, Some(Snapshot)));
    trace, actions := Extend(git, trace, actions, go, State(c, Ready(c), s.cache, Some(Marking(c))));
  }

  /** And returns it, with a new marker where that is missing. */
  lemma CallReturns(git: Git, s: State, c: Commit) returns (trace: seq<State>, actions: seq<Action>)
    requires s.holder.None? && s.checkout.Absent? && Published(c) in s.cache && s.cache[Published(c)].repo.Some?
    ensures Unbroken(git, trace, actions) && trace[0] == s
    ensures var t := trace[|actions|];
            && t.holder == Some(Returning(c)) && Published(c) in t.cache
            && Bare(t.cache[Published(c)]) == Bare(s.cache[Published(c)])
  {
    trace, actions := CallFinds(git, s, c);
    var found := s.cache[Published(c)];
    var cache := s.cache;
    if MARKER !in found.repo.value {
      MarkKeepsBare(found, []);
      cache := s.cache[Published(c) := Marked(found, [])];
      trace, actions := Extend(git, trace, actions, Mark([]), State(c, Ready(c), cache, Some(Marking(c))));
    }
    trace, actions := Extend(git, trace, actions, Go(false, 0), State(c, Ready(c), cache, Some(Returning(c))));
  }

  /** From a state that meets the invariant no unbroken run returns an incomplete snapshot. */
  lemma InvReturnsComplete(git: Git, s: State)
    requires Inv(git, s)
    ensures !CanReturnIncomplete(git, s)
  {
    forall trace, actions, c | ReturnsIncomplete(git, trace, actions, c) && trace[0] == s
      ensures false
    {
      RunKeepsInv(git, trace, actions, |actions|);
    }
  }

  /**
   Exactly which interruptions do harm. Whatever the holder is doing when it is killed or fails, later calls can
   return an incomplete snapshot if and only if it was removing the cache and some entry had lost something, from
   its worktree or inside its `.git`, and not all of its `.git`.
   */
  lemma InterruptionHarmsIff(git: Git, s: State, a: Action)
    requires Inv(git, s) && Enabled(git, s, a) && (a.Crash? || a.Fail?)
    ensures CanReturnIncomplete(git, Apply(git, s, a))
            <==> s.holder == Some(RemovingCache) && exists c :: Gutted(git, s.cache, c)
  {
    var t := Apply(git, s, a);
    if s.holder == Some(RemovingCache) && exists c :: Gutted(git, s.cache, c) {
      var c :| Gutted(git, s.cache, c);
      var trace, actions := CallReturns(git, t, c);
      assert ReturnsIncomplete(git, trace, actions, c);
    } else {
      if s.holder == Some(RemovingCache) {
        NothingGutted(git, s.cache);
      }
      StepKeepsInv(git, s, a);
      InvReturnsComplete(git, t);
    }
  }

  lemma NothingGutted(git: Git, cache: map<Root, Clone>)
    requires !exists c :: Gutted(git, cache, c)
    ensures Safe(git, cache)
  {
    forall r | r in cache && r.Published? && cache[r].repo.Some?
      ensures Complete(git, r.commit, cache[r])
    {
      assert r == Published(r.commit);
      assert !Gutted(git, cache, r.commit);
    }
  }

  /** The snapshot that a first call publishes when `git clone` makes `repo`. */
  function Snapped(git: Git, c: Commit, repo: Files): Clone { Marked(Clone(Some(repo), git.trees(c)), []) }

  /** A first call clones the remote and begins to fill a snapshot. */
  lemma FirstClone(git: Git, c: Commit) returns (trace: seq<State>, actions: seq<Action>)
    ensures Unbroken(git, trace, actions) && trace[0] == Start(c)
    ensures trace[|actions|] == State(c, Ready(c), map[Staged(0) := Clone(None, map[])], Some(Filling(0, c)))
  {
    var go := Go(false, 0);
    trace, actions := [Start(c)], [];
    trace, actions := Extend(git, trace, actions, Acquire(Ensure(false)), At(Start(c), Begin(Ensure(false))));
    trace, actions := Extend(git, trace, actions, go, State(c, There(false, None), map[], Some(Cloning)));
    trace, actions := Extend(git, trace, actions, go, State(c, Ready(c), map[], Some(Snapshot)));
    trace, actions := Extend(git, trace, actions, go,
      State(c, Ready(c), map[Staged(0) := Clone(None, map[])], Some(Filling(0, c))));
  }

  /** And it publishes the commit. */
  lemma FirstCall(git: Git, c: Commit, repo: Files) returns (trace: seq<State>, actions: seq<Action>)
    requires git.serves(c, repo - {MARKER})
    ensures Unbroken(git, trace, actions) && trace[0] == Start(c)
    ensures trace[|actions|] == State(c, Ready(c), map[Published(c) := Snapped(git, c, repo)], None)
  {
    var go := Go(false, 0);
    var whole := Snapped(git, c, repo);
    trace, actions := FirstClone(git, c);
    assert map[Staged(0) := Clone(None, map[])][Staged(0) := whole] == map[Staged(0) := whole];
    trace, actions := Extend(git, trace, actions, Cloned(repo, []),
      State(c, Ready(c), map[Staged(0) := whole], Some(Publishing(0, c))));
    assert (map[Staged(0) := whole] - {Staged(0)})[Published(c) := whole] == map[Published(c) := whole];
    trace, actions := Extend(git, trace, actions, go,
      State(c, Ready(c), map[Published(c) := whole], Some(Returning(c))));
    trace, actions := Extend(git, trace, actions, go, State(c, Ready(c), map[Published(c) := whole], None));
  }

  /**
   Such states are reached: a first call, then a removal that has taken anything from a snapshot but its `.git`.
   Whatever is left and is not complete, later calls can return it once the removal is killed.
   */
  lemma RemovalCanGut(git: Git, c: Commit, repo: Files, left: Clone)
    returns (trace: seq<State>, actions: seq<Action>)
    requires git.serves(c, repo - {MARKER})
    requires Within(left, Snapped(git, c, repo)) && left.repo.Some? && !Complete(git, c, left)
    ensures Unbroken(git, trace, actions) && trace[0] == Start(c)
    ensures trace[|actions|] == State(c, Absent, map[Published(c) := left], Some(RemovingCache))
    ensures CanReturnIncomplete(git, Apply(git, trace[|actions|], Crash))
  {
    var go := Go(false, 0);
    var whole := map[Published(c) := Snapped(git, c, repo)];
    var gutted := map[Published(c) := left];
    trace, actions := FirstCall(git, c, repo);
    trace, actions := Extend(git, trace, actions, Acquire(Cleanup), State(c, Ready(c), whole, Some(Begin(Cleanup))));
    trace, actions := Extend(git, trace, actions, go, State(c, Ready(c), whole, Some(RemovingCheckout)));
    trace, actions := Extend(git, trace, actions, go, State(c, Absent, whole, Some(RemovingCache)));
    assert whole[Published(c) := left] == gutted;
    trace, actions := Extend(git, trace, actions, Shrink(Published(c), left),
      State(c, Absent, gutted, Some(RemovingCache)));
    assert Gutted(git, gutted, c);
    InterruptionHarmsIff(git, trace[|actions|], Crash);
  }

  /** One input: the removal has taken one file of the worktree. */
  lemma OneWorktreeFileGone(git: Git, c: Commit, repo: Files, n: string)
    returns (trace: seq<State>, actions: seq<Action>)
    requires git.serves(c, repo - {MARKER}) && n in git.trees(c)
    ensures Unbroken(git, trace, actions) && trace[0] == Start(c) && Enabled(git, trace[|actions|], Crash)
    ensures trace[|actions|].cache == map[Published(c) := Snapped(git, c, repo).(files := git.trees(c) - {n})]
    ensures CanReturnIncomplete(git, Apply(git, trace[|actions|], Crash))
  {
    trace, actions := RemovalCanGut(git, c, repo, Snapped(git, c, repo).(files := git.trees(c) - {n}));
  }

  /** Another: the worktree is whole and one file of `.git` is gone without which it does not serve the commit. */
  lemma OneRepositoryFileGone(git: Git, c: Commit, repo: Files, n: string)
    returns (trace: seq<State>, actions: seq<Action>)
    requires MARKER !in repo && git.serves(c, repo) && n in repo && !git.serves(c, repo - {n})
    ensures Unbroken(git, trace, actions) && trace[0] == Start(c) && Enabled(git, trace[|actions|], Crash)
    ensures trace[|actions|].cache == map[Published(c) := Snapped(git, c, repo - {n})]
    ensures CanReturnIncomplete(git, Apply(git, trace[|actions|], Crash))
  {
    assert repo - {MARKER} == repo;
    assert (repo - {n})[MARKER := []] - {MARKER} == repo - {n};
    trace, actions := RemovalCanGut(git, c, repo, Snapped(git, c, repo - {n}));
  }

  // ----- which commit a call returns

  /** `c` was the remote's commit in some state from `from` on and before `k`. */
  ghost predicate WasRemote(trace: seq<State>, from: nat, k: nat, c: Commit) {
    exists j :: from <= j < k && j < |trace| && trace[j].remote == c
  }

  /** The commit that the holder works on, once it has one. */
  function WorksOn(s: State, pc: Pc): Option<Commit> {
    match pc
    case Snapshot => if s.checkout.There? then s.checkout.head else None
    case Filling(_, c) => Some(c)
    case Publishing(_, c) => Some(c)
    case Marking(c) => Some(c)
    case Returning(c) => Some(c)
    case _ => None
  }

  predicate InUpdate(pc: Pc) { pc.Cloning? || pc.Refreshing? }

  predicate InSnapshot(pc: Pc) { pc.Snapshot? || pc.Filling? || pc.Publishing? || pc.Marking? || pc.Returning? }

  /** A call that brings the checkout up to date works on a commit that the remote had during the call. */
  ghost predicate UpToDate(trace: seq<State>, from: nat, k: nat)
    requires k < |trace|
  {
    && trace[k].holder.Some?
    && var pc := trace[k].holder.value;
       || InUpdate(pc)
       || (InSnapshot(pc) && WorksOn(trace[k], pc).Some? && WasRemote(trace, from, k, WorksOn(trace[k], pc).value))
  }

  /** What one step of the holder does to the commit it works on. */
  lemma StepWorksOn(git: Git, s: State, a: Action)
    requires Enabled(git, s, a) && s.holder.Some? && Apply(git, s, a).holder.Some?
    ensures var pc, s' := s.holder.value, Apply(git, s, a); var pc' := s'.holder.value;
            && (InUpdate(pc) ==> InUpdate(pc') || (pc'.Snapshot? && WorksOn(s', pc') == Some(s.remote)))
            && (InSnapshot(pc) && WorksOn(s, pc).Some? ==> InSnapshot(pc') && WorksOn(s', pc') == WorksOn(s, pc))
  {
  }

  lemma {:induction false} StaysUpToDate(git: Git, trace: seq<State>, actions: seq<Action>, from: nat, k: nat)
    requires IsTrace(git, trace, actions) && from < k < |trace|
    requires trace[from + 1].holder.Some? && InUpdate(trace[from + 1].holder.value)
    requires forall i :: from < i <= k ==> trace[i].holder.Some?
    ensures UpToDate(trace, from, k)
    decreases k
  {
    if k > from + 1 {
      StaysUpToDate(git, trace, actions, from, k - 1);
      assert trace[(k - 1) + 1] == Apply(git, trace[k - 1], actions[k - 1]);
      StepWorksOn(git, trace[k - 1], actions[k - 1]);
      var c := WorksOn(trace[k], trace[k].holder.value);
      if !InUpdate(trace[k].holder.value) {
        assert WasRemote(trace, from, k, c.value) by {
          if InUpdate(trace[k - 1].holder.value) {
            assert trace[k - 1].remote == c.value;
          } else {
            var j :| from <= j < k - 1 && j < |trace| && trace[j].remote == c.value;
          }
        }
      }
    }
  }

  /**
   A call that does not forbid updates, and finds no checkout or none that was refreshed recently, returns the
   snapshot of a commit that the remote had while the call ran.
   */
  lemma UpdatedCallIsFresh(git: Git, trace: seq<State>, actions: seq<Action>, from: nat, k: nat, c: Commit)
    requires IsTrace(git, trace, actions) && from < k < |trace|
    requires trace[from].holder.Some? && trace[from].holder.value.Begin? && trace[from].holder.value.request.Ensure?
    requires actions[from].Go?
    requires trace[from].checkout.Absent? || (!trace[from].holder.value.request.noUpdate && !actions[from].recent)
    requires forall i :: from < i <= k ==> trace[i].holder.Some?
    requires trace[k].holder == Some(Returning(c))
    ensures WasRemote(trace, from, k, c)
  {
    assert trace[from + 1] == Apply(git, trace[from], actions[from]);
    StaysUpToDate(git, trace, actions, from, k);
  }

  /** Any other call returns the commit that the checkout already has. */
  lemma {:induction false} OtherCallKeepsHead(git: Git, trace: seq<State>, actions: seq<Action>, from: nat, k: nat,
                                              c: Commit)
    requires IsTrace(git, trace, actions) && from < k < |trace|
    requires trace[from].holder.Some? && trace[from].holder.value.Begin? && trace[from].holder.value.request.Ensure?
    requires actions[from].Go? && trace[from].checkout.There?
    requires trace[from].holder.value.request.noUpdate || actions[from].recent
    requires trace[from].checkout.head == Some(c)
    requires forall i :: from < i <= k ==> trace[i].holder.Some?
    ensures InSnapshot(trace[k].holder.value) && WorksOn(trace[k], trace[k].holder.value) == Some(c)
    decreases k
  {
    if k == from + 1 {
      assert trace[from + 1] == Apply(git, trace[from], actions[from]);
    } else {
      OtherCallKeepsHead(git, trace, actions, from, k - 1, c);
      assert trace[(k - 1) + 1] == Apply(git, trace[k - 1], actions[k - 1]);
      StepWorksOn(git, trace[k - 1], actions[k - 1]);
    }
  }

  // ----- a call can always finish

  /** A clone that `git clone` can make is at hand for the commit. */
  predicate Clonable(git: Git, c: Commit, repo: Files) { git.serves(c, repo - {MARKER}) }

  /** The holder can go on to return the commit: the slot is free, or what is there still has a `.git`. */
  predicate SlotUsable(s: State, c: Commit) {
    Published(c) in s.cache ==> s.cache[Published(c)].repo.Some?
  }

  lemma {:induction false} FreshId(cache: map<Root, Clone>) returns (id: nat)
    ensures forall i: nat :: Staged(i) in cache ==> i < id
    decreases |cache|
  {
    id := 0;
    if cache != map[] {
      var r :| r in cache;
      var rest := cache - {r};
      assert rest.Keys == cache.Keys - {r};
      id := FreshId(rest);
      if r.Staged? && r.id >= id {
        id := r.id + 1;
      }
      forall i: nat | Staged(i) in cache ensures i < id {
        assert Staged(i) != r ==> Staged(i) in rest;
      }
    }
  }

  /** From the point where the commit is known, the holder's own steps lead to a return. */
  lemma SnapshotCanReturn(git: Git, s: State, c: Commit, repo: Files)
    returns (trace: seq<State>, actions: seq<Action>)
    requires s.holder == Some(Snapshot) && s.checkout == Ready(c) && SlotUsable(s, c) && Clonable(git, c, repo)
    ensures Unbroken(git, trace, actions) && trace[0] == s && trace[|actions|].holder == Some(Returning(c))
  {
    trace, actions := [s], [];
    if Published(c) in s.cache {
      trace, actions := Extend(git, trace, actions, Go(false, 0), At(s, Marking(c)));
      var found := s.cache[Published(c)];
      var t := At(s, Marking(c));
      if MARKER !in found.repo.value {
        t := t.(cache := s.cache[Published(c) := Marked(found, [])]);
        trace, actions := Extend(git, trace, actions, Mark([]), t);
      }
      trace, actions := Extend(git, trace, actions, Go(false, 0), At(t, Returning(c)));
    } else {
      trace, actions := CloneCanReturn(git, s, c, repo);
    }
  }

  lemma CloneCanReturn(git: Git, s: State, c: Commit, repo: Files)
    returns (trace: seq<State>, actions: seq<Action>)
    requires s.holder == Some(Snapshot) && s.checkout == Ready(c) && Published(c) !in s.cache && Clonable(git, c, repo)
    ensures Unbroken(git, trace, actions) && trace[0] == s && trace[|actions|].holder == Some(Returning(c))
  {
    var id := FreshId(s.cache);
    assert Staged(id) !in s.cache;
    var filling := At(s.(cache := s.cache[Staged(id) := Clone(None, map[])]), Filling(id, c));
    trace, actions := Extend(git, [s], [], Go(false, id), filling);
    var full := At(filling.(cache := filling.cache[Staged(id) := Snapped(git, c, repo)]), Publishing(id, c));
    trace, actions := Extend(git, trace, actions, Cloned(repo, []), full);
    trace, actions := Extend(git, trace, actions, Go(false, 0), ApplyGo(full, false, 0));
  }

  /**
   Whatever earlier holders left behind, a call with a free lock can return the remote's commit if the checkout is
   missing or has a `.git`, and the slot of the commit is free or has one.
   */
  lemma CallCanReturn(git: Git, s: State, repo: Files) returns (trace: seq<State>, actions: seq<Action>)
    requires s.holder.None? && (s.checkout.Absent? || s.checkout.git)
    requires SlotUsable(s, s.remote) && Clonable(git, s.remote, repo)
    ensures Unbroken(git, trace, actions) && trace[0] == s && trace[|actions|].holder == Some(Returning(s.remote))
  {
    var c := s.remote;
    var begun := At(s, Begin(Ensure(false)));
    trace, actions := Extend(git, [s], [], Acquire(Ensure(false)), begun);
    var updating := ApplyGo(begun, false, 0);
    trace, actions := Extend(git, trace, actions, Go(false, 0), updating);
    var ready := At(s.(checkout := Ready(c)), Snapshot);
    trace, actions := Extend(git, trace, actions, Go(false, 0), ready);
    var more, rest := SnapshotCanReturn(git, ready, c, repo);
    trace, actions := Joined(git, trace, actions, more, rest);
  }

  lemma Joined(git: Git, trace: seq<State>, actions: seq<Action>, more: seq<State>, rest: seq<Action>)
    returns (trace': seq<State>, actions': seq<Action>)
    requires Unbroken(git, trace, actions) && Unbroken(git, more, rest) && more[0] == trace[|actions|]
    ensures Unbroken(git, trace', actions') && trace'[0] == trace[0] && trace'[|actions'|] == more[|rest|]
  {
    trace', actions' := trace + more[1..], actions + rest;
    forall i | 0 <= i < |actions'|
      ensures Enabled(git, trace'[i], actions'[i]) && trace'[i + 1] == Apply(git, trace'[i], actions'[i])
      ensures !BreaksOff(trace'[i], actions'[i])
    {
      if i >= |actions| {
        var j := i - |actions|;
        assert trace'[i] == more[j] && trace'[i + 1] == more[j + 1] && actions'[i] == rest[j];
      }
    }
  }

  /** And only then: with a checkout or a slot that has lost its `.git` a call for the commit cannot go on. */
  lemma BrokenStopsCall(git: Git, s: State, c: Commit)
    requires s.holder.Some?
    requires (s.holder.value.Begin? && s.holder.value.request.Ensure? && s.checkout.There? && !s.checkout.git)
             || (s.holder == Some(Snapshot) && s.checkout == Ready(c) && !SlotUsable(s, c))
    ensures forall recent, id :: !Enabled(git, s, Go(recent, id))
  {
  }

  /** A reported error removes the clone that the holder was making, as far as it can be removed, and no other entry. */
  lemma FailCleansUp(git: Git, s: State, kept: Option<Clone>)
    requires s.holder.Some? && (s.holder.value.Filling? || s.holder.value.Publishing?)
    ensures var own, after := Staged(s.holder.value.id), Apply(git, s, Fail(kept));
            && after.holder.None? && (own in after.cache <==> kept.Some?)
            && forall r :: r != own ==> (r in after.cache <==> r in s.cache)
                                        && (r in s.cache ==> after.cache[r] == s.cache[r])
  {
  }
}
