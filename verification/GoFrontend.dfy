/**
 Extraction of the embedded Go frontend by any number of threads, processes and CLI
 versions at once, over a file system of names, inodes and open files
 (shatter-cli/src/embedded_go_frontend.rs).
 */
module GoFrontend {
  import opened Names

  datatype Inode = Inode(data: Bytes, executable: bool)

  datatype Outcome = Ok(path: string) | Err

  /** Where one call of the extractor stands; `n` is the counter value in its staging name. */
  datatype Pc =
    | Check
    | MakeDir
    | Mint
    | Open(n: nat)
    | Write(n: nat, inode: nat, done: nat)
    | Chmod(n: nat)
    | Rename(n: nat)
    | RenameFailed(n: nat)
    | Discard(n: nat, outcome: Outcome)
    | Returned(outcome: Outcome)

  datatype Thread = Thread(pid: nat, pc: Pc)

  /** A process runs one CLI build and owns the counter that its threads share. */
  datatype Process = Process(build: string, counter: nat)

  /** `builds` gives, for each hash, the binary embedded in the CLI builds with that hash. */
  datatype State = State(
    builds: map<string, Bytes>,
    dir: map<string, nat>,
    inodes: map<nat, Inode>,
    procs: map<nat, Process>,
    threads: map<nat, Thread>)

  const PREFIX := "go-frontend-"

  function Slot(hash: string): string { PREFIX + hash }

  function Tmp(hash: string, pid: nat, n: nat): string { Staging(Slot(hash), pid, n) }

  /** What the scheduler and the environment decide. */
  datatype Action =
    | Start(pid: nat, build: string)       // a process with an unused pid starts
    | Exit(pid: nat)                       // a process exits or is killed, at any point
    | Call(thread: nat, pid: nat)          // a thread enters the extractor
    | Go(thread: nat, arg: nat)            // the thread's next system call succeeds
    | Fail(thread: nat)                    // the thread's next system call fails

  function SetPc(s: State, t: nat, pc: Pc): State
    requires t in s.threads
  {
    s.(threads := s.threads[t := s.threads[t].(pc := pc)])
  }

  function Build(s: State, t: nat): string
    requires t in s.threads && s.threads[t].pid in s.procs
  {
    s.procs[s.threads[t].pid].build
  }

  function Binary(s: State, t: nat): Bytes
    requires t in s.threads && s.threads[t].pid in s.procs && Build(s, t) in s.builds
  {
    s.builds[Build(s, t)]
  }

  predicate Runs(s: State, t: nat) {
    t in s.threads && s.threads[t].pid in s.procs && Build(s, t) in s.builds
  }

  function TmpOf(s: State, t: nat, n: nat): string
    requires Runs(s, t)
  {
    Tmp(Build(s, t), s.threads[t].pid, n)
  }

  function Dest(s: State, t: nat): string
    requires Runs(s, t)
  {
    Slot(Build(s, t))
  }

  predicate Enabled(s: State, a: Action) {
    match a
    case Start(pid, build) => pid !in s.procs && build in s.builds
    case Exit(pid) => pid in s.procs
    case Call(t, pid) => t !in s.threads && pid in s.procs && s.procs[pid].build in s.builds
    case Go(t, arg) => Runs(s, t) && GoEnabled(s, t, arg)
    case Fail(t) =>
      Runs(s, t) && match s.threads[t].pc
      case MakeDir | Open(_) | Write(_, _, _) | Chmod(_) | Rename(_) | Discard(_, _) => true
      case _ => false
  }

  predicate GoEnabled(s: State, t: nat, arg: nat)
    requires Runs(s, t)
  {
    match s.threads[t].pc
    case Open(n) => TmpOf(s, t, n) in s.dir || arg !in s.inodes
    case Write(n, i, done) => i in s.inodes && done + arg <= |Binary(s, t)|
    case Chmod(n) => TmpOf(s, t, n) in s.dir && s.dir[TmpOf(s, t, n)] in s.inodes
    case Rename(n) => TmpOf(s, t, n) in s.dir
    case Returned(_) => false
    case _ => true
  }

  function Apply(s: State, a: Action): State
    requires Enabled(s, a)
  {
    match a
    case Start(pid, build) => s.(procs := s.procs[pid := Process(build, 0)])
    case Exit(pid) =>
      s.(procs := s.procs - {pid},
         threads := map t | t in s.threads && s.threads[t].pid != pid :: s.threads[t])
    case Call(t, pid) => s.(threads := s.threads[t := Thread(pid, Check)])
    case Go(t, arg) => ApplyGo(s, t, arg)
    case Fail(t) => ApplyFail(s, t)
  }

  function ApplyGo(s: State, t: nat, arg: nat): State
    requires Runs(s, t) && GoEnabled(s, t, arg)
  {
    match s.threads[t].pc
    case Check =>
      SetPc(s, t, if Dest(s, t) in s.dir then Returned(Ok(Dest(s, t))) else MakeDir)
    case MakeDir => SetPc(s, t, Mint)
    case Mint =>
      var p := s.procs[s.threads[t].pid];
      SetPc(s.(procs := s.procs[s.threads[t].pid := p.(counter := p.counter + 1)]), t, Open(p.counter))
    case Open(n) => OpenTruncated(s, t, n, arg)
    case Write(n, i, done) =>
      var more := Binary(s, t)[done..done + arg];
      var written := s.(inodes := s.inodes[i := s.inodes[i].(data := WriteAt(s.inodes[i].data, done, more))]);
      // with everything written the file is closed
      SetPc(written, t, if done + arg == |Binary(s, t)| then Chmod(n) else Write(n, i, done + arg))
    case Chmod(n) =>
      var i := s.dir[TmpOf(s, t, n)];
      SetPc(s.(inodes := s.inodes[i := s.inodes[i].(executable := true)]), t, Rename(n))
    case Rename(n) =>
      var tmp := TmpOf(s, t, n);
      SetPc(s.(dir := (s.dir - {tmp})[Dest(s, t) := s.dir[tmp]]), t, Returned(Ok(Dest(s, t))))
    case RenameFailed(n) =>
      SetPc(s, t, Discard(n, if Dest(s, t) in s.dir then Ok(Dest(s, t)) else Err))
    case Discard(n, outcome) =>
      SetPc(s.(dir := s.dir - {TmpOf(s, t, n)}), t, Returned(outcome))
  }

  /** A write at an offset overwrites what is there and fills a gap with zeros. */
  function WriteAt(data: Bytes, offset: nat, more: Bytes): Bytes {
    var before := if offset <= |data| then data[..offset] else data + seq(offset - |data|, _ => 0);
    before + more + if offset + |more| < |data| then data[offset + |more|..] else []
  }

  /** Opening for writing creates the file or empties the one of that name. */
  function OpenTruncated(s: State, t: nat, n: nat, created: nat): State
    requires Runs(s, t)
    requires TmpOf(s, t, n) in s.dir || created !in s.inodes
  {
    var tmp := TmpOf(s, t, n);
    if tmp in s.dir then
      var i := s.dir[tmp];
      var mode := if i in s.inodes then s.inodes[i].executable else false;
      SetPc(s.(inodes := s.inodes[i := Inode([], mode)]), t, Write(n, i, 0))
    else
      SetPc(s.(dir := s.dir[tmp := created], inodes := s.inodes[created := Inode([], false)]),
            t, Write(n, created, 0))
  }

  function ApplyFail(s: State, t: nat): State
    requires Runs(s, t)
  {
    match s.threads[t].pc
    case Chmod(n) => SetPc(s, t, Discard(n, Err))
    case Rename(n) => SetPc(s, t, RenameFailed(n))
    case Discard(n, outcome) => SetPc(s, t, Returned(outcome))
    case _ => SetPc(s, t, Returned(Err))
  }

  ghost predicate Next(s: State, s': State) {
    exists a :: Enabled(s, a) && s' == Apply(s, a)
  }

  // ----- what is promised

  /** Some thread has the inode open for writing. */
  ghost predicate OpenForWriting(s: State, i: nat) {
    exists t :: t in s.threads && s.threads[t].pc.Write? && s.threads[t].pc.inode == i
  }

  /** The slot of `hash` holds the whole binary, executable, with no writer on its inode. */
  ghost predicate Published(s: State, hash: string) {
    && hash in s.builds && Slot(hash) in s.dir
    && s.dir[Slot(hash)] in s.inodes
    && s.inodes[s.dir[Slot(hash)]] == Inode(s.builds[hash], true)
    && !OpenForWriting(s, s.dir[Slot(hash)])
  }

  /** Every slot that exists is published. */
  ghost predicate SlotsSound(s: State) {
    forall h :: h in s.builds && Slot(h) in s.dir ==> Published(s, h)
  }

  /** Every successful return names the published slot of the caller's own build. */
  ghost predicate ReturnsSound(s: State) {
    forall t :: Runs(s, t) && s.threads[t].pc.Returned? && s.threads[t].pc.outcome.Ok? ==>
      s.threads[t].pc.outcome.path == Dest(s, t) && Published(s, Build(s, t))
  }

  /** A cache directory in which no call is running: sound slots, any other files, no hard links. */
  ghost predicate Initial(s: State) {
    && s.procs == map[] && s.threads == map[]
    && (forall h :: h in s.builds ==> '.' !in h)
    && DirSound(s)
    && SlotsSound(s)
  }

  ghost predicate DirSound(s: State) {
    && (forall name :: name in s.dir ==> s.dir[name] in s.inodes)
    && (forall x, y :: x in s.dir && y in s.dir && s.dir[x] == s.dir[y] ==> x == y)
  }

  // ----- the invariant

  /** The counter value a thread has claimed, if any. */
  predicate Claims(pc: Pc, n: nat) {
    match pc
    case Open(m) => m == n
    case Write(m, _, _) => m == n
    case Chmod(m) => m == n
    case Rename(m) => m == n
    case RenameFailed(m) => m == n
    case Discard(m, _) => m == n
    case _ => false
  }

  /** The staging file of a thread past opening it holds what the thread has written. */
  ghost predicate Staged(s: State, t: nat)
    requires Runs(s, t)
  {
    match s.threads[t].pc
    case Write(n, i, done) =>
      var tmp := TmpOf(s, t, n);
      && tmp in s.dir && s.dir[tmp] == i && i in s.inodes
      && done <= |Binary(s, t)| && s.inodes[i].data == Binary(s, t)[..done]
    case Chmod(n) =>
      var tmp := TmpOf(s, t, n);
      tmp in s.dir && s.dir[tmp] in s.inodes && s.inodes[s.dir[tmp]].data == Binary(s, t)
    case Rename(n) =>
      var tmp := TmpOf(s, t, n);
      tmp in s.dir && s.dir[tmp] in s.inodes && s.inodes[s.dir[tmp]] == Inode(Binary(s, t), true)
    case _ => true
  }

  /** A success, returned or about to be, names the caller's slot, which exists. */
  ghost predicate Promised(s: State, t: nat)
    requires Runs(s, t)
  {
    var pc := s.threads[t].pc;
    (pc.Returned? || pc.Discard?) && pc.outcome.Ok? ==>
      pc.outcome.path == Dest(s, t) && Dest(s, t) in s.dir
  }

  ghost predicate ThreadSound(s: State, t: nat) {
    && Runs(s, t)
    && (forall n: nat :: Claims(s.threads[t].pc, n) ==> n < s.procs[s.threads[t].pid].counter)
    && Staged(s, t)
    && Promised(s, t)
  }

  /** Two live threads of one process never claim the same counter value. */
  ghost predicate ClaimsDisjoint(s: State) {
    forall t, u, n: nat :: t in s.threads && u in s.threads && t != u
                      && s.threads[t].pid == s.threads[u].pid && Claims(s.threads[t].pc, n)
                      ==> !Claims(s.threads[u].pc, n)
  }

  /** The slots hold whole executable binaries. */
  ghost predicate SlotContents(s: State) {
    forall h :: h in s.builds && Slot(h) in s.dir ==>
      s.dir[Slot(h)] in s.inodes && s.inodes[s.dir[Slot(h)]] == Inode(s.builds[h], true)
  }

  ghost predicate Inv(s: State) {
    && (forall h :: h in s.builds ==> '.' !in h)
    && (forall p :: p in s.procs ==> s.procs[p].build in s.builds)
    && DirSound(s)
    && (forall t :: t in s.threads ==> ThreadSound(s, t))
    && ClaimsDisjoint(s)
    && SlotContents(s)
  }

  lemma SlotHasNoDot(h: string)
    requires '.' !in h
    ensures '.' !in Slot(h)
  {
    assert '.' !in PREFIX;
  }

  lemma SlotIsInjective(h: string, h': string)
    requires Slot(h) == Slot(h')
    ensures h == h'
  {
    assert h == Slot(h)[|PREFIX|..] && h' == Slot(h')[|PREFIX|..];
  }

  /** A staging name is never a slot. */
  lemma TmpIsNoSlot(h: string, pid: nat, n: nat, h': string)
    requires '.' !in h'
    ensures Tmp(h, pid, n) != Slot(h')
  {
    SlotHasNoDot(h');
    StagingHasDot(Slot(h), pid, n);
  }

  /** Two live threads never share a staging name, even across builds. */
  lemma TmpsDiffer(s: State, t: nat, u: nat, n: nat, m: nat)
    requires Inv(s) && t in s.threads && u in s.threads && t != u
    requires Claims(s.threads[t].pc, n) && Claims(s.threads[u].pc, m)
    ensures TmpOf(s, t, n) != TmpOf(s, u, m)
  {
    assert ThreadSound(s, t) && ThreadSound(s, u);
    if TmpOf(s, t, n) == TmpOf(s, u, m) {
      SlotHasNoDot(Build(s, t));
      SlotHasNoDot(Build(s, u));
      StagingIsInjective(Slot(Build(s, t)), s.threads[t].pid, n, Slot(Build(s, u)), s.threads[u].pid, m);
      assert false;
    }
  }

  /** The invariant gives what is promised. */
  lemma InvIsEnough(s: State)
    requires Inv(s)
    ensures SlotsSound(s) && ReturnsSound(s)
  {
    forall h | h in s.builds && Slot(h) in s.dir
      ensures Published(s, h)
    {
      forall t | t in s.threads && s.threads[t].pc.Write?
        ensures s.threads[t].pc.inode != s.dir[Slot(h)]
      {
        assert ThreadSound(s, t);
        TmpIsNoSlot(Build(s, t), s.threads[t].pid, s.threads[t].pc.n, h);
      }
    }
    forall t | Runs(s, t) && s.threads[t].pc.Returned? && s.threads[t].pc.outcome.Ok?
      ensures s.threads[t].pc.outcome.path == Dest(s, t) && Published(s, Build(s, t))
    {
      assert ThreadSound(s, t);
    }
  }

  lemma InitialInv(s: State)
    requires Initial(s)
    ensures Inv(s)
  {}

  // ----- every step keeps the invariant

  /** A step leaves alone everything that thread `u` relies on. */
  ghost predicate Undisturbed(s: State, s': State, u: nat)
    requires Runs(s, u)
  {
    && s'.builds == s.builds
    && u in s'.threads && s'.threads[u] == s.threads[u]
    && s.threads[u].pid in s'.procs
    && s'.procs[s.threads[u].pid].build == Build(s, u)
    && s'.procs[s.threads[u].pid].counter >= s.procs[s.threads[u].pid].counter
    && (forall n: nat :: Claims(s.threads[u].pc, n) && TmpOf(s, u, n) in s.dir ==>
          SameFile(s, s', TmpOf(s, u, n)))
    && (Dest(s, u) in s.dir ==> Dest(s, u) in s'.dir)
  }

  ghost predicate SameFile(s: State, s': State, name: string)
    requires name in s.dir
  {
    && name in s'.dir && s'.dir[name] == s.dir[name]
    && (s.dir[name] in s.inodes ==>
          s.dir[name] in s'.inodes && s'.inodes[s.dir[name]] == s.inodes[s.dir[name]])
  }

  lemma UndisturbedStaysSound(s: State, s': State, u: nat)
    requires ThreadSound(s, u) && Undisturbed(s, s', u)
    ensures ThreadSound(s', u)
  {
    assert Runs(s', u) && Build(s', u) == Build(s, u) && Binary(s', u) == Binary(s, u);
    assert forall n: nat :: TmpOf(s', u, n) == TmpOf(s, u, n);
    assert Staged(s', u) by {
      match s.threads[u].pc
      case Write(n, i, done) => assert Claims(s.threads[u].pc, n);
      case Chmod(n) => assert Claims(s.threads[u].pc, n);
      case Rename(n) => assert Claims(s.threads[u].pc, n);
      case _ =>
    }
  }

  /** Starting and ending processes and entering the extractor touch no file. */
  lemma StartKeepsInv(s: State, pid: nat, build: string)
    requires Inv(s) && Enabled(s, Start(pid, build))
    ensures Inv(Apply(s, Start(pid, build)))
  {
    var s' := Apply(s, Start(pid, build));
    forall u | u in s'.threads ensures ThreadSound(s', u) {
      assert ThreadSound(s, u);
      UndisturbedStaysSound(s, s', u);
    }
  }

  lemma ExitKeepsInv(s: State, pid: nat)
    requires Inv(s) && Enabled(s, Exit(pid))
    ensures Inv(Apply(s, Exit(pid)))
  {
    var s' := Apply(s, Exit(pid));
    forall u | u in s'.threads ensures ThreadSound(s', u) {
      assert ThreadSound(s, u);
      UndisturbedStaysSound(s, s', u);
    }
  }

  lemma CallKeepsInv(s: State, t: nat, pid: nat)
    requires Inv(s) && Enabled(s, Call(t, pid))
    ensures Inv(Apply(s, Call(t, pid)))
  {
    var s' := Apply(s, Call(t, pid));
    forall u | u in s'.threads ensures ThreadSound(s', u) {
      if u != t {
        assert ThreadSound(s, u);
        UndisturbedStaysSound(s, s', u);
      }
    }
  }

  /** Every thread but `t` goes on undisturbed, and `t` claims nothing that was claimed before. */
  ghost predicate StepOf(s: State, s': State, t: nat)
    requires Runs(s, t)
  {
    && s'.builds == s.builds
    && s'.threads.Keys == s.threads.Keys
    && s'.threads[t].pid == s.threads[t].pid
    && (forall u :: u in s.threads && u != t ==> Runs(s, u) && Undisturbed(s, s', u))
    && s'.procs.Keys == s.procs.Keys
    && (forall p :: p in s.procs ==> s'.procs[p].build == s.procs[p].build)
    && (forall n: nat :: Claims(s'.threads[t].pc, n) ==>
          Claims(s.threads[t].pc, n) || n >= s.procs[s.threads[t].pid].counter)
  }

  lemma StepKeepsInv(s: State, s': State, t: nat)
    requires Inv(s) && Runs(s, t) && StepOf(s, s', t)
    requires ThreadSound(s', t) && DirSound(s') && SlotContents(s')
    ensures Inv(s')
  {
    forall u | u in s'.threads ensures ThreadSound(s', u) {
      if u != t {
        assert ThreadSound(s, u);
        UndisturbedStaysSound(s, s', u);
      }
    }
    forall u, v, n: nat | u in s'.threads && v in s'.threads && u != v
                     && s'.threads[u].pid == s'.threads[v].pid && Claims(s'.threads[u].pc, n)
      ensures !Claims(s'.threads[v].pc, n)
    {
      assert ThreadSound(s, u) && ThreadSound(s, v);
      assert u != t ==> s'.threads[u] == s.threads[u];
      assert v != t ==> s'.threads[v] == s.threads[v];
    }
  }

  /** Steps that only move a thread's program counter, or mint a name. */
  lemma QuietStepKeepsInv(s: State, s': State, t: nat, pc: Pc)
    requires Inv(s) && Runs(s, t)
    requires s'.builds == s.builds && s'.dir == s.dir && s'.inodes == s.inodes
    requires s'.threads == s.threads[t := s.threads[t].(pc := pc)]
    requires s.threads[t].pid in s'.procs
    requires s'.procs == s.procs[s.threads[t].pid := s'.procs[s.threads[t].pid]]
    requires s'.procs[s.threads[t].pid].build == Build(s, t)
    requires s'.procs[s.threads[t].pid].counter >= s.procs[s.threads[t].pid].counter
    requires ThreadSound(s', t)
    requires forall n: nat :: Claims(pc, n) ==>
               Claims(s.threads[t].pc, n) || n >= s.procs[s.threads[t].pid].counter
    ensures Inv(s')
  {
    forall u | u in s.threads && u != t ensures Runs(s, u) && Undisturbed(s, s', u) {
      assert ThreadSound(s, u);
    }
    StepKeepsInv(s, s', t);
  }

  lemma FailKeepsInv(s: State, t: nat)
    requires Inv(s) && Enabled(s, Fail(t))
    ensures Inv(Apply(s, Fail(t)))
  {
    var s' := Apply(s, Fail(t));
    assert ThreadSound(s, t);
    assert forall n: nat :: Claims(s'.threads[t].pc, n) ==> Claims(s.threads[t].pc, n);
    QuietStepKeepsInv(s, s', t, s'.threads[t].pc);
  }

  lemma MintKeepsInv(s: State, t: nat, arg: nat)
    requires Inv(s) && Enabled(s, Go(t, arg)) && s.threads[t].pc.Mint?
    ensures Inv(Apply(s, Go(t, arg)))
  {
    var s' := Apply(s, Go(t, arg));
    assert ThreadSound(s, t);
    QuietStepKeepsInv(s, s', t, s'.threads[t].pc);
  }

  lemma LookKeepsInv(s: State, t: nat, arg: nat)
    requires Inv(s) && Enabled(s, Go(t, arg))
    requires s.threads[t].pc.Check? || s.threads[t].pc.MakeDir? || s.threads[t].pc.RenameFailed?
    ensures Inv(Apply(s, Go(t, arg)))
  {
    var s' := Apply(s, Go(t, arg));
    assert ThreadSound(s, t);
    assert forall n: nat :: Claims(s'.threads[t].pc, n) ==> Claims(s.threads[t].pc, n);
    QuietStepKeepsInv(s, s', t, s'.threads[t].pc);
  }

  /** Other threads do not notice a change of the file staged by `t`. */
  lemma OwnFileOnly(s: State, s': State, t: nat, n: nat)
    requires Inv(s) && Runs(s, t) && Claims(s.threads[t].pc, n)
    requires s'.builds == s.builds && s'.procs == s.procs
    requires t in s'.threads
    requires s'.threads == s.threads[t := s'.threads[t]] && s'.threads[t].pid == s.threads[t].pid
    requires forall m: nat :: Claims(s'.threads[t].pc, m) ==> m == n
    requires forall name :: name in s.dir && name != TmpOf(s, t, n) && name != Dest(s, t) ==>
               SameFile(s, s', name)
    requires Dest(s, t) in s.dir ==> Dest(s, t) in s'.dir
    ensures StepOf(s, s', t)
  {
    forall u | u in s.threads && u != t ensures Runs(s, u) && Undisturbed(s, s', u) {
      assert ThreadSound(s, u);
      forall m: nat | Claims(s.threads[u].pc, m) && TmpOf(s, u, m) in s.dir
        ensures SameFile(s, s', TmpOf(s, u, m))
      {
        TmpsDiffer(s, t, u, n, m);
        TmpIsNoSlot(Build(s, u), s.threads[u].pid, m, Build(s, t));
      }
      TmpIsNoSlot(Build(s, t), s.threads[t].pid, n, Build(s, u));
    }
  }

  /** The inode behind a staging name is behind no other name. */
  lemma StagedInodeIsPrivate(s: State, t: nat, n: nat)
    requires Inv(s) && Runs(s, t) && TmpOf(s, t, n) in s.dir
    ensures forall name :: name in s.dir && name != TmpOf(s, t, n) ==>
              s.dir[name] != s.dir[TmpOf(s, t, n)]
    ensures forall h :: h in s.builds ==> Slot(h) != TmpOf(s, t, n)
  {
    forall h | h in s.builds ensures Slot(h) != TmpOf(s, t, n) {
      TmpIsNoSlot(Build(s, t), s.threads[t].pid, n, h);
    }
  }

  lemma WriteKeepsInv(s: State, t: nat, arg: nat)
    requires Inv(s) && Enabled(s, Go(t, arg)) && s.threads[t].pc.Write?
    ensures Inv(Apply(s, Go(t, arg)))
  {
    var s' := Apply(s, Go(t, arg));
    var n, i, done := s.threads[t].pc.n, s.threads[t].pc.inode, s.threads[t].pc.done;
    assert ThreadSound(s, t) && Claims(s.threads[t].pc, n);
    StagedInodeIsPrivate(s, t, n);
    assert Binary(s, t)[..done] + Binary(s, t)[done..done + arg] == Binary(s, t)[..done + arg];
    assert s'.inodes[i].data == Binary(s, t)[..done + arg];
    OwnFileOnly(s, s', t, n);
    assert Binary(s, t)[..|Binary(s, t)|] == Binary(s, t);
    StepKeepsInv(s, s', t);
  }

  lemma ChmodKeepsInv(s: State, t: nat, arg: nat)
    requires Inv(s) && Enabled(s, Go(t, arg)) && s.threads[t].pc.Chmod?
    ensures Inv(Apply(s, Go(t, arg)))
  {
    var s' := Apply(s, Go(t, arg));
    var n := s.threads[t].pc.n;
    assert ThreadSound(s, t) && Claims(s.threads[t].pc, n);
    StagedInodeIsPrivate(s, t, n);
    OwnFileOnly(s, s', t, n);
    StepKeepsInv(s, s', t);
  }

  /** Opening creates or truncates the staged file and touches no other. */
  lemma OpenIsOwnStep(s: State, t: nat, arg: nat)
    requires Inv(s) && Enabled(s, Go(t, arg)) && s.threads[t].pc.Open?
    ensures StepOf(s, Apply(s, Go(t, arg)), t)
  {
    var n := s.threads[t].pc.n;
    assert ThreadSound(s, t) && Claims(s.threads[t].pc, n);
    TmpIsNoSlot(Build(s, t), s.threads[t].pid, n, Build(s, t));
    if TmpOf(s, t, n) in s.dir {
      StagedInodeIsPrivate(s, t, n);
    }
    OwnFileOnly(s, Apply(s, Go(t, arg)), t, n);
  }

  lemma OpenKeepsSlots(s: State, t: nat, arg: nat)
    requires Inv(s) && Enabled(s, Go(t, arg)) && s.threads[t].pc.Open?
    ensures SlotContents(Apply(s, Go(t, arg)))
  {
    var n := s.threads[t].pc.n;
    assert ThreadSound(s, t);
    if TmpOf(s, t, n) in s.dir {
      StagedInodeIsPrivate(s, t, n);
    }
    forall h | h in s.builds ensures Slot(h) != TmpOf(s, t, n) {
      TmpIsNoSlot(Build(s, t), s.threads[t].pid, n, h);
    }
  }

  lemma OpenKeepsInv(s: State, t: nat, arg: nat)
    requires Inv(s) && Enabled(s, Go(t, arg)) && s.threads[t].pc.Open?
    ensures Inv(Apply(s, Go(t, arg)))
  {
    OpenIsOwnStep(s, t, arg);
    OpenKeepsSlots(s, t, arg);
    OpenIsSound(s, t, arg);
    StepKeepsInv(s, Apply(s, Go(t, arg)), t);
  }

  lemma OpenIsSound(s: State, t: nat, arg: nat)
    requires Inv(s) && Enabled(s, Go(t, arg)) && s.threads[t].pc.Open?
    ensures ThreadSound(Apply(s, Go(t, arg)), t) && DirSound(Apply(s, Go(t, arg)))
  {
    var s', n := Apply(s, Go(t, arg)), s.threads[t].pc.n;
    assert ThreadSound(s, t) && Claims(s.threads[t].pc, n);
    TmpIsNoSlot(Build(s, t), s.threads[t].pid, n, Build(s, t));
    assert Binary(s, t)[..0] == [];
    assert forall m: nat :: Claims(s'.threads[t].pc, m) ==> m == n;
  }

  lemma RenameKeepsInv(s: State, t: nat, arg: nat)
    requires Inv(s) && Enabled(s, Go(t, arg)) && s.threads[t].pc.Rename?
    ensures Inv(Apply(s, Go(t, arg)))
  {
    var s' := Apply(s, Go(t, arg));
    var n := s.threads[t].pc.n;
    assert ThreadSound(s, t) && Claims(s.threads[t].pc, n);
    StagedInodeIsPrivate(s, t, n);
    OwnFileOnly(s, s', t, n);
    forall h | h in s.builds && Slot(h) in s'.dir
      ensures s'.dir[Slot(h)] in s'.inodes && s'.inodes[s'.dir[Slot(h)]] == Inode(s'.builds[h], true)
    {
      if Slot(h) == Dest(s, t) {
        SlotIsInjective(h, Build(s, t));
      }
    }
    StepKeepsInv(s, s', t);
  }

  lemma DiscardKeepsInv(s: State, t: nat, arg: nat)
    requires Inv(s) && Enabled(s, Go(t, arg)) && s.threads[t].pc.Discard?
    ensures Inv(Apply(s, Go(t, arg)))
  {
    var s' := Apply(s, Go(t, arg));
    var n := s.threads[t].pc.n;
    assert ThreadSound(s, t) && Claims(s.threads[t].pc, n);
    TmpIsNoSlot(Build(s, t), s.threads[t].pid, n, Build(s, t));
    OwnFileOnly(s, s', t, n);
    StepKeepsInv(s, s', t);
  }

  lemma NextKeepsInv(s: State, a: Action)
    requires Inv(s) && Enabled(s, a)
    ensures Inv(Apply(s, a))
  {
    match a
    case Start(pid, build) => StartKeepsInv(s, pid, build);
    case Exit(pid) => ExitKeepsInv(s, pid);
    case Call(t, pid) => CallKeepsInv(s, t, pid);
    case Fail(t) => FailKeepsInv(s, t);
    case Go(t, arg) =>
      match s.threads[t].pc
      case Mint => MintKeepsInv(s, t, arg);
      case Open(_) => OpenKeepsInv(s, t, arg);
      case Write(_, _, _) => WriteKeepsInv(s, t, arg);
      case Chmod(_) => ChmodKeepsInv(s, t, arg);
      case Rename(_) => RenameKeepsInv(s, t, arg);
      case Discard(_, _) => DiscardKeepsInv(s, t, arg);
      case _ => LookKeepsInv(s, t, arg);
  }

  // ----- whole runs

  /** A run: any interleaving of any steps of any threads. */
  ghost predicate IsRun(run: seq<State>) {
    && run != [] && Initial(run[0])
    && forall i :: 0 <= i < |run| - 1 ==> Next(run[i], run[i + 1])
  }

  lemma {:induction false} RunKeepsInv(run: seq<State>, k: nat)
    requires IsRun(run) && k < |run|
    ensures Inv(run[k])
  {
    if k == 0 {
      InitialInv(run[0]);
    } else {
      RunKeepsInv(run, k - 1);
      assert Next(run[k - 1], run[k]);
      var a :| Enabled(run[k - 1], a) && run[k] == Apply(run[k - 1], a);
      NextKeepsInv(run[k - 1], a);
    }
  }

  /** Nothing ever removes a slot, and a hash keeps its binary. */
  lemma SlotsStay(s: State, a: Action, h: string)
    requires Inv(s) && Enabled(s, a) && h in s.builds && Slot(h) in s.dir
    ensures Slot(h) in Apply(s, a).dir && Apply(s, a).builds == s.builds
  {
    if a.Go? {
      match s.threads[a.thread].pc
      case Rename(n) => TmpIsNoSlot(Build(s, a.thread), s.threads[a.thread].pid, n, h);
      case Discard(n, _) => TmpIsNoSlot(Build(s, a.thread), s.threads[a.thread].pid, n, h);
      case _ =>
    }
  }

  /** The slot of `h` is there, with these builds. */
  predicate HasSlot(s: State, builds: map<string, Bytes>, h: string) {
    s.builds == builds && h in builds && Slot(h) in s.dir
  }

  lemma NextKeepsSlot(s: State, s': State, builds: map<string, Bytes>, h: string)
    requires Inv(s) && Next(s, s') && HasSlot(s, builds, h)
    ensures HasSlot(s', builds, h)
  {
    var a :| Enabled(s, a) && s' == Apply(s, a);
    SlotsStay(s, a, h);
  }

  lemma {:induction false} SlotStaysInRun(run: seq<State>, i: nat, j: nat, builds: map<string, Bytes>, h: string)
    requires IsRun(run) && i <= j < |run| && HasSlot(run[i], builds, h)
    ensures HasSlot(run[j], builds, h)
  {
    if i < j {
      SlotStaysInRun(run, i, j - 1, builds, h);
      SlotStaysOneStep(run, j - 1, builds, h);
    }
  }

  lemma SlotStaysOneStep(run: seq<State>, k: nat, builds: map<string, Bytes>, h: string)
    requires IsRun(run) && k < |run| - 1 && HasSlot(run[k], builds, h)
    ensures HasSlot(run[k + 1], builds, h)
  {
    RunKeepsInv(run, k);
    StepOfRun(run, k);
    NextKeepsSlot(run[k], run[k + 1], builds, h);
  }

  lemma StepOfRun(run: seq<State>, k: nat)
    requires IsRun(run) && k < |run| - 1
    ensures Next(run[k], run[k + 1])
  {
  }

  /** Once published, a slot stays published, with the same contents, for the rest of the run. */
  lemma PublishedForever(run: seq<State>, i: nat, j: nat, h: string)
    requires IsRun(run) && i <= j < |run| && Published(run[i], h)
    ensures Published(run[j], h) && run[j].builds == run[i].builds
  {
    SlotStaysInRun(run, i, j, run[i].builds, h);
    RunKeepsInv(run, j);
    InvIsEnough(run[j]);
  }

  /**
   In every state of every run, every slot that exists holds the complete executable binary of
   its hash and nobody has it open for writing.
   */
  lemma SlotsAlwaysSound(run: seq<State>, k: nat)
    requires IsRun(run) && k < |run|
    ensures SlotsSound(run[k])
  {
    RunKeepsInv(run, k);
    InvIsEnough(run[k]);
  }

  /** A successful return names the caller's slot, which is published then and ever after. */
  lemma SuccessIsForever(run: seq<State>, i: nat, j: nat, t: nat)
    requires IsRun(run) && i <= j < |run| && Runs(run[i], t)
    requires run[i].threads[t].pc.Returned? && run[i].threads[t].pc.outcome.Ok?
    ensures run[i].threads[t].pc.outcome.path == Dest(run[i], t)
    ensures Published(run[j], Build(run[i], t))
  {
    RunKeepsInv(run, i);
    InvIsEnough(run[i]);
    PublishedForever(run, i, j, Build(run[i], t));
  }
}
