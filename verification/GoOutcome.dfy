/**
 What a call of the Go extractor returns, and that it can always finish: the verdict as a function of the
 failed system calls, the way back to a published slot, and what is left in the cache directory
 (shatter-cli/src/embedded_go_frontend.rs).
 */
module GoOutcome {
  import opened Names
  import opened GoFrontend

  // ----- runs with their actions

  ghost predicate IsTrace(trace: seq<State>, actions: seq<Action>) {
    && |trace| == |actions| + 1 && Initial(trace[0])
    && forall i :: 0 <= i < |actions| ==> Enabled(trace[i], actions[i]) && trace[i + 1] == Apply(trace[i], actions[i])
  }

  lemma {:induction false} TraceKeepsInv(trace: seq<State>, actions: seq<Action>, k: nat)
    requires IsTrace(trace, actions) && k < |trace|
    ensures Inv(trace[k])
  {
    if k == 0 {
      InitialInv(trace[0]);
    } else {
      TraceKeepsInv(trace, actions, k - 1);
      NextKeepsInv(trace[k - 1], actions[k - 1]);
    }
  }

  /** Thread `t` entered the extractor with action `i`, and its process is still there in state `k`. */
  ghost predicate InCall(actions: seq<Action>, t: nat, i: nat, k: nat) {
    && i < k <= |actions| && actions[i].Call? && actions[i].thread == t
    && forall j :: i < j < k ==> actions[j] != Exit(actions[i].pid)
  }

  // ----- the verdict of a call

  /**
   The steps that make a call fail: a failed call before the rename, and a look after a failed rename that
   does not find the slot.
   */
  predicate Spoils(s: State, a: Action, t: nat) {
    && Runs(s, t)
    && match s.threads[t].pc
       case MakeDir | Open(_) | Write(_, _, _) | Chmod(_) => a == Fail(t)
       case RenameFailed(_) => a.Go? && a.thread == t && Dest(s, t) !in s.dir
       case _ => false
  }

  ghost predicate Spoiled(trace: seq<State>, actions: seq<Action>, t: nat, i: nat, k: nat)
    requires |trace| == |actions| + 1 && k < |trace|
  {
    exists j :: i <= j < k && Spoils(trace[j], actions[j], t)
  }

  /** The outcome that a thread has in hand, if it has one. */
  predicate Decided(pc: Pc, outcome: Outcome) {
    (pc.Returned? || pc.Discard?) && pc.outcome == outcome
  }

  predicate Undecided(pc: Pc) { !pc.Returned? && !pc.Discard? }

  /** What a thread has in hand when a step of its call has spoiled it, and when none has. */
  predicate Stands(s: State, t: nat, pid: nat, spoiled: bool) {
    && Runs(s, t) && s.threads[t].pid == pid
    && var pc := s.threads[t].pc;
       if spoiled then Decided(pc, Err) else Undecided(pc) || Decided(pc, Ok(Dest(s, t)))
  }

  predicate IsOwn(a: Action, t: nat) { (a.Go? || a.Fail?) && a.thread == t }

  /** What others do leaves a thread where it is. */
  lemma OthersStep(s: State, a: Action, t: nat)
    requires Enabled(s, a) && Runs(s, t) && a != Exit(s.threads[t].pid) && !IsOwn(a, t)
    ensures Runs(Apply(s, a), t) && Apply(s, a).threads[t] == s.threads[t] && Build(Apply(s, a), t) == Build(s, t)
  {
  }

  lemma OwnStepStands(s: State, a: Action, t: nat, spoiled: bool)
    requires Enabled(s, a) && Runs(s, t) && Stands(s, t, s.threads[t].pid, spoiled) && IsOwn(a, t)
    ensures Stands(Apply(s, a), t, s.threads[t].pid, spoiled || Spoils(s, a, t))
  {
  }

  lemma StepStands(s: State, a: Action, t: nat, pid: nat, spoiled: bool)
    requires Enabled(s, a) && Stands(s, t, pid, spoiled) && a != Exit(pid)
    ensures Stands(Apply(s, a), t, pid, spoiled || Spoils(s, a, t))
  {
    if IsOwn(a, t) {
      OwnStepStands(s, a, t, spoiled);
    } else {
      OthersStep(s, a, t);
    }
  }

  lemma {:induction false} CallStands(trace: seq<State>, actions: seq<Action>, t: nat, i: nat, k: nat)
    requires IsTrace(trace, actions) && InCall(actions, t, i, k)
    ensures Stands(trace[k], t, actions[i].pid, Spoiled(trace, actions, t, i, k))
    decreases k
  {
    var pid := actions[i].pid;
    if k == i + 1 {
      assert !Spoils(trace[i], actions[i], t);
    } else {
      CallStands(trace, actions, t, i, k - 1);
      StepStands(trace[k - 1], actions[k - 1], t, pid, Spoiled(trace, actions, t, i, k - 1));
      SpoiledStep(trace, actions, t, i, k);
    }
  }

  lemma SpoiledStep(trace: seq<State>, actions: seq<Action>, t: nat, i: nat, k: nat)
    requires |trace| == |actions| + 1 && i < k < |trace|
    ensures Spoiled(trace, actions, t, i, k)
            <==> Spoiled(trace, actions, t, i, k - 1) || Spoils(trace[k - 1], actions[k - 1], t)
  {
  }

  /**
   The verdict of every call in every run: an error if some step of the call spoiled it, and otherwise success
   with the caller's own slot.
   */
  lemma VerdictIs(trace: seq<State>, actions: seq<Action>, t: nat, i: nat, k: nat)
    requires IsTrace(trace, actions) && InCall(actions, t, i, k)
    ensures Runs(trace[k], t)
    ensures trace[k].threads[t].pc.Returned? ==>
              trace[k].threads[t].pc.outcome
              == if Spoiled(trace, actions, t, i, k) then Err else Ok(Dest(trace[k], t))
  {
    CallStands(trace, actions, t, i, k);
  }

  /** Only a failed rename leads to the second look. */
  lemma {:induction false} LooksAgainAfterFailure(trace: seq<State>, actions: seq<Action>, t: nat, i: nat, k: nat)
    requires IsTrace(trace, actions) && InCall(actions, t, i, k)
    requires forall j :: i < j < k ==> actions[j] != Fail(t)
    ensures Runs(trace[k], t) && !trace[k].threads[t].pc.RenameFailed?
    decreases k
  {
    CallStands(trace, actions, t, i, k);
    if k > i + 1 {
      LooksAgainAfterFailure(trace, actions, t, i, k - 1);
      StepToLook(trace[k - 1], actions[k - 1], t);
    } else {
      CallStarts(trace[i], actions[i], trace[i + 1], t);
    }
  }

  lemma StepToLook(s: State, a: Action, t: nat)
    requires Enabled(s, a) && Runs(s, t) && a != Fail(t) && !s.threads[t].pc.RenameFailed?
    ensures t in Apply(s, a).threads ==> !Apply(s, a).threads[t].pc.RenameFailed?
  {
    if a != Exit(s.threads[t].pid) && !IsOwn(a, t) {
      OthersStep(s, a, t);
    }
  }

  /** A call in which no system call fails returns its slot. */
  lemma UnfailedCallSucceeds(trace: seq<State>, actions: seq<Action>, t: nat, i: nat, k: nat)
    requires IsTrace(trace, actions) && InCall(actions, t, i, k)
    requires forall j :: i < j < k ==> actions[j] != Fail(t)
    ensures Runs(trace[k], t)
    ensures trace[k].threads[t].pc.Returned? ==>
              trace[k].threads[t].pc == Returned(Ok(Dest(trace[k], t))) && Published(trace[k], Build(trace[k], t))
  {
    forall j | i <= j < k ensures !Spoils(trace[j], actions[j], t) {
      if j > i {
        LooksAgainAfterFailure(trace, actions, t, i, j);
      }
    }
    VerdictIs(trace, actions, t, i, k);
    TraceKeepsInv(trace, actions, k);
    InvIsEnough(trace[k]);
  }

  /** An outcome in hand is not given up. */
  lemma {:induction false} DecisionStays(trace: seq<State>, actions: seq<Action>, t: nat, i: nat, j: nat, k: nat,
                                         outcome: Outcome)
    requires IsTrace(trace, actions) && InCall(actions, t, i, k) && i < j <= k
    requires t in trace[j].threads && Decided(trace[j].threads[t].pc, outcome)
    ensures t in trace[k].threads && Decided(trace[k].threads[t].pc, outcome)
    decreases k
  {
    if j < k {
      DecisionStays(trace, actions, t, i, j, k - 1, outcome);
      CallStands(trace, actions, t, i, k - 1);
      StepKeepsDecision(trace[k - 1], actions[k - 1], t, outcome);
    }
  }

  lemma StepKeepsDecision(s: State, a: Action, t: nat, outcome: Outcome)
    requires Enabled(s, a) && Runs(s, t) && a != Exit(s.threads[t].pid) && Decided(s.threads[t].pc, outcome)
    ensures t in Apply(s, a).threads && Decided(Apply(s, a).threads[t].pc, outcome)
  {
    if !IsOwn(a, t) {
      OthersStep(s, a, t);
    }
  }

  /** After a lost rename the call succeeds exactly when the slot was there at the second look. */
  lemma LostRenameVerdict(trace: seq<State>, actions: seq<Action>, t: nat, i: nat, look: nat, k: nat)
    requires IsTrace(trace, actions) && InCall(actions, t, i, k) && i < look < k
    requires actions[look].Go? && actions[look].thread == t && trace[look].threads[t].pc.RenameFailed?
    ensures Runs(trace[look], t) && Runs(trace[k], t)
    ensures trace[k].threads[t].pc.Returned? ==>
              (trace[k].threads[t].pc.outcome == Ok(Dest(trace[k], t)) <==> Dest(trace[look], t) in trace[look].dir)
  {
    CallStands(trace, actions, t, i, k);
    var found := Dest(trace[look], t) in trace[look].dir;
    DecisionStays(trace, actions, t, i, look + 1, k, if found then Ok(Dest(trace[look], t)) else Err);
  }

  // ----- a call can always finish

  /** `last` is reached from `s` by successful steps of thread `t` alone. */
  ghost predicate OwnRun(s: State, t: nat, args: seq<nat>, last: State)
    decreases |args|
  {
    if args == [] then s == last
    else Enabled(s, Go(t, args[0])) && OwnRun(Apply(s, Go(t, args[0])), t, args[1..], last)
  }

  /** How many steps a thread needs at most, with its binary written at once. */
  function ToGo(pc: Pc): nat {
    match pc
    case Check => 7
    case MakeDir => 6
    case Mint => 5
    case Open(_) => 4
    case Write(_, _, _) => 3
    case Chmod(_) => 2
    case Rename(_) => 1
    case RenameFailed(_) => 2
    case Discard(_, _) => 1
    case Returned(_) => 0
  }

  /** The call is not lost: no error in hand, and no lost rename without a slot. */
  predicate Hopeful(s: State, t: nat) {
    && Runs(s, t)
    && var pc := s.threads[t].pc;
       && !Decided(pc, Err)
       && (pc.RenameFailed? ==> Dest(s, t) in s.dir)
  }

  lemma {:induction false} FreshInode(inodes: map<nat, Inode>) returns (i: nat)
    ensures forall j :: j in inodes ==> j < i
    decreases |inodes|
  {
    i := 0;
    if inodes != map[] {
      var k :| k in inodes;
      var rest := inodes - {k};
      assert rest.Keys == inodes.Keys - {k};
      var i' := FreshInode(rest);
      i := if i' <= k then k + 1 else i';
      forall j | j in inodes ensures j < i {
        assert j != k ==> j in rest;
      }
    }
  }

  /** The next step of a call that is not lost. */
  lemma NextArgument(s: State, t: nat) returns (arg: nat)
    requires Inv(s) && Hopeful(s, t) && !s.threads[t].pc.Returned?
    ensures Enabled(s, Go(t, arg))
    ensures s.threads[t].pc.Write? ==> s.threads[t].pc.done + arg == |Binary(s, t)|
  {
    assert ThreadSound(s, t);
    var pc := s.threads[t].pc;
    arg := 0;
    if pc.Open? {
      arg := FreshInode(s.inodes);
    } else if pc.Write? {
      arg := |Binary(s, t)| - pc.done;
    }
  }

  lemma StepComesNearer(s: State, t: nat, arg: nat)
    requires Runs(s, t) && Enabled(s, Go(t, arg))
    requires s.threads[t].pc.Write? ==> s.threads[t].pc.done + arg == |Binary(s, t)|
    ensures var s' := Apply(s, Go(t, arg));
            Runs(s', t) && ToGo(s'.threads[t].pc) < ToGo(s.threads[t].pc) && Build(s', t) == Build(s, t)
  {
  }

  lemma StepStaysHopeful(s: State, t: nat, arg: nat)
    requires Inv(s) && Hopeful(s, t) && Enabled(s, Go(t, arg))
    ensures Hopeful(Apply(s, Go(t, arg)), t)
  {
    assert ThreadSound(s, t);
  }

  /**
   In every state of every run, a call that is not lost can finish by its own steps, whatever the other threads
   are doing and whatever they have left behind, and it then names its published slot.
   */
  lemma {:induction false} CanSucceed(s: State, t: nat) returns (args: seq<nat>, last: State)
    requires Inv(s) && Hopeful(s, t)
    ensures OwnRun(s, t, args, last) && |args| <= ToGo(s.threads[t].pc)
    ensures Runs(last, t) && Build(last, t) == Build(s, t) && Published(last, Build(s, t))
    ensures last.threads[t].pc == Returned(Ok(Slot(Build(s, t))))
    decreases ToGo(s.threads[t].pc)
  {
    if s.threads[t].pc.Returned? {
      args, last := [], s;
      assert ThreadSound(s, t);
      InvIsEnough(s);
    } else {
      var arg := NextArgument(s, t);
      StepStaysHopeful(s, t, arg);
      StepComesNearer(s, t, arg);
      NextKeepsInv(s, Go(t, arg));
      var more;
      more, last := CanSucceed(Apply(s, Go(t, arg)), t);
      args := [arg] + more;
      assert args[1..] == more;
    }
  }

  /** And only those can: from any other state no steps of the thread alone lead to success. */
  lemma {:induction false} LostStaysLost(s: State, t: nat, args: seq<nat>, last: State)
    requires Runs(s, t) && !Hopeful(s, t) && OwnRun(s, t, args, last)
    ensures Runs(last, t) && !Hopeful(last, t)
    decreases |args|
  {
    if args != [] {
      LostStaysLost(Apply(s, Go(t, args[0])), t, args[1..], last);
    }
  }

  ghost predicate SucceedsAlone(s: State, t: nat) {
    exists args, last :: OwnRun(s, t, args, last) && Runs(last, t) && last.threads[t].pc == Returned(Ok(Dest(last, t)))
  }

  lemma SucceedsAloneIff(s: State, t: nat)
    requires Inv(s) && t in s.threads
    ensures SucceedsAlone(s, t) <==> Hopeful(s, t)
  {
    assert ThreadSound(s, t);
    if Hopeful(s, t) {
      var args, last := CanSucceed(s, t);
    } else if SucceedsAlone(s, t) {
      var args, last :|
        OwnRun(s, t, args, last) && Runs(last, t) && last.threads[t].pc == Returned(Ok(Dest(last, t)));
      LostStaysLost(s, t, args, last);
    }
  }

  // ----- what a call leaves in the directory

  predicate Idle(pc: Pc) { pc.Check? || pc.Returned? }

  /** A thread works only if it found its slot missing: one that finds it returns at once. */
  lemma {:induction false} WorksOnlyIfMissing(trace: seq<State>, actions: seq<Action>, t: nat, i: nat, k: nat)
    requires IsTrace(trace, actions) && InCall(actions, t, i, k)
    requires forall j :: i < j < k && Runs(trace[j], t) && trace[j].threads[t].pc.Check? ==>
               Dest(trace[j], t) in trace[j].dir
    ensures Runs(trace[k], t) && Idle(trace[k].threads[t].pc)
    decreases k
  {
    CallStands(trace, actions, t, i, k);
    if k > i + 1 {
      WorksOnlyIfMissing(trace, actions, t, i, k - 1);
      StepStaysIdle(trace[k - 1], actions[k - 1], t);
    } else {
      CallStarts(trace[i], actions[i], trace[i + 1], t);
    }
  }

  lemma CallStarts(s: State, a: Action, s': State, t: nat)
    requires Enabled(s, a) && a.Call? && a.thread == t && s' == Apply(s, a)
    ensures t in s'.threads && s'.threads[t].pc.Check?
  {
  }

  lemma StepStaysIdle(s: State, a: Action, t: nat)
    requires Enabled(s, a) && Runs(s, t) && Idle(s.threads[t].pc)
    requires s.threads[t].pc.Check? ==> Dest(s, t) in s.dir
    ensures t in Apply(s, a).threads ==> Idle(Apply(s, a).threads[t].pc)
  {
    if a != Exit(s.threads[t].pid) && !IsOwn(a, t) {
      OthersStep(s, a, t);
    }
  }

  /**
   A staging file is left behind by the return of its thread exactly when the last system call was a failed write or
   a failed removal: a failed chmod or rename, and a rename that is lost, remove it.
   */
  lemma ReturnLeavesStagingIff(s: State, a: Action, t: nat, n: nat)
    requires Inv(s) && Enabled(s, a) && Runs(s, t) && Claims(s.threads[t].pc, n)
    requires t in Apply(s, a).threads && Apply(s, a).threads[t].pc.Returned?
    ensures TmpOf(s, t, n) in Apply(s, a).dir <==>
            && a == Fail(t) && TmpOf(s, t, n) in s.dir
            && (s.threads[t].pc.Open? || s.threads[t].pc.Write? || s.threads[t].pc.Discard?)
  {
    TmpIsNoSlot(Build(s, t), s.threads[t].pid, n, Build(s, t));
    if a != Exit(s.threads[t].pid) && !IsOwn(a, t) {
      OthersStep(s, a, t);
    }
  }
}
