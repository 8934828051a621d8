/**
 The observational pre-push check: it asks the receipt validator for a verdict and
 grades that verdict against the gate that really ran (scripts/receipt-shadow-check.py).
 */
module ShadowCheck {
  import opened Json
  import opened Receipt
  import opened ReceiptCheck

  datatype Update = Update(localRef: string, localSha: string, remoteRef: string, remoteSha: string)

  /** The all-zero object name that marks a deleted ref. */
  predicate IsZeroSha(s: string) { |s| == 40 && forall i :: 0 <= i < |s| ==> s[i] == '0' }

  function NonDeletions(updates: seq<Update>): seq<Update> {
    if updates == [] then []
    else if !IsZeroSha(updates[0].localSha) then [updates[0]] + NonDeletions(updates[1..])
    else NonDeletions(updates[1..])
  }

  datatype Decision = Reuse | Invalid | NoGate

  datatype Cause =
    | FromReceipt(reason: Reason) | MultiRef | NoTargetRef | GitError | MissingReceipt | IoError

  datatype Grade = FalseAccept | ExpectedMiss | UnexpectedMiss | Match

  datatype DiffClass = BeadsOnly | OtherFiles | Unknown

  /** What the real gate did. */
  datatype RealGate = RealGate(ran: bool, exitCode: Option<int>)

  datatype Event = Event(
    pushId: string, timestamp: string, updates: seq<Update>, candidate: Option<string>, diffClass: DiffClass,
    decision: Decision, reasons: seq<Cause>, realGate: RealGate, grade: Grade)

  /** A push: its ref updates, the required task (empty for none), and what Git says about it. */
  datatype Push = Push(
    id: string, timestamp: string, updates: seq<Update>, task: string, realGate: RealGate,
    trees: Option<(string, string)>, diffClass: DiffClass)

  /** The required gate did run and did not pass. */
  predicate GateFailed(g: RealGate) { g.ran && g.exitCode.Some? && g.exitCode.value != 0 }

  function Classify(decision: Decision, reasons: seq<Cause>, gate: RealGate): Grade {
    match decision
    case Reuse => if GateFailed(gate) then FalseAccept else Match
    case NoGate => Match
    case Invalid => if reasons != [] then ExpectedMiss else UnexpectedMiss
  }

  function Causes(reasons: seq<Reason>): (r: seq<Cause>)
    ensures |r| == |reasons|
  {
    seq(|reasons|, i requires 0 <= i < |reasons| => FromReceipt(reasons[i]))
  }

  /** What the run of the validator says, in this check's own vocabulary. */
  function DecisionOf(o: Outcome): (Decision, seq<Cause>) {
    match o
    case Printed(valid, reasons) => (if valid then Reuse else Invalid, Causes(reasons))
    case IoFailure(missing) => (Invalid, [if missing then MissingReceipt else IoError])
  }

  /** The one requirement a push makes that must pass `task`. */
  function RequirementsFor(task: string): seq<Requirement> {
    [Requirement("task " + task, ["task", task])]
  }

  /** The push could be answered by a receipt at all. */
  predicate Answerable(p: Push) {
    |NonDeletions(p.updates)| == 1 && p.trees.Some? && p.task != ""
  }

  /** What every event the check emits satisfies, whatever it is read for later. */
  predicate Genuine(e: Event) {
    && e.grade == Classify(e.decision, e.reasons, e.realGate)
    && (e.decision == Invalid ==> e.reasons != [])
  }

  /** The validator can be asked about the push's one requirement. */
  predicate Asked(c: Codec, w: World, p: Push) {
    p.task != "" ==>
      w.requirements.Some? && ReadRequirements(c, w.requirements.value) == Some(RequirementsFor(p.task))
  }

  /** The push's trees are answered by a receipt that the validator accepts at the local tier. */
  ghost predicate Answered(c: Codec, w: World, p: Push) {
    Answerable(p) && Accepts(c, w, Query(p.trees.value.0, p.trees.value.1, "local"))
  }

  /** The causes that a verdict of the validator gives, told from what it finds. */
  ghost predicate CausesOf(c: Codec, w: World, q: Query, causes: seq<Cause>) {
    if !w.repository then causes == [IoError]
    else if !TreesNamed(w, q) then causes == [FromReceipt(Malformed)]
    else match w.receipt
      case Unopenable(missing) => causes == [if missing then MissingReceipt else IoError]
      case NotAFile => causes == [FromReceipt(Permissions)]
      case File(_, _) =>
        if w.requirements.None? then causes == [IoError]
        else if !Bindable(w.tree) then causes == [FromReceipt(Malformed)]
        else if w.tools.None? then causes == [IoError]
        else exists b, reasons ::
          ReasonsExact(c, w, q, b, reasons) && |causes| == |reasons|
          && forall i :: 0 <= i < |reasons| ==> causes[i] == FromReceipt(reasons[i])
  }

  /** `e` is the event of push `p`; `w` is what the validator finds when it is started. */
  ghost predicate IsEventOf(c: Codec, w: World, p: Push, e: Event) {
    && Genuine(e)
    && e.pushId == p.id && e.timestamp == p.timestamp && e.updates == p.updates && e.realGate == p.realGate
    && (e.decision == Reuse <==> Answered(c, w, p))
    && (|NonDeletions(p.updates)| > 1 ==> e.decision == Invalid && e.reasons == [MultiRef])
    && (|NonDeletions(p.updates)| == 0 ==> e.decision == Invalid && e.reasons == [NoTargetRef])
    && (|NonDeletions(p.updates)| == 1 && p.trees.None? ==> e.decision == Invalid && e.reasons == [GitError])
    && (Answerable(p) ==> CausesOf(c, w, Query(p.trees.value.0, p.trees.value.1, "local"), e.reasons))
    && (e.decision == NoGate <==> |NonDeletions(p.updates)| == 1 && p.trees.Some? && p.task == "")
    && (e.candidate.Some? <==> |NonDeletions(p.updates)| == 1 && p.trees.Some?)
    && (e.candidate.Some? ==> e.candidate.value == p.trees.value.0)
    && e.diffClass == (if e.candidate.Some? then p.diffClass else Unknown)
  }

  /** What the validator promises is enough to tell its causes. */
  lemma VerdictGivesCauses(c: Codec, w: World, q: Query, o: Outcome)
    requires o.IoFailure? <==>
             || !w.repository
             || (TreesNamed(w, q) && w.receipt.Unopenable?)
             || (TreesNamed(w, q) && w.receipt.File? && (w.requirements.None? || (Bindable(w.tree) && w.tools.None?)))
    requires o.IoFailure? ==> (o.missingReceipt <==> w.repository && w.receipt == Unopenable(true))
    requires w.repository && !TreesNamed(w, q) ==> o == Printed(false, [Malformed])
    requires w.repository && TreesNamed(w, q) && w.receipt.NotAFile? ==> o == Printed(false, [Permissions])
    requires w.repository && TreesNamed(w, q) && w.receipt.File? && w.requirements.Some? && !Bindable(w.tree) ==>
               o == Printed(false, [Malformed])
    requires Comparable(w, q) ==> o.Printed? && exists b :: ReasonsExact(c, w, q, b, o.reasons)
    ensures CausesOf(c, w, q, DecisionOf(o).1)
  {
    if Comparable(w, q) {
      var b :| ReasonsExact(c, w, q, b, o.reasons);
      assert |Causes(o.reasons)| == |o.reasons|;
    }
  }

  /**
   Build the event of a push. The validator is asked about the pushed trees, the local tier and
   the push's one requirement.
   */
  method BuildEvent(c: Codec, w: World, p: Push) returns (e: Event)
    requires Asked(c, w, p)
    ensures IsEventOf(c, w, p, e)
  {
    var nonDeletions := NonDeletions(p.updates);
    var candidate, diffClass := None, Unknown;
    var decision: Decision, reasons: seq<Cause>;
    if |nonDeletions| != 1 {
      decision, reasons := Invalid, [if |nonDeletions| > 1 then MultiRef else NoTargetRef];
    } else if p.trees.None? {
      decision, reasons := Invalid, [GitError];
    } else {
      candidate, diffClass := Some(p.trees.value.0), p.diffClass;
      if p.task == "" {
        decision, reasons := NoGate, [];
      } else {
        var q := Query(p.trees.value.0, p.trees.value.1, "local");
        var o := ValidateReceipt(c, w, q);
        VerdictGivesCauses(c, w, q, o);
        var answer := DecisionOf(o);
        decision, reasons := answer.0, answer.1;
      }
    }
    e := Event(p.id, p.timestamp, p.updates, candidate, diffClass, decision, reasons, p.realGate,
               Classify(decision, reasons, p.realGate));
  }

  // ----- which updates count

  const ZERO_SHA := "0000000000000000000000000000000000000000"

  lemma ZeroShaIs(s: string)
    ensures IsZeroSha(s) <==> s == ZERO_SHA
  {
  }

  /** Update by update and in order, exactly those count whose local object is not forty zeros. */
  lemma NonDeletionOne(u: Update)
    ensures NonDeletions([u]) == if u.localSha == ZERO_SHA then [] else [u]
  {
    ZeroShaIs(u.localSha);
    assert [u][1..] == [];
  }

  lemma {:induction false} NonDeletionsAppend(a: seq<Update>, b: seq<Update>)
    ensures NonDeletions(a + b) == NonDeletions(a) + NonDeletions(b)
  {
    if a == [] {
      assert a + b == b;
    } else {
      assert (a + b)[1..] == a[1..] + b;
      NonDeletionsAppend(a[1..], b);
    }
  }

  /** Update `k` is the only one that does not delete its ref. */
  predicate OnlyUpdate(updates: seq<Update>, k: nat) {
    && k < |updates| && updates[k].localSha != ZERO_SHA
    && forall j :: 0 <= j < |updates| && j != k ==> updates[j].localSha == ZERO_SHA
  }

  lemma {:induction false} NoneCounts(updates: seq<Update>)
    ensures NonDeletions(updates) == [] <==> forall j :: 0 <= j < |updates| ==> updates[j].localSha == ZERO_SHA
  {
    if updates != [] {
      ZeroShaIs(updates[0].localSha);
      NoneCounts(updates[1..]);
    }
  }

  lemma OnlyUpdateCounts(updates: seq<Update>, k: nat)
    requires OnlyUpdate(updates, k)
    ensures NonDeletions(updates) == [updates[k]]
  {
    assert updates == updates[..k] + ([updates[k]] + updates[k + 1..]);
    NonDeletionsAppend(updates[..k], [updates[k]] + updates[k + 1..]);
    NonDeletionsAppend([updates[k]], updates[k + 1..]);
    NonDeletionOne(updates[k]);
    NoneCounts(updates[..k]);
    NoneCounts(updates[k + 1..]);
  }

  lemma {:induction false} OneThatCounts(updates: seq<Update>) returns (k: nat)
    requires |NonDeletions(updates)| == 1
    ensures OnlyUpdate(updates, k)
  {
    ZeroShaIs(updates[0].localSha);
    if updates[0].localSha == ZERO_SHA {
      k := OneThatCounts(updates[1..]);
      k := k + 1;
    } else {
      NoneCounts(updates[1..]);
      k := 0;
    }
  }
}
