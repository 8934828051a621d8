/**
 Deciding from logged shadow events whether receipts may replace gate runs: which
 events count, which are selected, and when the threshold is met
 (scripts/receipt-shadow-threshold-check.py).
 */
module ShadowThreshold {
  import opened Text
  import opened Sorting
  import opened Selecting
  import opened Json
  import opened Names
  import opened Receipt
  import opened ReceiptCheck
  import opened ShadowCheck
  import EventLog

  const HEADS := "refs/heads/"

  predicate IsMainRef(r: string) { r == HEADS + "main" || r == HEADS + "master" }

  function OriginRef(r: string): string {
    "origin/" + if HEADS <= r then r[|HEADS|..] else r
  }

  /** A landed push of one ref to the main branch that changed product files. */
  predicate Eligible(e: Event, ancestor: Ancestry) {
    var only := NonDeletions(e.updates);
    && e.diffClass == OtherFiles
    && |only| == 1 && IsMainRef(only[0].remoteRef)
    && only[0].localSha != ""
    && ancestor(only[0].localSha, OriginRef(only[0].remoteRef))
  }

  type Ancestry = (string, string) -> bool

  /** Pushed to `branch` and by now on the branch of that name at the origin. */
  predicate LandedOn(u: Update, branch: string, ancestor: Ancestry) {
    u.remoteRef == "refs/heads/" + branch && u.localSha != "" && ancestor(u.localSha, "origin/" + branch)
  }

  lemma OriginRefIs(branch: string)
    ensures OriginRef("refs/heads/" + branch) == "origin/" + branch
  {
    assert (HEADS + branch)[|HEADS|..] == branch;
  }

  lemma MainRefIff(u: Update, ancestor: Ancestry)
    ensures IsMainRef(u.remoteRef) && u.localSha != "" && ancestor(u.localSha, OriginRef(u.remoteRef))
            <==> LandedOn(u, "main", ancestor) || LandedOn(u, "master", ancestor)
  {
    OriginRefIs("main");
    OriginRefIs("master");
  }

  /** Which events count, on the updates of the push. */
  lemma EligibleIff(e: Event, ancestor: Ancestry)
    ensures Eligible(e, ancestor) <==>
            && e.diffClass == OtherFiles
            && exists k: nat :: OnlyUpdate(e.updates, k)
                 && (LandedOn(e.updates[k], "main", ancestor) || LandedOn(e.updates[k], "master", ancestor))
  {
    var only := NonDeletions(e.updates);
    if |only| == 1 {
      MainRefIff(only[0], ancestor);
      var k := OneThatCounts(e.updates);
      OnlyUpdateCounts(e.updates, k);
    }
    forall k: nat | OnlyUpdate(e.updates, k) ensures only == [e.updates[k]] {
      OnlyUpdateCounts(e.updates, k);
    }
  }

  function Landed(ancestor: Ancestry): Event -> bool { (e: Event) => Eligible(e, ancestor) }

  // ----- selection

  predicate TimeLe(a: Event, b: Event) { LexLe(a.timestamp, b.timestamp) }

  lemma TimeLeIsTotalPreorder()
    ensures TotalPreorder(TimeLe)
  {
    forall x, y ensures TimeLe(x, y) || TimeLe(y, x) { LexLeTotal(x.timestamp, y.timestamp); }
    forall x, y, z | TimeLe(x, y) && TimeLe(y, z) ensures TimeLe(x, z) {
      LexLeTransitive(x.timestamp, y.timestamp, z.timestamp);
    }
  }

  function TreeOf(e: Event): string { if e.candidate.Some? then e.candidate.value else "" }

  /** A limit below one still lets the first event through before it is looked at. */
  function Cap(limit: int): nat { if limit < 1 then 1 else limit }

  function Selection(events: seq<Event>, limit: int): seq<Event> {
    Take(FirstPer(Sort(events, TimeLe), TreeOf, {}), Cap(limit))
  }

  lemma Regroup(a: seq<Event>, e: Event, b: seq<Event>)
    ensures a + ([e] + b) == a + [e] + b
  {}

  /** The selection loop: a set of trees seen, and an early exit at the limit. */
  method SelectFirstDistinct(events: seq<Event>, limit: int) returns (selected: seq<Event>)
    ensures selected == Selection(events, limit)
  {
    var ordered := Sort(events, TimeLe);
    var seen: set<string> := {};
    selected := [];
    for i := 0 to |ordered|
      invariant selected + FirstPer(ordered[i..], TreeOf, seen) == FirstPer(ordered, TreeOf, {})
      invariant |selected| < Cap(limit)
    {
      assert ordered[i..][1..] == ordered[i + 1..];
      var tree := TreeOf(ordered[i]);
      if tree != "" && tree !in seen {
        Regroup(selected, ordered[i], FirstPer(ordered[i + 1..], TreeOf, seen + {tree}));
        seen := seen + {tree};
        selected := selected + [ordered[i]];
        if |selected| >= limit {
          return;
        }
      }
    }
  }

  // ----- the selection by itself

  /** Distinct named trees in time order, and every other event comes too late to stand for a tree. */
  lemma SelectionIsChoice(events: seq<Event>, limit: int)
    ensures |Selection(events, limit)| <= Cap(limit)
    ensures IsChoice(events, Selection(events, limit), TreeOf, TimeLe)
  {
    var ordered := Sort(events, TimeLe);
    TimeLeIsTotalPreorder();
    SortIsSorted(events, TimeLe);
    SortKeepsMembers(events, TimeLe);
    TakenIsChoice(ordered, TreeOf, TimeLe, Cap(limit));
  }

  /** Events no earlier than all present ones extend the selection at its end. */
  lemma LaterEventsExtend(events: seq<Event>, later: seq<Event>, limit: int)
    requires forall x, y :: x in events && y in later ==> TimeLe(x, y)
    ensures Selection(events, limit) <= Selection(events + later, limit)
    ensures |Selection(events, limit)| >= Cap(limit) ==> Selection(events + later, limit) == Selection(events, limit)
  {
    SortAppend(events, later, TimeLe);
    FirstPerAppend(Sort(events, TimeLe), Sort(later, TimeLe), TreeOf, {});
  }

  // ----- the decision

  /** Notes are filed under the tree, or under the push if it names no tree. */
  function NoteKey(e: Event): string { if TreeOf(e) != "" then TreeOf(e) else e.pushId }

  predicate Explained(e: Event, notes: map<string, string>) {
    NoteKey(e) != "" && NoteKey(e) in notes.Keys && notes[NoteKey(e)] != ""
  }

  predicate Holds(e: Event, notes: map<string, string>) {
    && e.grade != FalseAccept
    && (e.grade == UnexpectedMiss ==> Explained(e, notes))
    && (e.grade == ExpectedMiss ==> e.reasons != [])
  }

  /** Sort the records into failures and excuses, then decide. */
  method EvaluateThreshold(records: seq<Event>, notes: map<string, string>, limit: int) returns (passed: bool)
    ensures passed <==> |records| >= limit && forall i :: 0 <= i < |records| ==> Holds(records[i], notes)
  {
    var falseAccepts, unexplained, explained, bare := [], [], [], [];
    for i := 0 to |records|
      invariant falseAccepts == [] <==> forall k :: 0 <= k < i ==> records[k].grade != FalseAccept
      invariant unexplained == [] <==>
                forall k :: 0 <= k < i && records[k].grade == UnexpectedMiss ==> Explained(records[k], notes)
      invariant bare == [] <==>
                forall k :: 0 <= k < i && records[k].grade == ExpectedMiss ==> records[k].reasons != []
    {
      var r := records[i];
      match r.grade {
        case FalseAccept => falseAccepts := falseAccepts + [r];
        case UnexpectedMiss =>
          if Explained(r, notes) { explained := explained + [r]; } else { unexplained := unexplained + [r]; }
        case ExpectedMiss => if r.reasons == [] { bare := bare + [r]; }
        case Match =>
      }
    }
    passed := |records| >= limit && falseAccepts == [] && unexplained == [] && bare == [];
  }

  predicate Passes(selected: seq<Event>, notes: map<string, string>, limit: int) {
    |selected| >= limit && forall i :: 0 <= i < |selected| ==> Holds(selected[i], notes)
  }

  /** Reading the log to deciding. */
  method CheckThreshold(log: seq<Event>, ancestor: Ancestry, notes: map<string, string>, limit: int)
    returns (passed: bool, selected: seq<Event>)
    ensures selected == Selection(Filter(log, Landed(ancestor)), limit)
    ensures passed <==> Passes(selected, notes, limit)
  {
    var eligible := Filter(log, Landed(ancestor));
    selected := SelectFirstDistinct(eligible, limit);
    passed := EvaluateThreshold(selected, notes, limit);
  }

  /** The gate ran and ended with a code other than zero. */
  ghost predicate RanAndFailed(g: RealGate) { exists n :: n != 0 && g == RealGate(true, Some(n)) }

  lemma FailedIs(g: RealGate)
    ensures GateFailed(g) <==> RanAndFailed(g)
  {
    if GateFailed(g) {
      assert g == RealGate(true, Some(g.exitCode.value));
    }
  }

  /**
   End to end: when the log holds the events of pushes, the threshold passes exactly when enough events are selected
   and for none of them a receipt that the validator accepts stood beside a real gate that failed. Notes play no part:
   no such event is graded an unexpected miss, and only that combination is graded a false accept.
   */
  lemma ThresholdIsEvidence(c: Codec, worlds: seq<World>, pushes: seq<Push>, log: seq<Event>, ancestor: Ancestry,
                            notes: map<string, string>, limit: int)
    requires |worlds| == |pushes| == |log|
    requires forall k :: 0 <= k < |log| ==> IsEventOf(c, worlds[k], pushes[k], log[k])
    ensures var selected := Selection(Filter(log, Landed(ancestor)), limit);
            Passes(selected, notes, limit) <==>
            && |selected| >= limit
            && forall k :: 0 <= k < |log| && log[k] in selected ==>
                 !(Answered(c, worlds[k], pushes[k]) && RanAndFailed(pushes[k].realGate))
    ensures forall k :: 0 <= k < |log| ==>
              && log[k].grade != UnexpectedMiss && (log[k].grade == ExpectedMiss ==> log[k].reasons != [])
              && (log[k].grade == FalseAccept <==>
                  Answered(c, worlds[k], pushes[k]) && RanAndFailed(pushes[k].realGate))
  {
    var bad := (k: nat) =>
      k < |log| && Answered(c, worlds[k], pushes[k]) && RanAndFailed(pushes[k].realGate);
    forall k | 0 <= k < |log| ensures Graded(log[k], bad(k)) {
      EventIsGraded(c, worlds[k], pushes[k], log[k]);
    }
    ThresholdFromGrades(log, bad, ancestor, notes, limit);
  }

  /** The grade of an event, by whether an accepted receipt stood beside a failed gate. */
  predicate Graded(e: Event, bad: bool) {
    && e.grade != UnexpectedMiss && (e.grade == ExpectedMiss ==> e.reasons != [])
    && (e.grade == FalseAccept <==> bad)
  }

  lemma EventIsGraded(c: Codec, w: World, p: Push, e: Event)
    requires IsEventOf(c, w, p, e)
    ensures Graded(e, Answered(c, w, p) && RanAndFailed(p.realGate))
  {
    FailedIs(p.realGate);
  }

  lemma ThresholdFromGrades(log: seq<Event>, bad: nat -> bool, ancestor: Ancestry, notes: map<string, string>,
                            limit: int)
    requires forall k: nat :: k < |log| ==> Graded(log[k], bad(k))
    ensures var selected := Selection(Filter(log, Landed(ancestor)), limit);
            Passes(selected, notes, limit) <==>
            |selected| >= limit && forall k: nat :: k < |log| && log[k] in selected ==> !bad(k)
  {
    var selected := Selection(Filter(log, Landed(ancestor)), limit);
    SelectedAreLogged(log, ancestor, limit);
    forall k: nat | k < |log| ensures Holds(log[k], notes) <==> !bad(k) {
      assert Graded(log[k], bad(k));
    }
    forall i | 0 <= i < |selected| ensures exists k: nat :: k < |log| && log[k] == selected[i] {
      assert selected[i] in log;
    }
  }

  lemma SelectedAreLogged(log: seq<Event>, ancestor: Ancestry, limit: int)
    ensures forall e :: e in Selection(Filter(log, Landed(ancestor)), limit) ==> e in log && Eligible(e, ancestor)
  {
    FilterMembers(log, Landed(ancestor));
    SelectionIsChoice(Filter(log, Landed(ancestor)), limit);
  }

  // ----- the log over time

  /** What each line that was ever appended is read as; nothing for a malformed line or another type of event. */
  type Lines = seq<Option<Event>>

  predicate CountsAt(h: Lines, ancestor: Ancestry, p: nat) {
    p < |h| && h[p].Some? && Eligible(h[p].value, ancestor)
  }

  function TimeOf(h: Lines, p: nat): string { if p < |h| && h[p].Some? then h[p].value.timestamp else "" }

  function TreeAt(h: Lines): nat -> string {
    (p: nat) => if p < |h| && h[p].Some? then TreeOf(h[p].value) else ""
  }

  /** The order of the selection: by time, and lines of the same time by position. */
  function Before(h: Lines): (nat, nat) -> bool {
    (p: nat, q: nat) => if TimeOf(h, p) == TimeOf(h, q) then p <= q else LexLe(TimeOf(h, p), TimeOf(h, q))
  }

  /** The eligible lines from `lo` up to `hi`. */
  function Positions(h: Lines, ancestor: Ancestry, lo: nat, hi: nat): (r: seq<nat>)
    requires lo <= hi <= |h|
    ensures forall p :: p in r <==> lo <= p < hi && CountsAt(h, ancestor, p)
    ensures forall i, j :: 0 <= i < j < |r| ==> r[i] < r[j]
    decreases hi - lo
  {
    if lo == hi then []
    else
      var rest := Positions(h, ancestor, lo + 1, hi);
      assert forall i :: 0 <= i < |rest| ==> rest[i] in rest;
      if CountsAt(h, ancestor, lo) then [lo] + rest else rest
  }

  /** The lines selected from a file that holds lines `lo` up to `hi`. */
  function Chosen(h: Lines, ancestor: Ancestry, lo: nat, hi: nat, limit: int): seq<nat>
    requires lo <= hi <= |h|
  {
    Take(FirstPer(Sort(Positions(h, ancestor, lo, hi), Before(h)), TreeAt(h), {}), Cap(limit))
  }

  /** The events read from lines `lo` up to `hi`. */
  function EventsRead(h: Lines, lo: nat, hi: nat): seq<Event>
    requires lo <= hi <= |h|
    decreases hi - lo
  {
    if lo == hi then []
    else if h[lo].Some? then [h[lo].value] + EventsRead(h, lo + 1, hi)
    else EventsRead(h, lo + 1, hi)
  }

  // ----- positions stand for events

  function Pick(h: Lines, ps: seq<nat>): seq<Event>
    requires forall i :: 0 <= i < |ps| ==> ps[i] < |h| && h[ps[i]].Some?
  {
    seq(|ps|, i requires 0 <= i < |ps| => h[ps[i]].value)
  }

  predicate AllRead(h: Lines, ps: seq<nat>) { forall i :: 0 <= i < |ps| ==> ps[i] < |h| && h[ps[i]].Some? }

  lemma PositionsAreRead(h: Lines, ancestor: Ancestry, lo: nat, hi: nat)
    requires lo <= hi <= |h|
    ensures AllRead(h, Positions(h, ancestor, lo, hi))
  {
    var ps := Positions(h, ancestor, lo, hi);
    assert forall i :: 0 <= i < |ps| ==> ps[i] in ps;
  }

  lemma PickCons(h: Lines, p: nat, ps: seq<nat>)
    requires p < |h| && h[p].Some? && AllRead(h, ps)
    ensures AllRead(h, [p] + ps) && Pick(h, [p] + ps) == [h[p].value] + Pick(h, ps)
  {
  }

  lemma {:induction false} EligibleIsPicked(h: Lines, ancestor: Ancestry, lo: nat, hi: nat)
    requires lo <= hi <= |h| && AllRead(h, Positions(h, ancestor, lo, hi))
    ensures Filter(EventsRead(h, lo, hi), Landed(ancestor)) == Pick(h, Positions(h, ancestor, lo, hi))
    decreases hi - lo
  {
    if lo < hi {
      var rest := Positions(h, ancestor, lo + 1, hi);
      PositionsAreRead(h, ancestor, lo + 1, hi);
      EligibleIsPicked(h, ancestor, lo + 1, hi);
      var more := EventsRead(h, lo + 1, hi);
      if h[lo].Some? {
        assert ([h[lo].value] + more)[1..] == more;
      }
      if CountsAt(h, ancestor, lo) {
        PickCons(h, lo, rest);
      }
    }
  }

  /** For a line before all others, comparing events is comparing positions. */
  lemma {:induction false} InsertPicked(h: Lines, p: nat, ps: seq<nat>)
    requires p < |h| && h[p].Some? && AllRead(h, ps) && forall i :: 0 <= i < |ps| ==> p < ps[i]
    ensures AllRead(h, Insert(p, ps, Before(h)))
    ensures Insert(h[p].value, Pick(h, ps), TimeLe) == Pick(h, Insert(p, ps, Before(h)))
    decreases |ps|
  {
    if ps == [] {
      assert Insert(p, ps, Before(h)) == [p];
    } else {
      LexLeTotal(h[p].value.timestamp, h[p].value.timestamp);
      assert TimeLe(h[p].value, h[ps[0]].value) <==> Before(h)(p, ps[0]);
      assert Pick(h, ps)[1..] == Pick(h, ps[1..]);
      if Before(h)(p, ps[0]) {
        PickCons(h, p, ps);
      } else {
        InsertPicked(h, p, ps[1..]);
        var rest := Insert(p, ps[1..], Before(h));
        PickCons(h, ps[0], rest);
      }
    }
  }

  lemma {:induction false} SortPicked(h: Lines, ps: seq<nat>)
    requires AllRead(h, ps) && forall i, j :: 0 <= i < j < |ps| ==> ps[i] < ps[j]
    ensures AllRead(h, Sort(ps, Before(h)))
    ensures Sort(Pick(h, ps), TimeLe) == Pick(h, Sort(ps, Before(h)))
    decreases |ps|
  {
    if ps != [] {
      SortPicked(h, ps[1..]);
      var rest := Sort(ps[1..], Before(h));
      assert Pick(h, ps)[1..] == Pick(h, ps[1..]);
      SortKeepsMembers(ps[1..], Before(h));
      forall i | 0 <= i < |rest| ensures ps[0] < rest[i] {
        assert rest[i] in ps[1..];
      }
      InsertPicked(h, ps[0], rest);
    }
  }

  lemma {:induction false} FirstPicked(h: Lines, ps: seq<nat>, seen: set<string>)
    requires AllRead(h, ps)
    ensures AllRead(h, FirstPer(ps, TreeAt(h), seen))
    ensures FirstPer(Pick(h, ps), TreeOf, seen) == Pick(h, FirstPer(ps, TreeAt(h), seen))
    decreases |ps|
  {
    if ps != [] {
      var tree := TreeAt(h)(ps[0]);
      assert Pick(h, ps)[1..] == Pick(h, ps[1..]) && TreeOf(Pick(h, ps)[0]) == tree;
      if tree == "" || tree in seen {
        FirstPicked(h, ps[1..], seen);
      } else {
        FirstPicked(h, ps[1..], seen + {tree});
        PickCons(h, ps[0], FirstPer(ps[1..], TreeAt(h), seen + {tree}));
      }
    }
  }

  /** The events that the script selects from a file are those on the chosen lines. */
  lemma ChosenAreSelected(h: Lines, ancestor: Ancestry, lo: nat, hi: nat, limit: int)
    requires lo <= hi <= |h|
    ensures AllRead(h, Chosen(h, ancestor, lo, hi, limit))
    ensures Selection(Filter(EventsRead(h, lo, hi), Landed(ancestor)), limit)
            == Pick(h, Chosen(h, ancestor, lo, hi, limit))
  {
    var ps := Positions(h, ancestor, lo, hi);
    PositionsAreRead(h, ancestor, lo, hi);
    EligibleIsPicked(h, ancestor, lo, hi);
    SortPicked(h, ps);
    FirstPicked(h, Sort(ps, Before(h)), {});
  }

  // ----- when a selection survives

  lemma BeforeIsOrder(h: Lines)
    ensures TotalPreorder(Before(h)) && Antisymmetric(Before(h))
  {
    forall p, q ensures Before(h)(p, q) || Before(h)(q, p) { LexLeTotal(TimeOf(h, p), TimeOf(h, q)); }
    forall p, q, r | Before(h)(p, q) && Before(h)(q, r) ensures Before(h)(p, r) {
      BeforeTransitive(h, p, q, r);
    }
    forall p, q | Before(h)(p, q) && Before(h)(q, p) ensures p == q {
      if TimeOf(h, p) != TimeOf(h, q) {
        LexLeAntisymmetric(TimeOf(h, p), TimeOf(h, q));
      }
    }
  }

  lemma BeforeTransitive(h: Lines, p: nat, q: nat, r: nat)
    requires Before(h)(p, q) && Before(h)(q, r)
    ensures Before(h)(p, r)
  {
    var a, b, c := TimeOf(h, p), TimeOf(h, q), TimeOf(h, r);
    LexLeTotal(b, b);
    LexLeTransitive(a, b, c);
    if a == c && a != b {
      LexLeAntisymmetric(a, b);
    }
  }

  /** An eligible line that was not eligible or not there at the first reading. */
  predicate Newly(h: Lines, ancestor: Ancestry, hi: nat, later: Ancestry, q: nat) {
    CountsAt(h, later, q) && (q >= hi || !CountsAt(h, ancestor, q))
  }

  /** Every selected line is still in the file and still eligible. */
  predicate StillThere(h: Lines, chosen: seq<nat>, later: Ancestry, lo: nat) {
    forall i :: 0 <= i < |chosen| ==> lo <= chosen[i] && CountsAt(h, later, chosen[i])
  }

  /** Every newly eligible line comes too late: after the one selected for its tree, or after all for a new tree. */
  predicate NewlyTooLate(h: Lines, chosen: seq<nat>, ancestor: Ancestry, hi: nat, later: Ancestry, lo': nat, hi': nat) {
    forall q: nat :: lo' <= q < hi' && Newly(h, ancestor, hi, later, q) && TreeAt(h)(q) != "" ==>
      TooLate<nat>(chosen, TreeAt(h), Before(h), q)
  }

  /**
   Between two readings lines are appended, retention may drop the oldest, and commits may land or be rewritten away.
   A full selection is the same at the second reading exactly when all its lines are still there and eligible and
   every newly eligible line comes too late.
   */
  lemma SelectionSurvivesIff(h: Lines, ancestor: Ancestry, lo: nat, hi: nat, later: Ancestry, lo': nat, hi': nat,
                             limit: int)
    requires lo <= lo' <= hi' <= |h| && lo <= hi <= hi'
    requires |Chosen(h, ancestor, lo, hi, limit)| == Cap(limit)
    ensures var chosen := Chosen(h, ancestor, lo, hi, limit);
            Chosen(h, later, lo', hi', limit) == chosen
            <==> StillThere(h, chosen, later, lo') && NewlyTooLate(h, chosen, ancestor, hi, later, lo', hi')
  {
    var chosen := Chosen(h, ancestor, lo, hi, limit);
    var s := OrderedLines(h, ancestor, lo, hi);
    var t := OrderedLines(h, later, lo', hi');
    ChoiceSurvivesIff(s, t, TreeAt(h), Before(h), Cap(limit));
    ChosenBelow(h, ancestor, lo, hi, limit);
    StillThereIff(h, chosen, later, lo', hi', t);
    NewlyTooLateIff(h, chosen, ancestor, lo, hi, later, lo', hi', s, t);
  }

  lemma StillThereIff(h: Lines, chosen: seq<nat>, later: Ancestry, lo': nat, hi': nat, t: seq<nat>)
    requires forall i :: 0 <= i < |chosen| ==> chosen[i] < hi'
    requires forall p :: p in t <==> lo' <= p < hi' && CountsAt(h, later, p)
    ensures StillThere(h, chosen, later, lo') <==> forall i :: 0 <= i < |chosen| ==> chosen[i] in t
  {
  }

  lemma NewlyTooLateIff(h: Lines, chosen: seq<nat>, ancestor: Ancestry, lo: nat, hi: nat, later: Ancestry, lo': nat,
                        hi': nat, s: seq<nat>, t: seq<nat>)
    requires lo <= lo'
    requires forall p :: p in s <==> lo <= p < hi && CountsAt(h, ancestor, p)
    requires forall p :: p in t <==> lo' <= p < hi' && CountsAt(h, later, p)
    ensures NewlyTooLate(h, chosen, ancestor, hi, later, lo', hi')
            <==> forall x :: x in t && x !in s && TreeAt(h)(x) != "" ==> TooLate(chosen, TreeAt(h), Before(h), x)
  {
    forall q: nat ensures q in t && q !in s <==> lo' <= q < hi' && Newly(h, ancestor, hi, later, q) {
    }
  }

  /** The eligible lines in the order of the selection. */
  lemma OrderedLines(h: Lines, ancestor: Ancestry, lo: nat, hi: nat) returns (s: seq<nat>)
    requires lo <= hi <= |h|
    ensures s == Sort(Positions(h, ancestor, lo, hi), Before(h))
    ensures TotalPreorder(Before(h)) && Antisymmetric(Before(h)) && Sorted(s, Before(h))
    ensures forall p :: p in s <==> lo <= p < hi && CountsAt(h, ancestor, p)
  {
    var ps := Positions(h, ancestor, lo, hi);
    s := Sort(ps, Before(h));
    BeforeIsOrder(h);
    SortIsSorted(ps, Before(h));
    SortKeepsMembers(ps, Before(h));
  }

  lemma ChosenBelow(h: Lines, ancestor: Ancestry, lo: nat, hi: nat, limit: int)
    requires lo <= hi <= |h|
    ensures var chosen := Chosen(h, ancestor, lo, hi, limit);
            forall i :: 0 <= i < |chosen| ==> lo <= chosen[i] < hi && CountsAt(h, ancestor, chosen[i])
  {
    var ps := Positions(h, ancestor, lo, hi);
    SortKeepsMembers(ps, Before(h));
    FirstPerMembers(Sort(ps, Before(h)), TreeAt(h), {});
  }

  /** The promise as the log can keep it: nothing selected is lost, nothing earlier lands, and clocks do not go back. */
  lemma LaterPushesChangeNothing(h: Lines, ancestor: Ancestry, lo: nat, hi: nat, later: Ancestry, lo': nat, hi': nat,
                                 limit: int)
    requires lo <= lo' <= hi' <= |h| && lo <= hi <= hi'
    requires |Chosen(h, ancestor, lo, hi, limit)| == Cap(limit)
    requires StillThere(h, Chosen(h, ancestor, lo, hi, limit), later, lo')
    requires forall p: nat :: p < hi && CountsAt(h, later, p) ==> CountsAt(h, ancestor, p)
    requires forall p: nat, q: nat :: p < hi <= q < hi' && CountsAt(h, ancestor, p) && CountsAt(h, later, q) ==>
               LexLe(TimeOf(h, p), TimeOf(h, q))
    ensures Chosen(h, later, lo', hi', limit) == Chosen(h, ancestor, lo, hi, limit)
  {
    var chosen := Chosen(h, ancestor, lo, hi, limit);
    ChosenBelow(h, ancestor, lo, hi, limit);
    SelectionSurvivesIff(h, ancestor, lo, hi, later, lo', hi', limit);
    forall q: nat | lo' <= q < hi' && Newly(h, ancestor, hi, later, q) && TreeAt(h)(q) != ""
      ensures TooLate<nat>(chosen, TreeAt(h), Before(h), q)
    {
      assert q >= hi;
      forall i | 0 <= i < |chosen| ensures Before(h)(chosen[i], q) {
        assert LexLe(TimeOf(h, chosen[i]), TimeOf(h, q));
      }
      AfterAllIsTooLate(h, chosen, q);
    }
  }

  lemma AfterAllIsTooLate(h: Lines, chosen: seq<nat>, q: nat)
    requires chosen != [] && forall i :: 0 <= i < |chosen| ==> Before(h)(chosen[i], q)
    ensures TooLate<nat>(chosen, TreeAt(h), Before(h), q)
  {
    if i :| 0 <= i < |chosen| && TreeAt(h)(chosen[i]) == TreeAt(h)(q) {
      assert Stands<nat>(chosen, TreeAt(h), Before(h), q);
    }
  }

  // ----- what the event log keeps

  /** The first of `n` appended lines that is still in the file. */
  function FirstKept(n: nat): (r: nat)
    ensures r <= n
  {
    n - EventLog.Size(n)
  }

  lemma {:induction false} FirstKeptGrows(m: nat, n: nat)
    requires m <= n
    ensures FirstKept(m) <= FirstKept(n)
    decreases n - m
  {
    if m < n {
      FirstKeptGrows(m, n - 1);
      EventLog.SizeStep(n - 1);
    }
  }

  /** What the lines of a file are read as. */
  function ReadEvents(read: Bytes -> Option<Event>, lines: seq<Bytes>): seq<Event> {
    if lines == [] then []
    else if read(lines[0]).Some? then [read(lines[0]).value] + ReadEvents(read, lines[1..])
    else ReadEvents(read, lines[1..])
  }

  function ReadAll(read: Bytes -> Option<Event>, history: seq<Bytes>): Lines {
    seq(|history|, i requires 0 <= i < |history| => read(history[i]))
  }

  lemma {:induction false} ReadFrom(read: Bytes -> Option<Event>, history: seq<Bytes>, lo: nat, hi: nat)
    requires lo <= hi <= |history|
    ensures ReadEvents(read, history[lo..hi]) == EventsRead(ReadAll(read, history), lo, hi)
    decreases hi - lo
  {
    if lo < hi {
      assert history[lo..hi][1..] == history[lo + 1..hi];
      ReadFrom(read, history, lo + 1, hi);
    }
  }

  /** The script's selection after `n` appends is that of the lines which retention has left. */
  lemma SelectionFromLog(valid: Bytes -> bool, read: Bytes -> Option<Event>, history: seq<Bytes>, n: nat,
                         ancestor: Ancestry, limit: int)
    requires n <= |history| && EventLog.Accepted(valid, history[..n])
    ensures var h := ReadAll(read, history);
            var file := EventLog.File(valid, [], history[..n]);
            && AllRead(h, Chosen(h, ancestor, FirstKept(n), n, limit))
            && Selection(Filter(ReadEvents(read, EventLog.SplitLines(file)), Landed(ancestor)), limit)
               == Pick(h, Chosen(h, ancestor, FirstKept(n), n, limit))
  {
    var h := ReadAll(read, history);
    EventLog.LogLines(valid, history[..n]);
    assert EventLog.Kept(history[..n]) == history[FirstKept(n)..n];
    ReadFrom(read, history, FirstKept(n), n);
    ChosenAreSelected(h, ancestor, FirstKept(n), n, limit);
  }

  /** The same for the file at two times: after `m` and after `n` appends. */
  lemma SelectionSurvivesInLogIff(h: Lines, ancestor: Ancestry, m: nat, later: Ancestry, n: nat, limit: int)
    requires m <= n <= |h| && |Chosen(h, ancestor, FirstKept(m), m, limit)| == Cap(limit)
    ensures var chosen := Chosen(h, ancestor, FirstKept(m), m, limit);
            Chosen(h, later, FirstKept(n), n, limit) == chosen
            <==> && StillThere(h, chosen, later, FirstKept(n))
                 && NewlyTooLate(h, chosen, ancestor, m, later, FirstKept(n), n)
  {
    FirstKeptGrows(m, n);
    SelectionSurvivesIff(h, ancestor, FirstKept(m), m, later, FirstKept(n), n, limit);
  }

  /** Retention drops the oldest lines, of which the selection is made: any of them dropped changes it. */
  lemma RetentionChangesSelection(h: Lines, ancestor: Ancestry, m: nat, n: nat, later: Ancestry, limit: int, i: nat)
    requires m <= n <= |h| && |Chosen(h, ancestor, FirstKept(m), m, limit)| == Cap(limit)
    requires i < Cap(limit) && Chosen(h, ancestor, FirstKept(m), m, limit)[i] < FirstKept(n)
    ensures Chosen(h, later, FirstKept(n), n, limit) != Chosen(h, ancestor, FirstKept(m), m, limit)
  {
    SelectionSurvivesInLogIff(h, ancestor, m, later, n, limit);
  }

  /** With a limit of one, the line chosen is the eligible line of a named tree that comes before all others. */
  lemma ChooseOne(h: Lines, ancestor: Ancestry, lo: nat, hi: nat, p: nat)
    requires lo <= p < hi <= |h| && CountsAt(h, ancestor, p) && TreeAt(h)(p) != ""
    requires forall q: nat :: lo <= q < hi && CountsAt(h, ancestor, q) && TreeAt(h)(q) != "" ==> Before(h)(p, q)
    ensures Chosen(h, ancestor, lo, hi, 1) == [p]
  {
    var s := OrderedLines(h, ancestor, lo, hi);
    TakeOne(s, p, TreeAt(h), Before(h));
  }

  /** A log of one push and then, line by line, of another. */
  function Then(first: Event, second: Event, n: nat): Lines {
    seq(n, i => Some(if i == 0 then first else second))
  }

  /** The line after the 10000th pushes the selected event out of the log, and the next tree takes its place. */
  lemma RetentionDropsEvidence(first: Event, second: Event, ancestor: Ancestry, n: nat)
    requires Eligible(first, ancestor) && Eligible(second, ancestor) && TimeLe(first, second)
    requires TreeOf(first) != "" && TreeOf(second) != "" && TreeOf(first) != TreeOf(second)
    requires n == EventLog.TRIGGER
    ensures var h := Then(first, second, n + 1);
            && Chosen(h, ancestor, FirstKept(n), n, 1) == [0]
            && Chosen(h, ancestor, FirstKept(n + 1), n + 1, 1) == [n + 1 - EventLog.KEEP]
  {
    assert FirstKept(n) == 0 && FirstKept(n + 1) == n + 1 - EventLog.KEEP;
    ChooseInThen(first, second, ancestor, n + 1, FirstKept(n), n);
    ChooseInThen(first, second, ancestor, n + 1, FirstKept(n + 1), n + 1);
  }

  /** Of such a log the first line in the file is chosen. */
  lemma ChooseInThen(first: Event, second: Event, ancestor: Ancestry, n: nat, lo: nat, hi: nat)
    requires Eligible(first, ancestor) && Eligible(second, ancestor) && TimeLe(first, second)
    requires TreeOf(first) != "" && TreeOf(second) != "" && lo < hi <= n
    ensures Chosen(Then(first, second, n), ancestor, lo, hi, 1) == [lo]
  {
    var h := Then(first, second, n);
    forall q: nat | lo <= q < hi ensures Before(h)(lo, q) {
    }
    ChooseOne(h, ancestor, lo, hi, lo);
  }

  /** A commit that lands after the first reading takes the place of a selected one; one rewritten away gives it up. */
  lemma LandingChangesSelection(first: Event, second: Event, without: Ancestry, with: Ancestry)
    requires Eligible(first, with) && !Eligible(first, without) && Eligible(second, with) && Eligible(second, without)
    requires TimeLe(first, second)
    requires TreeOf(first) != "" && TreeOf(second) != "" && TreeOf(first) != TreeOf(second)
    ensures var h := Then(first, second, 2);
            Chosen(h, without, 0, 2, 1) == [1] && Chosen(h, with, 0, 2, 1) == [0]
  {
    var h := Then(first, second, 2);
    ChooseOne(h, without, 0, 2, 1);
    ChooseOne(h, with, 0, 2, 0);
  }
}
