/** Which continuous prereleases fall out of the retention window (scripts/retention_continuous_releases.py). */
module Retention {
  import opened Json
  import opened Names
  import opened Sorting

  /** `created` orders releases; `month` is the calendar month in the timestamp's own offset. */
  datatype Release = Release(tag: Option<string>, prerelease: bool, created: int, month: string)

  const PREFIX := "continuous-"

  predicate Continuous(r: Release) { r.prerelease && r.tag.Some? && PREFIX <= r.tag.value }

  predicate NotOlder(a: Release, b: Release) { a.created >= b.created }

  /** Newest first; releases of the same instant keep their order. */
  function Sifted(releases: seq<Release>): seq<Release> { Sort(Filter(releases, Continuous), NotOlder) }

  /** Where the slices `[:k]` and `[k:]` of a list of `n` elements meet; a negative `k` counts from the end. */
  function Cut(n: nat, k: int): (r: nat)
    ensures r <= n
  {
    if k > n then n else if k >= 0 then k else if n + k >= 0 then n + k else 0
  }

  function Tags(s: seq<Release>): set<Option<string>> { set r | r in s :: r.tag }

  /** The releases that the monthly pass keeps, `seen` being the months it has already kept one of. */
  function Monthly(s: seq<Release>, seen: set<string>, limit: int): seq<Release> {
    if s == [] then []
    else if s[0].month in seen || |seen| >= limit then Monthly(s[1..], seen, limit)
    else [s[0]] + Monthly(s[1..], seen + {s[0].month}, limit)
  }

  /** Tags kept: the most recent, the protected, and the monthly ones among the rest. */
  function Keep(s: seq<Release>, recent: int, monthly: int, protect: set<string>): set<Option<string>> {
    var c := Cut(|s|, recent);
    Tags(s[..c]) + (set t | t in protect :: Some(t)) + Tags(Monthly(s[c..], {}, monthly))
  }

  function NotIn(tags: set<Option<string>>): Release -> bool { (r: Release) => r.tag !in tags }

  /** The releases proposed for deletion. */
  function Proposed(releases: seq<Release>, recent: int, monthly: int, protect: set<string>): seq<Release> {
    var s := Sifted(releases);
    Filter(s, NotIn(Keep(s, recent, monthly, protect)))
  }

  method KeepMonthly(rest: seq<Release>, monthly: int, keep: set<Option<string>>)
    returns (keep': set<Option<string>>)
    ensures keep' == keep + Tags(Monthly(rest, {}, monthly))
  {
    keep' := keep;
    var seen: set<string> := {};
    ghost var kept: seq<Release> := [];
    for i := 0 to |rest|
      invariant keep' == keep + Tags(kept)
      invariant kept + Monthly(rest[i..], seen, monthly) == Monthly(rest, {}, monthly)
    {
      var month := rest[i].month;
      assert rest[i..][0] == rest[i] && rest[i..][1..] == rest[i + 1..];
      if month in seen || |seen| >= monthly {
        continue;
      }
      seen := seen + {month};
      TagsAppend(kept, rest[i]);
      kept := kept + [rest[i]];
      keep' := keep' + {rest[i].tag};
    }
    assert rest[|rest|..] == [];
  }

  lemma TagsAppend(s: seq<Release>, r: Release)
    ensures Tags(s + [r]) == Tags(s) + {r.tag}
  {
    assert r in s + [r];
    assert forall x :: x in s + [r] <==> x in s || x == r;
  }

  method DeletionCandidates(releases: seq<Release>, recent: int, monthly: int, protect: set<string>)
    returns (proposed: seq<Release>)
    ensures proposed == Proposed(releases, recent, monthly, protect)
  {
    var s := Sifted(releases);
    var c := Cut(|s|, recent);
    var keep := Tags(s[..c]);
    keep := keep + set t | t in protect :: Some(t);
    keep := KeepMonthly(s[c..], monthly, keep);
    proposed := Filter(s, NotIn(keep));
  }

  // ----- what is never proposed

  function Months(s: seq<Release>): set<string> { set r | r in s :: r.month }

  /** Index `i` holds the newest release of its month, and fewer than `limit` months come before it. */
  predicate MonthRep(s: seq<Release>, seen: set<string>, limit: int, i: nat) {
    && i < |s|
    && s[i].month !in seen + Months(s[..i])
    && |seen + Months(s[..i])| < limit
  }

  lemma {:induction false} SubsetSize<T>(a: set<T>, b: set<T>)
    requires a <= b
    ensures |a| <= |b|
  {
    if a != {} {
      var x :| x in a;
      SubsetSize(a - {x}, b - {x});
    }
  }

  lemma MonthsCons(s: seq<Release>, seen: set<string>, i: nat)
    requires 0 < i <= |s|
    ensures seen + Months(s[..i]) == (seen + {s[0].month}) + Months(s[1..][..i - 1])
  {
    assert s[..i] == [s[0]] + s[1..][..i - 1];
  }

  /** The monthly pass keeps exactly the newest release of each of the first `limit` months. */
  lemma {:induction false} MonthlyKeepsReps(s: seq<Release>, seen: set<string>, limit: int, i: nat)
    requires MonthRep(s, seen, limit, i)
    ensures s[i] in Monthly(s, seen, limit)
    decreases |s|
  {
    SubsetSize(seen, seen + Months(s[..i]));
    if i > 0 {
      MonthsCons(s, seen, i);
      if s[0].month in seen {
        assert seen + {s[0].month} == seen;
      }
      MonthlyKeepsReps(s[1..], seen + {s[0].month}, limit, i - 1);
    }
  }

  lemma {:induction false} MonthlyWhenFull(s: seq<Release>, seen: set<string>, limit: int)
    ensures |seen| >= limit ==> Monthly(s, seen, limit) == []
    decreases |s|
  {
    if s != [] {
      MonthlyWhenFull(s[1..], seen, limit);
    }
  }

  lemma {:induction false} MonthlyKeepsOnlyReps(s: seq<Release>, seen: set<string>, limit: int, r: Release)
    returns (i: nat)
    requires r in Monthly(s, seen, limit)
    ensures MonthRep(s, seen, limit, i) && s[i] == r
    decreases |s|
  {
    MonthlyWhenFull(s, seen, limit);
    if s[0].month in seen {
      i := MonthlyKeepsOnlyReps(s[1..], seen, limit, r);
      assert seen + {s[0].month} == seen;
      MonthsCons(s, seen, i + 1);
      i := i + 1;
    } else if r == s[0] {
      i := 0;
      assert seen + Months(s[..0]) == seen;
    } else {
      i := MonthlyKeepsOnlyReps(s[1..], seen + {s[0].month}, limit, r);
      MonthsCons(s, seen, i + 1);
      i := i + 1;
    }
  }

  /** The reasons for which a tag is kept. */
  ghost predicate Spared(s: seq<Release>, recent: int, monthly: int, protect: set<string>, tag: Option<string>) {
    var c := Cut(|s|, recent);
    || (exists i :: 0 <= i < c && s[i].tag == tag)
    || (tag.Some? && tag.value in protect)
    || (exists i: nat :: MonthRep(s[c..], {}, monthly, i) && s[c..][i].tag == tag)
  }

  lemma RecentTags(s: seq<Release>, c: nat, tag: Option<string>)
    requires c <= |s|
    ensures tag in Tags(s[..c]) <==> exists i :: 0 <= i < c && s[i].tag == tag
  {
    if tag in Tags(s[..c]) {
      var r :| r in s[..c] && r.tag == tag;
    }
    if i :| 0 <= i < c && s[i].tag == tag {
      assert s[..c][i] == s[i];
    }
  }

  lemma MonthlyTags(rest: seq<Release>, monthly: int, tag: Option<string>)
    ensures tag in Tags(Monthly(rest, {}, monthly))
            <==> exists i: nat :: MonthRep(rest, {}, monthly, i) && rest[i].tag == tag
  {
    if tag in Tags(Monthly(rest, {}, monthly)) {
      var r :| r in Monthly(rest, {}, monthly) && r.tag == tag;
      var i := MonthlyKeepsOnlyReps(rest, {}, monthly, r);
    }
    if i: nat :| MonthRep(rest, {}, monthly, i) && rest[i].tag == tag {
      MonthlyKeepsReps(rest, {}, monthly, i);
    }
  }

  lemma KeepIsSpared(s: seq<Release>, recent: int, monthly: int, protect: set<string>, tag: Option<string>)
    ensures tag in Keep(s, recent, monthly, protect) <==> Spared(s, recent, monthly, protect, tag)
  {
    var c := Cut(|s|, recent);
    RecentTags(s, c, tag);
    MonthlyTags(s[c..], monthly, tag);
  }

  /** Proposed are exactly the continuous releases that no rule spares. */
  lemma ProposedIff(releases: seq<Release>, recent: int, monthly: int, protect: set<string>, r: Release)
    ensures r in Proposed(releases, recent, monthly, protect)
            <==> && r in releases && r.prerelease && r.tag.Some? && "continuous-" <= r.tag.value
                 && !Spared(Sifted(releases), recent, monthly, protect, r.tag)
  {
    var s := Sifted(releases);
    var keep := Keep(s, recent, monthly, protect);
    FilterMembers(s, NotIn(keep));
    SortKeepsMembers(Filter(releases, Continuous), NotOlder);
    FilterMembers(releases, Continuous);
    KeepIsSpared(s, recent, monthly, protect, r.tag);
  }

  // ----- what age means for the proposal

  lemma NotOlderIsTotalPreorder()
    ensures TotalPreorder(NotOlder)
  {}

  function At(created: int): Release -> bool { (r: Release) => r.created == created }

  /** The rules work on the continuous releases, newest first, with releases of one instant in their given order. */
  lemma SiftedIs(releases: seq<Release>, instant: int)
    ensures var s := Sifted(releases);
            && (forall i, j :: 0 <= i < j < |s| ==> s[i].created >= s[j].created)
            && multiset(s) == multiset(Filter(releases, Continuous))
            && Filter(s, At(instant)) == Filter(Filter(releases, Continuous), At(instant))
  {
    var all := Filter(releases, Continuous);
    var tied := Filter(all, At(instant));
    NotOlderIsTotalPreorder();
    SortIsSorted(all, NotOlder);
    SortKeepsElements(all, NotOlder);
    SortFilter(all, NotOlder, At(instant));
    FilterMembers(all, At(instant));
    forall i, j | 0 <= i < j < |tied| ensures NotOlder(tied[i], tied[j]) {
      assert tied[i] in tied && tied[j] in tied;
    }
    SortFixesSorted(tied, NotOlder);
  }

  /** The continuous releases for which `p` holds, wherever they stand. */
  function Among(releases: seq<Release>, p: Release -> bool): seq<Release> { Filter(Filter(releases, Continuous), p) }

  /** No older than `r`, and not proposed. */
  function NewerSpared(proposed: seq<Release>, r: Release): Release -> bool {
    (x: Release) => x.created >= r.created && x !in proposed
  }

  lemma AmongIsSifted(releases: seq<Release>, p: Release -> bool)
    ensures |Among(releases, p)| == |Filter(Sifted(releases), p)|
  {
    var all := Filter(releases, Continuous);
    NotOlderIsTotalPreorder();
    SortFilter(all, NotOlder, p);
    SortKeepsMembers(Filter(all, p), NotOlder);
  }

  /** Where a proposed release stands: behind the window. */
  lemma ProposedStands(releases: seq<Release>, recent: int, monthly: int, protect: set<string>, r: Release)
    returns (i: nat)
    requires recent >= 0 && r in Proposed(releases, recent, monthly, protect)
    ensures recent <= i < |Sifted(releases)| && Sifted(releases)[i] == r
  {
    var s := Sifted(releases);
    var keep := Keep(s, recent, monthly, protect);
    FilterMembers(s, NotIn(keep));
    i :| i < |s| && s[i] == r;
    var c := Cut(|s|, recent);
    RecentTags(s, c, r.tag);
  }

  /** For every proposed release at least `recent` continuous releases that are no older are spared. */
  lemma ProposedHasNewerSpared(releases: seq<Release>, recent: int, monthly: int, protect: set<string>, r: Release)
    requires recent >= 0 && r in Proposed(releases, recent, monthly, protect)
    ensures |Among(releases, NewerSpared(Proposed(releases, recent, monthly, protect), r))| >= recent
  {
    var s, proposed := Sifted(releases), Proposed(releases, recent, monthly, protect);
    var p := NewerSpared(proposed, r);
    var i := ProposedStands(releases, recent, monthly, protect, r);
    SiftedIs(releases, 0);
    forall k | 0 <= k < recent ensures p(s[..recent][k]) {
      InWindowIsSpared(releases, recent, monthly, protect, k);
    }
    AtLeast(s, p, recent);
    AmongIsSifted(releases, p);
  }

  lemma AtLeast(s: seq<Release>, p: Release -> bool, n: nat)
    requires n <= |s| && forall k :: 0 <= k < n ==> p(s[..n][k])
    ensures |Filter(s, p)| >= n
  {
    FilterAll(s[..n], p);
    assert s == s[..n] + s[n..];
    FilterAppend(s[..n], s[n..], p);
  }

  lemma InWindowIsSpared(releases: seq<Release>, recent: int, monthly: int, protect: set<string>, k: nat)
    requires k < Cut(|Sifted(releases)|, recent)
    ensures Sifted(releases)[k] !in Proposed(releases, recent, monthly, protect)
  {
    var s := Sifted(releases);
    FilterMembers(s, NotIn(Keep(s, recent, monthly, protect)));
    RecentTags(s, Cut(|s|, recent), s[k].tag);
  }

  function NewerThan(r: Release): Release -> bool { (x: Release) => x.created >= r.created }

  /** Hence a continuous release is never proposed while it is one of the `recent` newest. */
  lemma NewestAreSpared(releases: seq<Release>, recent: int, monthly: int, protect: set<string>, r: Release)
    requires recent >= 0 && |Among(releases, NewerThan(r))| <= recent
    ensures r !in Proposed(releases, recent, monthly, protect)
  {
    var proposed := Proposed(releases, recent, monthly, protect);
    if r in proposed {
      var all := Filter(releases, Continuous);
      ProposedHasNewerSpared(releases, recent, monthly, protect, r);
      ProposedIff(releases, recent, monthly, protect, r);
      FilterMembers(releases, Continuous);
      FewerByOne(all, NewerSpared(proposed, r), NewerThan(r), r);
      assert false;
    }
  }

  /** A weaker condition that also holds of `x` selects more. */
  lemma {:induction false} FewerByOne(s: seq<Release>, p: Release -> bool, q: Release -> bool, x: Release)
    requires forall y :: p(y) ==> q(y)
    ensures |Filter(s, p)| <= |Filter(s, q)|
    ensures x in s && q(x) && !p(x) ==> |Filter(s, p)| < |Filter(s, q)|
    decreases |s|
  {
    if s != [] {
      FewerByOne(s[1..], p, q, x);
    }
  }

  /** What the monthly rule spares is no older than any release of its month outside the window. */
  lemma MonthRepIsNewest(releases: seq<Release>, recent: int, monthly: int, i: nat, j: nat)
    requires var s := Sifted(releases); var rest := s[Cut(|s|, recent)..];
             MonthRep(rest, {}, monthly, i) && j < |rest| && rest[j].month == rest[i].month
    ensures var s := Sifted(releases); var rest := s[Cut(|s|, recent)..];
            i <= j && rest[i].created >= rest[j].created
  {
    var s := Sifted(releases);
    var c := Cut(|s|, recent);
    SiftedIs(releases, 0);
    EarlierMonths(s[c..], i);
    assert i < j ==> s[c + i].created >= s[c + j].created;
  }

  lemma EarlierMonths(s: seq<Release>, i: nat)
    requires i <= |s|
    ensures forall j :: 0 <= j < i ==> s[j].month in Months(s[..i])
  {
    forall j | 0 <= j < i ensures s[j].month in Months(s[..i]) {
      assert s[..i][j] in s[..i];
    }
  }

  /** Some spared continuous release of the month is no older than `r`. */
  ghost predicate MonthCovered(releases: seq<Release>, proposed: seq<Release>, r: Release, month: string) {
    exists x :: x in releases && Continuous(x) && x.month == month && x.created >= r.created && x !in proposed
  }

  lemma RepIsSpared(releases: seq<Release>, recent: int, monthly: int, protect: set<string>, r: Release, i: nat, j: nat)
    requires var s := Sifted(releases); var c := Cut(|s|, recent);
             MonthRep(s[c..], {}, monthly, j) && c + j <= i < |s| && s[i] == r
    ensures var s := Sifted(releases);
            MonthCovered(releases, Proposed(releases, recent, monthly, protect), r, s[Cut(|s|, recent)..][j].month)
  {
    var s := Sifted(releases);
    var c := Cut(|s|, recent);
    var x := s[c..][j];
    SiftedIs(releases, 0);
    assert x == s[c + j] && x.created >= r.created;
    SortKeepsMembers(Filter(releases, Continuous), NotOlder);
    FilterMembers(releases, Continuous);
    assert Spared(s, recent, monthly, protect, x.tag);
    ProposedIff(releases, recent, monthly, protect, x);
  }

  lemma MonthsGrow(s: seq<Release>, i: nat)
    requires i < |s|
    ensures Months(s[..i + 1]) == Months(s[..i]) + {s[i].month}
  {
    assert s[..i + 1] == s[..i] + [s[i]];
  }

  /** Each month before position `k` has a release that stands for it there, unless `limit` months are full before. */
  lemma {:induction false} FirstOfMonth(s: seq<Release>, limit: int, k: nat, month: string) returns (j: nat)
    requires k <= |s| && month in Months(s[..k]) && |Months(s[..k])| <= limit
    ensures j < k && s[j].month == month && MonthRep(s, {}, limit, j)
    decreases k
  {
    MonthsGrow(s, k - 1);
    SubsetSize(Months(s[..k - 1]), Months(s[..k]));
    if month in Months(s[..k - 1]) {
      j := FirstOfMonth(s, limit, k - 1, month);
    } else {
      j := k - 1;
      assert {} + Months(s[..j]) == Months(s[..j]);
      StrictSubset(Months(s[..j]), Months(s[..k]), month);
    }
  }

  lemma StrictSubset(a: set<string>, b: set<string>, x: string)
    requires a <= b && x in b && x !in a
    ensures |a| < |b|
  {
    SubsetSize(a + {x}, b);
    assert a + {x} - {x} == a;
  }

  /** The longest start of the list with at most `limit` months. */
  lemma {:induction false} FullAt(s: seq<Release>, limit: nat, k: nat) returns (n: nat)
    requires k <= |s| && |Months(s[..k])| >= limit
    ensures n <= k && |Months(s[..n])| == limit
    decreases k
  {
    assert s[..0] == [];
    if |Months(s[..k])| == limit {
      n := k;
    } else {
      MonthsGrow(s, k - 1);
      assert |Months(s[..k])| <= |Months(s[..k - 1])| + 1;
      n := FullAt(s, limit, k - 1);
    }
  }

  /**
   What the monthly rule promises for a proposed release: a spared release of its month is no older, or
   `monthly` different months each have a spared release that is no older.
   */
  lemma ProposedMonthIsCovered(releases: seq<Release>, recent: int, monthly: int, protect: set<string>, r: Release)
    requires recent >= 0 && r in Proposed(releases, recent, monthly, protect)
    ensures var proposed := Proposed(releases, recent, monthly, protect);
            || MonthCovered(releases, proposed, r, r.month)
            || exists months: set<string> :: |months| >= monthly
                 && forall m :: m in months ==> MonthCovered(releases, proposed, r, m)
  {
    var s := Sifted(releases);
    var i := ProposedStands(releases, recent, monthly, protect, r);
    var c := Cut(|s|, recent);
    if |Months(s[c..][..i - c])| >= monthly {
      var months := FullMonths(releases, recent, monthly, protect, r, i);
    } else {
      OwnMonth(releases, recent, monthly, protect, r, i);
    }
  }

  lemma FullMonths(releases: seq<Release>, recent: int, monthly: int, protect: set<string>, r: Release, i: nat)
    returns (months: set<string>)
    requires var s := Sifted(releases); var c := Cut(|s|, recent);
             c <= i < |s| && s[i] == r && |Months(s[c..][..i - c])| >= monthly
    ensures |months| >= monthly
    ensures forall m :: m in months ==> MonthCovered(releases, Proposed(releases, recent, monthly, protect), r, m)
  {
    var s := Sifted(releases);
    var c := Cut(|s|, recent);
    var rest := s[c..];
    var n := FullAt(rest, if monthly < 0 then 0 else monthly, i - c);
    months := Months(rest[..n]);
    forall m | m in months
      ensures MonthCovered(releases, Proposed(releases, recent, monthly, protect), r, m)
    {
      var j := FirstOfMonth(rest, monthly, n, m);
      RepIsSpared(releases, recent, monthly, protect, r, i, j);
    }
  }

  lemma OwnMonth(releases: seq<Release>, recent: int, monthly: int, protect: set<string>, r: Release, i: nat)
    requires r in Proposed(releases, recent, monthly, protect)
    requires var s := Sifted(releases); var c := Cut(|s|, recent);
             c <= i < |s| && s[i] == r && |Months(s[c..][..i - c])| < monthly
    ensures MonthCovered(releases, Proposed(releases, recent, monthly, protect), r, r.month)
  {
    var s := Sifted(releases);
    var c := Cut(|s|, recent);
    var rest, k := s[c..], i - c;
    if r.month in Months(rest[..k]) {
      var j := FirstOfMonth(rest, monthly, k, r.month);
      RepIsSpared(releases, recent, monthly, protect, r, i, j);
    } else {
      assert {} + Months(rest[..k]) == Months(rest[..k]);
      assert MonthRep(rest, {}, monthly, k) && rest[k] == r;
      ProposedIff(releases, recent, monthly, protect, r);
      assert false;
    }
  }

  /** With no other rule at work exactly the releases outside the window are proposed. */
  lemma WindowIsExact(releases: seq<Release>, recent: int, monthly: int)
    requires monthly <= 0 && Distinct(Each(Filter(releases, Continuous)))
    ensures var n := |Filter(releases, Continuous)|;
            |Proposed(releases, recent, monthly, {})|
            == if recent >= n then 0 else if recent >= 0 then n - recent else if n + recent >= 0 then -recent else n
  {
    var s := Sifted(releases);
    var c := Cut(|s|, recent);
    SortKeepsMembers(Filter(releases, Continuous), NotOlder);
    MonthlyWhenFull(s[c..], {}, monthly);
    assert Keep(s, recent, monthly, {}) == Tags(s[..c]);
    SiftedTagsDistinct(releases);
    BehindTheCut(s, c);
  }

  lemma TagsDiffer(s: seq<Release>, i: nat, j: nat)
    requires i < j < |s| && Distinct(Each(s))
    ensures s[i].tag != s[j].tag
  {
    assert Each(s)[i] != Each(s)[j];
  }

  lemma BehindTheCut(s: seq<Release>, c: nat)
    requires c <= |s| && Distinct(Each(s))
    ensures Filter(s, NotIn(Tags(s[..c]))) == s[c..]
  {
    var p := NotIn(Tags(s[..c]));
    forall k | 0 <= k < c ensures !p(s[..c][k]) {
      RecentTags(s, c, s[k].tag);
    }
    forall k | c <= k < |s| ensures p(s[k]) {
      RecentTags(s, c, s[k].tag);
      forall i | 0 <= i < c ensures s[i].tag != s[k].tag { TagsDiffer(s, i, k); }
    }
    FilterNone(s[..c], p);
    FilterAll(s[c..], p);
    assert s == s[..c] + s[c..];
    FilterAppend(s[..c], s[c..], p);
  }

  function Each(s: seq<Release>): seq<Option<string>> { seq(|s|, i requires 0 <= i < |s| => s[i].tag) }

  lemma SiftedTagsDistinct(releases: seq<Release>)
    requires Distinct(Each(Filter(releases, Continuous)))
    ensures Distinct(Each(Sifted(releases)))
  {
    var all, s := Filter(releases, Continuous), Sifted(releases);
    SortKeepsElements(all, NotOlder);
    TagCounts(all);
    forall i, j | 0 <= i < j < |s| ensures s[i].tag != s[j].tag {
      if s[i].tag == s[j].tag {
        assert s[i] in multiset(s) && s[j] in multiset(s);
        assert s[i] in all && s[j] in all;
        var x, y :| 0 <= x < |all| && all[x] == s[i] && 0 <= y < |all| && all[y] == s[j];
        assert Each(all)[x] == Each(all)[y];
        assert s[i] == s[j];
        TwoCopies(s, i, j);
        assert false;
      }
    }
  }

  lemma TagCounts(all: seq<Release>)
    requires Distinct(Each(all))
    ensures forall r :: multiset(all)[r] <= 1
  {
    forall i, j | 0 <= i < j < |all| ensures all[i] != all[j] {
      assert Each(all)[i] != Each(all)[j];
    }
    forall r ensures multiset(all)[r] <= 1 { CountAtMostOne(all, r); }
  }

  lemma TwoCopies(s: seq<Release>, i: nat, j: nat)
    requires i < j < |s| && s[i] == s[j]
    ensures multiset(s)[s[i]] >= 2
  {
    assert s == s[..j] + s[j..];
    assert s[..j][i] in s[..j] && s[j..][0] in s[j..];
    assert multiset(s) == multiset(s[..j]) + multiset(s[j..]);
  }

  // ----- resuming

  lemma {:induction false} MonthlyIgnoresGone(s: seq<Release>, seen: set<string>, limit: int,
                                              gone: set<Option<string>>)
    requires gone !! Tags(Monthly(s, seen, limit))
    ensures Monthly(Filter(s, NotIn(gone)), seen, limit) == Monthly(s, seen, limit)
    decreases |s|
  {
    if s != [] {
      var rest := Filter(s[1..], NotIn(gone));
      assert ([s[0]] + rest)[1..] == rest;
      if s[0].month in seen || |seen| >= limit {
        MonthlyIgnoresGone(s[1..], seen, limit, gone);
      } else {
        var more := Monthly(s[1..], seen + {s[0].month}, limit);
        assert s[0] in [s[0]] + more && Tags(more) <= Tags([s[0]] + more);
        MonthlyIgnoresGone(s[1..], seen + {s[0].month}, limit, gone);
      }
    }
  }

  lemma SiftedOfRemaining(releases: seq<Release>, gone: set<Option<string>>)
    ensures Sifted(Filter(releases, NotIn(gone))) == Filter(Sifted(releases), NotIn(gone))
  {
    FilterSwap(releases, NotIn(gone), Continuous);
    SortFilter(Filter(releases, Continuous), NotOlder, NotIn(gone));
  }

  /** With a window of `recent >= 0`, what is kept does not change when dropped releases disappear. */
  lemma KeepOfRemaining(s: seq<Release>, recent: int, monthly: int, protect: set<string>, gone: set<Option<string>>)
    requires recent >= 0 && gone !! Keep(s, recent, monthly, protect)
    ensures Keep(Filter(s, NotIn(gone)), recent, monthly, protect) == Keep(s, recent, monthly, protect)
  {
    var c := Cut(|s|, recent);
    var left := Filter(s, NotIn(gone));
    assert s == s[..c] + s[c..];
    FilterAppend(s[..c], s[c..], NotIn(gone));
    forall i | 0 <= i < c
      ensures NotIn(gone)(s[..c][i])
    {
      assert s[..c][i] in s[..c];
      assert s[..c][i].tag in Tags(s[..c]);
    }
    FilterAll(s[..c], NotIn(gone));
    assert Cut(|left|, recent) == c;
    assert left[..c] == s[..c] && left[c..] == Filter(s[c..], NotIn(gone));
    MonthlyIgnoresGone(s[c..], {}, monthly, gone);
  }

  /** Re-running after any part of the proposal has been carried out proposes exactly what is left of it. */
  ghost predicate Resumable(recent: int, monthly: int) {
    forall releases, protect, gone ::
      gone <= Tags(Proposed(releases, recent, monthly, protect)) ==>
        Proposed(Filter(releases, NotIn(gone)), recent, monthly, protect)
        == Filter(Proposed(releases, recent, monthly, protect), NotIn(gone))
  }

  lemma ResumesInWindow(releases: seq<Release>, recent: int, monthly: int, protect: set<string>,
                        gone: set<Option<string>>)
    requires recent >= 0
    requires gone <= Tags(Proposed(releases, recent, monthly, protect))
    ensures Proposed(Filter(releases, NotIn(gone)), recent, monthly, protect)
            == Filter(Proposed(releases, recent, monthly, protect), NotIn(gone))
  {
    var s := Sifted(releases);
    var keep := Keep(s, recent, monthly, protect);
    FilterMembers(s, NotIn(keep));
    SiftedOfRemaining(releases, gone);
    KeepOfRemaining(s, recent, monthly, protect, gone);
    FilterSwap(s, NotIn(gone), NotIn(keep));
  }

  /** A run carried out in full leaves nothing to propose. */
  lemma CompletedRunProposesNothing(releases: seq<Release>, recent: int, monthly: int, protect: set<string>)
    requires recent >= 0
    ensures var gone := Tags(Proposed(releases, recent, monthly, protect));
            Proposed(Filter(releases, NotIn(gone)), recent, monthly, protect) == []
  {
    var proposed := Proposed(releases, recent, monthly, protect);
    ResumesInWindow(releases, recent, monthly, protect, Tags(proposed));
    assert forall i :: 0 <= i < |proposed| ==> proposed[i] in proposed;
    FilterNone(proposed, NotIn(Tags(proposed)));
  }

  /** A window of -1 puts one release, the oldest, in the monthly pass, which keeps it. */
  lemma AllKept(releases: seq<Release>, monthly: int, protect: set<string>)
    requires monthly >= 1
    ensures Proposed(releases, -1, monthly, protect) == []
  {
    var s := Sifted(releases);
    var keep := Keep(s, -1, monthly, protect);
    forall r | r in s
      ensures r.tag in keep
    {
      var c := Cut(|s|, -1);
      assert s[c..] == [s[c]] && s == s[..c] + [s[c]];
      assert Monthly(s[c..], {}, monthly) == [s[c]] + Monthly([], {s[c].month}, monthly);
      assert r in s[..c] || r in Monthly(s[c..], {}, monthly);
    }
    FilterNone(s, NotIn(keep));
  }

  /** Release `i` of a run of releases in one month, each older than the one before. */
  function Nth(i: nat): Release { Release(Some(PREFIX + Decimal(i)), true, 0 - i, "2026-01") }

  function FirstN(n: nat): seq<Release> { seq(n, (i: nat) => Nth(i)) }

  lemma NthTag(i: nat, j: nat)
    requires Nth(i).tag == Nth(j).tag
    ensures i == j
  {
    assert Decimal(i) == (PREFIX + Decimal(i))[|PREFIX|..] && Decimal(j) == (PREFIX + Decimal(j))[|PREFIX|..];
    ValueOfDecimal(i);
    ValueOfDecimal(j);
  }

  lemma SiftedFirstN(n: nat)
    ensures Sifted(FirstN(n)) == FirstN(n)
  {
    FilterAll(FirstN(n), Continuous);
    SortFixesSorted(FirstN(n), NotOlder);
  }

  /** When all releases are of one month, only the first stands for it. */
  lemma OneMonthRep(s: seq<Release>, limit: int, j: nat)
    requires forall k :: 0 <= k < |s| ==> s[k].month == s[0].month
    ensures MonthRep(s, {}, limit, j) <==> j == 0 && s != [] && limit >= 1
  {
    if 0 < j < |s| {
      assert s[..j][0] in s[..j];
    }
    if s != [] {
      assert {} + Months(s[..0]) == {};
    }
  }

  /** In one month, the window keeps its part and the monthly pass at most one more. */
  lemma SparedOfFirstN(n: nat, recent: int, monthly: int, i: nat)
    requires i < n
    ensures Spared(FirstN(n), recent, monthly, {}, Nth(i).tag)
            <==> i < Cut(n, recent) + (if monthly >= 1 then 1 else 0)
  {
    var s, c := FirstN(n), Cut(n, recent);
    forall j: nat | j < n
      ensures s[j].tag == Nth(i).tag <==> j == i
    {
      if Nth(j).tag == Nth(i).tag {
        NthTag(i, j);
      }
    }
    forall j: nat
      ensures MonthRep(s[c..], {}, monthly, j) <==> j == 0 && c < n && monthly >= 1
    {
      OneMonthRep(s[c..], monthly, j);
    }
    assert i < c ==> s[i].tag == Nth(i).tag;
    if i == c && monthly >= 1 {
      assert MonthRep(s[c..], {}, monthly, 0) && s[c..][0].tag == Nth(i).tag;
    }
  }

  lemma ProposedOfFirstN(n: nat, recent: int, monthly: int, i: nat)
    requires i < n
    ensures Nth(i) in Proposed(FirstN(n), recent, monthly, {})
            <==> i >= Cut(n, recent) + (if monthly >= 1 then 1 else 0)
  {
    SiftedFirstN(n);
    ProposedIff(FirstN(n), recent, monthly, {}, Nth(i));
    assert FirstN(n)[i] == Nth(i) && Continuous(Nth(i));
    SparedOfFirstN(n, recent, monthly, i);
  }

  /** With any other negative window, deleting the oldest release makes the next run propose one it had kept. */
  lemma NotResumable(recent: int, monthly: int)
    requires recent < -1 || (recent == -1 && monthly < 1)
    ensures !Resumable(recent, monthly)
  {
    var n := -recent + 1;
    var all, last := FirstN(n), Nth(n - 1);
    var gone := {last.tag};
    var first := if monthly >= 1 then 1 else 0;
    ProposedOfFirstN(n, recent, monthly, n - 1);
    ProposedOfFirstN(n, recent, monthly, first);
    ProposedOfFirstN(n - 1, recent, monthly, first);
    assert gone <= Tags(Proposed(all, recent, monthly, {}));
    LastRemoved(n - 1);
    assert Nth(first) in Proposed(Filter(all, NotIn(gone)), recent, monthly, {});
    FilterMembers(Proposed(all, recent, monthly, {}), NotIn(gone));
  }

  lemma LastRemoved(n: nat)
    ensures Filter(FirstN(n + 1), NotIn({Nth(n).tag})) == FirstN(n)
  {
    var p := NotIn({Nth(n).tag});
    assert FirstN(n + 1) == FirstN(n) + [Nth(n)];
    FilterAppend(FirstN(n), [Nth(n)], p);
    forall i | 0 <= i < n
      ensures p(FirstN(n)[i])
    {
      if Nth(i).tag == Nth(n).tag {
        NthTag(i, n);
      }
    }
    FilterAll(FirstN(n), p);
  }

  /** Retention is resumable exactly for these settings. */
  lemma ResumableIff(recent: int, monthly: int)
    ensures Resumable(recent, monthly) <==> recent >= 0 || (recent == -1 && monthly >= 1)
  {
    if recent >= 0 || (recent == -1 && monthly >= 1) {
      forall releases, protect, gone | gone <= Tags(Proposed(releases, recent, monthly, protect))
        ensures Proposed(Filter(releases, NotIn(gone)), recent, monthly, protect)
                == Filter(Proposed(releases, recent, monthly, protect), NotIn(gone))
      {
        if recent >= 0 {
          ResumesInWindow(releases, recent, monthly, protect, gone);
        } else {
          AllKept(releases, monthly, protect);
          AllKept(Filter(releases, NotIn(gone)), monthly, protect);
        }
      }
    } else {
      NotResumable(recent, monthly);
    }
  }
}
