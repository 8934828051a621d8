/** The first elements with distinct keys of an ordered list, and when they are a given sequence. */
module Selecting {
  import opened Sorting

  /** The elements whose key is not empty and was not seen before, in order. */
  function FirstPer<T>(s: seq<T>, key: T -> string, seen: set<string>): seq<T> {
    if s == [] then []
    else if key(s[0]) == "" || key(s[0]) in seen then FirstPer(s[1..], key, seen)
    else [s[0]] + FirstPer(s[1..], key, seen + {key(s[0])})
  }

  function Take<T>(s: seq<T>, n: nat): seq<T> { if |s| <= n then s else s[..n] }

  /** Elements of `s` with keys that are not in `seen`, no key twice. */
  predicate NewKeys<T(==)>(r: seq<T>, s: seq<T>, key: T -> string, seen: set<string>) {
    && (forall i :: 0 <= i < |r| ==> r[i] in s && key(r[i]) != "" && key(r[i]) !in seen)
    && (forall i, j :: 0 <= i < j < |r| ==> key(r[i]) != key(r[j]))
  }

  lemma {:induction false} FirstPerMembers<T(!new)>(s: seq<T>, key: T -> string, seen: set<string>)
    ensures NewKeys(FirstPer(s, key, seen), s, key, seen)
  {
    if s != [] {
      if key(s[0]) == "" || key(s[0]) in seen {
        FirstPerMembers(s[1..], key, seen);
        MoreMembers(s, FirstPer(s[1..], key, seen), key, seen);
      } else {
        FirstPerMembers(s[1..], key, seen + {key(s[0])});
        OneKeyMore(s, FirstPer(s[1..], key, seen + {key(s[0])}), key, seen);
      }
    }
  }

  lemma MoreMembers<T>(s: seq<T>, r: seq<T>, key: T -> string, seen: set<string>)
    requires s != [] && NewKeys(r, s[1..], key, seen)
    ensures NewKeys(r, s, key, seen)
  {
    assert forall i :: 0 <= i < |r| ==> r[i] in s[1..];
  }

  lemma OneKeyMore<T>(s: seq<T>, r: seq<T>, key: T -> string, seen: set<string>)
    requires s != [] && key(s[0]) != "" && key(s[0]) !in seen && NewKeys(r, s[1..], key, seen + {key(s[0])})
    ensures NewKeys([s[0]] + r, s, key, seen)
  {
    var all := [s[0]] + r;
    assert forall i :: 1 <= i < |all| ==> all[i] == r[i - 1];
  }

  lemma {:induction false} FirstPerAppend<T>(a: seq<T>, b: seq<T>, key: T -> string, seen: set<string>)
    ensures FirstPer(a, key, seen) <= FirstPer(a + b, key, seen)
  {
    if a != [] {
      assert (a + b)[1..] == a[1..] + b;
      FirstPerAppend(a[1..], b, key, seen);
      FirstPerAppend(a[1..], b, key, seen + {key(a[0])});
    }
  }

  /** Some element of `r` has the key of `x` and does not come after it. */
  predicate Stands<T>(r: seq<T>, key: T -> string, le: (T, T) -> bool, x: T) {
    exists i :: 0 <= i < |r| && key(r[i]) == key(x) && le(r[i], x)
  }

  /** In an ordered list every key is represented by its first element, and the order is kept. */
  lemma {:induction false} FirstPerInOrder<T(!new)>(s: seq<T>, key: T -> string, seen: set<string>, le: (T, T) -> bool)
    requires TotalPreorder(le) && Sorted(s, le)
    ensures var r := FirstPer(s, key, seen);
            && Sorted(r, le)
            && (forall x :: x in s && key(x) != "" && key(x) !in seen ==> Stands(r, key, le, x))
  {
    if s != [] {
      var rest := s[1..];
      assert forall x :: x in s <==> x == s[0] || x in rest;
      if key(s[0]) == "" || key(s[0]) in seen {
        FirstPerInOrder(rest, key, seen, le);
      } else {
        FirstPerInOrder(rest, key, seen + {key(s[0])}, le);
        FirstPerMembers(rest, key, seen + {key(s[0])});
        HeadInOrder(s, FirstPer(rest, key, seen + {key(s[0])}), le);
        forall x | x in s && key(x) != "" && key(x) !in seen
          ensures Stands([s[0]] + FirstPer(rest, key, seen + {key(s[0])}), key, le, x)
        {
          HeadStands(s, FirstPer(rest, key, seen + {key(s[0])}), key, le, x);
        }
      }
    }
  }

  lemma HeadInOrder<T(!new)>(s: seq<T>, r: seq<T>, le: (T, T) -> bool)
    requires s != [] && Sorted(s, le) && Sorted(r, le) && forall i :: 0 <= i < |r| ==> r[i] in s[1..]
    ensures Sorted([s[0]] + r, le)
  {
    var all := [s[0]] + r;
    forall j | 0 <= j < |r| ensures le(s[0], r[j]) {
      var k :| 0 <= k < |s[1..]| && s[1..][k] == r[j];
      assert s[1..][k] == s[k + 1];
    }
    assert forall i :: 1 <= i < |all| ==> all[i] == r[i - 1];
  }

  lemma HeadStands<T(!new)>(s: seq<T>, r: seq<T>, key: T -> string, le: (T, T) -> bool, x: T)
    requires TotalPreorder(le) && s != [] && Sorted(s, le) && x in s
    requires key(x) == key(s[0]) || Stands(r, key, le, x)
    ensures Stands([s[0]] + r, key, le, x)
  {
    var all := [s[0]] + r;
    if key(x) == key(s[0]) {
      HeadIsLeast(s, x, le);
      assert all[0] == s[0];
    } else {
      var i :| 0 <= i < |r| && key(r[i]) == key(x) && le(r[i], x);
      assert all[i + 1] == r[i];
    }
  }

  /** `x` comes too late to be chosen: its key stands, or it is new and comes after all that were chosen. */
  predicate TooLate<T>(c: seq<T>, key: T -> string, le: (T, T) -> bool, x: T) {
    || Stands(c, key, le, x)
    || (c != [] && le(c[|c| - 1], x) && forall i :: 0 <= i < |c| ==> key(c[i]) != key(x))
  }

  /** `c` is an ordered choice of elements with distinct keys, and every other element comes too late. */
  ghost predicate IsChoice<T(!new)>(s: seq<T>, c: seq<T>, key: T -> string, le: (T, T) -> bool) {
    && NewKeys(c, s, key, {}) && Sorted(c, le)
    && forall x :: x in s && key(x) != "" ==> TooLate(c, key, le, x)
  }

  /** What is taken from an ordered list is such a choice. */
  lemma TakenIsChoice<T(!new)>(s: seq<T>, key: T -> string, le: (T, T) -> bool, n: nat)
    requires TotalPreorder(le) && Sorted(s, le) && n >= 1
    ensures IsChoice(s, Take(FirstPer(s, key, {}), n), key, le)
  {
    var all := FirstPer(s, key, {});
    FirstPerMembers(s, key, {});
    FirstPerInOrder(s, key, {}, le);
    TakeKeeps(s, all, key, le, n);
    forall x | x in s && key(x) != ""
      ensures TooLate(Take(all, n), key, le, x)
    {
      assert Stands(all, key, le, x);
      RestIsTooLate(all, key, le, n, x);
    }
  }

  lemma TakeKeeps<T(!new)>(s: seq<T>, all: seq<T>, key: T -> string, le: (T, T) -> bool, n: nat)
    requires NewKeys(all, s, key, {}) && Sorted(all, le)
    ensures NewKeys(Take(all, n), s, key, {}) && Sorted(Take(all, n), le)
  {
    var c := Take(all, n);
    assert forall i :: 0 <= i < |c| ==> c[i] == all[i];
  }

  lemma RestIsTooLate<T(!new)>(all: seq<T>, key: T -> string, le: (T, T) -> bool, n: nat, x: T)
    requires TotalPreorder(le) && Sorted(all, le) && n >= 1 && Stands(all, key, le, x)
    requires forall i, j :: 0 <= i < j < |all| ==> key(all[i]) != key(all[j])
    ensures TooLate(Take(all, n), key, le, x)
  {
    var c := Take(all, n);
    var i :| 0 <= i < |all| && key(all[i]) == key(x) && le(all[i], x);
    if i < |c| {
      assert c[i] == all[i];
    } else {
      assert c[|c| - 1] == all[|c| - 1] && le(all[|c| - 1], all[i]);
    }
  }

  /** Of two such choices, one that is full or complete agrees with the other as far as that goes. */
  lemma {:induction false} ChoicesAgree<T(!new)>(s: seq<T>, c: seq<T>, d: seq<T>, key: T -> string, le: (T, T) -> bool,
                                                 n: nat, i: nat)
    requires TotalPreorder(le) && Antisymmetric(le) && IsChoice(s, c, key, le) && IsChoice(s, d, key, le)
    requires |c| == n && |d| <= n && (|d| < n ==> forall x :: x in s && key(x) != "" ==> Stands(d, key, le, x))
    requires i <= n
    ensures i <= |d| && c[..i] == d[..i]
  {
    if i > 0 {
      var k := i - 1;
      ChoicesAgree(s, c, d, key, le, n, k);
      SamePrefix(c, d, k);
      NextIsThere(s, c, d, key, le, k);
      NextAgrees(s, c, d, key, le, k);
    }
  }

  lemma SamePrefix<T>(c: seq<T>, d: seq<T>, k: nat)
    requires k <= |c| && k <= |d| && c[..k] == d[..k]
    ensures forall j :: 0 <= j < k ==> c[j] == d[j]
  {
    assert forall j :: 0 <= j < k ==> c[j] == c[..k][j] && d[j] == d[..k][j];
  }

  lemma NextIsThere<T(!new)>(s: seq<T>, c: seq<T>, d: seq<T>, key: T -> string, le: (T, T) -> bool, k: nat)
    requires IsChoice(s, c, key, le) && k < |c| && k <= |d| <= |c|
    requires |d| < |c| ==> forall x :: x in s && key(x) != "" ==> Stands(d, key, le, x)
    requires forall j :: 0 <= j < k ==> c[j] == d[j]
    ensures k < |d|
  {
    assert c[k] in s;
  }

  lemma NextAgrees<T(!new)>(s: seq<T>, c: seq<T>, d: seq<T>, key: T -> string, le: (T, T) -> bool, k: nat)
    requires TotalPreorder(le) && Antisymmetric(le) && IsChoice(s, c, key, le) && IsChoice(s, d, key, le)
    requires k < |c| && k < |d| && forall j :: 0 <= j < k ==> c[j] == d[j]
    ensures c[k] == d[k] && c[..k + 1] == d[..k + 1]
  {
    NotLater(s, c, d, key, le, k);
    NotLater(s, d, c, key, le, k);
  }

  lemma NotLater<T(!new)>(s: seq<T>, c: seq<T>, d: seq<T>, key: T -> string, le: (T, T) -> bool, k: nat)
    requires TotalPreorder(le) && IsChoice(s, c, key, le) && IsChoice(s, d, key, le)
    requires k < |c| && k < |d| && forall j :: 0 <= j < k ==> c[j] == d[j]
    ensures le(d[k], c[k])
  {
    assert TooLate(d, key, le, c[k]);
    assert le(d[k], d[k]);
    if Stands(d, key, le, c[k]) {
      var j :| 0 <= j < |d| && key(d[j]) == key(c[k]) && le(d[j], c[k]);
      assert j >= k;
      assert le(d[k], d[j]);
    } else {
      assert le(d[k], d[|d| - 1]);
    }
  }

  /** The elements taken are exactly the one choice of that size. */
  lemma TakenIff<T(!new)>(s: seq<T>, c: seq<T>, key: T -> string, le: (T, T) -> bool)
    requires TotalPreorder(le) && Antisymmetric(le) && Sorted(s, le) && c != []
    ensures Take(FirstPer(s, key, {}), |c|) == c <==> IsChoice(s, c, key, le)
  {
    var d := Take(FirstPer(s, key, {}), |c|);
    TakenIsChoice(s, key, le, |c|);
    if IsChoice(s, c, key, le) {
      FirstPerInOrder(s, key, {}, le);
      ChoicesAgree(s, c, d, key, le, |c|, |c|);
      assert c[..|c|] == c && d[..|c|] == d;
    }
  }

  /**
   A full choice from one list is also what is taken from another exactly when its elements are still there and
   every element that is new in the other list comes too late.
   */
  lemma ChoiceSurvivesIff<T(!new)>(s: seq<T>, t: seq<T>, key: T -> string, le: (T, T) -> bool, n: nat)
    requires TotalPreorder(le) && Antisymmetric(le) && Sorted(s, le) && Sorted(t, le)
    requires n >= 1 && |Take(FirstPer(s, key, {}), n)| == n
    ensures var c := Take(FirstPer(s, key, {}), n);
            Take(FirstPer(t, key, {}), n) == c <==>
            && (forall i :: 0 <= i < n ==> c[i] in t)
            && (forall x :: x in t && x !in s && key(x) != "" ==> TooLate(c, key, le, x))
  {
    var c := Take(FirstPer(s, key, {}), n);
    TakenIsChoice(s, key, le, n);
    TakenIff(t, c, key, le);
  }

  /** With room for one, the element with a key that comes before all others is taken. */
  lemma TakeOne<T(!new)>(s: seq<T>, x: T, key: T -> string, le: (T, T) -> bool)
    requires TotalPreorder(le) && Antisymmetric(le) && Sorted(s, le)
    requires x in s && key(x) != "" && forall y :: y in s && key(y) != "" ==> le(x, y)
    ensures Take(FirstPer(s, key, {}), 1) == [x]
  {
    forall y | y in s && key(y) != "" ensures TooLate([x], key, le, y) {
      if key(x) == key(y) {
        assert [x][0] == x;
        assert Stands([x], key, le, y);
      }
    }
    TakenIff(s, [x], key, le);
  }
}
