/** The structural mutations of array inputs and the space they search (shatter-core/src/array_mutation.rs). */
module ArrayMutation {
  import opened Sorting

  datatype Kind = Insert | Delete | Swap | Replace | Splice | Truncate

  /** A kind with the draws that `apply_mutation` makes for it. */
  datatype Mutation<V> =
    | InsertAt(pos: nat, elem: V)
    | DeleteAt(pos: nat)
    | SwapDraws(i: nat, draw: nat)
    | ReplaceAt(pos: nat, elem: V)
    | SpliceAt(start: nat, end: nat, elems: seq<V>)
    | TruncateTo(len: nat)

  function KindOf<V>(m: Mutation<V>): Kind {
    match m
    case InsertAt(_, _) => Insert
    case DeleteAt(_) => Delete
    case SwapDraws(_, _) => Swap
    case ReplaceAt(_, _) => Replace
    case SpliceAt(_, _, _) => Splice
    case TruncateTo(_) => Truncate
  }

  /** How many values the choice of a kind is drawn from; an empty array draws nothing. */
  function Choices(len: nat): nat { if len == 0 then 1 else if len == 1 then 3 else 6 }

  function ChooseMutation(len: nat, choice: nat): Kind {
    match len
    case 0 => Insert
    case 1 => (match choice case 0 => Insert case 1 => Delete case _ => Replace)
    case _ =>
      match choice
      case 0 => Insert
      case 1 => Delete
      case 2 => Swap
      case 3 => Replace
      case 4 => Splice
      case _ => Truncate
  }

  /** The kinds that make sense for an array of this length. */
  predicate Choosable(len: nat, kind: Kind) {
    if len == 0 then kind.Insert?
    else if len == 1 then kind.Insert? || kind.Delete? || kind.Replace?
    else true
  }

  /** Exactly these kinds are chosen by some draw. */
  lemma ChoicesCover(len: nat, kind: Kind)
    ensures Choosable(len, kind) <==> exists choice: nat :: choice < Choices(len) && ChooseMutation(len, choice) == kind
  {
    if Choosable(len, kind) {
      var choice: nat :=
        match kind
        case Insert => 0
        case Delete => 1
        case Swap => 2
        case Replace => if len == 1 then 2 else 3
        case Splice => 4
        case Truncate => 5;
      assert choice < Choices(len) && ChooseMutation(len, choice) == kind;
    }
  }

  function Min(a: nat, b: nat): nat { if a <= b then a else b }

  /** The draws lie in the ranges that the code gives to the generator. */
  predicate Drawn<V>(producible: V -> bool, len: nat, m: Mutation<V>) {
    match m
    case InsertAt(pos, elem) => pos <= len && producible(elem)
    case DeleteAt(pos) => pos < len
    case SwapDraws(i, draw) => len >= 2 && i < len && draw < len - 1
    case ReplaceAt(pos, elem) => pos < len && producible(elem)
    case SpliceAt(start, end, elems) =>
      && start < len && start + 1 <= end <= Min(len, start + 3) && |elems| <= 3
      && forall k :: 0 <= k < |elems| ==> producible(elems[k])
    case TruncateTo(l) => len > 1 && l < len
  }

  predicate Allowed<V>(producible: V -> bool, len: nat, m: Mutation<V>) {
    Choosable(len, KindOf(m)) && Drawn(producible, len, m)
  }

  /** The second index of a swap: the draw, moved past the first index. */
  function Other(i: nat, draw: nat): nat { if draw >= i then draw + 1 else draw }

  function Apply<V>(producible: V -> bool, a: seq<V>, m: Mutation<V>): seq<V>
    requires Drawn(producible, |a|, m)
  {
    match m
    case InsertAt(pos, elem) => a[..pos] + [elem] + a[pos..]
    case DeleteAt(pos) => a[..pos] + a[pos + 1..]
    case SwapDraws(i, draw) => a[i := a[Other(i, draw)]][Other(i, draw) := a[i]]
    case ReplaceAt(pos, elem) => a[pos := elem]
    case SpliceAt(start, end, elems) => a[..start] + elems + a[end..]
    case TruncateTo(l) => a[..l]
  }

  /** The vector as the code updates it, with its guards and the moved second index of a swap. */
  method ApplyMutation<V>(producible: V -> bool, arr: seq<V>, m: Mutation<V>) returns (result: seq<V>)
    requires Allowed(producible, |arr|, m)
    ensures result == Apply(producible, arr, m)
    ensures |result| <= |arr| + 2
  {
    result := arr;
    match m {
      case InsertAt(pos, elem) =>
        var at := if |result| == 0 then 0 else pos;
        result := result[..at] + [elem] + result[at..];
      case DeleteAt(pos) =>
        if |result| != 0 {
          result := result[..pos] + result[pos + 1..];
        }
      case SwapDraws(i, draw) =>
        if |result| >= 2 {
          var j := draw;
          if j >= i {
            j := j + 1;
          }
          var held := result[i];
          result := result[i := result[j]];
          result := result[j := held];
        }
      case ReplaceAt(pos, elem) =>
        if |result| != 0 {
          result := result[pos := elem];
        }
      case SpliceAt(start, end, elems) =>
        if |result| != 0 {
          result := result[..start] + elems + result[end..];
        }
      case TruncateTo(l) =>
        if |result| > 1 {
          result := result[..l];
        }
    }
  }

  // ----- the draws

  /** How many numbers are drawn for a kind, generated elements aside. */
  function Arity(kind: Kind): nat { match kind case Swap => 2 case Splice => 3 case _ => 1 }

  /** The range of the next number, given those already drawn: from the first up to the second. */
  function NextRange(len: nat, kind: Kind, drawn: seq<nat>): (int, int)
    requires |drawn| < Arity(kind)
  {
    match kind
    case Insert => (0, len + 1)
    case Delete => (0, len)
    case Replace => (0, len)
    case Truncate => (0, len)
    case Swap => if drawn == [] then (0, len) else (0, len - 1)
    case Splice =>
      if drawn == [] then (0, len)
      else if |drawn| == 1 then (drawn[0] + 1, Min(len, drawn[0] + 3) + 1)
      else (0, 4)
  }

  /** Each number was drawn from its range. */
  predicate InRange(len: nat, kind: Kind, drawn: seq<nat>) {
    && |drawn| <= Arity(kind)
    && forall i :: 0 <= i < |drawn| ==>
         NextRange(len, kind, drawn[..i]).0 <= drawn[i] < NextRange(len, kind, drawn[..i]).1
  }

  /** Whatever kind is chosen and whatever was drawn so far, the next range has a value to take and stays in bounds. */
  lemma EveryDrawHasAValue(len: nat, kind: Kind, drawn: seq<nat>)
    requires Choosable(len, kind) && InRange(len, kind, drawn) && |drawn| < Arity(kind)
    ensures var (lo, hi) := NextRange(len, kind, drawn);
            && 0 <= lo < hi
            && ((kind.Splice? && |drawn| == 2) || hi <= if kind.Insert? || kind.Splice? then len + 1 else len)
  {
    if |drawn| >= 1 {
      assert drawn[..0] == [];
      assert NextRange(len, kind, []).0 <= drawn[0] < NextRange(len, kind, []).1;
    }
  }

  /** The mutation that the numbers and the generated elements make. */
  function Made<V>(kind: Kind, drawn: seq<nat>, elems: seq<V>): Mutation<V>
    requires |drawn| == Arity(kind)
    requires |elems| == (match kind case Insert => 1 case Replace => 1 case Splice => drawn[2] case _ => 0)
  {
    match kind
    case Insert => InsertAt(drawn[0], elems[0])
    case Delete => DeleteAt(drawn[0])
    case Swap => SwapDraws(drawn[0], drawn[1])
    case Replace => ReplaceAt(drawn[0], elems[0])
    case Splice => SpliceAt(drawn[0], drawn[1], elems)
    case Truncate => TruncateTo(drawn[0])
  }

  /** For a chosen kind, draws from the ranges are exactly what makes an allowed mutation: no guard skips it. */
  lemma DrawsMakeAllowedIff<V>(producible: V -> bool, len: nat, kind: Kind, drawn: seq<nat>, elems: seq<V>)
    requires Choosable(len, kind) && |drawn| == Arity(kind)
    requires |elems| == (match kind case Insert => 1 case Replace => 1 case Splice => drawn[2] case _ => 0)
    requires forall k :: 0 <= k < |elems| ==> producible(elems[k])
    ensures Allowed(producible, len, Made(kind, drawn, elems)) <==> InRange(len, kind, drawn)
  {
    assert drawn[..0] == [];
    if kind.Swap? || kind.Splice? {
      assert drawn[..1] == [drawn[0]];
    }
    if kind.Splice? {
      assert drawn[..2] == [drawn[0], drawn[1]];
    }
    if Allowed(producible, len, Made(kind, drawn, elems)) {
      forall i | 0 <= i < Arity(kind)
        ensures NextRange(len, kind, drawn[..i]).0 <= drawn[i] < NextRange(len, kind, drawn[..i]).1
      {
        assert i == 0 || i == 1 || i == 2;
      }
    }
  }

  /** The adjusted draw ranges over every index but the first one, each exactly once. */
  lemma OtherIsBijection(len: nat, i: nat, j: nat)
    requires i < len && j < len
    ensures j != i <==> exists draw: nat :: draw < len - 1 && Other(i, draw) == j
    ensures forall d: nat, e: nat :: Other(i, d) == Other(i, e) ==> d == e
  {
    if j < i {
      assert Other(i, j) == j;
    } else if j > i {
      assert Other(i, j - 1) == j;
    }
  }

  // ----- what one mutation keeps

  /** The range of the array that a mutation other than a swap replaces, and by what. */
  function Replaced<V>(len: nat, m: Mutation<V>): (nat, nat, seq<V>) {
    match m
    case InsertAt(pos, elem) => (pos, pos, [elem])
    case DeleteAt(pos) => (pos, pos + 1, [])
    case ReplaceAt(pos, elem) => (pos, pos + 1, [elem])
    case SpliceAt(start, end, elems) => (start, end, elems)
    case TruncateTo(l) => (l, len, [])
    case SwapDraws(_, _) => (0, 0, [])
  }

  /** A mutation changes what it says and nothing else: all elements outside the range keep their order. */
  lemma MutationIsLocal<V>(producible: V -> bool, a: seq<V>, m: Mutation<V>)
    requires Drawn(producible, |a|, m)
    ensures var r := Apply(producible, a, m);
            if m.SwapDraws? then
              var i, j := m.i, Other(m.i, m.draw);
              && i != j && |r| == |a| && r[i] == a[j] && r[j] == a[i]
              && forall k :: 0 <= k < |a| && k != i && k != j ==> r[k] == a[k]
            else
              var (from, to, elems) := Replaced(|a|, m);
              && from <= to <= |a| && |r| == |a| - (to - from) + |elems|
              && r[..from] == a[..from] && r[from..from + |elems|] == elems && r[from + |elems|..] == a[to..]
  {
    var r := Apply(producible, a, m);
    match m {
      case InsertAt(pos, elem) => assert r == a[..pos] + [elem] + a[pos..];
      case DeleteAt(pos) => assert r == a[..pos] + [] + a[pos + 1..];
      case ReplaceAt(pos, elem) => assert r == a[..pos] + [elem] + a[pos + 1..];
      case SpliceAt(_, _, _) =>
      case TruncateTo(l) => assert r == a[..l] + [] + a[|a|..];
      case SwapDraws(_, _) =>
    }
  }

  lemma SwapKeepsElements<V>(a: seq<V>, i: nat, j: nat)
    requires i < |a| && j < |a| && i != j
    ensures multiset(a[i := a[j]][j := a[i]]) == multiset(a)
  {
  }

  /** Elements are old or generated, so any typing of the elements is kept. */
  lemma TypingIsKept<V>(producible: V -> bool, a: seq<V>, m: Mutation<V>, typed: V -> bool)
    requires Drawn(producible, |a|, m)
    requires forall k :: 0 <= k < |a| ==> typed(a[k])
    requires forall v :: producible(v) ==> typed(v)
    ensures forall k :: 0 <= k < |Apply(producible, a, m)| ==> typed(Apply(producible, a, m)[k])
  {
  }

  lemma CountOfParts<V>(a: seq<V>, from: nat, to: nat, v: V)
    requires from <= to <= |a|
    ensures multiset(a)[v] == multiset(a[..from])[v] + multiset(a[from..to])[v] + multiset(a[to..])[v]
  {
    assert a == a[..from] + a[from..to] + a[to..];
  }

  /** Putting `more` in place of a part changes the counts by the difference. */
  lemma CountAfterSplice<V>(a: seq<V>, from: nat, to: nat, more: seq<V>, v: V)
    requires from <= to <= |a| && v !in more
    ensures multiset(a[..from] + more + a[to..])[v] <= multiset(a)[v]
  {
    CountOfParts(a, from, to, v);
    assert multiset(more)[v] == 0;
  }

  lemma JoinedAgain<V>(r: seq<V>, x: seq<V>, y: seq<V>, z: seq<V>)
    requires |r| == |x| + |y| + |z|
    requires r[..|x|] == x && r[|x|..|x| + |y|] == y && r[|x| + |y|..] == z
    ensures r == x + y + z
  {
    assert r == r[..|x|] + r[|x|..|x| + |y|] + r[|x| + |y|..];
  }

  lemma ElementsAreProducible<V>(producible: V -> bool, len: nat, m: Mutation<V>, v: V)
    requires Drawn(producible, len, m) && !m.SwapDraws? && !producible(v)
    ensures v !in Replaced(len, m).2
  {}

  /** No mutation makes more copies of a value that the generator does not produce. */
  lemma NoNewCopies<V>(producible: V -> bool, a: seq<V>, m: Mutation<V>, v: V)
    requires Drawn(producible, |a|, m) && !producible(v)
    ensures multiset(Apply(producible, a, m))[v] <= multiset(a)[v]
  {
    if m.SwapDraws? {
      SwapKeepsElements(a, m.i, Other(m.i, m.draw));
    } else {
      var (from, to, elems) := Replaced(|a|, m);
      MutationIsLocal(producible, a, m);
      JoinedAgain(Apply(producible, a, m), a[..from], elems, a[to..]);
      ElementsAreProducible(producible, |a|, m, v);
      CountAfterSplice(a, from, to, elems, v);
    }
  }

  // ----- runs

  /** Successive mutations `ms` lead from `a` to `b`. */
  predicate Runs<V(==)>(producible: V -> bool, a: seq<V>, ms: seq<Mutation<V>>, b: seq<V>)
    decreases |ms|
  {
    if ms == [] then a == b
    else Allowed(producible, |a|, ms[0]) && Runs(producible, Apply(producible, a, ms[0]), ms[1..], b)
  }

  lemma {:induction false} GrowthIsBounded<V>(producible: V -> bool, a: seq<V>, ms: seq<Mutation<V>>, b: seq<V>)
    requires Runs(producible, a, ms, b)
    ensures |b| <= |a| + 2 * |ms|
    decreases |ms|
  {
    if ms != [] {
      GrowthIsBounded(producible, Apply(producible, a, ms[0]), ms[1..], b);
    }
  }

  lemma {:induction false} RunsCompose<V>(producible: V -> bool, a: seq<V>, ms: seq<Mutation<V>>, b: seq<V>,
                                          ns: seq<Mutation<V>>, c: seq<V>)
    requires Runs(producible, a, ms, b) && Runs(producible, b, ns, c)
    ensures Runs(producible, a, ms + ns, c)
    decreases |ms|
  {
    if ms == [] {
      assert ms + ns == ns;
    } else {
      assert (ms + ns)[1..] == ms[1..] + ns;
      RunsCompose(producible, Apply(producible, a, ms[0]), ms[1..], b, ns, c);
    }
  }

  lemma RunsOne<V>(producible: V -> bool, a: seq<V>, m: Mutation<V>)
    requires Allowed(producible, |a|, m)
    ensures Runs(producible, a, [m], Apply(producible, a, m))
  {
    assert [m][1..] == [];
  }

  // ----- what can be reached

  /** `b` needs no more copies of any value outside the generator's range than `a` has. */
  ghost predicate Supplies<V(!new)>(producible: V -> bool, a: seq<V>, b: seq<V>) {
    forall v :: !producible(v) ==> multiset(b)[v] <= multiset(a)[v]
  }

  lemma {:induction false} RunsNeedSupplies<V(!new)>(producible: V -> bool, a: seq<V>, ms: seq<Mutation<V>>, b: seq<V>)
    requires Runs(producible, a, ms, b)
    ensures Supplies(producible, a, b)
    decreases |ms|
  {
    if ms != [] {
      var next := Apply(producible, a, ms[0]);
      RunsNeedSupplies(producible, next, ms[1..], b);
      forall v | !producible(v)
        ensures multiset(b)[v] <= multiset(a)[v]
      {
        NoNewCopies(producible, a, ms[0], v);
      }
    }
  }

  /** Swaps put any order in place, one position at a time. */
  lemma {:induction false} Reorder<V>(producible: V -> bool, a: seq<V>, b: seq<V>, k: nat)
    returns (ms: seq<Mutation<V>>)
    requires multiset(a) == multiset(b) && k <= |a| && k <= |b| && a[..k] == b[..k]
    ensures Runs(producible, a, ms, b)
    decreases |a| - k
  {
    SameSize(a, b);
    if k == |a| {
      assert a == a[..k] && b == b[..k];
      return [];
    }
    if a[k] == b[k] {
      assert a[..k + 1] == a[..k] + [a[k]] && b[..k + 1] == b[..k] + [b[k]];
      ms := Reorder(producible, a, b, k + 1);
    } else {
      var m, next := PutInPlace(producible, a, b, k);
      var rest := Reorder(producible, next, b, k + 1);
      RunsOne(producible, a, m);
      RunsCompose(producible, a, [m], next, rest, b);
      ms := [m] + rest;
    }
  }

  /** One swap brings the wanted element to position `k`. */
  lemma PutInPlace<V>(producible: V -> bool, a: seq<V>, b: seq<V>, k: nat) returns (m: Mutation<V>, next: seq<V>)
    requires multiset(a) == multiset(b) && k < |a| == |b| && a[..k] == b[..k] && a[k] != b[k]
    ensures Allowed(producible, |a|, m) && next == Apply(producible, a, m)
    ensures multiset(next) == multiset(b) && |next| == |a| && next[..k + 1] == b[..k + 1]
  {
    var j := FindBeyond(a, b, k);
    m := SwapDraws(k, j - 1);
    next := Apply(producible, a, m);
    SwapKeepsElements(a, k, j);
    assert next[..k + 1] == a[..k] + [b[k]] == b[..k + 1];
  }

  lemma SameSize<V>(a: seq<V>, b: seq<V>)
    requires multiset(a) == multiset(b)
    ensures |a| == |b|
  {
    assert |a| == |multiset(a)| && |b| == |multiset(b)|;
  }

  lemma CountOfHalves<V>(a: seq<V>, k: nat, v: V)
    requires k <= |a|
    ensures multiset(a)[v] == multiset(a[..k])[v] + multiset(a[k..])[v]
  {
    assert a == a[..k] + a[k..];
  }

  /** The element that belongs at position `k` is further along. */
  lemma FindBeyond<V>(a: seq<V>, b: seq<V>, k: nat) returns (j: nat)
    requires multiset(a) == multiset(b) && k < |a| == |b| && a[..k] == b[..k] && a[k] != b[k]
    ensures k < j < |a| && a[j] == b[k]
  {
    CountOfHalves(a, k, b[k]);
    CountOfHalves(b, k, b[k]);
    assert b[k..][0] == b[k];
    assert b[k] in multiset(a[k..]);
    var i :| 0 <= i < |a[k..]| && a[k..][i] == b[k];
    j := k + i;
  }

  /** Deletions and swaps lead to any selection of the elements, in any order. */
  lemma {:induction false} Select<V>(producible: V -> bool, a: seq<V>, b: seq<V>) returns (ms: seq<Mutation<V>>)
    requires multiset(b) <= multiset(a)
    ensures Runs(producible, a, ms, b)
    decreases |a|
  {
    if multiset(a) == multiset(b) {
      ms := Reorder(producible, a, b, 0);
    } else {
      var k := FindSurplus(a, b);
      var m := DeleteAt(k);
      var next := Apply(producible, a, m);
      assert a == a[..k] + [a[k]] + a[k + 1..];
      assert multiset(next) == multiset(a) - multiset{a[k]};
      var rest := Select(producible, next, b);
      RunsOne(producible, a, m);
      RunsCompose(producible, a, [m], next, rest, b);
      ms := [m] + rest;
    }
  }

  lemma FindSurplus<V>(a: seq<V>, b: seq<V>) returns (k: nat)
    requires multiset(b) <= multiset(a) && multiset(a) != multiset(b)
    ensures k < |a| && multiset(a)[a[k]] > multiset(b)[a[k]]
  {
    var v :| multiset(a)[v] > multiset(b)[v];
    assert v in multiset(a);
    k :| 0 <= k < |a| && a[k] == v;
  }

  function Not<V>(p: V -> bool): V -> bool { (v: V) => !p(v) }

  /** The elements of `b` from `i` on that no draw can supply, after its first `i` elements. */
  function Partial<V>(producible: V -> bool, b: seq<V>, i: nat): seq<V>
    requires i <= |b|
  {
    b[..i] + Filter(b[i..], Not(producible))
  }

  /** Insertions fill in what the generator produces. */
  lemma {:induction false} Fill<V>(producible: V -> bool, b: seq<V>, i: nat) returns (ms: seq<Mutation<V>>)
    requires i <= |b|
    ensures Runs(producible, Partial(producible, b, i), ms, b)
    decreases |b| - i
  {
    if i == |b| {
      assert b[i..] == [] && Partial(producible, b, i) == b;
      return [];
    }
    var here, next := Partial(producible, b, i), Partial(producible, b, i + 1);
    assert b[i..][1..] == b[i + 1..] && b[..i + 1] == b[..i] + [b[i]];
    ms := Fill(producible, b, i + 1);
    if producible(b[i]) {
      var m := InsertAt(i, b[i]);
      assert here[..i] == b[..i] && here[i..] == Filter(b[i + 1..], Not(producible));
      assert Apply(producible, here, m) == next;
      RunsOne(producible, here, m);
      RunsCompose(producible, here, [m], next, ms, b);
      ms := [m] + ms;
    } else {
      assert here == next;
    }
  }

  ghost predicate Reachable<V(!new)>(producible: V -> bool, a: seq<V>, b: seq<V>) {
    exists ms :: Runs(producible, a, ms, b)
  }

  /** An array can be reached exactly when the source supplies what the generator cannot. */
  lemma ReachableIff<V(!new)>(producible: V -> bool, a: seq<V>, b: seq<V>)
    ensures Reachable(producible, a, b) <==> Supplies(producible, a, b)
  {
    if Reachable(producible, a, b) {
      var ms :| Runs(producible, a, ms, b);
      RunsNeedSupplies(producible, a, ms, b);
    }
    if Supplies(producible, a, b) {
      var ms := RunTo(producible, a, b);
    }
  }

  /** Select what only the source has, then fill in the rest. */
  lemma RunTo<V(!new)>(producible: V -> bool, a: seq<V>, b: seq<V>) returns (ms: seq<Mutation<V>>)
    requires Supplies(producible, a, b)
    ensures Runs(producible, a, ms, b)
  {
    var fixed := Filter(b, Not(producible));
    FixedSelection(producible, a, b);
    ms := Select(producible, a, fixed);
    var ns := Fill(producible, b, 0);
    assert b[0..] == b && Partial(producible, b, 0) == fixed;
    RunsCompose(producible, a, ms, fixed, ns, b);
    ms := ms + ns;
  }

  /** Dropping the producible elements keeps the count of the others. */
  lemma {:induction false} FixedCount<V(!new)>(producible: V -> bool, b: seq<V>)
    ensures forall v :: multiset(Filter(b, Not(producible)))[v] == if producible(v) then 0 else multiset(b)[v]
  {
    if b != [] {
      FixedCount(producible, b[1..]);
      assert b == [b[0]] + b[1..];
    }
  }

  lemma FixedSelection<V(!new)>(producible: V -> bool, a: seq<V>, b: seq<V>)
    requires Supplies(producible, a, b)
    ensures multiset(Filter(b, Not(producible))) <= multiset(a)
  {
    FixedCount(producible, b);
  }

  /** Anything that the generator can produce throughout can be reached from anywhere. */
  lemma ProducibleIsReachable<V(!new)>(producible: V -> bool, a: seq<V>, b: seq<V>)
    requires forall k :: 0 <= k < |b| ==> producible(b[k])
    ensures Reachable(producible, a, b)
  {
    forall v | !producible(v)
      ensures multiset(b)[v] == 0
    {
      assert v !in b;
    }
    ReachableIff(producible, a, b);
  }
}
