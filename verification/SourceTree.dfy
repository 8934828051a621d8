/**
 The source-tree digest of the CLI build: a directory walk that sorts what it finds, and the
 byte string that is hashed (shatter-cli/build.rs).
 */
module SourceTree {
  import opened Names
  import opened Sorting
  import opened Text
  import opened Utf8

  // ----- the bytes that are hashed

  datatype File = File(path: Bytes, data: Bytes)

  function Pow256(k: nat): nat { if k == 0 then 1 else 256 * Pow256(k - 1) }

  /** `k` bytes of `n`, least significant first. */
  function LittleEndian(n: nat, k: nat): (r: Bytes)
    ensures |r| == k
  {
    if k == 0 then [] else [n % 256] + LittleEndian(n / 256, k - 1)
  }

  predicate Fits(f: File) { 0 !in f.path && |f.data| < Pow256(8) }

  function EncodeFile(f: File): Bytes { f.path + [0] + LittleEndian(|f.data|, 8) + f.data + [0] }

  function Encode(files: seq<File>): (r: Bytes)
    ensures files != [] ==> r != []
  {
    if files == [] then [] else EncodeFile(files[0]) + Encode(files[1..])
  }

  lemma {:induction false} LittleEndianInjective(m: nat, n: nat, k: nat)
    requires m < Pow256(k) && n < Pow256(k) && LittleEndian(m, k) == LittleEndian(n, k)
    ensures m == n
  {
    if k > 0 {
      var a, b := LittleEndian(m, k), LittleEndian(n, k);
      assert a[0] == m % 256 && b[0] == n % 256;
      assert a[1..] == LittleEndian(m / 256, k - 1) && b[1..] == LittleEndian(n / 256, k - 1);
      LittleEndianInjective(m / 256, n / 256, k - 1);
    }
  }

  /** A path ends at the first zero byte. */
  lemma CutAtZero(p: Bytes, x: Bytes, q: Bytes, y: Bytes)
    requires 0 !in p && 0 !in q && p + [0] + x == q + [0] + y
    ensures p == q && x == y
  {
    var s := p + [0] + x;
    assert s[|p|] == 0 && s[|q|] == 0;
    assert forall i :: 0 <= i < |p| ==> s[i] == p[i] && p[i] != 0;
    assert forall i :: 0 <= i < |q| ==> s[i] == q[i] && q[i] != 0;
    assert |p| == |q|;
    assert p == s[..|p|] && q == s[..|q|] && x == s[|p| + 1..] && y == s[|q| + 1..];
  }

  lemma CutAtLength<T>(a: seq<T>, x: seq<T>, b: seq<T>, y: seq<T>)
    requires |a| == |b| && a + x == b + y
    ensures a == b && x == y
  {
    assert a == (a + x)[..|a|] && b == (b + y)[..|b|] && x == (a + x)[|a|..] && y == (b + y)[|b|..];
  }

  lemma Parts(p: Bytes, m: Bytes, d: Bytes, x: Bytes)
    ensures p + [0] + m + d + [0] + x == p + [0] + (m + (d + ([0] + x)))
  {
  }

  lemma FirstParts(p: Bytes, m: Bytes, d: Bytes, x: Bytes, q: Bytes, n: Bytes, e: Bytes, y: Bytes)
    requires 0 !in p && 0 !in q && |m| == |n|
    requires p + [0] + m + d + [0] + x == q + [0] + n + e + [0] + y
    requires m == n ==> |d| == |e|
    ensures p == q && m == n && d == e && x == y
  {
    Parts(p, m, d, x);
    Parts(q, n, e, y);
    CutAtZero(p, m + (d + ([0] + x)), q, n + (e + ([0] + y)));
    CutAtLength(m, d + ([0] + x), n, e + ([0] + y));
    CutAtLength(d, [0] + x, e, [0] + y);
    CutAtLength([0], x, [0], y);
  }

  /** The first file of an encoding is determined by it, and so is what follows. */
  lemma FirstFile(f: File, x: Bytes, g: File, y: Bytes)
    requires Fits(f) && Fits(g) && EncodeFile(f) + x == EncodeFile(g) + y
    ensures f == g && x == y
  {
    var m, n := LittleEndian(|f.data|, 8), LittleEndian(|g.data|, 8);
    if m == n {
      LittleEndianInjective(|f.data|, |g.data|, 8);
    }
    FirstParts(f.path, m, f.data, x, g.path, n, g.data, y);
  }

  /** Two lists of files are hashed as the same bytes only if they are the same list. */
  lemma {:induction false} EncodeInjective(a: seq<File>, b: seq<File>)
    requires forall i :: 0 <= i < |a| ==> Fits(a[i])
    requires forall i :: 0 <= i < |b| ==> Fits(b[i])
    requires Encode(a) == Encode(b)
    ensures a == b
    decreases |a|
  {
    if a != [] && b != [] {
      FirstFile(a[0], Encode(a[1..]), b[0], Encode(b[1..]));
      EncodeInjective(a[1..], b[1..]);
      assert a == [a[0]] + a[1..] && b == [b[0]] + b[1..];
    }
  }

  // ----- the walk

  /** The components of a path below the root. */
  type Path = seq<Bytes>

  /** Anything else, such as a symbolic link or an entry without a type, is passed over. */
  datatype Kind = RegularFile | Directory(readable: bool) | Special

  type Tree = map<Path, Kind>

  function Parent(p: Path): Path
    requires p != []
  {
    p[..|p| - 1]
  }

  function Children(t: Tree, dir: Path): set<Path> {
    if dir in t && t[dir] == Directory(true) then set p | p in t.Keys && p != [] && Parent(p) == dir else {}
  }

  /** Every directory on the way from the root to `p` can be listed. */
  predicate Walked(t: Tree, p: Path) {
    forall k :: 0 <= k < |p| ==> p[..k] in t && t[p[..k]] == Directory(true)
  }

  predicate IsDir(t: Tree, p: Path) { p == [] || (p in t && t[p].Directory? && Walked(t, p)) }

  predicate IsSource(t: Tree, source: Path -> bool, p: Path) {
    p != [] && p in t && t[p].RegularFile? && Walked(t, p) && source(p)
  }

  predicate ChildDir(t: Tree, dir: Path, p: Path) { p in Children(t, dir) && t[p].Directory? }

  predicate ChildSource(t: Tree, source: Path -> bool, dir: Path, p: Path) {
    p in Children(t, dir) && t[p].RegularFile? && source(p)
  }

  /** One directory, its entries in whatever order the system lists them. */
  method ListDir(t: Tree, source: Path -> bool, dir: Path) returns (subdirs: seq<Path>, found: seq<Path>)
    ensures Distinct(subdirs) && Distinct(found)
    ensures forall p :: p in subdirs <==> ChildDir(t, dir, p)
    ensures forall p :: p in found <==> ChildSource(t, source, dir, p)
  {
    subdirs, found := [], [];
    var entries := Children(t, dir);
    while entries != {}
      invariant entries <= Children(t, dir)
      invariant Distinct(subdirs) && Distinct(found)
      invariant forall p :: p in subdirs <==> ChildDir(t, dir, p) && p !in entries
      invariant forall p :: p in found <==> ChildSource(t, source, dir, p) && p !in entries
      decreases |entries|
    {
      var path :| path in entries;
      entries := entries - {path};
      if t[path].Directory? {
        subdirs := subdirs + [path];
      } else if t[path].RegularFile? && source(path) {
        found := found + [path];
      }
    }
  }

  // ----- the walk as a whole

  /** The stack and the directories done so far cover the tree from the top. */
  ghost predicate Frontier(t: Tree, dirs: seq<Path>, stack: seq<Path>) {
    && Distinct(dirs + stack)
    && [] in dirs + stack
    && (forall d :: d in dirs + stack ==> IsDir(t, d))
    && (forall d, p :: d in dirs && ChildDir(t, d, p) ==> p in dirs + stack)
    && (forall p :: p in dirs + stack && p != [] ==> Parent(p) in dirs)
  }

  ghost predicate Gathered(t: Tree, source: Path -> bool, dirs: seq<Path>, files: seq<Path>) {
    && Distinct(files)
    && (forall p :: p in files <==> p != [] && Parent(p) in dirs && ChildSource(t, source, Parent(p), p))
  }

  lemma ChildIsWalked(t: Tree, dir: Path, p: Path)
    requires IsDir(t, dir) && p in Children(t, dir)
    ensures Walked(t, p)
  {
    forall k | 0 <= k < |p|
      ensures p[..k] in t && t[p[..k]] == Directory(true)
    {
      if k < |dir| {
        assert dir[..k] == p[..k];
      } else {
        assert p[..k] == dir;
      }
    }
  }

  /** When nothing is left on the stack, every directory that can be reached has been done. */
  lemma {:induction false} AllReached(t: Tree, dirs: seq<Path>, p: Path)
    requires Frontier(t, dirs, []) && IsDir(t, p)
    ensures p in dirs
    decreases |p|
  {
    assert dirs + [] == dirs;
    if p != [] {
      var d := Parent(p);
      assert p[..|p| - 1] == d;
      assert forall k :: 0 <= k < |d| ==> d[..k] == p[..k];
      AllReached(t, dirs, d);
      assert ChildDir(t, d, p);
    }
  }

  /** `list` holds exactly the members of `which`, in order and once each. */
  ghost predicate Listing(list: seq<Path>, which: Path -> bool) {
    Distinct(list) && Sorted(list, PathLe) && forall p :: p in list <==> which(p)
  }

  predicate ByteLe(a: int, b: int) { a <= b }

  predicate NameLe(a: Bytes, b: Bytes) { LexBy(a, b, ByteLe) }

  /** Paths compare component by component. */
  predicate PathLe(a: Path, b: Path) { LexBy(a, b, NameLe) }

  lemma NameOrder()
    ensures TotalPreorder(NameLe) && Antisymmetric(NameLe)
  {
    forall x, y ensures NameLe(x, y) || NameLe(y, x) { LexByTotal(x, y, ByteLe); }
    forall x, y, z | NameLe(x, y) && NameLe(y, z) ensures NameLe(x, z) { LexByTransitive(x, y, z, ByteLe); }
    forall x, y | NameLe(x, y) && NameLe(y, x) ensures x == y { LexByAntisymmetric(x, y, ByteLe); }
  }

  lemma PathOrder()
    ensures TotalPreorder(PathLe) && Antisymmetric(PathLe)
  {
    NameOrder();
    forall x, y ensures PathLe(x, y) || PathLe(y, x) { LexByTotal(x, y, NameLe); }
    forall x, y, z | PathLe(x, y) && PathLe(y, z) ensures PathLe(x, z) { LexByTransitive(x, y, z, NameLe); }
    forall x, y | PathLe(x, y) && PathLe(y, x) ensures x == y { LexByAntisymmetric(x, y, NameLe); }
  }

  /** The result does not depend on the order in which directories are listed. */
  lemma ListingIsUnique(a: seq<Path>, b: seq<Path>, which: Path -> bool)
    requires Listing(a, which) && Listing(b, which)
    ensures a == b
  {
    PathOrder();
    SortedIsUnique(a, b, PathLe);
  }

  method SortPaths(found: seq<Path>) returns (list: seq<Path>)
    requires Distinct(found)
    ensures Distinct(list) && Sorted(list, PathLe) && forall p :: p in list <==> p in found
  {
    list := Sort(found, PathLe);
    PathOrder();
    SortIsSorted(found, PathLe);
    SortKeepsElements(found, PathLe);
    SortKeepsMembers(found, PathLe);
    DistinctByCount(found, list);
  }

  lemma DistinctConcat<T>(a: seq<T>, b: seq<T>)
    requires Distinct(a) && Distinct(b) && forall x :: x in a ==> x !in b
    ensures Distinct(a + b)
  {
    var s := a + b;
    forall i, j | 0 <= i < j < |s| ensures s[i] != s[j] {
      if i < |a| <= j {
        assert a[i] in a && b[j - |a|] in b;
      }
    }
  }

  lemma DistinctParts<T>(a: seq<T>, b: seq<T>)
    requires Distinct(a + b)
    ensures Distinct(a) && Distinct(b) && forall x :: x in a ==> x !in b
  {
    assert forall i :: 0 <= i < |a| ==> (a + b)[i] == a[i];
    assert forall i :: 0 <= i < |b| ==> (a + b)[|a| + i] == b[i];
  }

  /** Listing the directory on top of the stack keeps the frontier. */
  lemma FrontierStep(t: Tree, dirs: seq<Path>, rest: seq<Path>, dir: Path, subdirs: seq<Path>)
    requires Frontier(t, dirs, rest + [dir])
    requires Distinct(subdirs) && forall p :: p in subdirs <==> ChildDir(t, dir, p)
    ensures dir !in dirs && Frontier(t, dirs + [dir], rest + subdirs)
  {
    var before, after := dirs + (rest + [dir]), (dirs + [dir]) + (rest + subdirs);
    FrontierDistinct(t, dirs, rest, dir, subdirs);
    assert forall p :: p in before <==> p in dirs || p in rest || p == dir;
    assert forall p :: p in after <==> p in before || p in subdirs;
    forall p | p in subdirs
      ensures IsDir(t, p)
    {
      ChildIsWalked(t, dir, p);
    }
  }

  lemma FrontierDistinct(t: Tree, dirs: seq<Path>, rest: seq<Path>, dir: Path, subdirs: seq<Path>)
    requires Frontier(t, dirs, rest + [dir])
    requires Distinct(subdirs) && forall p :: p in subdirs <==> ChildDir(t, dir, p)
    ensures dir !in dirs && Distinct((dirs + [dir]) + (rest + subdirs))
  {
    var before := dirs + (rest + [dir]);
    assert before == (dirs + rest) + [dir];
    DistinctParts(dirs + rest, [dir]);
    DistinctParts(dirs, rest);
    assert dir in [dir];
    DistinctConcat(dirs, [dir]);
    assert dirs + [dir] == dirs + [dir];
    DistinctConcat(dirs + [dir], rest);
    assert forall p :: p in (dirs + [dir]) + rest ==> p in before;
    DistinctConcat((dirs + [dir]) + rest, subdirs);
    assert ((dirs + [dir]) + rest) + subdirs == (dirs + [dir]) + (rest + subdirs);
  }

  lemma GatheredStep(t: Tree, source: Path -> bool, dirs: seq<Path>, files: seq<Path>, dir: Path, found: seq<Path>)
    requires Gathered(t, source, dirs, files) && dir !in dirs
    requires Distinct(found) && forall p :: p in found <==> ChildSource(t, source, dir, p)
    ensures Gathered(t, source, dirs + [dir], files + found)
  {
    DistinctConcat(files, found);
  }

  lemma WalkStart(t: Tree, source: Path -> bool)
    ensures Frontier(t, [], [[]]) && Gathered(t, source, [], [])
  {
    var root: seq<Path> := [[]];
    assert [] + root == root;
  }

  /** One turn of the walk: the directory taken is new, and the invariants carry over. */
  lemma WalkStep(t: Tree, source: Path -> bool, dirs: seq<Path>, files: seq<Path>, rest: seq<Path>, dir: Path,
                 subdirs: seq<Path>, found: seq<Path>)
    requires Frontier(t, dirs, rest + [dir]) && Gathered(t, source, dirs, files)
    requires Distinct(subdirs) && forall p :: p in subdirs <==> ChildDir(t, dir, p)
    requires Distinct(found) && forall p :: p in found <==> ChildSource(t, source, dir, p)
    ensures dir !in dirs && dir in t.Keys + {[]}
    ensures Frontier(t, dirs + [dir], rest + subdirs) && Gathered(t, source, dirs + [dir], files + found)
  {
    FrontierStep(t, dirs, rest, dir, subdirs);
    GatheredStep(t, source, dirs, files, dir, found);
    assert dir in dirs + (rest + [dir]);
    assert IsDir(t, dir);
  }

  /** The walk with an explicit stack. */
  method Walk(t: Tree, source: Path -> bool) returns (files: seq<Path>, dirs: seq<Path>)
    ensures Frontier(t, dirs, []) && Gathered(t, source, dirs, files)
  {
    files, dirs := [], [];
    var stack: seq<Path> := [[]];
    ghost var open := t.Keys + {[]};
    WalkStart(t, source);
    while stack != []
      invariant Frontier(t, dirs, stack) && Gathered(t, source, dirs, files)
      invariant forall p :: p in t.Keys + {[]} && p !in dirs ==> p in open
      decreases |open|
    {
      var dir, rest := stack[|stack| - 1], stack[..|stack| - 1];
      assert stack == rest + [dir];
      var subdirs, found := ListDir(t, source, dir);
      WalkStep(t, source, dirs, files, rest, dir, subdirs, found);
      dirs, stack, files := dirs + [dir], rest + subdirs, files + found;
      open := open - {dir};
    }
  }

  /** What the walk finds, in order. */
  method CollectSourceTree(t: Tree, source: Path -> bool) returns (files: seq<Path>, dirs: seq<Path>)
    ensures Listing(files, p => IsSource(t, source, p))
    ensures Listing(dirs, p => IsDir(t, p))
  {
    files, dirs := Walk(t, source);
    AllGathered(t, source, dirs, files);
    files := SortPaths(files);
    dirs := SortPaths(dirs);
  }

  lemma AllGathered(t: Tree, source: Path -> bool, dirs: seq<Path>, files: seq<Path>)
    requires Frontier(t, dirs, []) && Gathered(t, source, dirs, files)
    ensures Distinct(dirs) && Distinct(files)
    ensures forall p :: p in dirs <==> IsDir(t, p)
    ensures forall p :: p in files <==> IsSource(t, source, p)
  {
    assert dirs + [] == dirs;
    forall p | IsDir(t, p)
      ensures p in dirs
    {
      AllReached(t, dirs, p);
    }
    forall p
      ensures p in files <==> IsSource(t, source, p)
    {
      if p in files {
        ChildIsWalked(t, Parent(p), p);
      }
      if IsSource(t, source, p) {
        assert p[..|p| - 1] == Parent(p);
        assert forall k :: 0 <= k < |Parent(p)| ==> Parent(p)[..k] == p[..k];
        AllReached(t, dirs, Parent(p));
      }
    }
  }

  // ----- both together

  const SLASH := 47

  /** The bytes of a relative path. */
  function PathBytes(p: Path): Bytes {
    JoinWith(p, [SLASH])
  }

  predicate NamesOk(p: Path) { forall i :: 0 <= i < |p| ==> p[i] != [] && SLASH !in p[i] && 0 !in p[i] }

  lemma {:induction false} PathBytesNoZero(p: Path)
    requires NamesOk(p)
    ensures 0 !in PathBytes(p)
    decreases |p|
  {
    if |p| > 1 {
      PathBytesNoZero(p[1..]);
    }
  }

  /** The first component ends at the first slash. */
  lemma {:induction false} PathBytesInjective(p: Path, q: Path)
    requires NamesOk(p) && NamesOk(q) && p != [] && q != [] && PathBytes(p) == PathBytes(q)
    ensures p == q
    decreases |p|
  {
    FirstName(p, q);
    FirstName(q, p);
    var n := |p[0]|;
    assert p[0] == PathBytes(p)[..n] && q[0] == PathBytes(q)[..n];
    assert |p| == 1 <==> |PathBytes(p)| == n;
    assert |q| == 1 <==> |PathBytes(q)| == n;
    if |p| > 1 {
      assert PathBytes(p[1..]) == PathBytes(p)[n + 1..] && PathBytes(q[1..]) == PathBytes(q)[n + 1..];
      PathBytesInjective(p[1..], q[1..]);
    }
    assert p == [p[0]] + p[1..] && q == [q[0]] + q[1..];
  }

  lemma FirstName(p: Path, q: Path)
    requires NamesOk(p) && NamesOk(q) && p != [] && q != [] && PathBytes(p) == PathBytes(q)
    ensures |p[0]| <= |q[0]|
  {
    var s := PathBytes(p);
    assert forall i :: 0 <= i < |p[0]| ==> s[i] == p[0][i];
    if |q| > 1 {
      assert s[|q[0]|] == SLASH;
    }
  }

  /** The name under which a file is hashed. */
  function HashedName(p: Path): Bytes { Lossy(PathBytes(p)) }

  function Contents(list: seq<Path>, data: Path -> Bytes): seq<File> {
    seq(|list|, i requires 0 <= i < |list| => File(HashedName(list[i]), data(list[i])))
  }

  method AppendFile(buf: Bytes, path: Bytes, data: Bytes) returns (buf': Bytes)
    ensures buf' == buf + EncodeFile(File(path, data))
  {
    buf' := path;
    buf' := buf' + [0];
    buf' := buf' + LittleEndian(|data|, 8);
    buf' := buf' + data;
    buf' := buf' + [0];
    buf' := buf + buf';
  }

  lemma EncodeFrom(files: seq<File>, i: nat)
    requires i < |files|
    ensures Encode(files[i..]) == EncodeFile(files[i]) + Encode(files[i + 1..])
  {
    assert files[i..][0] == files[i] && files[i..][1..] == files[i + 1..];
  }

  lemma Regrouped(buf: Bytes, one: Bytes, rest: Bytes)
    ensures buf + (one + rest) == (buf + one) + rest
  {
  }

  /** The buffer as the build script fills it. */
  method HashInput(list: seq<Path>, data: Path -> Bytes) returns (buf: Bytes)
    ensures buf == Encode(Contents(list, data))
  {
    buf := [];
    ghost var files := Contents(list, data);
    assert files[0..] == files;
    for i := 0 to |list|
      invariant buf + Encode(files[i..]) == Encode(files)
    {
      EncodeFrom(files, i);
      Regrouped(buf, EncodeFile(files[i]), Encode(files[i + 1..]));
      buf := AppendFile(buf, HashedName(list[i]), data(list[i]));
    }
    assert files[|list|..] == [];
  }

  predicate Hashable(list: seq<Path>, data: Path -> Bytes) {
    forall i :: 0 <= i < |list| ==> list[i] != [] && NamesOk(list[i]) && |data(list[i])| < Pow256(8)
  }

  lemma ContentsFit(a: seq<Path>, data: Path -> Bytes)
    requires Hashable(a, data)
    ensures forall i :: 0 <= i < |a| ==> Fits(Contents(a, data)[i])
  {
    forall i | 0 <= i < |a|
      ensures Fits(Contents(a, data)[i])
    {
      PathBytesNoZero(a[i]);
      LossyHasNoZero(PathBytes(a[i]));
    }
  }

  /** The lists agree, position by position, on hashed names and contents. */
  predicate Agree(a: seq<Path>, data: Path -> Bytes, b: seq<Path>, data': Path -> Bytes) {
    |a| == |b| && forall i :: 0 <= i < |a| ==> HashedName(a[i]) == HashedName(b[i]) && data(a[i]) == data'(b[i])
  }

  /** Two lists are hashed as the same bytes exactly when they agree in this way. */
  lemma SameBytesIff(a: seq<Path>, data: Path -> Bytes, b: seq<Path>, data': Path -> Bytes)
    requires Hashable(a, data) && Hashable(b, data')
    ensures Encode(Contents(a, data)) == Encode(Contents(b, data')) <==> Agree(a, data, b, data')
  {
    var x, y := Contents(a, data), Contents(b, data');
    if Encode(x) == Encode(y) {
      ContentsFit(a, data);
      ContentsFit(b, data');
      EncodeInjective(x, y);
      forall i | 0 <= i < |a|
        ensures HashedName(a[i]) == HashedName(b[i]) && data(a[i]) == data'(b[i])
      {
        assert x[i] == y[i];
      }
    }
    if Agree(a, data, b, data') {
      assert x == y;
    }
  }

  /** Paths whose bytes are well-formed text are hashed under their own names. */
  lemma TextNamesDiffer(p: Path, q: Path)
    requires p != [] && q != [] && NamesOk(p) && NamesOk(q)
    requires WellFormed(PathBytes(p)) && WellFormed(PathBytes(q)) && HashedName(p) == HashedName(q)
    ensures p == q
  {
    LossyKeepsIff(PathBytes(p));
    LossyKeepsIff(PathBytes(q));
    PathBytesInjective(p, q);
  }

  /** Of the paths in `allowed`, no two are hashed under the same name. */
  ghost predicate NamesSeparate(allowed: Path -> bool) {
    forall p, q :: allowed(p) && allowed(q) && HashedName(p) == HashedName(q) ==> p == q
  }

  /** Sources among the paths in `allowed`, in order, with contents whose length fits. */
  ghost predicate SourcesIn(allowed: Path -> bool, a: seq<Path>, data: Path -> Bytes) {
    Hashable(a, data) && Distinct(a) && Sorted(a, PathLe) && forall i :: 0 <= i < |a| ==> allowed(a[i])
  }

  /** Equal bytes mean the same files with the same contents. */
  ghost predicate DigestSeparates(allowed: Path -> bool) {
    forall a, data, b, data' :: SourcesIn(allowed, a, data) && SourcesIn(allowed, b, data')
      && Encode(Contents(a, data)) == Encode(Contents(b, data'))
      ==> a == b && forall i :: 0 <= i < |a| ==> data(a[i]) == data'(a[i])
  }

  /** The digest input tells source trees apart exactly when the lossy conversion tells their paths apart. */
  lemma DigestSeparatesIff(allowed: Path -> bool)
    requires forall p :: allowed(p) ==> p != [] && NamesOk(p)
    ensures DigestSeparates(allowed) <==> NamesSeparate(allowed)
  {
    if NamesSeparate(allowed) {
      forall a, data, b, data' | SourcesIn(allowed, a, data) && SourcesIn(allowed, b, data')
                                 && Encode(Contents(a, data)) == Encode(Contents(b, data'))
        ensures a == b && forall i :: 0 <= i < |a| ==> data(a[i]) == data'(a[i])
      {
        SameBytesIff(a, data, b, data');
        assert forall i :: 0 <= i < |a| ==> a[i] == b[i];
      }
    } else {
      var p, q :| allowed(p) && allowed(q) && HashedName(p) == HashedName(q) && p != q;
      OneFileCollides(allowed, p, q);
    }
  }

  lemma OneFileCollides(allowed: Path -> bool, p: Path, q: Path)
    requires allowed(p) && allowed(q) && p != [] && q != [] && NamesOk(p) && NamesOk(q)
    requires HashedName(p) == HashedName(q) && p != q
    ensures !DigestSeparates(allowed)
  {
    var data: Path -> Bytes := x => [];
    SameBytesIff([p], data, [q], data);
    assert SourcesIn(allowed, [p], data) && SourcesIn(allowed, [q], data);
    assert [p][0] != [q][0];
  }

  /** With well-formed names: the same bytes exactly for the same source files with the same contents. */
  lemma DigestInputDeterminesSources(a: seq<Path>, which: Path -> bool, data: Path -> Bytes,
                                     b: seq<Path>, which': Path -> bool, data': Path -> Bytes)
    requires Listing(a, which) && Listing(b, which')
    requires forall p :: which(p) ==> p != [] && NamesOk(p) && WellFormed(PathBytes(p)) && |data(p)| < Pow256(8)
    requires forall p :: which'(p) ==> p != [] && NamesOk(p) && WellFormed(PathBytes(p)) && |data'(p)| < Pow256(8)
    ensures Encode(Contents(a, data)) == Encode(Contents(b, data'))
            <==> (forall p :: which(p) <==> which'(p)) && (forall p :: which(p) ==> data(p) == data'(p))
  {
    SameBytesIff(a, data, b, data');
    if Agree(a, data, b, data') {
      forall i | 0 <= i < |a| ensures a[i] == b[i] { TextNamesDiffer(a[i], b[i]); }
      assert a == b;
    }
    if (forall p :: which(p) <==> which'(p)) && (forall p :: which(p) ==> data(p) == data'(p)) {
      ListingIsUnique(a, b, which);
    }
  }

  // ----- the Go tree

  function Ascii(s: string): Bytes { seq(|s|, i requires 0 <= i < |s| => s[i] as int) }

  predicate HasSuffix(name: Bytes, suffix: Bytes) {
    |suffix| <= |name| && name[|name| - |suffix|..] == suffix
  }

  /** The names of files that are hashed for the Go frontend; a name that is not text is refused. */
  predicate IsGoName(name: Bytes) {
    && WellFormed(name)
    && (name == Ascii("go.mod") || name == Ascii("go.sum")
        || (HasSuffix(name, Ascii(".go")) && !HasSuffix(name, Ascii("_test.go"))))
  }

  predicate IsGoSource(p: Path) { p != [] && NamesOk(p) && IsGoName(p[|p| - 1]) }

  /** A Go file in a directory named by one byte. */
  function MainIn(b: int): Path { [[b], Ascii("main.go")] }

  lemma {:induction false} AsciiIsText(s: Bytes)
    requires forall i :: 0 <= i < |s| ==> 0 <= s[i] <= 0x7F
    ensures WellFormed(s)
  {
    if s != [] {
      assert Span(s) == 1;
      AsciiIsText(s[1..]);
    }
  }

  lemma MainIsGoName(name: Bytes)
    requires name == Ascii("main.go")
    ensures IsGoName(name) && name != [] && SLASH !in name && 0 !in name
  {
    AsciiIsText(name);
    assert name[|name| - 3..] == Ascii(".go");
  }

  lemma MainIsGoSource(b: int, name: Bytes)
    requires b != 0 && b != SLASH && name == Ascii("main.go")
    ensures IsGoSource(MainIn(b))
  {
    MainIsGoName(name);
    assert MainIn(b) == [[b], name];
  }

  lemma MainIsHashedAs(b: int)
    requires Width(b) == 0
    ensures HashedName(MainIn(b)) == REPLACEMENT + Lossy([SLASH] + Ascii("main.go"))
  {
    var p := MainIn(b);
    assert PathBytes(p[1..]) == Ascii("main.go");
    assert PathBytes(p) == [b] + ([SLASH] + Ascii("main.go"));
    StrayByte(b, [SLASH] + Ascii("main.go"));
  }

  /**
   The same Go file in directories named by two stray bytes: the build cannot see that one directory was renamed
   to the other, so over the files it hashes the digest does not tell all trees apart.
   */
  lemma StrayNamesCollide(data: Path -> Bytes)
    requires data(MainIn(0xFF)) == data(MainIn(0xFE)) && |data(MainIn(0xFF))| < Pow256(8)
    ensures IsGoSource(MainIn(0xFF)) && IsGoSource(MainIn(0xFE)) && MainIn(0xFF) != MainIn(0xFE)
    ensures Encode(Contents([MainIn(0xFF)], data)) == Encode(Contents([MainIn(0xFE)], data))
    ensures !DigestSeparates(IsGoSource)
  {
    MainIsGoSource(0xFF, Ascii("main.go"));
    MainIsGoSource(0xFE, Ascii("main.go"));
    MainIsHashedAs(0xFF);
    MainIsHashedAs(0xFE);
    assert MainIn(0xFF)[0][0] != MainIn(0xFE)[0][0];
    GoFilesCollide(MainIn(0xFF), MainIn(0xFE), data);
  }

  lemma GoFilesCollide(p: Path, q: Path, data: Path -> Bytes)
    requires IsGoSource(p) && IsGoSource(q) && p != q && HashedName(p) == HashedName(q)
    requires data(p) == data(q) && |data(p)| < Pow256(8)
    ensures Encode(Contents([p], data)) == Encode(Contents([q], data)) && !DigestSeparates(IsGoSource)
  {
    SameBytesIff([p], data, [q], data);
    OneFileCollides(IsGoSource, p, q);
  }

  /** Which files are hashed: module files and Go sources, but no tests. */
  lemma GoNameIff(name: Bytes)
    ensures IsGoName(name) <==>
            && WellFormed(name)
            && (name == Ascii("go.mod") || name == Ascii("go.sum")
                || ((exists stem :: name == stem + Ascii(".go")) && !exists stem :: name == stem + Ascii("_test.go")))
  {
    SuffixIff(name, Ascii(".go"));
    SuffixIff(name, Ascii("_test.go"));
  }

  lemma SuffixIff(name: Bytes, suffix: Bytes)
    ensures HasSuffix(name, suffix) <==> exists stem :: name == stem + suffix
  {
    if HasSuffix(name, suffix) {
      assert name == name[..|name| - |suffix|] + suffix;
    }
    if stem :| name == stem + suffix {
      assert name[|name| - |suffix|..] == suffix;
    }
  }
}
