/**
 `shatter init` on the file itself, the entries it writes, and the walk by which
 `shatter doctor` finds the files it reads (shatter-cli/src/generated_paths.rs).
 */
module GitignoreSync {
  import opened Text
  import opened ManagedBlock
  import opened Coverage

  datatype Outcome = Created | Updated | AlreadyCurrent

  datatype File = Missing | Present(text: string)

  /** The file after a sync. A missing file behaves like an empty one. */
  function Synced(f: File, entries: seq<string>): File {
    if entries == [] then f
    else Present(ReplaceOrAppend(if f.Missing? then "" else f.text, RenderBlock(entries)))
  }

  function OutcomeOf(f: File, entries: seq<string>): Outcome {
    if entries == [] then AlreadyCurrent
    else if f.Missing? then Created
    else if Synced(f, entries) == f then AlreadyCurrent
    else Updated
  }

  lemma WriteToEmpty(block: string)
    ensures ReplaceOrAppend("", block) == block + "\n"
  {
    assert "" + Separator("") + block + "\n" == block + "\n";
  }

  class Gitignore {
    var file: File

    constructor (f: File)
      ensures file == f
    {
      file := f;
    }

    method Sync(entries: seq<string>) returns (outcome: Outcome)
      modifies this
      ensures file == Synced(old(file), entries)
      ensures outcome == OutcomeOf(old(file), entries)
    {
      if entries == [] {
        return AlreadyCurrent;
      }
      var block := BuildBlock(entries);
      match file {
        case Missing =>
          file := Present(block + "\n");
          outcome := Created;
          WriteToEmpty(block);
        case Present(existing) =>
          var updated := ReplaceOrAppend(existing, block);
          if updated == existing {
            outcome := AlreadyCurrent;
          } else {
            file := Present(updated);
            outcome := Updated;
          }
      }
    }
  }

  /** A later sync leaves the same file as if the earlier one had not happened. */
  lemma LastSyncWins(f: File, entries: seq<string>, later: seq<string>)
    requires entries != [] && later != [] && EndFree(entries)
    ensures Synced(Synced(f, entries), later) == Synced(f, later)
            <==> (f.Missing? || WellPlaced(f.text))
  {
    LastWriteWinsIffWellPlaced(if f.Missing? then "" else f.text, entries, RenderBlock(later));
  }

  /** Re-running a sync reports no change exactly when the markers were absent or well placed. */
  lemma ResyncIsCurrentIff(f: File, entries: seq<string>)
    requires entries != [] && EndFree(entries)
    ensures OutcomeOf(Synced(f, entries), entries) == AlreadyCurrent
            <==> (f.Missing? || WellPlaced(f.text))
  {
    LastSyncWins(f, entries, entries);
  }

  /** Misplaced markers make a sync report `Updated` for ever: a closing marker alone suffices. */
  lemma ResyncGrowsWithoutOpeningMarker(f: File, entries: seq<string>)
    requires f.Present? && Find(f.text, BEGIN) < 0 && Find(f.text, END) >= 0 && entries != []
    ensures OutcomeOf(Synced(f, entries), entries) == Updated
    ensures |Synced(Synced(f, entries), entries).text| > |Synced(f, entries).text|
  {
    OnlyEndGrows(f.text, entries, RenderBlock(entries));
  }

  // ----- entries

  function Slashes(s: string): (r: string)
    ensures |r| == |s|
    ensures forall i :: 0 <= i < |s| ==> r[i] == if s[i] == '\\' then '/' else s[i]
  {
    seq(|s|, i requires 0 <= i < |s| => if s[i] == '\\' then '/' else s[i])
  }

  /** A relative path as an entry body; nothing for an absolute or empty one. */
  function NormalizeRelative(path: string): seq<string> {
    if path != "" && path[0] == '/' then []
    else if TrimSlashes(Slashes(path)) == "" then []
    else [TrimSlashes(Slashes(path))]
  }

  function DirEntry(path: string): seq<string> {
    if NormalizeRelative(path) == [] then [] else [NormalizeRelative(path)[0] + "/"]
  }

  lemma WithSlashCertifiableIff(n: string)
    requires n != "" && n[|n| - 1] != '/'
    ensures Certifiable(n + "/") <==> !White(n[0]) && n[0] != '#' && n[0] != '!'
  {
    var e := n + "/";
    assert e[0] == n[0] && e[|e| - 1] == '/' && !White('/');
    if !White(e[0]) {
      assert e == "" + e + "";
      TrimIs(e, "", e, "", White);
      TrimEndIs(e, n, "/", IsSlash);
    }
  }

  /** The first character decides whether a configured directory is one `doctor` can recognise. */
  lemma DirEntryCertifiableIff(path: string)
    requires DirEntry(path) != []
    ensures Certifiable(DirEntry(path)[0])
            <==> !White(path[0]) && path[0] != '#' && path[0] != '!'
  {
    var s := Slashes(path);
    var slashes := TrimEndParts(s, IsSlash);
    WithSlashCertifiableIff(TrimSlashes(s));
    assert TrimSlashes(s)[0] == s[0];
  }

  // ----- the walk to the repository root

  /** Path components joined with slashes. */
  function Path(parts: seq<string>): string { JoinWith(parts, "/") }

  /** The files read for directories 0..n levels above `project`, nearest first. */
  function AncestorFiles(project: seq<string>, n: nat, files: map<seq<string>, string>): seq<Ancestor>
    requires n <= |project|
  {
    var here := project[..|project| - n];
    (if n == 0 then [] else AncestorFiles(project, n - 1, files))
    + if here in files then [Ancestor(Path(project[|project| - n..]), files[here])] else []
  }

  /** The walk keeps a prefix string and puts one directory name in front of it per level. */
  method CollectGitignores(project: seq<string>, depth: nat, files: map<seq<string>, string>)
    returns (result: seq<Ancestor>)
    requires depth <= |project|
    requires forall i :: 0 <= i < |project| ==> project[i] != ""
    ensures result == AncestorFiles(project, depth, files)
  {
    result := [];
    var prefix := "";
    var i := 0;
    while i <= depth
      invariant 0 <= i <= depth + 1
      invariant i > 0 ==> result == AncestorFiles(project, i - 1, files)
      invariant i > 0 ==> prefix == Path(project[|project| - (i - 1)..])
      invariant i == 0 ==> result == [] && prefix == ""
    {
      if i > 0 {
        var component := project[|project| - i];
        ghost var below := project[|project| - (i - 1)..];
        assert project[|project| - i..] == [component] + below;
        PathIsEmptyIff(below);
        prefix := if prefix == "" then component else component + "/" + prefix;
      }
      var dir := project[..|project| - i];
      if dir in files {
        result := result + [Ancestor(prefix, files[dir])];
      }
      i := i + 1;
    }
  }

  lemma PathIsEmptyIff(parts: seq<string>)
    requires forall i :: 0 <= i < |parts| ==> parts[i] != ""
    ensures Path(parts) == "" <==> parts == []
  {}

  /** A file above the project covers an entry exactly as it covers the entry's path from there. */
  lemma AncestorSeesFullPath(contents: string, prefix: string, entry: string)
    requires prefix != "" && TrimSlashes(entry) != ""
    ensures FileCovers(contents, prefix, entry) <==> FileCovers(contents, "", prefix + "/" + entry)
  {
    var slashes := TrimEndParts(entry, IsSlash);
    var full := prefix + "/" + TrimSlashes(entry);
    TrimEndIs(prefix + "/" + entry, full, slashes, IsSlash) by {
      assert prefix + "/" + entry == full + slashes;
    }
    assert FullTarget("", prefix + "/" + entry) == FullTarget(prefix, entry);
  }

  /** What a sync reports: "current" exactly when it leaves the file as it was, "created" exactly for a new file. */
  lemma OutcomeIs(f: File, entries: seq<string>)
    ensures OutcomeOf(f, entries) == AlreadyCurrent <==> Synced(f, entries) == f
    ensures OutcomeOf(f, entries) == Created <==> f.Missing? && Synced(f, entries).Present?
    ensures OutcomeOf(f, entries) == Updated <==> f.Present? && Synced(f, entries) != f
  {
  }

  /** The file of the directory `k` levels above the project, as it is read. */
  ghost predicate FileAbove(project: seq<string>, k: nat, files: map<seq<string>, string>, a: Ancestor) {
    && k <= |project| && project[..|project| - k] in files
    && a.contents == files[project[..|project| - k]] && a.prefix == Path(project[|project| - k..])
  }

  /** The file of one level, if there is one. */
  function OwnFile(project: seq<string>, n: nat, files: map<seq<string>, string>): seq<Ancestor>
    requires n <= |project|
  {
    var here := project[..|project| - n];
    if here in files then [Ancestor(Path(project[|project| - n..]), files[here])] else []
  }

  lemma OwnFileIs(project: seq<string>, n: nat, files: map<seq<string>, string>, a: Ancestor)
    requires n <= |project|
    ensures a in OwnFile(project, n, files) <==> FileAbove(project, n, files, a)
  {
  }

  lemma FilesByLevel(project: seq<string>, n: nat, files: map<seq<string>, string>)
    requires n <= |project|
    ensures AncestorFiles(project, n, files)
            == (if n == 0 then [] else AncestorFiles(project, n - 1, files)) + OwnFile(project, n, files)
  {
  }

  /** Read are exactly the files of the directories from the project up, each with its way down. */
  lemma {:induction false} AncestorFilesAre(project: seq<string>, n: nat, files: map<seq<string>, string>, a: Ancestor)
    requires n <= |project|
    ensures a in AncestorFiles(project, n, files) <==> exists k: nat :: k <= n && FileAbove(project, k, files, a)
  {
    FilesByLevel(project, n, files);
    OwnFileIs(project, n, files, a);
    if n > 0 {
      AncestorFilesAre(project, n - 1, files, a);
    }
    OneLevelMore(n, (k: nat) => FileAbove(project, k, files, a));
  }

  lemma OneLevelMore(n: nat, p: nat -> bool)
    ensures (exists k: nat :: k <= n && p(k)) <==> p(n) || exists k: nat :: k < n && p(k)
  {
  }

  lemma SegmentsCons(a: string, rest: string)
    requires '/' !in a
    ensures Segments(a + "/" + rest) == [a] + Segments(rest)
  {
    var s := a + "/" + rest;
    assert s == a + ("/" + rest);
    IndexOfAppend(a, "/" + rest, '/');
    assert s[..|a|] == a && s[|a| + 1..] == rest;
  }

  /** The prefix names the directories on the way down, one component each. */
  lemma {:induction false} PathSegments(parts: seq<string>)
    requires parts != [] && forall i :: 0 <= i < |parts| ==> '/' !in parts[i]
    ensures Segments(Path(parts)) == parts
  {
    if |parts| > 1 {
      PathSegments(parts[1..]);
      SegmentsCons(parts[0], Path(parts[1..]));
    } else {
      OneSegment(parts[0]);
    }
  }
}
