/**
 A whole round: walk a tree, archive what the patterns match, restore it elsewhere.
 */
module BackupRoundTrip {
  import opened BackupPaths
  import opened BackupRestoreSpec
  import opened BackupService
  import opened BackupTheorems
  import opened BackupWalk

  // ---------- A directory tree ----------

  predicate IsName(name: string) {
    name != "" && '/' !in name
  }

  predicate NoRepeats(xs: seq<string>) {
    forall i, j :: 0 <= i < j < |xs| ==> xs[i] != xs[j]
  }

  /** Names are not empty and hold no slash, and no two files or directories of a directory share one. */
  predicate WfDir(d: Dir)
    decreases d
  {
    && (forall f :: f in d.files ==> IsName(f))
    && NoRepeats(d.files)
    && (forall i :: 0 <= i < |d.subdirs| ==> d.subdirs[i].name !in d.files)
    && WfSubs(d.subdirs)
  }

  predicate WfSubs(subs: seq<Sub>)
    decreases subs
  {
    subs == [] || (
      && IsName(subs[0].name) && WfDir(subs[0].dir) && WfSubs(subs[1..])
      && forall i :: 1 <= i < |subs| ==> subs[i].name != subs[0].name)
  }

  // ---------- The matches, relative to the root ----------

  /** The names of the files that match. */
  function FileRels(c: Config, root: string, files: seq<string>): (rs: seq<string>)
    ensures forall r :: r in rs ==> r in files
  {
    if files == [] then []
    else if MatchesFile(c, root, files[0]) then [files[0]] + FileRels(c, root, files[1..])
    else FileRels(c, root, files[1..])
  }

  function Within(name: string, rs: seq<string>): (r: seq<string>)
    ensures |r| == |rs| && forall i :: 0 <= i < |rs| ==> r[i] == name + "/" + rs[i]
  {
    seq(|rs|, i requires 0 <= i < |rs| => name + "/" + rs[i])
  }

  /** The relative paths of all matches, in walk order. */
  function DirRels(c: Config, root: string, d: Dir): seq<string>
    decreases d
  {
    FileRels(c, root, d.files) + SubRels(c, root, d.subdirs)
  }

  function SubRels(c: Config, root: string, subs: seq<Sub>): seq<string>
    decreases subs
  {
    if subs == [] then []
    else if KeepsDir(c, root, subs[0].name) then
      Within(subs[0].name, DirRels(c, Join(root, subs[0].name), subs[0].dir)) + SubRels(c, root, subs[1..])
    else SubRels(c, root, subs[1..])
  }

  function Joined(root: string, rs: seq<string>): (ps: seq<string>)
    ensures |ps| == |rs| && forall i :: 0 <= i < |ps| ==> ps[i] == Join(root, rs[i])
  {
    seq(|rs|, i requires 0 <= i < |rs| => Join(root, rs[i]))
  }

  lemma JoinWithin(root: string, name: string, rs: seq<string>)
    requires IsName(name)
    ensures Joined(Join(root, name), rs) == Joined(root, Within(name, rs))
  {
    var p := Join(root, name);
    assert p[|p| - 1] == name[|name| - 1];
    forall i | 0 <= i < |rs| ensures Join(p, rs[i]) == Join(root, name + "/" + rs[i]) {
      assert root + name + "/" + rs[i] == root + (name + "/" + rs[i]);
      assert root + "/" + name + "/" + rs[i] == root + "/" + (name + "/" + rs[i]);
    }
  }

  lemma {:induction false} FilesJoined(c: Config, root: string, files: seq<string>)
    ensures FileMatches(c, root, files) == Joined(root, FileRels(c, root, files))
  {
    if files != [] { FilesJoined(c, root, files[1..]); }
  }

  /** The walk finds the relative paths, each joined to the root. */
  lemma {:induction false} DirJoined(c: Config, root: string, d: Dir)
    requires WfDir(d)
    ensures DirMatches(c, root, d) == Joined(root, DirRels(c, root, d))
    decreases d
  {
    FilesJoined(c, root, d.files);
    SubsJoined(c, root, d.subdirs);
  }

  lemma {:induction false} SubsJoined(c: Config, root: string, subs: seq<Sub>)
    requires WfSubs(subs)
    ensures SubMatches(c, root, subs) == Joined(root, SubRels(c, root, subs))
    decreases subs
  {
    if subs != [] {
      var sub := subs[0];
      SubsJoined(c, root, subs[1..]);
      if KeepsDir(c, root, sub.name) {
        DirJoined(c, Join(root, sub.name), sub.dir);
        JoinWithin(root, sub.name, DirRels(c, Join(root, sub.name), sub.dir));
      }
    }
  }

  // ---------- No two matches share a path ----------

  /** A relative path is a name, or a name and a path in that directory. */
  predicate StartsIn(r: string, name: string) {
    name + "/" <= r
  }

  predicate StartsInSome(r: string, subs: seq<Sub>) {
    subs != [] && (StartsIn(r, subs[0].name) || StartsInSome(r, subs[1..]))
  }

  /** The directory a path starts in is one of them. */
  lemma {:induction false} SomeSub(r: string, subs: seq<Sub>) returns (i: nat)
    requires StartsInSome(r, subs)
    ensures i < |subs| && StartsIn(r, subs[i].name)
  {
    if StartsIn(r, subs[0].name) {
      i := 0;
    } else {
      i := SomeSub(r, subs[1..]);
      i := i + 1;
    }
  }

  lemma LongerHasSlash(r: string, x: string, y: string)
    requires StartsIn(r, x) && StartsIn(r, y) && |x| < |y|
    ensures '/' in y
  {
    assert y[|x|] == r[|x|] == '/';
  }

  lemma OneStart(r: string, x: string, y: string)
    requires IsName(x) && IsName(y) && StartsIn(r, x) && StartsIn(r, y)
    ensures x == y
  {
    if |x| < |y| {
      LongerHasSlash(r, x, y);
    } else if |y| < |x| {
      LongerHasSlash(r, y, x);
    } else {
      assert x == r[..|x|] == y;
    }
  }

  lemma NoStart(r: string, name: string)
    requires IsName(r)
    ensures !StartsIn(r, name)
  {
    if StartsIn(r, name) { HasSlash(r, name); }
  }

  lemma HasSlash(r: string, name: string)
    requires StartsIn(r, name)
    ensures '/' in r
  {
    assert r[|name|] == '/';
  }

  lemma BothRelative(xs: seq<string>, ys: seq<string>)
    requires Relatives(xs) && Relatives(ys) && forall i, j :: 0 <= i < |xs| && 0 <= j < |ys| ==> xs[i] != ys[j]
    ensures Relatives(xs + ys)
  {
    hide IsRelative;
  }

  lemma NoRepeatsCons(x: string, xs: seq<string>)
    requires NoRepeats(xs) && x !in xs
    ensures NoRepeats([x] + xs)
  {
  }

  lemma {:induction false} FileRelsDistinct(c: Config, root: string, files: seq<string>)
    requires NoRepeats(files)
    ensures NoRepeats(FileRels(c, root, files))
  {
    if files != [] {
      FileRelsDistinct(c, root, files[1..]);
      NoRepeatsCons(files[0], FileRels(c, root, files[1..]));
    }
  }

  lemma {:induction false} DirRelsDistinct(c: Config, root: string, d: Dir)
    requires WfDir(d)
    ensures Relatives(DirRels(c, root, d))
    decreases d
  {
    hide StartsIn, IsName;
    var fs, ss := FileRels(c, root, d.files), SubRels(c, root, d.subdirs);
    FileRelsDistinct(c, root, d.files);
    SubRelsDistinct(c, root, d.subdirs);
    forall i | 0 <= i < |fs| ensures IsRelative(fs[i]) {
      assert fs[i] in d.files;
      NameRelative(fs[i]);
    }
    forall i, j | 0 <= i < |fs| && 0 <= j < |ss| ensures fs[i] != ss[j] {
      assert fs[i] in d.files;
      assert ss[j] in ss;
      var n := SomeSub(ss[j], d.subdirs);
      NoStart(fs[i], d.subdirs[n].name);
    }
    assert NoRepeats(fs);
    BothRelative(fs, ss);
  }

  lemma NameRelative(name: string)
    requires IsName(name)
    ensures IsRelative(name) && forall r :: IsRelative(name + "/" + r)
  {
    assert name[0] in name;
  }

  /** All below one of the directories, and none twice. */
  lemma {:induction false} SubRelsDistinct(c: Config, root: string, subs: seq<Sub>)
    requires WfSubs(subs)
    ensures Relatives(SubRels(c, root, subs))
    ensures forall r :: r in SubRels(c, root, subs) ==> StartsInSome(r, subs)
    decreases subs
  {
    if subs != [] {
      var name, rest := subs[0].name, SubRels(c, root, subs[1..]);
      SubRelsDistinct(c, root, subs[1..]);
      if KeepsDir(c, root, name) {
        var inner := DirRels(c, Join(root, name), subs[0].dir);
        DirRelsDistinct(c, Join(root, name), subs[0].dir);
        WithinDistinct(name, inner);
        SubNames(subs);
        Append(subs, Within(name, inner), rest);
        assert SubRels(c, root, subs) == Within(name, inner) + rest;
      }
    }
  }

  lemma {:induction false} SubNames(subs: seq<Sub>)
    requires WfSubs(subs)
    ensures forall i :: 0 <= i < |subs| ==> IsName(subs[i].name)
  {
    if subs != [] {
      SubNames(subs[1..]);
      forall i | 0 <= i < |subs| ensures IsName(subs[i].name) {
        if i > 0 { assert subs[i] == subs[1..][i - 1]; }
      }
    }
  }

  lemma WithinDistinct(name: string, rs: seq<string>)
    requires IsName(name) && Relatives(rs)
    ensures Relatives(Within(name, rs)) && forall r :: r in Within(name, rs) ==> StartsIn(r, name)
  {
    var ws := Within(name, rs);
    NameRelative(name);
    forall i, j | 0 <= i < j < |ws| ensures ws[i] != ws[j] {
      assert ws[i][|name| + 1..] == rs[i] && ws[j][|name| + 1..] == rs[j];
    }
  }

  lemma Append(subs: seq<Sub>, ws: seq<string>, rest: seq<string>)
    requires subs != [] && (forall i :: 0 <= i < |subs| ==> IsName(subs[i].name))
    requires forall i :: 1 <= i < |subs| ==> subs[i].name != subs[0].name
    requires Relatives(ws) && (forall r :: r in ws ==> StartsIn(r, subs[0].name))
    requires Relatives(rest) && forall r :: r in rest ==> StartsInSome(r, subs[1..])
    ensures Relatives(ws + rest) && forall r :: r in ws + rest ==> StartsInSome(r, subs)
  {
    hide StartsIn, IsName, IsRelative;
    forall i, j | 0 <= i < |ws| && 0 <= j < |rest| ensures ws[i] != rest[j] {
      assert ws[i] in ws && rest[j] in rest;
      var n := SomeSub(rest[j], subs[1..]);
      assert subs[1..][n] == subs[n + 1];
      if ws[i] == rest[j] { OneStart(ws[i], subs[0].name, subs[n + 1].name); }
    }
    BothRelative(ws, rest);
  }

  // ---------- The whole round ----------

  /** The root as the source has it: an absolute path, with or without a slash at its end. */
  predicate IsBase(root: string) {
    IsRoot(root) && RStrip(root) != "" && (root == RStrip(root) || root == RStrip(root) + "/")
  }

  /** What the walk finds are different relative paths under the root; also if it stops early. */
  lemma WalkUnder(c: Config, root: string, tree: Dir, maxFiles: nat)
    requires IsBase(root) && WfDir(tree)
    ensures var (all, rs) := (DirMatches(c, root, tree), DirRels(c, root, tree));
      && all == AllUnder(root, rs) && Relatives(rs)
      && (|all| > maxFiles ==> all[..maxFiles] == AllUnder(root, rs[..maxFiles]) && Relatives(rs[..maxFiles]))
  {
    hide DirMatches, DirRels, RStrip, IsRelative;
    DirJoined(c, root, tree);
    DirRelsDistinct(c, root, tree);
    var rs := DirRels(c, root, tree);
    forall i | 0 <= i < |rs| ensures Join(root, rs[i]) == Under(root, rs[i]) {
      JoinUnder(root, rs[i]);
    }
  }

  lemma JoinUnder(root: string, r: string)
    requires IsBase(root)
    ensures Join(root, r) == Under(root, r)
  {
  }

  lemma {:induction false} FoundReadable(c: Config, root: string, files: seq<string>)
    ensures forall p :: p in FileMatches(c, root, files) ==> c.readable(p)
  {
    if files != [] { FoundReadable(c, root, files[1..]); }
  }

  lemma {:induction false} DirReadable(c: Config, root: string, d: Dir)
    ensures forall p :: p in DirMatches(c, root, d) ==> c.readable(p)
    decreases d
  {
    FoundReadable(c, root, d.files);
    SubsReadable(c, root, d.subdirs);
  }

  lemma {:induction false} SubsReadable(c: Config, root: string, subs: seq<Sub>)
    ensures forall p :: p in SubMatches(c, root, subs) ==> c.readable(p)
    decreases subs
  {
    if subs != [] {
      DirReadable(c, Join(root, subs[0].name), subs[0].dir);
      SubsReadable(c, root, subs[1..]);
    }
  }

  /** Walk a tree under `from`, archive what matches, restore it under `to` on another system, overwriting: each of
      the first `maxFiles` matched files is there at its relative path with its content, every other path is as it
      was, and without a match nothing happens. What can be read exists. */
  method BackUpAndRestore(here: FileSystem, there: FileSystem, c: Config, from: string, to: string, tree: Dir, maxFiles: nat, stamp: nat -> string)
    returns (r: Option<Report>, ghost rs: seq<string>)
    requires here != there && IsBase(from) && WfDir(tree) && forall p :: c.readable(p) ==> p in here.files
    modifies there
    ensures var all := DirRels(c, from, tree); rs == if |all| <= maxFiles then all else all[..maxFiles]
    ensures Holds(here.files, from, rs) && Relatives(rs)
    ensures Relocated(there.files, here.files, old(there.files), from, to, rs, |rs|)
    ensures r.None? <==> rs == []
    ensures r.Some? ==> |r.value.restored| == |rs| && r.value.skipped == [] && r.value.errors == []
  {
    hide DirMatches, DirRels, Relocated, Pack, Restore, IsBase, Relatives, WfDir;
    rs := DirRels(c, from, tree);
    WalkUnder(c, from, tree, maxFiles);
    DirReadable(c, from, tree);
    if |rs| > maxFiles { rs := rs[..maxFiles]; }
    var matched := TestPatterns(c, from, tree, maxFiles);
    assert matched == AllUnder(from, rs);
    AllHere(here.files, c, from, tree, matched, rs);
    var a := CreateBackup(here, matched, from);
    if a.None? {
      assert Relocated(there.files, here.files, there.files, from, to, [], 0) by {
        RelocatedNone(here.files, there.files, from, to, []);
      }
      return None, rs;
    }
    assert IsRoot(from) && RStrip(from) != "" by { BaseIsRoot(from); }
    BackupThenRestore(here.files, there.files, from, to, rs, stamp);
    assert (set p: string | p in []) == {};
    var report := RestoreBackup(there, a.value, Setting(to, None, Overwrite, stamp, {}), []);
    return Some(report), rs;
  }

  lemma BaseIsRoot(root: string)
    requires IsBase(root)
    ensures IsRoot(root) && RStrip(root) != ""
  {
  }

  lemma AllHere(files: Files, c: Config, root: string, tree: Dir, matched: seq<string>, rs: seq<string>)
    requires matched == AllUnder(root, rs) && (forall p :: c.readable(p) ==> p in files)
    requires (forall p :: p in DirMatches(c, root, tree) ==> c.readable(p)) && forall p :: p in matched ==> p in DirMatches(c, root, tree)
    ensures Holds(files, root, rs)
  {
    forall i | 0 <= i < |rs| ensures Under(root, rs[i]) in files {
      assert matched[i] == Under(root, rs[i]);
      assert matched[i] in DirMatches(c, root, tree);
    }
  }
}
