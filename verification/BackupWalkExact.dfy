/**
 Which files the walk finds: exactly those the patterns accept, that can be read, and that the filter of hidden
 names lets through.
 */
module BackupWalkExact {
  import opened BackupPaths
  import opened BackupWalk

  /** Hidden names are kept, or every hidden directory on the way to the file, and the file itself if it is
      hidden, is named explicitly. */
  ghost predicate Shown(c: Config, root: string, names: seq<string>, file: string) {
    || c.includeHidden
    || (&& (forall i :: 0 <= i < |names| && names[i] != "" && names[i][0] == '.' ==>
              LStrip(PathOf(root, names[..i], names[i])) in c.explicitPatterns)
        && (file != "" && file[0] == '.' ==> LStrip(PathOf(root, names, file)) in c.explicitPatterns))
  }

  ghost predicate Finds(c: Config, root: string, d: Dir, names: seq<string>, file: string) {
    var path := PathOf(root, names, file);
    FileAt(d, names, file) && c.spec(LStrip(path)) && c.readable(path) && Shown(c, root, names, file)
  }

  lemma ShownBelow(c: Config, root: string, names: seq<string>, file: string)
    requires names != []
    ensures Shown(c, root, names, file) <==> KeepsDir(c, root, names[0]) && Shown(c, Join(root, names[0]), names[1..], file)
  {
    var here, below := Join(root, names[0]), names[1..];
    assert PathOf(root, names[..0], names[0]) == here;
    forall i | 0 < i < |names| ensures PathOf(root, names[..i], names[i]) == PathOf(here, below[..i - 1], below[i - 1]) {
      assert names[..i][1..] == below[..i - 1];
    }
    if KeepsDir(c, root, names[0]) && Shown(c, here, below, file) && !c.includeHidden {
      forall i | 0 <= i < |names| && names[i] != "" && names[i][0] == '.'
        ensures LStrip(PathOf(root, names[..i], names[i])) in c.explicitPatterns
      {
        if i > 0 { assert below[i - 1] == names[i]; }
      }
    }
    if Shown(c, root, names, file) && !c.includeHidden {
      forall i | 0 <= i < |below| && below[i] != "" && below[i][0] == '.'
        ensures LStrip(PathOf(here, below[..i], below[i])) in c.explicitPatterns
      {
        assert names[i + 1] == below[i];
      }
    }
  }

  lemma {:induction false} FileFound(c: Config, root: string, files: seq<string>, path: string) returns (file: string)
    requires path in FileMatches(c, root, files)
    ensures file in files && path == Join(root, file) && MatchesFile(c, root, file)
  {
    if MatchesFile(c, root, files[0]) && path == Join(root, files[0]) {
      file := files[0];
    } else {
      file := FileFound(c, root, files[1..], path);
    }
  }

  lemma FileShown(c: Config, root: string, file: string)
    ensures MatchesFile(c, root, file) <==>
      c.spec(LStrip(Join(root, file))) && c.readable(Join(root, file)) && Shown(c, root, [], file)
  {
  }

  /** Whatever the walk finds lies in the tree and passes. */
  lemma {:induction false} FoundPasses(c: Config, root: string, d: Dir, path: string) returns (names: seq<string>, file: string)
    requires path in DirMatches(c, root, d)
    ensures path == PathOf(root, names, file) && Finds(c, root, d, names, file)
    decreases d
  {
    hide Shown, MatchesFile, LStrip;
    if path in FileMatches(c, root, d.files) {
      names := [];
      file := FileFound(c, root, d.files, path);
      FileShown(c, root, file);
    } else {
      var i;
      i, names, file := SubPasses(c, root, d.subdirs, path);
    }
  }

  lemma {:induction false} SubPasses(c: Config, root: string, subs: seq<Sub>, path: string)
    returns (i: nat, names: seq<string>, file: string)
    requires path in SubMatches(c, root, subs)
    ensures i < |subs| && names != [] && names[0] == subs[i].name && FileAt(subs[i].dir, names[1..], file)
    ensures path == PathOf(root, names, file) && c.spec(LStrip(path)) && c.readable(path) && Shown(c, root, names, file)
    decreases subs
  {
    hide Shown, KeepsDir, LStrip;
    var here := Join(root, subs[0].name);
    if KeepsDir(c, root, subs[0].name) && path in DirMatches(c, here, subs[0].dir) {
      var below;
      below, file := FoundPasses(c, here, subs[0].dir, path);
      i, names := 0, [subs[0].name] + below;
      assert names[1..] == below;
      ShownBelow(c, root, names, file);
    } else {
      i, names, file := SubPasses(c, root, subs[1..], path);
      i := i + 1;
    }
  }

  /** Whatever lies in the tree and passes is found. */
  lemma {:induction false} PassesFound(c: Config, root: string, d: Dir, names: seq<string>, file: string)
    requires Finds(c, root, d, names, file)
    ensures PathOf(root, names, file) in DirMatches(c, root, d)
    decreases |names|
  {
    hide Shown, KeepsDir, LStrip, MatchesFile, SubMatches, FileMatches;
    if names == [] {
      FileShown(c, root, file);
      FileIsMatched(c, root, d.files, file);
    } else {
      var i :| 0 <= i < |d.subdirs| && d.subdirs[i].name == names[0] && FileAt(d.subdirs[i].dir, names[1..], file);
      ShownBelow(c, root, names, file);
      PassesFound(c, Join(root, names[0]), d.subdirs[i].dir, names[1..], file);
      SubIsMatched(c, root, d.subdirs, i, PathOf(root, names, file));
    }
  }

  /** For every tree: a path is found if and only if it is that of a file of the tree which the patterns accept,
      which can be read, and of which, unless hidden names are included, every hidden directory on the way and
      the file itself, if hidden, is named explicitly. */
  lemma FoundExactly(c: Config, root: string, d: Dir, path: string)
    ensures path in DirMatches(c, root, d) <==>
      exists names, file ::
        && FileAt(d, names, file) && path == PathOf(root, names, file)
        && c.spec(LStrip(path)) && c.readable(path) && Shown(c, root, names, file)
  {
    hide Shown, DirMatches, LStrip, PathOf, FileAt;
    if path in DirMatches(c, root, d) {
      var names, file := FoundPasses(c, root, d, path);
    }
    if names, file :| path == PathOf(root, names, file) && Finds(c, root, d, names, file) {
      PassesFound(c, root, d, names, file);
    }
  }
}
