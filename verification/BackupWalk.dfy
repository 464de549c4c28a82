/**
 The filtered directory walk behind `test_patterns`: hidden files and directories are left out unless an
 include pattern names them, and the walk stops after `max_files` matches.
 */
module BackupWalk {
  import opened BackupPaths
  import opened Strings

  datatype Dir = Dir(files: seq<string>, subdirs: seq<Sub>)
  datatype Sub = Sub(name: string, dir: Dir)

  /** The pattern matcher and the accessibility of files are oracles. */
  datatype Config = Config(
    includeHidden: bool, explicitPatterns: set<string>, spec: string -> bool, readable: string -> bool)

  /** `os.path.join` with a relative second part. */
  function Join(root: string, name: string): string {
    if root == "" || root[|root| - 1] == '/' then root + name else root + "/" + name
  }

  predicate IsHidden(name: string) {
    name != "" && name[0] == '.'
  }

  predicate IsExplicit(c: Config, path: string) {
    LStrip(path) in c.explicitPatterns
  }

  predicate KeepsDir(c: Config, root: string, name: string) {
    c.includeHidden || !IsHidden(name) || IsExplicit(c, Join(root, name))
  }

  predicate MatchesFile(c: Config, root: string, file: string) {
    var path := Join(root, file);
    && (c.includeHidden || !IsHidden(file) || IsExplicit(c, path))
    && c.spec(LStrip(path))
    && c.readable(path)
  }

  // ---------- All matches, in walk order ----------

  function FileMatches(c: Config, root: string, files: seq<string>): seq<string> {
    if files == [] then []
    else if MatchesFile(c, root, files[0]) then [Join(root, files[0])] + FileMatches(c, root, files[1..])
    else FileMatches(c, root, files[1..])
  }

  function DirMatches(c: Config, root: string, d: Dir): seq<string>
    decreases d
  {
    FileMatches(c, root, d.files) + SubMatches(c, root, d.subdirs)
  }

  function SubMatches(c: Config, root: string, subs: seq<Sub>): seq<string>
    decreases subs
  {
    if subs == [] then []
    else if KeepsDir(c, root, subs[0].name) then
      DirMatches(c, Join(root, subs[0].name), subs[0].dir) + SubMatches(c, root, subs[1..])
    else SubMatches(c, root, subs[1..])
  }

  // ---------- The walk ----------

  datatype Pending = Pending(root: string, dir: Dir)

  function PendingMatches(c: Config, ps: seq<Pending>): seq<string> {
    if ps == [] then [] else DirMatches(c, ps[0].root, ps[0].dir) + PendingMatches(c, ps[1..])
  }

  function Kept(c: Config, root: string, subs: seq<Sub>): seq<Pending> {
    if subs == [] then []
    else if KeepsDir(c, root, subs[0].name) then
      [Pending(Join(root, subs[0].name), subs[0].dir)] + Kept(c, root, subs[1..])
    else Kept(c, root, subs[1..])
  }

  function Size(d: Dir): nat
    decreases d
  {
    1 + Sizes(d.subdirs)
  }

  function Sizes(subs: seq<Sub>): nat
    decreases subs
  {
    if subs == [] then 0 else Size(subs[0].dir) + Sizes(subs[1..])
  }

  function Weight(ps: seq<Pending>): nat {
    if ps == [] then 0 else Size(ps[0].dir) + Weight(ps[1..])
  }

  lemma PendingCons(c: Config, p: Pending, ps: seq<Pending>)
    ensures PendingMatches(c, [p] + ps) == DirMatches(c, p.root, p.dir) + PendingMatches(c, ps)
    ensures Weight([p] + ps) == Size(p.dir) + Weight(ps)
  {
    assert ([p] + ps)[1..] == ps;
  }

  lemma KeptFirst(c: Config, root: string, subs: seq<Sub>, ps: seq<Pending>)
    ensures PendingMatches(c, Kept(c, root, subs) + ps) == SubMatches(c, root, subs) + PendingMatches(c, ps)
    ensures Weight(Kept(c, root, subs) + ps) <= Sizes(subs) + Weight(ps)
  {
    KeptMatches(c, root, subs, ps);
    KeptWeight(c, root, subs, ps);
  }

  lemma {:induction false} KeptMatches(c: Config, root: string, subs: seq<Sub>, ps: seq<Pending>)
    ensures PendingMatches(c, Kept(c, root, subs) + ps) == SubMatches(c, root, subs) + PendingMatches(c, ps)
  {
    if subs == [] {
      assert Kept(c, root, subs) + ps == ps;
    } else {
      KeptMatches(c, root, subs[1..], ps);
      hide DirMatches, PendingMatches, KeepsDir;
      var more := Kept(c, root, subs[1..]) + ps;
      if KeepsDir(c, root, subs[0].name) {
        var p := Pending(Join(root, subs[0].name), subs[0].dir);
        assert Kept(c, root, subs) + ps == [p] + more;
        PendingCons(c, p, more);
        Assoc(DirMatches(c, p.root, p.dir), SubMatches(c, root, subs[1..]), PendingMatches(c, ps));
      }
    }
  }

  lemma {:induction false} KeptWeight(c: Config, root: string, subs: seq<Sub>, ps: seq<Pending>)
    ensures Weight(Kept(c, root, subs) + ps) <= Sizes(subs) + Weight(ps)
  {
    if subs == [] {
      assert Kept(c, root, subs) + ps == ps;
    } else {
      KeptWeight(c, root, subs[1..], ps);
      hide Size, Weight, KeepsDir;
      var more := Kept(c, root, subs[1..]) + ps;
      if KeepsDir(c, root, subs[0].name) {
        var p := Pending(Join(root, subs[0].name), subs[0].dir);
        assert Kept(c, root, subs) + ps == [p] + more;
        PendingCons(c, p, more);
      }
    }
  }

  /** The directory filter: `dirs_to_keep`. */
  method FilterDirs(c: Config, root: string, subs: seq<Sub>) returns (kept: seq<Pending>)
    ensures kept == Kept(c, root, subs)
  {
    kept := [];
    for i := 0 to |subs|
      invariant kept + Kept(c, root, subs[i..]) == Kept(c, root, subs)
    {
      assert subs[i..][0] == subs[i] && subs[i..][1..] == subs[i + 1..];
      if c.includeHidden || !IsHidden(subs[i].name) || IsExplicit(c, Join(root, subs[i].name)) {
        var p := Pending(Join(root, subs[i].name), subs[i].dir);
        assert kept + ([p] + Kept(c, root, subs[i + 1..])) == kept + [p] + Kept(c, root, subs[i + 1..]);
        kept := kept + [p];
      }
    }
    assert kept + [] == kept;
  }

  /** The file loop: it adds matches until there are `maxFiles` in all. */
  method MatchFiles(c: Config, root: string, files: seq<string>, maxFiles: nat, before: seq<string>) returns (matched: seq<string>)
    requires |before| <= maxFiles
    ensures var all := before + FileMatches(c, root, files);
      matched == if |all| <= maxFiles then all else all[..maxFiles]
  {
    matched := before;
    for i := 0 to |files|
      invariant |matched| <= maxFiles
      invariant matched + FileMatches(c, root, files[i..]) == before + FileMatches(c, root, files)
    {
      if |matched| >= maxFiles {
        assert (matched + FileMatches(c, root, files[i..]))[..maxFiles] == matched;
        assert |matched + FileMatches(c, root, files[i..])| == maxFiles ==> matched + FileMatches(c, root, files[i..]) == matched;
        return;
      }
      assert files[i..][0] == files[i] && files[i..][1..] == files[i + 1..];
      var path := Join(root, files[i]);
      if !c.includeHidden && IsHidden(files[i]) {
        if !IsExplicit(c, path) {
          continue;
        }
      }
      if c.spec(LStrip(path)) {
        if c.readable(path) {
          var more := FileMatches(c, root, files[i + 1..]);
          assert matched + ([path] + more) == matched + [path] + more;
          matched := matched + [path];
        }
      }
    }
    assert matched + [] == matched;
  }

  /** `test_patterns`: the first `maxFiles` matches of the walk, or all of them when there are no more. */
  method TestPatterns(c: Config, root: string, tree: Dir, maxFiles: nat) returns (matched: seq<string>)
    ensures var all := DirMatches(c, root, tree);
      matched == if |all| <= maxFiles then all else all[..maxFiles]
  {
    matched := [];
    var pending := [Pending(root, tree)];
    ghost var all := DirMatches(c, root, tree);
    assert pending[1..] == [] && all + [] == all && [] + all == all;
    while pending != []
      invariant |matched| <= maxFiles
      invariant matched + PendingMatches(c, pending) == all
      decreases Weight(pending)
    {
      var p := pending[0];
      var kept := FilterDirs(c, p.root, p.dir.subdirs);
      ghost var here, rest := FileMatches(c, p.root, p.dir.files), PendingMatches(c, kept + pending[1..]);
      KeptFirst(c, p.root, p.dir.subdirs, pending[1..]);
      SameMatches(c, matched, here, SubMatches(c, p.root, p.dir.subdirs), PendingMatches(c, pending[1..]));
      assert matched + here + rest == all;
      var before := matched;
      matched := MatchFiles(c, p.root, p.dir.files, maxFiles, before);
      if |matched| >= maxFiles {
        CutAll(before + here, rest, maxFiles);
        return;
      }
      pending := kept + pending[1..];
    }
    assert matched + [] == matched;
  }

  lemma SameMatches(c: Config, matched: seq<string>, here: seq<string>, subs: seq<string>, rest: seq<string>)
    ensures matched + (here + subs + rest) == matched + here + (subs + rest)
  {
  }

  lemma CutAll(x: seq<string>, rest: seq<string>, n: nat)
    requires |x| >= n
    ensures (x + rest)[..n] == x[..n]
    ensures |x| == n && |x + rest| <= n ==> x + rest == x
  {
  }

  // ---------- Explicit patterns ----------

  predicate IsLiteral(pattern: string) {
    '*' !in pattern && '?' !in pattern
  }

  /** `q` is `p` cut before one of its slashes. */
  predicate IsParent(q: string, p: string) {
    |q| < |p| && q == p[..|q|] && p[|q|] == '/'
  }

  /** `str.split('/')` */
  function Split(s: string): (parts: seq<string>)
    ensures parts != []
  {
    if s == "" then [""]
    else if s[0] == '/' then [""] + Split(s[1..])
    else
      var parts := Split(s[1..]);
      [[s[0]] + parts[0]] + parts[1..]
  }

  /** `'/'.join(parts)` */
  function JoinParts(parts: seq<string>): string {
    if parts == [] then "" else if |parts| == 1 then parts[0] else parts[0] + "/" + JoinParts(parts[1..])
  }

  /** The joined beginnings of a split path are exactly its parents. */
  lemma {:induction false} SplitParents(s: string)
    ensures forall i :: 1 <= i < |Split(s)| ==> IsParent(JoinParts(Split(s)[..i]), s)
    ensures forall q :: IsParent(q, s) ==> exists i :: 1 <= i < |Split(s)| && q == JoinParts(Split(s)[..i])
  {
    if s != "" {
      SplitParents(s[1..]);
      var parts, more := Split(s), Split(s[1..]);
      SplitLength(s);
      forall i | 1 <= i < |parts| ensures IsParent(JoinParts(parts[..i]), s) {
        var j := if s[0] == '/' then i - 1 else i;
        if j == 0 { EmptyBeginning(s); } else { BeginningOf(s, j); }
      }
      forall q | IsParent(q, s) ensures exists i :: 1 <= i < |parts| && q == JoinParts(parts[..i]) {
        if q == "" {
          assert parts[..1] == [""];
          assert q == JoinParts(parts[..1]);
        } else {
          assert IsParent(q[1..], s[1..]);
          var i :| 1 <= i < |more| && q[1..] == JoinParts(more[..i]);
          Beginning(s, i);
          var k := if s[0] == '/' then i + 1 else i;
          assert q == [s[0]] + q[1..] == JoinParts(parts[..k]);
        }
      }
    }
  }

  lemma JoinCons(x: string, ps: seq<string>)
    requires ps != []
    ensures JoinParts([x] + ps) == x + "/" + JoinParts(ps)
  {
    assert ([x] + ps)[1..] == ps;
  }

  lemma JoinHead(c: char, x: string, ps: seq<string>)
    ensures JoinParts([[c] + x] + ps) == [c] + JoinParts([x] + ps)
  {
    if ps == [] {
      assert [[c] + x] + ps == [[c] + x] && [x] + ps == [x];
    } else {
      JoinCons([c] + x, ps);
      JoinCons(x, ps);
      assert [c] + x + "/" + JoinParts(ps) == [c] + (x + "/" + JoinParts(ps));
    }
  }

  /** A beginning of the split of `s[1..]`, with the first character of `s` put in front. */
  lemma Beginning(s: string, i: nat)
    requires s != "" && 1 <= i <= |Split(s[1..])|
    ensures var k := if s[0] == '/' then i + 1 else i;
      k <= |Split(s)| && JoinParts(Split(s)[..k]) == [s[0]] + JoinParts(Split(s[1..])[..i])
  {
    hide JoinParts;
    if s[0] == '/' {
      BeginningSlash(s, i);
    } else {
      BeginningLetter(s, i);
    }
  }

  lemma BeginningSlash(s: string, i: nat)
    requires s != "" && s[0] == '/' && 1 <= i <= |Split(s[1..])|
    ensures i + 1 <= |Split(s)| && JoinParts(Split(s)[..i + 1]) == [s[0]] + JoinParts(Split(s[1..])[..i])
  {
    hide JoinParts;
    var first := Split(s[1..])[..i];
    JoinCons("", first);
    assert Split(s)[..i + 1] == [""] + first;
    assert "" + "/" + JoinParts(first) == [s[0]] + JoinParts(first);
  }

  lemma BeginningLetter(s: string, i: nat)
    requires s != "" && s[0] != '/' && 1 <= i <= |Split(s[1..])|
    ensures i <= |Split(s)| && JoinParts(Split(s)[..i]) == [s[0]] + JoinParts(Split(s[1..])[..i])
  {
    hide JoinParts;
    var more := Split(s[1..]);
    assert Split(s) == [[s[0]] + more[0]] + more[1..];
    hide Split;
    assert Split(s)[..i] == [[s[0]] + more[0]] + more[1..i];
    assert more[..i] == [more[0]] + more[1..i];
    JoinHead(s[0], more[0], more[1..i]);
  }

  lemma EmptyBeginning(s: string)
    requires s != "" && s[0] == '/'
    ensures IsParent(JoinParts(Split(s)[..1]), s)
  {
    assert Split(s)[..1] == [""];
  }

  lemma SplitLength(s: string)
    requires s != ""
    ensures |Split(s)| == |Split(s[1..])| + if s[0] == '/' then 1 else 0
  {
  }

  lemma BeginningOf(s: string, j: nat)
    requires s != "" && 1 <= j < |Split(s[1..])| && IsParent(JoinParts(Split(s[1..])[..j]), s[1..])
    ensures var i := if s[0] == '/' then j + 1 else j; i <= |Split(s)| && IsParent(JoinParts(Split(s)[..i]), s)
  {
    hide JoinParts, IsParent, Split;
    Beginning(s, j);
    ParentOfTail(JoinParts(Split(s[1..])[..j]), s);
  }

  lemma ParentOfTail(p: string, s: string)
    requires s != "" && IsParent(p, s[1..])
    ensures IsParent([s[0]] + p, s)
  {
    assert ([s[0]] + p)[1..] == p && s[1..][|p|] == s[|p| + 1];
  }

  /** `q` is named by one of the patterns, or is a parent of one that is. */
  ghost predicate Names(patterns: seq<string>, q: string) {
    exists p :: p in patterns && IsLiteral(p) && (q == LStrip(p) || IsParent(q, LStrip(p)))
  }

  lemma NamesLast(patterns: seq<string>, pattern: string, q: string)
    ensures Names(patterns + [pattern], q)
      <==> Names(patterns, q) || (IsLiteral(pattern) && (q == LStrip(pattern) || IsParent(q, LStrip(pattern))))
  {
    if Names(patterns, q) {
      var p :| p in patterns && IsLiteral(p) && (q == LStrip(p) || IsParent(q, LStrip(p)));
      assert p in patterns + [pattern];
    }
    assert pattern in patterns + [pattern];
  }

  /** `_get_explicit_patterns`: the literal include patterns and all their parents, without leading slash. */
  method GetExplicitPatterns(includePatterns: seq<string>) returns (explicit: set<string>)
    ensures forall q :: q in explicit <==> exists p ::
      && p in includePatterns && '*' !in p && '?' !in p
      && (q == LStrip(p) || (|q| < |LStrip(p)| && q == LStrip(p)[..|q|] && LStrip(p)[|q|] == '/'))
  {
    explicit := {};
    for n := 0 to |includePatterns|
      invariant forall q :: q in explicit <==> Names(includePatterns[..n], q)
    {
      var pattern := includePatterns[n];
      ghost var before := explicit;
      if '*' !in pattern && '?' !in pattern {
        var more := WithParents(LStrip(pattern));
        explicit := explicit + more;
      }
      assert includePatterns[..n + 1] == includePatterns[..n] + [pattern];
      forall q ensures q in explicit <==> Names(includePatterns[..n + 1], q) {
        NamesLast(includePatterns[..n], pattern, q);
      }
    }
    assert includePatterns[..|includePatterns|] == includePatterns;
  }

  method WithParents(path: string) returns (paths: set<string>)
    ensures forall q :: q in paths <==> q == path || IsParent(q, path)
  {
    paths := {path};
    var pathParts := Split(path);
    for i := 1 to |pathParts|
      invariant forall q :: q in paths <==> q == path || exists j :: 1 <= j < i && q == JoinParts(pathParts[..j])
    {
      paths := paths + {JoinParts(pathParts[..i])};
    }
    SplitParents(path);
  }

  // ---------- Explicitly named files survive the hidden filter ----------

  predicate IsName(n: string) {
    n != "" && '/' !in n
  }

  /** The file `file` lies in the directory reached from `d` by `names`. */
  ghost predicate FileAt(d: Dir, names: seq<string>, file: string) {
    if names == [] then file in d.files
    else exists i :: 0 <= i < |d.subdirs| && d.subdirs[i].name == names[0] && FileAt(d.subdirs[i].dir, names[1..], file)
  }

  function PathOf(root: string, names: seq<string>, file: string): string
    decreases |names|
  {
    if names == [] then Join(root, file) else PathOf(Join(root, names[0]), names[1..], file)
  }

  /** A path that goes on after `q`, which is not made of slashes only: cut at `q` it is a parent. */
  lemma {:induction false} LStripParent(q: string, rest: string)
    requires LStrip(q) != ""
    ensures IsParent(LStrip(q), LStrip(q + ("/" + rest)))
  {
    var p := q + ("/" + rest);
    if q[0] == '/' {
      assert p[1..] == q[1..] + ("/" + rest);
      LStripParent(q[1..], rest);
    } else {
      assert LStrip(p) == p && LStrip(q) == q;
    }
  }

  lemma {:induction false} LStripName(root: string, name: string)
    requires IsName(name)
    ensures LStrip(Join(root, name)) != "" && Join(root, name)[|Join(root, name)| - 1] != '/'
  {
    var p := Join(root, name);
    assert p[|p| - 1] == name[|name| - 1];
    LStripKeepsEnd(p);
  }

  lemma {:induction false} LStripKeepsEnd(p: string)
    requires p != "" && p[|p| - 1] != '/'
    ensures LStrip(p) != ""
  {
    if p[0] == '/' { LStripKeepsEnd(p[1..]); }
  }

  /** The path of a file goes on after the path of each directory on the way. */
  lemma {:induction false} PathContinues(root: string, names: seq<string>, file: string) returns (rest: string)
    requires root != "" && root[|root| - 1] != '/' && IsName(file) && forall n :: n in names ==> IsName(n)
    ensures PathOf(root, names, file) == root + ("/" + rest)
    decreases |names|
  {
    if names == [] {
      rest := file;
    } else {
      LStripName(root, names[0]);
      var more := PathContinues(Join(root, names[0]), names[1..], file);
      rest := names[0] + ("/" + more);
      assert root + "/" + names[0] + ("/" + more) == root + ("/" + (names[0] + ("/" + more)));
    }
  }

  lemma {:induction false} FileIsMatched(c: Config, root: string, files: seq<string>, file: string)
    requires file in files && MatchesFile(c, root, file)
    ensures Join(root, file) in FileMatches(c, root, files)
  {
    if files[0] != file { FileIsMatched(c, root, files[1..], file); }
  }

  lemma {:induction false} SubIsMatched(c: Config, root: string, subs: seq<Sub>, i: nat, path: string)
    requires i < |subs| && KeepsDir(c, root, subs[i].name)
    requires path in DirMatches(c, Join(root, subs[i].name), subs[i].dir)
    ensures path in SubMatches(c, root, subs)
  {
    hide DirMatches, KeepsDir, Join;
    if i > 0 { SubIsMatched(c, root, subs[1..], i - 1, path); }
  }

  /** Every file that an explicit pattern names is reached by the walk, however many of its ancestors are
      hidden, if the pattern matcher accepts it and it can be read. */
  lemma {:induction false} ExplicitFileReached(c: Config, root: string, d: Dir, names: seq<string>, file: string)
    requires FileAt(d, names, file) && IsName(file) && forall n :: n in names ==> IsName(n)
    requires var path := PathOf(root, names, file);
      && LStrip(path) in c.explicitPatterns
      && (forall q :: IsParent(q, LStrip(path)) ==> q in c.explicitPatterns)
      && c.spec(LStrip(path)) && c.readable(path)
    ensures PathOf(root, names, file) in DirMatches(c, root, d)
    decreases |names|
  {
    if names == [] {
      FileIsMatched(c, root, d.files, file);
    } else {
      var i :| 0 <= i < |d.subdirs| && d.subdirs[i].name == names[0] && FileAt(d.subdirs[i].dir, names[1..], file);
      var here := Join(root, names[0]);
      ExplicitFileReached(c, here, d.subdirs[i].dir, names[1..], file);
      LStripName(root, names[0]);
      var rest := PathContinues(here, names[1..], file);
      LStripParent(here, rest);
      SubIsMatched(c, root, d.subdirs, i, PathOf(root, names, file));
    }
  }

  /** The same from the include patterns: a file under the root that one of them names literally. */
  lemma NamedFileReached(
    c: Config, includePatterns: seq<string>, pattern: string, root: string, d: Dir, names: seq<string>, file: string)
    requires forall q :: q in c.explicitPatterns <==> Names(includePatterns, q)
    requires pattern in includePatterns && IsLiteral(pattern) && LStrip(pattern) == LStrip(PathOf(root, names, file))
    requires FileAt(d, names, file) && IsName(file) && forall n :: n in names ==> IsName(n)
    requires c.spec(LStrip(pattern)) && c.readable(PathOf(root, names, file))
    ensures PathOf(root, names, file) in DirMatches(c, root, d)
  {
    ExplicitFileReached(c, root, d, names, file);
  }
}
