/** Grouping of listed files by directory for the backup preview. */
module BackupGrouping {
  import opened BackupPaths
  import opened BackupWalk

  datatype Option<+T> = None | Some(value: T)

  datatype FileInfo = FileInfo(path: string, size: nat)

  datatype Group = Group(files: seq<FileInfo>, fileCount: nat, totalSize: nat, isTruncated: bool, subdirectories: set<string>)

  const EMPTY_GROUP := Group([], 0, 0, false, {})

  /** A group as it is displayed: at most 50 of its files, and how many more there are. */
  datatype Display = Display(group: Group, displayed: seq<FileInfo>, additional: nat)

  /** `path.strip('/').split('/')` */
  function Parts(path: string): (parts: seq<string>)
    ensures parts != []
  {
    Split(RStrip(LStrip(path)))
  }

  predicate IsDeep(f: FileInfo, maxDepth: int) {
    |Parts(f.path)| > maxDepth
  }

  /** `parts[:n]`, where a negative `n` counts from the end. */
  function FirstParts(parts: seq<string>, n: int): seq<string> {
    if n >= |parts| then parts
    else if n >= 0 then parts[..n]
    else if |parts| + n >= 0 then parts[..|parts| + n]
    else []
  }

  /** `parts[n]`, where a negative `n` counts from the end; None stands for the IndexError. */
  function PartAt(parts: seq<string>, n: int): Option<string> {
    if 0 <= n < |parts| then Some(parts[n])
    else if n < 0 <= |parts| + n then Some(parts[|parts| + n])
    else None
  }

  function GroupPath(f: FileInfo, maxDepth: int): string {
    var parts := Parts(f.path);
    if |parts| > maxDepth then "/" + JoinParts(FirstParts(parts, maxDepth))
    else if |parts| > 1 then "/" + JoinParts(parts[..|parts| - 1])
    else "/"
  }

  function AddFile(g: Group, f: FileInfo, maxDepth: int): Group {
    Group(
      g.files + [f], g.fileCount + 1, g.totalSize + f.size, g.isTruncated || IsDeep(f, maxDepth),
      if IsDeep(f, maxDepth) && PartAt(Parts(f.path), maxDepth).Some?
      then g.subdirectories + {PartAt(Parts(f.path), maxDepth).value} else g.subdirectories)
  }

  function FilesOf(files: seq<FileInfo>, path: string, maxDepth: int): seq<FileInfo> {
    if files == [] then []
    else
      var before, last := FilesOf(files[..|files| - 1], path, maxDepth), files[|files| - 1];
      if GroupPath(last, maxDepth) == path then before + [last] else before
  }

  function TotalSize(files: seq<FileInfo>): nat {
    if files == [] then 0 else TotalSize(files[..|files| - 1]) + files[|files| - 1].size
  }

  /** Each group holds, in order, exactly the listed files of its path, with their number and size; no
      group is empty, and every file's path has one. */
  ghost predicate Grouped(groups: map<string, Group>, files: seq<FileInfo>, maxDepth: int) {
    && (forall f :: f in files ==> GroupPath(f, maxDepth) in groups)
    && forall p :: p in groups ==>
         && groups[p].files == FilesOf(files, p, maxDepth) != []
         && groups[p].fileCount == |groups[p].files|
         && groups[p].totalSize == TotalSize(groups[p].files)
         && (groups[p].isTruncated <==> exists f :: f in groups[p].files && IsDeep(f, maxDepth))
         && forall d :: d in groups[p].subdirectories
              <==> exists f :: f in groups[p].files && IsDeep(f, maxDepth) && PartAt(Parts(f.path), maxDepth) == Some(d)
  }

  lemma FilesOfLast(files: seq<FileInfo>, f: FileInfo, p: string, maxDepth: int)
    ensures FilesOf(files + [f], p, maxDepth)
      == if GroupPath(f, maxDepth) == p then FilesOf(files, p, maxDepth) + [f] else FilesOf(files, p, maxDepth)
  {
    assert (files + [f])[..|files|] == files;
  }

  lemma TotalSizeLast(files: seq<FileInfo>, f: FileInfo)
    ensures TotalSize(files + [f]) == TotalSize(files) + f.size
  {
    assert (files + [f])[..|files|] == files;
  }

  lemma GroupedStep(groups: map<string, Group>, files: seq<FileInfo>, f: FileInfo, maxDepth: int)
    requires Grouped(groups, files, maxDepth)
    requires GroupPath(f, maxDepth) !in groups ==> FilesOf(files, GroupPath(f, maxDepth), maxDepth) == []
    ensures var p := GroupPath(f, maxDepth);
      Grouped(groups[p := AddFile(if p in groups then groups[p] else EMPTY_GROUP, f, maxDepth)], files + [f], maxDepth)
  {
    hide GroupPath, FilesOf, Parts, TotalSize;
    var p := GroupPath(f, maxDepth);
    var g := if p in groups then groups[p] else EMPTY_GROUP;
    var g' := AddFile(g, f, maxDepth);
    var after := groups[p := g'];
    NothingSized();
    TotalSizeLast(g.files, f);
    forall q | q in after ensures FilesOf(files + [f], q, maxDepth) == after[q].files {
      FilesOfLast(files, f, q, maxDepth);
    }
    assert forall x :: x in g'.files <==> x in g.files || x == f;
  }

  lemma NothingSized()
    ensures TotalSize([]) == 0
  {
  }

  lemma {:induction false} NoGroupNoFiles(groups: map<string, Group>, files: seq<FileInfo>, p: string, maxDepth: int)
    requires (forall f :: f in files ==> GroupPath(f, maxDepth) in groups) && p !in groups
    ensures FilesOf(files, p, maxDepth) == []
  {
    if files != [] {
      assert GroupPath(files[|files| - 1], maxDepth) in groups;
      NoGroupNoFiles(groups, files[..|files| - 1], p, maxDepth);
    }
  }

  /** The grouping loop. It fails, as the source does with an IndexError, exactly when a negative depth
      reaches past the front of some path. */
  method GroupFiles(files: seq<FileInfo>, maxDepth: int) returns (groups: Option<map<string, Group>>, totalSize: nat)
    ensures groups.None? <==> exists f :: f in files && IsDeep(f, maxDepth) && PartAt(Parts(f.path), maxDepth).None?
    ensures groups.Some? ==> Grouped(groups.value, files, maxDepth) && totalSize == TotalSize(files)
  {
    hide FilesOf, Parts, PartAt, GroupPath;
    NothingSized();
    var found: map<string, Group> := map[];
    totalSize := 0;
    for i := 0 to |files|
      invariant Grouped(found, files[..i], maxDepth) && totalSize == TotalSize(files[..i])
      invariant forall f :: f in files[..i] ==> !IsDeep(f, maxDepth) || PartAt(Parts(f.path), maxDepth).Some?
    {
      var f := files[i];
      var groupPath := GroupPath(f, maxDepth);
      assert files[..i + 1] == files[..i] + [f];
      if groupPath !in found { NoGroupNoFiles(found, files[..i], groupPath, maxDepth); }
      GroupedStep(found, files[..i], f, maxDepth);
      TotalSizeLast(files[..i], f);
      totalSize := totalSize + f.size;
      if IsDeep(f, maxDepth) && PartAt(Parts(f.path), maxDepth).None? {
        return None, totalSize;
      }
      found := found[groupPath := AddFile(if groupPath in found then found[groupPath] else EMPTY_GROUP, f, maxDepth)];
    }
    assert files[..|files|] == files;
    return Some(found), totalSize;
  }

  method DisplayGroup(g: Group) returns (d: Display)
    ensures d.group == g && d.displayed <= g.files && |d.displayed| <= 50
    ensures |d.displayed| + d.additional == |g.files|
    ensures |g.files| <= 50 ==> d.displayed == g.files
  {
    if |g.files| > 50 {
      d := Display(g, g.files[..50], |g.files| - 50);
    } else {
      d := Display(g, g.files, 0);
    }
  }

  // ---------- Conservation over all groups ----------

  ghost function CountAll(groups: map<string, Group>, keys: set<string>): nat
    requires keys <= groups.Keys
  {
    if keys == {} then 0 else var k :| k in keys; groups[k].fileCount + CountAll(groups, keys - {k})
  }

  ghost function SizeAll(groups: map<string, Group>, keys: set<string>): nat
    requires keys <= groups.Keys
  {
    if keys == {} then 0 else var k :| k in keys; groups[k].totalSize + SizeAll(groups, keys - {k})
  }

  /** The order in which the groups are added up does not matter. */
  lemma {:induction false} SumsFromKey(groups: map<string, Group>, keys: set<string>, p: string)
    requires keys <= groups.Keys && p in keys
    ensures CountAll(groups, keys) == groups[p].fileCount + CountAll(groups, keys - {p})
    ensures SizeAll(groups, keys) == groups[p].totalSize + SizeAll(groups, keys - {p})
    decreases |keys|
  {
    var k :| k in keys && CountAll(groups, keys) == groups[k].fileCount + CountAll(groups, keys - {k});
    if k != p {
      SumsFromKey(groups, keys - {k}, p);
      SumsFromKey(groups, keys - {p}, k);
      assert keys - {k} - {p} == keys - {p} - {k};
    }
    var s :| s in keys && SizeAll(groups, keys) == groups[s].totalSize + SizeAll(groups, keys - {s});
    if s != p {
      SumsFromKey(groups, keys - {s}, p);
      SumsFromKey(groups, keys - {p}, s);
      assert keys - {s} - {p} == keys - {p} - {s};
    }
  }

  ghost predicate CountsMatch(groups: map<string, Group>, files: seq<FileInfo>, keys: set<string>, maxDepth: int)
    requires keys <= groups.Keys
  {
    && CountAll(groups, keys) == |Select(files, keys, maxDepth)|
    && SizeAll(groups, keys) == TotalSize(Select(files, keys, maxDepth))
  }

  /** The listed files whose group is among `keys`. */
  function Select(files: seq<FileInfo>, keys: set<string>, maxDepth: int): seq<FileInfo> {
    if files == [] then []
    else
      var before, last := Select(files[..|files| - 1], keys, maxDepth), files[|files| - 1];
      if GroupPath(last, maxDepth) in keys then before + [last] else before
  }

  /** One more group adds its own files to those selected. */
  lemma {:induction false} SelectMore(files: seq<FileInfo>, keys: set<string>, p: string, maxDepth: int)
    requires p in keys
    ensures |Select(files, keys, maxDepth)| == |Select(files, keys - {p}, maxDepth)| + |FilesOf(files, p, maxDepth)|
    ensures TotalSize(Select(files, keys, maxDepth))
      == TotalSize(Select(files, keys - {p}, maxDepth)) + TotalSize(FilesOf(files, p, maxDepth))
  {
    hide GroupPath, TotalSize;
    NothingSized();
    if files != [] {
      var init, last := files[..|files| - 1], files[|files| - 1];
      SelectMore(init, keys, p, maxDepth);
      TotalSizeLast(Select(init, keys, maxDepth), last);
      TotalSizeLast(Select(init, keys - {p}, maxDepth), last);
      TotalSizeLast(FilesOf(init, p, maxDepth), last);
    }
  }

  lemma {:induction false} SelectNone(files: seq<FileInfo>, maxDepth: int)
    ensures Select(files, {}, maxDepth) == []
  {
    if files != [] { SelectNone(files[..|files| - 1], maxDepth); }
  }

  lemma {:induction false} SelectAll(files: seq<FileInfo>, keys: set<string>, maxDepth: int)
    requires forall f :: f in files ==> GroupPath(f, maxDepth) in keys
    ensures Select(files, keys, maxDepth) == files
  {
    hide GroupPath;
    if files != [] { SelectAll(files[..|files| - 1], keys, maxDepth); }
  }

  lemma {:induction false} GroupsAddUp(groups: map<string, Group>, files: seq<FileInfo>, keys: set<string>, maxDepth: int)
    requires Grouped(groups, files, maxDepth) && keys <= groups.Keys
    ensures CountsMatch(groups, files, keys, maxDepth)
    decreases |keys|
  {
    hide GroupPath, FilesOf;
    if keys == {} {
      SelectNone(files, maxDepth);
      NothingSized();
    } else {
      var p :| p in keys;
      GroupsAddUp(groups, files, keys - {p}, maxDepth);
      SumsFromKey(groups, keys, p);
      SelectMore(files, keys, p, maxDepth);
    }
  }

  /** Group counts and sizes add up to the totals: every listed file is in exactly one group. */
  lemma GroupingConserves(groups: map<string, Group>, files: seq<FileInfo>, maxDepth: int)
    requires Grouped(groups, files, maxDepth)
    ensures CountAll(groups, groups.Keys) == |files| && SizeAll(groups, groups.Keys) == TotalSize(files)
  {
    GroupsAddUp(groups, files, groups.Keys, maxDepth);
    SelectAll(files, groups.Keys, maxDepth);
  }

  // ---------- No group mixes depths ----------

  function Slashes(s: string): nat {
    if s == "" then 0 else (if s[0] == '/' then 1 else 0) + Slashes(s[1..])
  }

  lemma {:induction false} SlashesAppend(s: string, t: string)
    ensures Slashes(s + t) == Slashes(s) + Slashes(t)
  {
    if s == "" {
      assert s + t == t;
    } else {
      assert (s + t)[1..] == s[1..] + t;
      SlashesAppend(s[1..], t);
    }
  }

  lemma {:induction false} NoSlashes(s: string)
    requires '/' !in s
    ensures Slashes(s) == 0
  {
    if s != "" { NoSlashes(s[1..]); }
  }

  lemma {:induction false} SplitHasNoSlashes(s: string)
    ensures forall i :: 0 <= i < |Split(s)| ==> '/' !in Split(s)[i]
    ensures s != "" && s[0] != '/' ==> Split(s)[0] != ""
  {
    if s != "" { SplitHasNoSlashes(s[1..]); }
  }

  /** A joined path has one slash less than parts. */
  lemma {:induction false} SlashesOfJoin(parts: seq<string>)
    requires parts != [] && forall i :: 0 <= i < |parts| ==> '/' !in parts[i]
    ensures Slashes(JoinParts(parts)) == |parts| - 1
  {
    NoSlashes(parts[0]);
    if |parts| > 1 {
      SlashesOfJoin(parts[1..]);
      SlashesAppend(parts[0] + "/", JoinParts(parts[1..]));
      SlashesAppend(parts[0], "/");
      assert Slashes("/") == 1 + Slashes("");
    }
  }

  lemma {:induction false} SplitMany(s: string)
    requires |Split(s)| > 1
    ensures s != ""
  {
  }

  /** The group of a deep file has `maxDepth` slashes and more than the root's name; a shallow file's has fewer, or is the root. */
  lemma GroupShape(f: FileInfo, maxDepth: int)
    requires maxDepth >= 1
    ensures IsDeep(f, maxDepth) ==> Slashes(GroupPath(f, maxDepth)) == maxDepth && GroupPath(f, maxDepth) != "/"
    ensures !IsDeep(f, maxDepth) ==> GroupPath(f, maxDepth) == "/" || Slashes(GroupPath(f, maxDepth)) < maxDepth
  {
    var s := RStrip(LStrip(f.path));
    var parts := Parts(f.path);
    SplitHasNoSlashes(s);
    if |parts| > 1 {
      var ps := if IsDeep(f, maxDepth) then parts[..maxDepth] else parts[..|parts| - 1];
      SlashesOfJoin(ps);
      SlashesAppend("/", JoinParts(ps));
      assert Slashes("/") == 1 + Slashes("");
      if IsDeep(f, maxDepth) {
        SplitMany(s);
        StrippedHead(f.path);
        assert parts[0] != "";
        JoinNotEmpty(ps);
      }
    }
  }

  /** The group of a file that is not deep is the directory it lies in: its stripped path without the last name. */
  lemma ShallowGroup(f: FileInfo, maxDepth: int, dir: string, name: string)
    requires !IsDeep(f, maxDepth) && '/' !in name
    ensures RStrip(LStrip(f.path)) == dir + "/" + name ==> GroupPath(f, maxDepth) == "/" + dir
    ensures RStrip(LStrip(f.path)) == name ==> GroupPath(f, maxDepth) == "/"
  {
    SplitLast(dir, name);
    SplitName(name);
    SplitJoined(dir);
  }

  predicate AreNames(names: seq<string>) {
    forall i :: 0 <= i < |names| ==> '/' !in names[i]
  }

  lemma {:induction false} SplitFirst(name: string, rest: string)
    requires '/' !in name
    ensures Split(name + "/" + rest) == [name] + Split(rest)
  {
    var s := name + "/" + rest;
    if name == "" {
      assert s[1..] == rest;
    } else {
      assert s[1..] == name[1..] + "/" + rest;
      SplitFirst(name[1..], rest);
      assert [name[0]] + name[1..] == name;
    }
  }

  lemma {:induction false} JoinedSplit(names: seq<string>)
    requires names != [] && AreNames(names)
    ensures Split(JoinParts(names)) == names
  {
    if |names| == 1 {
      SplitName(names[0]);
    } else {
      JoinedSplit(names[1..]);
      SplitFirst(names[0], JoinParts(names[1..]));
    }
  }

  /** A file is deep exactly if its stripped path has at least `maxDepth` slashes. */
  lemma DeepExactly(f: FileInfo, maxDepth: int)
    ensures IsDeep(f, maxDepth) <==> Slashes(RStrip(LStrip(f.path))) >= maxDepth
  {
    var s := RStrip(LStrip(f.path));
    SplitHasNoSlashes(s);
    SlashesOfJoin(Split(s));
    SplitJoined(s);
  }

  /** A deep file whose path goes through `above` and then `dir`, with `maxDepth` names above it, or counted from
      the end, `-maxDepth` from `dir` on: its group is the path of `above`, and `dir` is listed there. */
  lemma DeepGroup(f: FileInfo, above: seq<string>, dir: string, below: seq<string>, maxDepth: int)
    requires AreNames(above + [dir] + below) && RStrip(LStrip(f.path)) == JoinParts(above + [dir] + below)
    requires maxDepth == |above| || maxDepth == -(1 + |below|)
    ensures IsDeep(f, maxDepth) && GroupPath(f, maxDepth) == "/" + JoinParts(above) && PartAt(Parts(f.path), maxDepth) == Some(dir)
  {
    hide JoinParts, Split, LStrip, RStrip;
    var names := above + [dir] + below;
    JoinedSplit(names);
    assert names[..|above|] == above && names[|above|] == dir;
  }

  /** A negative depth that reaches past the front of the path. */
  lemma PastTheFront(f: FileInfo, names: seq<string>, maxDepth: int)
    requires names != [] && AreNames(names) && RStrip(LStrip(f.path)) == JoinParts(names) && maxDepth < -|names|
    ensures IsDeep(f, maxDepth) && PartAt(Parts(f.path), maxDepth) == None
  {
    JoinedSplit(names);
  }

  lemma {:induction false} SplitName(name: string)
    requires '/' !in name
    ensures Split(name) == [name]
  {
    if name != "" {
      SplitName(name[1..]);
      assert [name[0]] + name[1..] == name;
    }
  }

  lemma {:induction false} SplitLast(dir: string, name: string)
    requires '/' !in name
    ensures Split(dir + "/" + name) == Split(dir) + [name]
  {
    var s := dir + "/" + name;
    if dir == "" {
      assert s[1..] == name;
      SplitName(name);
    } else {
      assert s[1..] == dir[1..] + "/" + name;
      SplitLast(dir[1..], name);
    }
  }

  lemma {:induction false} SplitJoined(s: string)
    ensures JoinParts(Split(s)) == s
  {
    if s != "" {
      SplitJoined(s[1..]);
      var more := Split(s[1..]);
      if s[0] == '/' {
        JoinCons("", more);
      } else {
        JoinHead(s[0], more[0], more[1..]);
        assert [more[0]] + more[1..] == more;
      }
    }
  }

  lemma StrippedHead(path: string)
    ensures RStrip(LStrip(path)) != "" ==> RStrip(LStrip(path))[0] != '/'
  {
    assert RStrip(LStrip(path)) <= LStrip(path);
  }

  lemma JoinNotEmpty(ps: seq<string>)
    requires ps != [] && ps[0] != ""
    ensures JoinParts(ps) != ""
  {
  }

  /** Files deeper than `maxDepth` and files that are not never share a group. */
  lemma NoMixedDepths(f: FileInfo, g: FileInfo, maxDepth: int)
    requires maxDepth >= 1 && GroupPath(f, maxDepth) == GroupPath(g, maxDepth)
    ensures IsDeep(f, maxDepth) == IsDeep(g, maxDepth)
  {
    GroupShape(f, maxDepth);
    GroupShape(g, maxDepth);
  }
}
