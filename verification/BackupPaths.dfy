/**
 Paths in a backup: archive names have no leading slash, and paths under the root of the system that
 made the backup are moved under the root of the one that restores it.
 */
module BackupPaths {
  /** `str.lstrip('/')` */
  function LStrip(s: string): (r: string)
    ensures |r| <= |s|
    ensures r == "" || r[0] != '/'
  {
    if s != "" && s[0] == '/' then LStrip(s[1..]) else s
  }

  /** `str.rstrip('/')` */
  function RStrip(s: string): (r: string)
    ensures r <= s
    ensures r == "" || r[|r| - 1] != '/'
  {
    if s != "" && s[|s| - 1] == '/' then RStrip(s[..|s| - 1]) else s
  }

  /** The path is the root, or lies under it. */
  predicate IsUnder(path: string, root: string) {
    root + "/" <= path || path == root
  }

  function Relocate(path: string, from: string, to: string): string
    requires from <= path
  {
    var relative := LStrip(path[|from|..]);
    if relative != "" then to + "/" + relative else to
  }

  /** `_translate_restore_path`: where an archive entry goes on the current system. */
  function TranslateRestorePath(archivePath: string, backedUpRoot: string, currentRoot: string): string {
    if backedUpRoot == "" then "/" + LStrip(archivePath)
    else
      var from, to := RStrip(backedUpRoot), RStrip(currentRoot);
      var path := if archivePath != "" && archivePath[0] == '/' then archivePath else "/" + archivePath;
      if IsUnder(path, from) then Relocate(path, from, to) else path
  }

  /** One pattern of `_translate_patterns`. */
  function TranslatePattern(pattern: string, backedUpRoot: string, currentRoot: string): string {
    var from, to := RStrip(backedUpRoot), RStrip(currentRoot);
    if backedUpRoot == "" || !IsUnder(pattern, from) then pattern else Relocate(pattern, from, to)
  }

  method TranslatePatterns(patterns: seq<string>, backedUpRoot: string, currentRoot: string) returns (translated: seq<string>)
    ensures |translated| == |patterns|
    ensures forall i :: 0 <= i < |patterns| ==> translated[i] == TranslatePattern(patterns[i], backedUpRoot, currentRoot)
  {
    if backedUpRoot == "" {
      return patterns;
    }
    var from, to := RStrip(backedUpRoot), RStrip(currentRoot);
    translated := [];
    for i := 0 to |patterns|
      invariant |translated| == i
      invariant forall j :: 0 <= j < i ==> translated[j] == TranslatePattern(patterns[j], backedUpRoot, currentRoot)
    {
      var pattern := patterns[i];
      if from + "/" <= pattern || pattern == from {
        var relative := LStrip(pattern[|from|..]);
        if relative != "" {
          translated := translated + [to + "/" + relative];
        } else {
          translated := translated + [to];
        }
      } else {
        translated := translated + [pattern];
      }
    }
  }

  // ---------- Moving there and back ----------

  /** An absolute root: `/`, or a path that starts with exactly one slash. */
  predicate IsRoot(root: string) {
    var r := RStrip(root);
    root != "" && root[0] == '/' && (r == "" || (|r| > 1 && r[0] == '/' && r[1] != '/'))
  }

  /** A path under `root`. */
  function Under(root: string, relative: string): string {
    RStrip(root) + "/" + relative
  }

  lemma {:induction false} LStripSlashes(s: string, t: string)
    requires forall i :: 0 <= i < |s| ==> s[i] == '/'
    ensures LStrip(s + t) == LStrip(t)
  {
    if s == "" {
      assert s + t == t;
    } else {
      assert (s + t)[1..] == s[1..] + t;
      LStripSlashes(s[1..], t);
    }
  }

  lemma LStripSlash(t: string)
    ensures LStrip("/" + t) == LStrip(t)
  {
    LStripSlashes("/", t);
  }

  /** An absolute path that starts with one slash is its archive name with the slash put back. */
  lemma NameOf(path: string)
    requires path != "" && path[0] == '/' && (|path| == 1 || path[1] != '/')
    ensures LStrip(path) == path[1..] && "/" + path[1..] == path
  {
    assert LStrip(path) == LStrip(path[1..]) == path[1..];
  }

  lemma TranslateName(path: string, from: string, to: string)
    requires from != "" && path != "" && path[0] == '/' && (|path| == 1 || path[1] != '/')
    ensures TranslateRestorePath(LStrip(path), from, to)
      == if IsUnder(path, RStrip(from)) then Relocate(path, RStrip(from), RStrip(to)) else path
  {
    hide LStrip, RStrip, Relocate;
    NameOf(path);
  }

  lemma RelocateUnder(r: string, to: string, relative: string)
    ensures var path := r + "/" + relative;
      IsUnder(path, r) && Relocate(path, r, to) == if LStrip(relative) != "" then to + "/" + LStrip(relative) else to
  {
    var path := r + "/" + relative;
    assert path[|r|..] == "/" + relative;
    assert path[..|r| + 1] == r + "/";
    LStripSlash(relative);
  }

  lemma RelocateSlash(to: string, relative: string)
    ensures IsUnder("/" + relative, "")
    ensures Relocate("/" + relative, "", to) == if LStrip(relative) != "" then to + "/" + LStrip(relative) else to
  {
    var path := "/" + relative;
    assert path[0..] == path;
    LStripSlash(relative);
  }

  lemma TranslateUnderSlash(from: string, to: string, relative: string)
    requires from != "" && RStrip(from) == ""
    ensures TranslateRestorePath(LStrip("/" + relative), from, to)
      == if LStrip(relative) != "" then Under(to, LStrip(relative)) else RStrip(to)
  {
    hide LStrip, RStrip, Relocate, TranslateRestorePath, IsUnder;
    var rel := LStrip(relative);
    var path := "/" + rel;
    LStripSlash(relative);
    LStripSlash(rel);
    LStripTwice(relative);
    RelocateSlash(RStrip(to), rel);
    TranslateName(path, from, to);
  }

  lemma TranslateUnderDir(from: string, to: string, relative: string)
    requires IsRoot(from) && RStrip(from) != ""
    ensures TranslateRestorePath(LStrip(Under(from, relative)), from, to)
      == if LStrip(relative) != "" then Under(to, LStrip(relative)) else RStrip(to)
  {
    hide LStrip, RStrip, Relocate, TranslateRestorePath, IsUnder;
    var path := Under(from, relative);
    assert path[0] == RStrip(from)[0] && path[1] == RStrip(from)[1];
    TranslateName(path, from, to);
    RelocateUnder(RStrip(from), RStrip(to), relative);
  }

  /** Where a file of the backed up system lands: at the same relative path under the current root, with
      the slashes in front of that relative path dropped. */
  lemma TranslateUnder(from: string, to: string, relative: string)
    requires IsRoot(from)
    ensures TranslateRestorePath(LStrip(Under(from, relative)), from, to)
      == if LStrip(relative) != "" then Under(to, LStrip(relative)) else RStrip(to)
  {
    hide LStrip, TranslateRestorePath;
    if RStrip(from) == "" {
      assert Under(from, relative) == "/" + relative;
      TranslateUnderSlash(from, to, relative);
    } else {
      TranslateUnderDir(from, to, relative);
    }
  }

  lemma LStripTwice(t: string)
    ensures LStrip(LStrip(t)) == LStrip(t)
  {
  }

  lemma TranslateBareRoot(from: string, to: string)
    requires IsRoot(from)
    ensures TranslateRestorePath(LStrip(RStrip(from)), from, to) == RStrip(to)
  {
    hide TranslateRestorePath;
    var r := RStrip(from);
    if r == "" {
      LStripSlash("");
      assert "/" + "" == "/";
      TranslateUnderSlash(from, to, "");
    } else {
      TranslateName(r, from, to);
      assert r[|r|..] == "";
    }
  }

  /** Moving a path from one root to another and back is the identity exactly when its relative part is
      not empty and does not start with a slash. */
  lemma ThereAndBack(a: string, b: string, relative: string)
    requires IsRoot(a) && IsRoot(b)
    ensures var there := TranslateRestorePath(LStrip(Under(a, relative)), a, b);
      TranslateRestorePath(LStrip(there), b, a) == Under(a, relative) <==> relative != "" && relative[0] != '/'
  {
    hide TranslateRestorePath, RStrip;
    var rel := LStrip(relative);
    TranslateUnder(a, b, relative);
    if rel != "" {
      LStripTwice(relative);
      TranslateUnder(b, a, rel);
      assert |Under(a, rel)| == |RStrip(a)| + 1 + |rel|;
      assert |Under(a, relative)| == |RStrip(a)| + 1 + |relative|;
    } else {
      TranslateBareRoot(b, a);
      assert |Under(a, relative)| > |RStrip(a)|;
    }
  }

  /** A path outside the backed up root stays where it was. */
  lemma TranslateOutside(path: string, from: string, to: string)
    requires IsRoot(from) && |path| > 1 && path[0] == '/' && path[1] != '/' && !IsUnder(path, RStrip(from))
    ensures TranslateRestorePath(LStrip(path), from, to) == path
  {
    TranslateName(path, from, to);
  }

  /** Distinct files under the backed up root never land on the same path. */
  lemma TranslateInjective(from: string, to: string, x: string, y: string)
    requires IsRoot(from) && x != "" && x[0] != '/' && y != "" && y[0] != '/'
    ensures TranslateRestorePath(LStrip(Under(from, x)), from, to) == TranslateRestorePath(LStrip(Under(from, y)), from, to)
      ==> x == y
  {
    assert LStrip(x) == x && LStrip(y) == y;
    TranslateUnder(from, to, x);
    TranslateUnder(from, to, y);
    var n := |RStrip(to)| + 1;
    assert Under(to, x)[n..] == x && Under(to, y)[n..] == y;
  }

  /** An archive that names no root is restored to the root of the file system. */
  lemma TranslateWithoutRoot(name: string, to: string)
    requires name == "" || name[0] != '/'
    ensures TranslateRestorePath(name, "", to) == "/" + name
  {
  }

  /** A pattern under the backed up root moves under the current one, the slashes in front of the rest dropped. */
  lemma PatternUnder(from: string, to: string, rest: string)
    requires from != ""
    ensures TranslatePattern(RStrip(from) + "/" + rest, from, to)
      == if LStrip(rest) != "" then RStrip(to) + "/" + LStrip(rest) else RStrip(to)
    ensures TranslatePattern(RStrip(from), from, to) == RStrip(to)
  {
    hide LStrip, RStrip, Relocate;
    RelocateUnder(RStrip(from), RStrip(to), rest);
    RelocateBare(RStrip(from), RStrip(to));
  }

  lemma RelocateBare(r: string, to: string)
    ensures IsUnder(r, r) && Relocate(r, r, to) == to
  {
    assert r[|r|..] == "";
  }

  /** Any other pattern stays, and all do if the archive names no root. */
  lemma PatternOutside(pattern: string, from: string, to: string)
    requires from == "" || (pattern != RStrip(from) && !(RStrip(from) + "/" <= pattern))
    ensures TranslatePattern(pattern, from, to) == pattern
  {
  }
}
