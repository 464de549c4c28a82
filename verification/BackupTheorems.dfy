/** What a restore keeps, where files end up, and what a preview foretells. */
module BackupTheorems {
  import opened BackupPaths
  import opened BackupRestoreSpec

  function TargetAt(a: Archive, s: Setting, i: nat): string
    requires i < |FileNames(a.names)|
  {
    Target(a, s, FileNames(a.names)[i])
  }

  function BackupAt(a: Archive, s: Setting, i: nat): string
    requires i < |FileNames(a.names)|
  {
    BackupName(TargetAt(a, s, i), s.stamp(i))
  }

  // ---------- Every entry is reported once ----------

  datatype Kind = WasRestored | WasSkipped | WasError

  /** The names that got a given kind, in order. */
  function Picks(names: seq<string>, kinds: seq<Kind>, kind: Kind): seq<string>
    requires |names| == |kinds|
  {
    if names == [] then [] else
    var before := Picks(names[..|names| - 1], kinds[..|kinds| - 1], kind);
    if kinds[|kinds| - 1] == kind then before + [names[|names| - 1]] else before
  }

  function PlacedPaths(ps: seq<Placed>): (r: seq<string>)
    ensures |r| == |ps|
  {
    if ps == [] then [] else PlacedPaths(ps[..|ps| - 1]) + [ps[|ps| - 1].archivePath]
  }

  function SkippedPaths(ps: seq<Skipped>): (r: seq<string>)
    ensures |r| == |ps|
  {
    if ps == [] then [] else SkippedPaths(ps[..|ps| - 1]) + [ps[|ps| - 1].archivePath]
  }

  /** What becomes of the `i`th file when the report so far is `r`. */
  function KindOf(a: Archive, s: Setting, r: Report, i: nat): Kind
    requires i < |FileNames(a.names)|
  {
    var target := TargetAt(a, s, i);
    if !Matched(s, target) || (target in r.files && s.policy == Skip) then WasSkipped
    else if target in s.blocked then WasError
    else WasRestored
  }

  lemma EntryReported(a: Archive, s: Setting, r: Report, i: nat)
    requires a.Valid() && i < |FileNames(a.names)|
    ensures var r' := RestoreEntry(a, s, r, i); var name := FileNames(a.names)[i]; var kind := KindOf(a, s, r, i);
      && PlacedPaths(r'.restored) == Extend(PlacedPaths(r.restored), name, kind == WasRestored)
      && SkippedPaths(r'.skipped) == Extend(SkippedPaths(r.skipped), name, kind == WasSkipped)
      && r'.errors == Extend(r.errors, name, kind == WasError)
  {
    hide FileNames, Target, Matched, Move, BackupName, PlacedPaths, SkippedPaths;
    var name, target := FileNames(a.names)[i], TargetAt(a, s, i);
    PlacedLast(r.restored, Placed(name, target));
    SkippedLast(r.skipped, Skipped(name, NotMatchedByPattern));
    SkippedLast(r.skipped, Skipped(name, FileExistsSkipPolicy));
  }

  lemma PlacedLast(ps: seq<Placed>, p: Placed)
    ensures PlacedPaths(ps + [p]) == PlacedPaths(ps) + [p.archivePath]
  {
    assert (ps + [p])[..|ps|] == ps;
  }

  lemma SkippedLast(ps: seq<Skipped>, p: Skipped)
    ensures SkippedPaths(ps + [p]) == SkippedPaths(ps) + [p.archivePath]
  {
    assert (ps + [p])[..|ps|] == ps;
  }

  function Extend(names: seq<string>, name: string, take: bool): seq<string> {
    if take then names + [name] else names
  }

  lemma PicksLast(names: seq<string>, name: string, kinds: seq<Kind>, kind: Kind, k: Kind)
    requires |names| == |kinds|
    ensures Picks(names + [name], kinds + [kind], k) == Extend(Picks(names, kinds, k), name, kind == k)
  {
    assert (names + [name])[..|names|] == names && (kinds + [kind])[..|kinds|] == kinds;
  }

  /** The three lists of the report partition the first `n` files of the archive, each in archive order. */
  lemma {:induction false} EntriesPartitioned(a: Archive, s: Setting, files: Files, n: nat) returns (kinds: seq<Kind>)
    requires a.Valid() && n <= |FileNames(a.names)|
    ensures |kinds| == n
    ensures var r := RestoreFirst(a, s, files, n); var names := FileNames(a.names)[..n];
      && Picks(names, kinds, WasRestored) == PlacedPaths(r.restored)
      && Picks(names, kinds, WasSkipped) == SkippedPaths(r.skipped)
      && Picks(names, kinds, WasError) == r.errors
    ensures s.blocked == {} ==> WasError !in kinds
  {
    hide FileNames, RestoreEntry, Picks;
    if n == 0 {
      kinds := NoEntries(a, s, files);
      return;
    }
    var before := EntriesPartitioned(a, s, files, n - 1);
    var r := RestoreFirst(a, s, files, n - 1);
    var kind := KindOf(a, s, r, n - 1);
    var names, name := FileNames(a.names)[..n - 1], FileNames(a.names)[n - 1];
    kinds := before + [kind];
    EntryReported(a, s, r, n - 1);
    assert FileNames(a.names)[..n] == names + [name];
    PicksLast(names, name, before, kind, WasRestored);
    PicksLast(names, name, before, kind, WasSkipped);
    PicksLast(names, name, before, kind, WasError);
  }

  lemma NoEntries(a: Archive, s: Setting, files: Files) returns (kinds: seq<Kind>)
    requires a.Valid()
    ensures kinds == [] && RestoreFirst(a, s, files, 0) == Report(files, [], [], [])
    ensures forall k :: Picks([], kinds, k) == []
    ensures PlacedPaths([]) == [] && SkippedPaths([]) == [] && FileNames(a.names)[..0] == []
  {
    kinds := [];
  }

  // ---------- Overwrite policies lose nothing ----------

  /** Under "skip" no file that was there changes. */
  lemma {:induction false} SkipKeepsFiles(a: Archive, s: Setting, files: Files, n: nat)
    requires a.Valid() && s.policy == Skip && n <= |FileNames(a.names)|
    ensures forall p :: p in files ==> p in RestoreFirst(a, s, files, n).files && RestoreFirst(a, s, files, n).files[p] == files[p]
  {
    if n > 0 {
      SkipKeepsFiles(a, s, files, n - 1);
    }
  }

  /** The backup names are new: not existing, and not targets. */
  ghost predicate NewNames(a: Archive, s: Setting, files: Files) {
    var n := |FileNames(a.names)|;
    && (forall i :: 0 <= i < n ==> BackupAt(a, s, i) !in files)
    && (forall i, j :: 0 <= i < n && 0 <= j < n ==> BackupAt(a, s, i) != TargetAt(a, s, j))
  }

  /** And different from one another. */
  ghost predicate FreshBackups(a: Archive, s: Setting, files: Files) {
    && NewNames(a, s, files)
    && forall i, j :: 0 <= i < j < |FileNames(a.names)| ==> BackupAt(a, s, i) != BackupAt(a, s, j)
  }

  /** The old content of `p` is at `p`, or at one of its backup names. */
  ghost predicate Survives(a: Archive, s: Setting, files: Files, now: Files, p: string, n: nat)
    requires n <= |FileNames(a.names)| && p in files
  {
    || (p in now && now[p] == files[p])
    || exists i :: 0 <= i < n && p == TargetAt(a, s, i) && BackupAt(a, s, i) in now && now[BackupAt(a, s, i)] == files[p]
  }

  /** Under "backup", with new backup names, every old content survives, whatever fails and however many
      entries share a target. */
  lemma {:induction false} BackupLosesNothing(a: Archive, s: Setting, files: Files, n: nat)
    requires a.Valid() && s.policy == Backup && n <= |FileNames(a.names)| && FreshBackups(a, s, files)
    ensures forall p :: p in files ==> Survives(a, s, files, RestoreFirst(a, s, files, n).files, p, n)
  {
    hide FileNames, Target;
    if n > 0 {
      BackupLosesNothing(a, s, files, n - 1);
      forall p | p in files ensures Survives(a, s, files, RestoreFirst(a, s, files, n).files, p, n) {
        BackupStep(a, s, files, p, n);
      }
    }
  }

  /** Nothing but `t` and `b` changed. */
  ghost predicate OnlyAt(before: Files, after: Files, t: string, b: string) {
    forall p :: p != t && p != b ==> (p in after <==> p in before) && (p in before ==> after[p] == before[p])
  }

  lemma BackupStep(a: Archive, s: Setting, files: Files, p: string, n: nat)
    requires a.Valid() && s.policy == Backup && 0 < n <= |FileNames(a.names)| && p in files && FreshBackups(a, s, files)
    requires Survives(a, s, files, RestoreFirst(a, s, files, n - 1).files, p, n - 1)
    ensures Survives(a, s, files, RestoreFirst(a, s, files, n).files, p, n)
  {
    hide FileNames, Target;
    var now, next := RestoreFirst(a, s, files, n - 1).files, RestoreFirst(a, s, files, n).files;
    var t, b := TargetAt(a, s, n - 1), BackupAt(a, s, n - 1);
    assert OnlyAt(now, next, t, b);
    if p == t && t in now && now[t] == files[t] {
      assert (t in next && next[t] == now[t]) || (b in next && next[b] == now[t]);
    } else if !(p in now && now[p] == files[p]) {
      var i :| 0 <= i < n - 1 && p == TargetAt(a, s, i) && BackupAt(a, s, i) in now && now[BackupAt(a, s, i)] == files[p];
      assert BackupAt(a, s, i) != t && BackupAt(a, s, i) != b;
    }
  }

  // ---------- Backups within the same second ----------

  /** The entry passes the patterns and its target is `p`. */
  predicate Replaces(a: Archive, s: Setting, i: nat, p: string)
    requires i < |FileNames(a.names)|
  {
    Matched(s, TargetAt(a, s, i)) && TargetAt(a, s, i) == p
  }

  /** It is the first to replace what was there. */
  ghost predicate IsFirst(a: Archive, s: Setting, i: nat, p: string)
    requires i < |FileNames(a.names)|
  {
    Replaces(a, s, i, p) && forall k :: 0 <= k < i ==> !Replaces(a, s, k, p)
  }

  /** No entry up to `n` that replaces `p` again reads the clock in the second in which the first did. */
  ghost predicate OtherSeconds(a: Archive, s: Setting, p: string, n: nat)
    requires n <= |FileNames(a.names)|
  {
    forall i, j :: 0 <= i < j < n && IsFirst(a, s, i, p) && Replaces(a, s, j, p) ==> s.stamp(i) != s.stamp(j)
  }

  /** The length of a time stamp: `%Y%m%d_%H%M%S`. */
  const STAMP_LENGTH := 15

  /** What a restore may assume here: new backup names, time stamps as printed, contents that differ from
      those they replace, and every target writable. */
  ghost predicate Plain(a: Archive, s: Setting, files: Files) {
    && a.Valid() && s.policy == Backup && s.blocked == {} && NewNames(a, s, files)
    && (forall i :: |s.stamp(i)| == STAMP_LENGTH)
    && forall i :: 0 <= i < |FileNames(a.names)| && TargetAt(a, s, i) in files ==>
      a.contents[FileNames(a.names)[i]] != files[TargetAt(a, s, i)]
  }

  lemma BackupNamesDiffer(t: string, t': string, stamp: string, stamp': string)
    requires |stamp| == |stamp'| && BackupName(t, stamp) == BackupName(t', stamp')
    ensures t == t' && stamp == stamp'
  {
    var x := BackupName(t, stamp);
    assert |t| == |t'|;
    assert t == x[..|t|] == t' && stamp == x[|x| - |stamp|..] == stamp';
  }

  /** The backup of the first entry to replace `p` has the name that the `i`th entry would use, and is still there. */
  ghost predicate KeptAt(a: Archive, s: Setting, p: string, i: nat, n: nat)
    requires n <= |FileNames(a.names)|
  {
    exists f :: 0 <= f < n && IsFirst(a, s, f, p) && s.stamp(f) == s.stamp(i) && OtherSeconds(a, s, p, n)
  }

  /** After `n` entries: where the old content of `p` is. */
  ghost predicate Whereabouts(a: Archive, s: Setting, files: Files, now: Files, p: string, n: nat)
    requires n <= |FileNames(a.names)| && p in files
  {
    && p in now
    && (now[p] == files[p] <==> forall i :: 0 <= i < n ==> !Replaces(a, s, i, p))
    && BackupsKnown(a, s, files, now, p, n)
  }

  ghost predicate BackupsKnown(a: Archive, s: Setting, files: Files, now: Files, p: string, n: nat)
    requires n <= |FileNames(a.names)| && p in files
  {
    forall i :: 0 <= i < |FileNames(a.names)| && Replaces(a, s, i, p) ==>
      (BackupAt(a, s, i) in now && now[BackupAt(a, s, i)] == files[p] <==> KeptAt(a, s, p, i, n))
  }

  lemma {:induction false} SomeFirst(a: Archive, s: Setting, i: nat, p: string) returns (f: nat)
    requires i < |FileNames(a.names)| && Replaces(a, s, i, p)
    ensures f <= i && IsFirst(a, s, f, p)
  {
    f := 0;
    while !Replaces(a, s, f, p)
      invariant f <= i && forall k :: 0 <= k < f ==> !Replaces(a, s, k, p)
      decreases i - f
    {
      f := f + 1;
    }
  }

  /** The existing file moved to its backup name, the entry's content in its place. */
  function Moved(a: Archive, s: Setting, now: Files, i: nat): Files
    requires a.Valid() && i < |FileNames(a.names)|
  {
    if TargetAt(a, s, i) !in now then now
    else now[BackupAt(a, s, i) := now[TargetAt(a, s, i)]][TargetAt(a, s, i) := a.contents[FileNames(a.names)[i]]]
  }

  /** The file system after an entry that is restored over an existing file. */
  lemma ReplaceStep(a: Archive, s: Setting, r: Report, i: nat)
    requires a.Valid() && s.policy == Backup && s.blocked == {} && i < |FileNames(a.names)|
    requires Matched(s, TargetAt(a, s, i)) && TargetAt(a, s, i) in r.files && BackupAt(a, s, i) != TargetAt(a, s, i)
    ensures RestoreEntry(a, s, r, i).files == Moved(a, s, r.files, i)
  {
    hide FileNames, Target;
  }

  lemma OtherStep(a: Archive, s: Setting, r: Report, i: nat)
    requires a.Valid() && s.policy == Backup && i < |FileNames(a.names)|
    ensures OnlyAt(r.files, RestoreEntry(a, s, r, i).files, TargetAt(a, s, i), BackupAt(a, s, i))
    ensures !Matched(s, TargetAt(a, s, i)) ==> RestoreEntry(a, s, r, i) .files == r.files
  {
    hide FileNames, Target;
  }

  lemma {:induction false} WhereaboutsAfter(a: Archive, s: Setting, files: Files, p: string, n: nat)
    requires Plain(a, s, files) && p in files && n <= |FileNames(a.names)|
    ensures Whereabouts(a, s, files, RestoreFirst(a, s, files, n).files, p, n)
  {
    hide FileNames, TargetAt, BackupAt, RestoreEntry, Matched;
    if n == 0 {
      NotYet(a, s, files, p);
    } else {
      WhereaboutsAfter(a, s, files, p, n - 1);
      var r := RestoreFirst(a, s, files, n - 1);
      if Replaces(a, s, n - 1, p) {
        ReplaceStep(a, s, r, n - 1) by { NamesApart(a, s, files, n - 1, n - 1); }
        Replaced(a, s, files, r.files, p, n);
      } else {
        OtherStep(a, s, r, n - 1);
        NotReplaced(a, s, files, r.files, RestoreEntry(a, s, r, n - 1).files, p, n);
      }
    }
  }

  lemma NamesApart(a: Archive, s: Setting, files: Files, i: nat, j: nat)
    requires Plain(a, s, files) && i < |FileNames(a.names)| && j < |FileNames(a.names)|
    ensures BackupAt(a, s, i) != TargetAt(a, s, j) && BackupAt(a, s, i) !in files
    ensures BackupAt(a, s, i) == BackupAt(a, s, j) <==> TargetAt(a, s, i) == TargetAt(a, s, j) && s.stamp(i) == s.stamp(j)
  {
    hide FileNames, Target;
    if BackupAt(a, s, i) == BackupAt(a, s, j) {
      BackupNamesDiffer(TargetAt(a, s, i), TargetAt(a, s, j), s.stamp(i), s.stamp(j));
    }
  }

  lemma NotYet(a: Archive, s: Setting, files: Files, p: string)
    requires Plain(a, s, files) && p in files
    ensures Whereabouts(a, s, files, files, p, 0)
  {
    hide FileNames, Target;
  }

  lemma NotReplaced(a: Archive, s: Setting, files: Files, now: Files, next: Files, p: string, n: nat)
    requires Plain(a, s, files) && p in files && 0 < n <= |FileNames(a.names)| && !Replaces(a, s, n - 1, p)
    requires Whereabouts(a, s, files, now, p, n - 1)
    requires OnlyAt(now, next, TargetAt(a, s, n - 1), BackupAt(a, s, n - 1))
    requires !Matched(s, TargetAt(a, s, n - 1)) ==> next == now
    ensures Whereabouts(a, s, files, next, p, n)
  {
    hide FileNames, TargetAt, BackupAt, Matched;
    var t, b := TargetAt(a, s, n - 1), BackupAt(a, s, n - 1);
    NamesApart(a, s, files, n - 1, n - 1);
    assert p != b;
    assert next == now || p != t;
    assert OtherSeconds(a, s, p, n) == OtherSeconds(a, s, p, n - 1);
    forall i | 0 <= i < |FileNames(a.names)| && Replaces(a, s, i, p)
      ensures BackupAt(a, s, i) in next && next[BackupAt(a, s, i)] == files[p]
        <==> KeptAt(a, s, p, i, n)
    {
      NamesApart(a, s, files, i, n - 1);
      assert TargetAt(a, s, i) == p;
      assert next == now || BackupAt(a, s, i) != b;
    }
  }

  lemma Replaced(a: Archive, s: Setting, files: Files, now: Files, p: string, n: nat)
    requires Plain(a, s, files) && p in files && 0 < n <= |FileNames(a.names)| && Replaces(a, s, n - 1, p)
    requires Whereabouts(a, s, files, now, p, n - 1)
    ensures Whereabouts(a, s, files, Moved(a, s, now, n - 1), p, n)
  {
    hide FileNames, TargetAt, BackupAt, Matched, Whereabouts, OtherSeconds;
    if IsFirst(a, s, n - 1, p) {
      ReplacedFirst(a, s, files, now, p, n);
    } else {
      var k :| 0 <= k < n - 1 && Replaces(a, s, k, p);
      var f := SomeFirst(a, s, k, p);
      ReplacedAgain(a, s, files, now, p, n, f);
    }
  }

  lemma ReplacedFirst(a: Archive, s: Setting, files: Files, now: Files, p: string, n: nat)
    requires Plain(a, s, files) && p in files && 0 < n <= |FileNames(a.names)| && IsFirst(a, s, n - 1, p)
    requires Whereabouts(a, s, files, now, p, n - 1)
    ensures Whereabouts(a, s, files, Moved(a, s, now, n - 1), p, n)
  {
    hide FileNames, TargetAt, BackupAt, Matched;
    var next := Moved(a, s, now, n - 1);
    NewContent(a, s, files, p, n - 1);
    assert TargetAt(a, s, n - 1) == p && now[p] == files[p];
    NamesApart(a, s, files, n - 1, n - 1);
    assert OtherSeconds(a, s, p, n);
    forall i | 0 <= i < |FileNames(a.names)| && Replaces(a, s, i, p)
      ensures BackupAt(a, s, i) in next && next[BackupAt(a, s, i)] == files[p]
        <==> KeptAt(a, s, p, i, n)
    {
      NamesApart(a, s, files, i, n - 1);
      assert TargetAt(a, s, i) == p;
    }
  }

  lemma ReplacedAgain(a: Archive, s: Setting, files: Files, now: Files, p: string, n: nat, f: nat)
    requires Plain(a, s, files) && p in files && f + 1 < n <= |FileNames(a.names)| && Replaces(a, s, n - 1, p) && IsFirst(a, s, f, p)
    requires Whereabouts(a, s, files, now, p, n - 1)
    ensures Whereabouts(a, s, files, Moved(a, s, now, n - 1), p, n)
  {
    assert a.Valid();
    hide FileNames, TargetAt, BackupAt, Matched, Plain, IsFirst, BackupsKnown;
    NewContent(a, s, files, p, n - 1);
    FirstReplaces(a, s, p, f);
    NamesApart(a, s, files, n - 1, n - 1);
    AgainKnown(a, s, files, now, p, n, f);
  }

  lemma AgainKnown(a: Archive, s: Setting, files: Files, now: Files, p: string, n: nat, f: nat)
    requires Plain(a, s, files) && p in files && f + 1 < n <= |FileNames(a.names)| && Replaces(a, s, n - 1, p) && IsFirst(a, s, f, p)
    requires p in now && now[p] != files[p] && BackupsKnown(a, s, files, now, p, n - 1)
    ensures BackupsKnown(a, s, files, Moved(a, s, now, n - 1), p, n)
  {
    assert a.Valid();
    hide FileNames, TargetAt, BackupAt, Matched, Plain, KeptAt, IsFirst, OtherSeconds, Replaces, Moved;
    var next := Moved(a, s, now, n - 1);
    forall i | 0 <= i < |FileNames(a.names)| && Replaces(a, s, i, p)
      ensures BackupAt(a, s, i) in next && next[BackupAt(a, s, i)] == files[p] <==> KeptAt(a, s, p, i, n)
    {
      AgainAt(a, s, files, now, p, n, f, i);
    }
  }

  lemma FirstReplaces(a: Archive, s: Setting, p: string, f: nat)
    requires f < |FileNames(a.names)| && IsFirst(a, s, f, p)
    ensures Replaces(a, s, f, p)
  {
  }

  lemma AgainAt(a: Archive, s: Setting, files: Files, now: Files, p: string, n: nat, f: nat, i: nat)
    requires Plain(a, s, files) && p in files && f + 1 < n <= |FileNames(a.names)| && i < |FileNames(a.names)|
    requires Replaces(a, s, n - 1, p) && IsFirst(a, s, f, p) && Replaces(a, s, i, p)
    requires p in now && now[p] != files[p]
    requires BackupAt(a, s, i) in now && now[BackupAt(a, s, i)] == files[p] <==> KeptAt(a, s, p, i, n - 1)
    ensures var next := Moved(a, s, now, n - 1);
      BackupAt(a, s, i) in next && next[BackupAt(a, s, i)] == files[p] <==> KeptAt(a, s, p, i, n)
  {
    hide FileNames, TargetAt, BackupAt, Matched, KeptAt, IsFirst, OtherSeconds;
    NamesApart(a, s, files, i, n - 1);
    SecondsNext(a, s, p, n, f);
    KeptAtFirst(a, s, p, i, n, f);
    KeptAtFirst(a, s, p, i, n - 1, f);
  }

  lemma KeptAtFirst(a: Archive, s: Setting, p: string, i: nat, n: nat, f: nat)
    requires f < n <= |FileNames(a.names)| && IsFirst(a, s, f, p)
    ensures KeptAt(a, s, p, i, n) <==> s.stamp(f) == s.stamp(i) && OtherSeconds(a, s, p, n)
  {
    hide FileNames, TargetAt, Matched, OtherSeconds;
  }

  lemma NewContent(a: Archive, s: Setting, files: Files, p: string, i: nat)
    requires Plain(a, s, files) && p in files && i < |FileNames(a.names)| && Replaces(a, s, i, p)
    ensures a.contents[FileNames(a.names)[i]] != files[p]
  {
    hide FileNames, Target, Matched;
    assert TargetAt(a, s, i) == p;
  }

  lemma SecondsNext(a: Archive, s: Setting, p: string, n: nat, f: nat)
    requires f + 1 < n <= |FileNames(a.names)| && Replaces(a, s, n - 1, p) && IsFirst(a, s, f, p)
    ensures OtherSeconds(a, s, p, n) <==> OtherSeconds(a, s, p, n - 1) && s.stamp(f) != s.stamp(n - 1)
  {
    hide FileNames, TargetAt, Matched;
  }

  /** Each old content is at its own path or at one of its backup names if and only if no later entry with
      the same existing target is restored within the second of the first. */
  lemma BackupLosesExactly(a: Archive, s: Setting, files: Files)
    requires Plain(a, s, files)
    ensures var n := |FileNames(a.names)|; var now := RestoreFirst(a, s, files, n).files;
      (forall p :: p in files ==> Survives(a, s, files, now, p, n)) <==> (forall p :: p in files ==> OtherSeconds(a, s, p, n))
  {
    assert a.Valid();
    hide FileNames, TargetAt, BackupAt, Matched, RestoreEntry, Plain, OtherSeconds;
    var n := |FileNames(a.names)|;
    var now := RestoreFirst(a, s, files, n).files;
    forall p | p in files ensures Survives(a, s, files, now, p, n) <==> OtherSeconds(a, s, p, n) {
      WhereaboutsAfter(a, s, files, p, n);
      SurvivesExactly(a, s, files, now, p);
    }
  }

  lemma SurvivesExactly(a: Archive, s: Setting, files: Files, now: Files, p: string)
    requires Plain(a, s, files) && p in files && Whereabouts(a, s, files, now, p, |FileNames(a.names)|)
    ensures Survives(a, s, files, now, p, |FileNames(a.names)|) <==> OtherSeconds(a, s, p, |FileNames(a.names)|)
  {
    hide FileNames, TargetAt, BackupAt, Matched;
    var n := |FileNames(a.names)|;
    if i :| 0 <= i < n && Replaces(a, s, i, p) {
      var f := SomeFirst(a, s, i, p);
      assert TargetAt(a, s, f) == p;
    }
  }

  // ---------- The preview foretells the restore ----------

  /** The entries a restore tries to write, in order, whether or not the write succeeds. */
  function AttemptedFirst(a: Archive, s: Setting, files: Files, n: nat): seq<Placed>
    requires a.Valid() && n <= |FileNames(a.names)|
  {
    if n == 0 then []
    else
      var r, r' := RestoreFirst(a, s, files, n - 1), RestoreFirst(a, s, files, n);
      AttemptedFirst(a, s, files, n - 1)
      + if r'.skipped == r.skipped then [Placed(FileNames(a.names)[n - 1], TargetAt(a, s, n - 1))] else []
  }

  /** Without I/O errors what is attempted is what is restored. */
  lemma {:induction false} AttemptedIsRestored(a: Archive, s: Setting, files: Files, n: nat)
    requires a.Valid() && s.blocked == {} && n <= |FileNames(a.names)|
    ensures AttemptedFirst(a, s, files, n) == RestoreFirst(a, s, files, n).restored
  {
    hide FileNames, Target;
    if n > 0 {
      AttemptedIsRestored(a, s, files, n - 1);
    }
  }

  /** For policies other than "skip" neither the files that exist nor those cleaned first matter. */
  lemma {:induction false} PreviewForetells(a: Archive, s: Setting, files: Files, clean: set<string>, n: nat)
    requires a.Valid() && s.policy != Skip && n <= |FileNames(a.names)|
    ensures PreviewFirst(a, s, files, n)
      == Preview(AttemptedFirst(a, s, files - clean, n), RestoreFirst(a, s, files - clean, n).skipped)
  {
    hide FileNames, Target;
    if n > 0 {
      PreviewForetells(a, s, files, clean, n - 1);
    }
  }

  /** A new target of an entry that passes the patterns. */
  predicate NewTarget(a: Archive, s: Setting, files: Files, i: nat)
    requires i < |FileNames(a.names)|
  {
    Matched(s, TargetAt(a, s, i)) && TargetAt(a, s, i) !in files
  }

  /** No two entries that pass the patterns create the same file. */
  ghost predicate NoSharedNewTarget(a: Archive, s: Setting, files: Files) {
    forall i, j :: 0 <= i < j < |FileNames(a.names)| && NewTarget(a, s, files, i) && NewTarget(a, s, files, j)
      ==> TargetAt(a, s, i) != TargetAt(a, s, j)
  }

  /** Under "skip", what exists after `n` entries: what did, and targets of earlier new entries. */
  lemma {:induction false} SkipCreates(a: Archive, s: Setting, files: Files, n: nat)
    requires a.Valid() && s.policy == Skip && n <= |FileNames(a.names)|
    ensures forall p :: p in RestoreFirst(a, s, files, n).files ==>
      p in files || exists i :: 0 <= i < n && NewTarget(a, s, files, i) && p == TargetAt(a, s, i)
    ensures forall p :: p in files ==> p in RestoreFirst(a, s, files, n).files
    ensures s.blocked == {} ==> forall i :: 0 <= i < n && NewTarget(a, s, files, i) ==>
      TargetAt(a, s, i) in RestoreFirst(a, s, files, n).files
  {
    hide FileNames, Target;
    if n > 0 {
      SkipCreates(a, s, files, n - 1);
      assert NewTarget(a, s, files, n - 1) || !Matched(s, TargetAt(a, s, n - 1)) || TargetAt(a, s, n - 1) in files;
    }
  }

  lemma {:induction false} SkipForetells(a: Archive, s: Setting, files: Files, n: nat)
    requires a.Valid() && s.policy == Skip && n <= |FileNames(a.names)| && NoSharedNewTarget(a, s, files)
    ensures PreviewFirst(a, s, files, n) == Preview(AttemptedFirst(a, s, files, n), RestoreFirst(a, s, files, n).skipped)
  {
    hide FileNames, Target;
    if n > 0 {
      SkipForetells(a, s, files, n - 1);
      SkipCreates(a, s, files, n - 1);
      var t := TargetAt(a, s, n - 1);
      assert Matched(s, t) ==> (t in RestoreFirst(a, s, files, n - 1).files <==> t in files);
    }
  }

  /** How many more entries a preview lists than a restore writes. */
  lemma {:induction false} PreviewExceeds(a: Archive, s: Setting, files: Files, i: nat, j: nat, n: nat)
    requires a.Valid() && s.policy == Skip && s.blocked == {} && i < j < |FileNames(a.names)| && n <= |FileNames(a.names)|
    requires NewTarget(a, s, files, i) && NewTarget(a, s, files, j) && TargetAt(a, s, i) == TargetAt(a, s, j)
    ensures |PreviewFirst(a, s, files, n).toRestore|
      >= |RestoreFirst(a, s, files, n).restored| + if n > j then 1 else 0
  {
    hide FileNames, Target;
    if n > 0 {
      PreviewExceeds(a, s, files, i, j, n - 1);
      SkipCreates(a, s, files, n - 1);
    }
  }

  /** No entry that passes the patterns has a target that exists and is cleaned first. */
  ghost predicate NoCleanedTarget(a: Archive, s: Setting, files: Files, clean: set<string>) {
    forall i :: 0 <= i < |FileNames(a.names)| && Matched(s, TargetAt(a, s, i)) && TargetAt(a, s, i) in files
      ==> TargetAt(a, s, i) !in clean
  }

  /** What a preview lists under "skip" does not exist. */
  lemma {:induction false} PreviewListsNew(a: Archive, s: Setting, files: Files, n: nat)
    requires s.policy == Skip && n <= |FileNames(a.names)|
    ensures forall e :: e in PreviewFirst(a, s, files, n).toRestore ==> e.targetPath !in files
  {
    hide FileNames, Target;
    if n > 0 { PreviewListsNew(a, s, files, n - 1); }
  }

  /** Cleaned files come back, and are listed as restored. */
  lemma {:induction false} CleanedRestored(a: Archive, s: Setting, files: Files, i: nat, n: nat)
    requires a.Valid() && s.policy == Skip && s.blocked == {} && i < n <= |FileNames(a.names)|
    requires NewTarget(a, s, files, i)
    ensures exists e :: e in RestoreFirst(a, s, files, n).restored && e.targetPath == TargetAt(a, s, i)
  {
    hide FileNames, TargetAt, Matched;
    if n - 1 > i {
      CleanedRestored(a, s, files, i, n - 1);
      RestoredGrows(a, s, RestoreFirst(a, s, files, n - 1), n - 1);
    } else {
      CleanedNow(a, s, files, i);
    }
  }

  lemma RestoredGrows(a: Archive, s: Setting, r: Report, i: nat)
    requires a.Valid() && i < |FileNames(a.names)|
    ensures r.restored <= RestoreEntry(a, s, r, i).restored
  {
    hide FileNames, Target;
  }

  lemma CleanedNow(a: Archive, s: Setting, files: Files, i: nat)
    requires a.Valid() && s.policy == Skip && s.blocked == {} && i < |FileNames(a.names)| && NewTarget(a, s, files, i)
    ensures exists e :: e in RestoreFirst(a, s, files, i + 1).restored && e.targetPath == TargetAt(a, s, i)
  {
    var t := TargetAt(a, s, i);
    var r := RestoreFirst(a, s, files, i);
    if t in r.files {
      var e := RestoredFrom(a, s, files, i, t);
      RestoredGrows(a, s, r, i);
    } else {
      hide FileNames, Target;
      assert Placed(FileNames(a.names)[i], t) in RestoreEntry(a, s, r, i).restored;
    }
  }

  /** A file that was not there before was restored. */
  lemma {:induction false} RestoredFrom(a: Archive, s: Setting, files: Files, n: nat, t: string) returns (e: Placed)
    requires a.Valid() && s.policy == Skip && n <= |FileNames(a.names)| && t !in files && t in RestoreFirst(a, s, files, n).files
    ensures e in RestoreFirst(a, s, files, n).restored && e.targetPath == t
  {
    hide FileNames, Target;
    var r := RestoreFirst(a, s, files, n - 1);
    if t in r.files {
      e := RestoredFrom(a, s, files, n - 1, t);
    } else {
      e := Placed(FileNames(a.names)[n - 1], t);
    }
  }

  /** Under "skip", cleaning and no I/O errors included, the preview lists exactly what the restore writes, and
      the same skipped entries, if and only if no two entries create the same file and no existing target of
      an entry is cleaned first. */
  lemma SkipForetellsExactly(a: Archive, s: Setting, files: Files, clean: set<string>)
    requires a.Valid() && s.policy == Skip && s.blocked == {}
    ensures var r := Restore(a, s, files, clean);
      PreviewRestore(a, s, files) == Preview(r.restored, r.skipped)
      <==> NoSharedNewTarget(a, s, files) && NoCleanedTarget(a, s, files, clean)
  {
    hide RestoreFirst, PreviewFirst, FileNames, TargetAt, Matched, NoSharedNewTarget;
    var n := |FileNames(a.names)|;
    if !NoCleanedTarget(a, s, files, clean) {
      var i :| 0 <= i < n && Matched(s, TargetAt(a, s, i)) && TargetAt(a, s, i) in files && TargetAt(a, s, i) in clean;
      CleanedRestored(a, s, files - clean, i, n);
      PreviewListsNew(a, s, files, n);
    } else {
      CleanedElsewhere(a, s, files, clean, n);
      if NoSharedNewTarget(a, s, files) {
        SkipForetells(a, s, files - clean, n) by { SameNewTargets(a, s, files, clean); }
        AttemptedIsRestored(a, s, files - clean, n);
      } else {
        SharedListedTwice(a, s, files - clean) by { SameNewTargets(a, s, files, clean); }
      }
    }
  }

  /** Then cleaning makes no difference to the preview. */
  lemma {:induction false} CleanedElsewhere(a: Archive, s: Setting, files: Files, clean: set<string>, n: nat)
    requires n <= |FileNames(a.names)| && NoCleanedTarget(a, s, files, clean)
    ensures PreviewFirst(a, s, files, n) == PreviewFirst(a, s, files - clean, n)
  {
    hide FileNames, Target;
    if n > 0 {
      CleanedElsewhere(a, s, files, clean, n - 1);
      var t := TargetAt(a, s, n - 1);
      assert Matched(s, t) ==> (t in files <==> t in files - clean);
    }
  }

  lemma SameNewTargets(a: Archive, s: Setting, files: Files, clean: set<string>)
    requires NoCleanedTarget(a, s, files, clean)
    ensures NoSharedNewTarget(a, s, files) <==> NoSharedNewTarget(a, s, files - clean)
  {
    hide FileNames, TargetAt, Matched;
    assert forall i :: 0 <= i < |FileNames(a.names)| ==> NewTarget(a, s, files, i) == NewTarget(a, s, files - clean, i);
  }

  lemma SharedListedTwice(a: Archive, s: Setting, files: Files)
    requires a.Valid() && s.policy == Skip && s.blocked == {} && !NoSharedNewTarget(a, s, files)
    ensures var n := |FileNames(a.names)|;
      PreviewFirst(a, s, files, n).toRestore != RestoreFirst(a, s, files, n).restored
  {
    hide FileNames, TargetAt, Matched;
    var n := |FileNames(a.names)|;
    var i, j :| 0 <= i < j < n && NewTarget(a, s, files, i) && NewTarget(a, s, files, j) && TargetAt(a, s, i) == TargetAt(a, s, j);
    PreviewExceeds(a, s, files, i, j, n);
  }

  // ---------- Backup, then restore elsewhere ----------

  predicate IsRelative(r: string) {
    r != "" && r[0] != '/'
  }

  /** Different relative paths, none empty or absolute. */
  predicate Relatives(rs: seq<string>) {
    && (forall i :: 0 <= i < |rs| ==> IsRelative(rs[i]))
    && forall i, j :: 0 <= i < j < |rs| ==> rs[i] != rs[j]
  }

  function AllUnder(root: string, rs: seq<string>): (ps: seq<string>)
    ensures |ps| == |rs| && forall i :: 0 <= i < |ps| ==> ps[i] == Under(root, rs[i])
  {
    seq(|rs|, i requires 0 <= i < |rs| => Under(root, rs[i]))
  }

  /** The archive name of a file under a root other than `/`: it keeps a slash, so it is not metadata. */
  lemma NameUnder(root: string, r: string)
    requires IsRoot(root) && RStrip(root) != ""
    ensures LStrip(Under(root, r)) == Under(root, r)[1..] && !IsMetadata(LStrip(Under(root, r)))
  {
    var p := Under(root, r);
    assert p[0] == RStrip(root)[0] && p[1] == RStrip(root)[1];
    NameOf(p);
    assert p[|RStrip(root)|] == '/' && p[1..][|RStrip(root)| - 1] == '/';
    assert forall i :: 0 <= i < |"metadata.json"| ==> "metadata.json"[i] != '/';
    assert forall i :: 0 <= i < |"checksums.json"| ==> "checksums.json"[i] != '/';
  }

  lemma {:induction false} AllPresent(files: Files, paths: seq<string>)
    requires forall p :: p in paths ==> p in files
    ensures Present(files, paths) == paths
  {
    if paths != [] {
      AllPresent(files, paths[..|paths| - 1]);
    }
  }

  lemma {:induction false} NoMetadata(names: seq<string>)
    requires forall n :: n in names ==> !IsMetadata(n)
    ensures FileNames(names) == names
  {
    if names != [] {
      NoMetadata(names[1..]);
    }
  }

  lemma {:induction false} PackedContent(files: Files, paths: seq<string>, i: nat)
    requires i < |paths| && (forall p :: p in paths ==> p in files)
    requires forall j, k :: 0 <= j < k < |paths| ==> LStrip(paths[j]) != LStrip(paths[k])
    ensures Packed(files, paths)[LStrip(paths[i])] == files[paths[i]]
  {
    hide LStrip;
    if i < |paths| - 1 {
      PackedContent(files, paths[..|paths| - 1], i);
    }
  }

  ghost predicate Holds(files: Files, root: string, rs: seq<string>) {
    forall i :: 0 <= i < |rs| ==> Under(root, rs[i]) in files
  }

  lemma NamesUnder(root: string, rs: seq<string>)
    requires IsRoot(root) && RStrip(root) != "" && Relatives(rs)
    ensures var names := Names(AllUnder(root, rs));
      (forall n :: n in names ==> !IsMetadata(n)) && forall i, j :: 0 <= i < j < |rs| ==> names[i] != names[j]
  {
    hide LStrip, RStrip;
    var paths := AllUnder(root, rs);
    forall i | 0 <= i < |rs| ensures LStrip(paths[i]) == paths[i][1..] && !IsMetadata(LStrip(paths[i])) {
      NameUnder(root, rs[i]);
    }
    forall i, j | 0 <= i < j < |rs| ensures LStrip(paths[i]) != LStrip(paths[j]) {
      UnderDiffers(root, rs[i], rs[j]);
    }
  }

  /** The files of the archive are the ones that were matched. */
  lemma PackUnder(files: Files, root: string, rs: seq<string>)
    requires IsRoot(root) && RStrip(root) != "" && Relatives(rs) && Holds(files, root, rs)
    ensures var a := Pack(files, AllUnder(root, rs), root);
      FileNames(a.names) == Names(AllUnder(root, rs)) && a.contents == Packed(files, AllUnder(root, rs)) && a.root == root
  {
    hide LStrip, RStrip, Under;
    var paths := AllUnder(root, rs);
    AllPresent(files, paths);
    NamesUnder(root, rs);
    NoMetadata(Names(paths));
    assert (["metadata.json"] + Names(paths))[1..] == Names(paths);
  }

  /** Each with its content. */
  lemma PackUnderContent(files: Files, root: string, rs: seq<string>, i: nat)
    requires IsRoot(root) && RStrip(root) != "" && Relatives(rs) && Holds(files, root, rs) && i < |rs|
    ensures Packed(files, AllUnder(root, rs))[LStrip(Under(root, rs[i]))] == files[Under(root, rs[i])]
  {
    hide LStrip, RStrip, Under;
    NamesUnder(root, rs);
    var paths := AllUnder(root, rs);
    assert forall j :: 0 <= j < |paths| ==> Names(paths)[j] == LStrip(paths[j]);
    PackedContent(files, paths, i);
  }

  lemma UnderDiffers(root: string, x: string, y: string)
    requires x != y
    ensures Under(root, x) != Under(root, y) && Under(root, x)[1..] != Under(root, y)[1..]
  {
    var n := |RStrip(root)| + 1;
    assert Under(root, x)[n..] == x && Under(root, y)[n..] == y;
    assert Under(root, x)[1..][n - 1..] == x && Under(root, y)[1..][n - 1..] == y;
  }

  ghost predicate SameAt(now: Files, there: Files, p: string) {
    (p in now <==> p in there) && (p in there ==> now[p] == there[p])
  }

  ghost predicate IsTarget(to: string, rs: seq<string>, n: nat, p: string)
    requires n <= |rs|
  {
    exists i :: 0 <= i < n && p == Under(to, rs[i])
  }

  /** After `n` entries: their files are at the same relative paths under the new root, all else is as it was. */
  ghost predicate Relocated(now: Files, files: Files, there: Files, from: string, to: string, rs: seq<string>, n: nat)
    requires n <= |rs| && Holds(files, from, rs)
  {
    && (forall i :: 0 <= i < n ==> Under(to, rs[i]) in now && now[Under(to, rs[i])] == files[Under(from, rs[i])])
    && forall p :: !IsTarget(to, rs, n, p) ==> SameAt(now, there, p)
  }

  lemma EntryTarget(from: string, to: string, r: string)
    requires IsRoot(from) && IsRelative(r)
    ensures TranslateRestorePath(LStrip(Under(from, r)), from, to) == Under(to, r)
  {
    TranslateUnder(from, to, r);
    assert LStrip(r) == r;
  }

  lemma RelocatedStep(now: Files, files: Files, there: Files, from: string, to: string, rs: seq<string>, n: nat)
    requires 0 < n <= |rs| && Holds(files, from, rs) && Relatives(rs) && Relocated(now, files, there, from, to, rs, n - 1)
    ensures Relocated(now[Under(to, rs[n - 1]) := files[Under(from, rs[n - 1])]], files, there, from, to, rs, n)
  {
    forall i | 0 <= i < n - 1 ensures Under(to, rs[i]) != Under(to, rs[n - 1]) {
      UnderDiffers(to, rs[i], rs[n - 1]);
    }
    hide Under;
    var t, now' := Under(to, rs[n - 1]), now[Under(to, rs[n - 1]) := files[Under(from, rs[n - 1])]];
    forall p | !IsTarget(to, rs, n, p) ensures SameAt(now', there, p) {
      assert p != t && !IsTarget(to, rs, n - 1, p);
      assert SameAt(now, there, p);
    }
  }

  lemma OverwriteEntry(a: Archive, s: Setting, r: Report, i: nat)
    requires a.Valid() && i < |FileNames(a.names)| && s.spec == None && s.policy == Overwrite && s.blocked == {}
    ensures RestoreEntry(a, s, r, i).files == r.files[TargetAt(a, s, i) := a.contents[FileNames(a.names)[i]]]
  {
    hide FileNames, Target;
  }

  lemma {:induction false} RestoreRelocates(
    a: Archive, s: Setting, files: Files, there: Files, from: string, rs: seq<string>, n: nat)
    requires IsRoot(from) && RStrip(from) != "" && Relatives(rs) && n <= |rs| && Holds(files, from, rs)
    requires a == Pack(files, AllUnder(from, rs), from)
    requires s.spec == None && s.policy == Overwrite && s.blocked == {}
    ensures |FileNames(a.names)| == |rs|
    ensures Relocated(RestoreFirst(a, s, there, n).files, files, there, from, s.currentRoot, rs, n)
  {
    hide LStrip, RStrip, Pack, FileNames, Under, Relocated, RestoreEntry, TranslateRestorePath;
    PackUnder(files, from, rs);
    if n > 0 {
      RestoreRelocates(a, s, files, there, from, rs, n - 1);
      EntryTarget(from, s.currentRoot, rs[n - 1]);
      PackUnderContent(files, from, rs, n - 1);
      OverwriteEntry(a, s, RestoreFirst(a, s, there, n - 1), n - 1);
      RelocatedStep(RestoreFirst(a, s, there, n - 1).files, files, there, from, s.currentRoot, rs, n);
    } else {
      assert Relocated(there, files, there, from, s.currentRoot, rs, 0) by { RelocatedNone(files, there, from, s.currentRoot, rs); }
    }
  }

  lemma RelocatedNone(files: Files, there: Files, from: string, to: string, rs: seq<string>)
    requires Holds(files, from, rs)
    ensures Relocated(there, files, there, from, to, rs, 0)
  {
  }

  /** Files archived under one root and restored under another, overwriting, without patterns, cleaning
      or I/O errors: each file's content is at the same relative path, and every other path is unchanged. */
  lemma BackupThenRestore(files: Files, there: Files, from: string, to: string, rs: seq<string>, stamp: nat -> string)
    requires IsRoot(from) && RStrip(from) != "" && Relatives(rs) && Holds(files, from, rs)
    ensures var a := Pack(files, AllUnder(from, rs), from);
      var r := Restore(a, Setting(to, None, Overwrite, stamp, {}), there, {});
      && Relocated(r.files, files, there, from, to, rs, |rs|)
      && |r.restored| == |rs| && r.skipped == [] && r.errors == []
  {
    hide Pack, Relocated, RestoreFirst;
    var a, s := Pack(files, AllUnder(from, rs), from), Setting(to, None, Overwrite, stamp, {});
    RestoreRelocates(a, s, files, there, from, rs, |rs|);
    assert there - {} == there;
    AllRestored(a, s, there, |rs|);
  }

  lemma {:induction false} AllRestored(a: Archive, s: Setting, files: Files, n: nat)
    requires a.Valid() && s.spec == None && s.policy == Overwrite && s.blocked == {} && n <= |FileNames(a.names)|
    ensures var r := RestoreFirst(a, s, files, n); |r.restored| == n && r.skipped == [] && r.errors == []
  {
    if n > 0 {
      AllRestored(a, s, files, n - 1);
    }
  }
}
