/**
 What the restore patterns let through, in the restore and in its preview, and what of it ends up where.
 */
module BackupPatterns {
  import opened BackupPaths
  import opened BackupRestoreSpec
  import opened BackupTheorems
  import opened Strings

  /** Where an entry of the archive goes. */
  function Place(a: Archive, s: Setting, name: string): string {
    TranslateRestorePath(name, a.root, s.currentRoot)
  }

  // ---------- Reports ----------

  /** What the report `r` says of the entries `names`, if the patterns decide. */
  ghost predicate Sorted(a: Archive, s: Setting, names: seq<string>, r: Report) {
    && (forall p :: p in r.restored ==> Restored(a, s, names, p))
    && (forall e :: e in r.skipped ==> SkippedFairly(a, s, names, e))
    && (forall name :: name in r.errors ==> name in names && Accepted(a, s, name))
    && forall name :: name in names ==> Accounted(a, s, name, r)
  }

  ghost predicate Restored(a: Archive, s: Setting, names: seq<string>, p: Placed) {
    p.archivePath in names && p.targetPath == Place(a, s, p.archivePath) && (s.spec.Some? ==> s.spec.value(LStrip(p.targetPath)))
  }

  ghost predicate Accepted(a: Archive, s: Setting, name: string) {
    s.spec.Some? ==> s.spec.value(LStrip(Place(a, s, name)))
  }

  ghost predicate SkippedFairly(a: Archive, s: Setting, names: seq<string>, e: Skipped) {
    && e.archivePath in names
    && (e.reason == NotMatchedByPattern <==> s.spec.Some? && !s.spec.value(LStrip(Place(a, s, e.archivePath))))
    && (e.reason == FileExistsSkipPolicy ==> s.policy == Skip)
  }

  /** A refused entry is skipped for that; an accepted one is restored, failed, or skipped because it exists. */
  ghost predicate Accounted(a: Archive, s: Setting, name: string, r: Report) {
    if s.spec.Some? && !s.spec.value(LStrip(Place(a, s, name))) then
      Skipped(name, NotMatchedByPattern) in r.skipped
    else
      || Placed(name, Place(a, s, name)) in r.restored
      || (name in r.errors && Place(a, s, name) in s.blocked)
      || (s.policy == Skip && Skipped(name, FileExistsSkipPolicy) in r.skipped)
  }

  lemma {:induction false} FirstSorted(a: Archive, s: Setting, files: Files, n: nat)
    requires a.Valid() && n <= |FileNames(a.names)|
    ensures Sorted(a, s, FileNames(a.names)[..n], RestoreFirst(a, s, files, n))
  {
    hide FileNames, TranslateRestorePath, LStrip, BackupName, Move, RestoreEntry;
    if n > 0 {
      FirstSorted(a, s, files, n - 1);
      var names := FileNames(a.names);
      assert names[..n] == names[..n - 1] + [names[n - 1]];
      OneSorted(a, s, names[..n - 1], RestoreFirst(a, s, files, n - 1), n - 1);
      hide Sorted;
    }
  }

  lemma OneSorted(a: Archive, s: Setting, names: seq<string>, r: Report, i: nat)
    requires a.Valid() && i < |FileNames(a.names)| && Sorted(a, s, names, r)
    ensures Sorted(a, s, names + [FileNames(a.names)[i]], RestoreEntry(a, s, r, i))
  {
    hide FileNames, TranslateRestorePath, LStrip, BackupName, Move;
    var name, r' := FileNames(a.names)[i], RestoreEntry(a, s, r, i);
    var all := names + [name];
    assert Target(a, s, name) == Place(a, s, name);
    forall x | x in names ensures Accounted(a, s, x, r') {
      assert Accounted(a, s, x, r);
    }
    assert Accounted(a, s, name, r');
    forall p | p in r'.restored ensures Restored(a, s, all, p) {
      assert p in r.restored ==> Restored(a, s, names, p);
    }
    forall e | e in r'.skipped ensures SkippedFairly(a, s, all, e) {
      assert e in r.skipped ==> SkippedFairly(a, s, names, e);
    }
  }

  /** With restore patterns, whatever the policy, the cleaned files and the paths that cannot be written: what is
      restored was accepted by the matcher and is where it belongs; an entry is skipped as not matched if and only if
      the matcher refuses its path there, without leading slash; every other entry is restored, failed, or skipped
      under "skip" because its file exists. */
  lemma PatternsDecide(a: Archive, s: Setting, files: Files, clean: set<string>)
    requires a.Valid() && s.spec.Some?
    ensures var r := Restore(a, s, files, clean); var names := FileNames(a.names);
      && (forall p :: p in r.restored ==>
            && p.archivePath in names && p.targetPath == TranslateRestorePath(p.archivePath, a.root, s.currentRoot)
            && s.spec.value(LStrip(p.targetPath)))
      && (forall name :: Skipped(name, NotMatchedByPattern) in r.skipped
            <==> name in names && !s.spec.value(LStrip(TranslateRestorePath(name, a.root, s.currentRoot))))
      && (forall name :: name in names && s.spec.value(LStrip(TranslateRestorePath(name, a.root, s.currentRoot))) ==>
            || Placed(name, TranslateRestorePath(name, a.root, s.currentRoot)) in r.restored
            || (name in r.errors && TranslateRestorePath(name, a.root, s.currentRoot) in s.blocked)
            || (s.policy == Skip && Skipped(name, FileExistsSkipPolicy) in r.skipped))
      && (forall name :: name in r.errors ==> s.spec.value(LStrip(TranslateRestorePath(name, a.root, s.currentRoot))))
  {
    hide TranslateRestorePath, LStrip, FileNames, RestoreFirst;
    var names, r := FileNames(a.names), Restore(a, s, files, clean);
    FirstSorted(a, s, files - clean, |names|);
    assert names[..|names|] == names;
    forall name | name in names ensures Accounted(a, s, name, r) {
    }
    forall e | e in r.skipped ensures SkippedFairly(a, s, names, e) {
    }
    forall name | Skipped(name, NotMatchedByPattern) in r.skipped
      ensures name in names && !s.spec.value(LStrip(TranslateRestorePath(name, a.root, s.currentRoot)))
    {
      assert SkippedFairly(a, s, names, Skipped(name, NotMatchedByPattern));
    }
  }

  /** Without patterns nothing is skipped as not matched. */
  lemma NoPatterns(a: Archive, s: Setting, files: Files, clean: set<string>)
    requires a.Valid() && s.spec.None?
    ensures forall e :: e in Restore(a, s, files, clean).skipped ==> e.reason == FileExistsSkipPolicy && s.policy == Skip
    ensures forall e :: e in PreviewRestore(a, s, files).skipped ==> e.reason == FileExistsSkipPolicy && s.policy == Skip
  {
    hide RestoreFirst, FileNames, PreviewFirst;
    var names, r := FileNames(a.names), Restore(a, s, files, clean);
    FirstSorted(a, s, files - clean, |names|);
    forall e | e in r.skipped ensures e.reason == FileExistsSkipPolicy && s.policy == Skip {
      assert SkippedFairly(a, s, names[..|names|], e);
    }
    PreviewSorted(a, s, files, |names|);
    forall e | e in PreviewRestore(a, s, files).skipped ensures e.reason == FileExistsSkipPolicy && s.policy == Skip {
      assert Foreseen(a, s, files, e.archivePath, PreviewRestore(a, s, files));
    }
  }

  // ---------- The preview ----------

  /** What the preview says of an entry. */
  ghost predicate Foreseen(a: Archive, s: Setting, files: Files, name: string, p: Preview) {
    var target := Place(a, s, name);
    var refused := s.spec.Some? && !s.spec.value(LStrip(target));
    && (Skipped(name, NotMatchedByPattern) in p.skipped <==> refused)
    && (Skipped(name, FileExistsSkipPolicy) in p.skipped <==> !refused && s.policy == Skip && target in files)
    && (Placed(name, target) in p.toRestore <==> !refused && !(s.policy == Skip && target in files))
  }

  lemma {:induction false} PreviewSorted(a: Archive, s: Setting, files: Files, n: nat)
    requires n <= |FileNames(a.names)|
    ensures var p := PreviewFirst(a, s, files, n); var names := FileNames(a.names)[..n];
      && (forall name :: name in names ==> Foreseen(a, s, files, name, p))
      && (forall e :: e in p.skipped ==> e.archivePath in names)
      && (forall q :: q in p.toRestore ==> q.archivePath in names && q.targetPath == Place(a, s, q.archivePath))
  {
    hide FileNames, TranslateRestorePath, LStrip, PreviewEntry, Foreseen;
    if n > 0 {
      PreviewSorted(a, s, files, n - 1);
      var names, p := FileNames(a.names), PreviewFirst(a, s, files, n - 1);
      assert names[..n] == names[..n - 1] + [names[n - 1]];
      OneForeseen(a, s, files, p, n - 1);
    }
  }

  /** One more entry of the archive. */
  lemma OneForeseen(a: Archive, s: Setting, files: Files, p: Preview, i: nat)
    requires i < |FileNames(a.names)|
    requires var names := FileNames(a.names)[..i];
      && (forall name :: name in names ==> Foreseen(a, s, files, name, p))
      && (forall e :: e in p.skipped ==> e.archivePath in names)
      && (forall q :: q in p.toRestore ==> q.archivePath in names && q.targetPath == Place(a, s, q.archivePath))
    ensures var p', names := PreviewEntry(a, s, files, p, i), FileNames(a.names)[..i] + [FileNames(a.names)[i]];
      && (forall name :: name in names ==> Foreseen(a, s, files, name, p'))
      && (forall e :: e in p'.skipped ==> e.archivePath in names)
      && (forall q :: q in p'.toRestore ==> q.archivePath in names && q.targetPath == Place(a, s, q.archivePath))
  {
    hide FileNames, TranslateRestorePath, LStrip;
    var names, name, p' := FileNames(a.names)[..i], FileNames(a.names)[i], PreviewEntry(a, s, files, p, i);
    assert Target(a, s, name) == Place(a, s, name);
    forall x | x in names + [name] ensures Foreseen(a, s, files, x, p') {
      assert x in names ==> Foreseen(a, s, files, x, p);
    }
  }

  /** The preview with restore patterns: exactly the refused entries are skipped as not matched, exactly the accepted
      ones that exist under "skip" as existing, and exactly the others are listed, where they would go. */
  lemma PatternsForeseen(a: Archive, s: Setting, files: Files)
    requires s.spec.Some?
    ensures var p := PreviewRestore(a, s, files); var names := FileNames(a.names);
      && (forall q :: q in p.toRestore ==>
            && q.archivePath in names && q.targetPath == TranslateRestorePath(q.archivePath, a.root, s.currentRoot)
            && s.spec.value(LStrip(q.targetPath)) && !(s.policy == Skip && q.targetPath in files))
      && (forall name :: Skipped(name, NotMatchedByPattern) in p.skipped
            <==> name in names && !s.spec.value(LStrip(TranslateRestorePath(name, a.root, s.currentRoot))))
    ensures var p := PreviewRestore(a, s, files);
      forall name :: name in FileNames(a.names) ==>
        var target := TranslateRestorePath(name, a.root, s.currentRoot);
        var kept := s.policy == Skip && target in files;
        && (Skipped(name, FileExistsSkipPolicy) in p.skipped <==> s.spec.value(LStrip(target)) && kept)
        && (Placed(name, target) in p.toRestore <==> s.spec.value(LStrip(target)) && !kept)
  {
    hide TranslateRestorePath, LStrip, FileNames, PreviewFirst;
    var names, p := FileNames(a.names), PreviewRestore(a, s, files);
    PreviewSorted(a, s, files, |names|);
    assert names[..|names|] == names;
    forall name | name in names ensures Foreseen(a, s, files, name, p) {
    }
    forall q | q in p.toRestore ensures Placed(q.archivePath, Place(a, s, q.archivePath)) == q && Foreseen(a, s, files, q.archivePath, p) {
    }
    forall name | Skipped(name, NotMatchedByPattern) in p.skipped ensures name in names && Foreseen(a, s, files, name, p) {
      assert Skipped(name, NotMatchedByPattern).archivePath in names;
    }
  }

  // ---------- Files ----------

  ghost predicate Passes(a: Archive, s: Setting, i: nat)
    requires i < |FileNames(a.names)|
  {
    s.spec.Some? ==> s.spec.value(LStrip(TranslateRestorePath(FileNames(a.names)[i], a.root, s.currentRoot)))
  }

  function PlaceAt(a: Archive, s: Setting, i: nat): string
    requires i < |FileNames(a.names)|
  {
    TranslateRestorePath(FileNames(a.names)[i], a.root, s.currentRoot)
  }

  /** No accepted entry from the `m`th up to the `n`th goes to the path, and none has it for its backup. */
  ghost predicate Spared(a: Archive, s: Setting, path: string, m: nat, n: nat)
    requires n <= |FileNames(a.names)|
  {
    forall i :: m <= i < n && Passes(a, s, i) ==>
      PlaceAt(a, s, i) != path && (s.policy == Backup ==> PlaceAt(a, s, i) + ".backup." + s.stamp(i) != path)
  }

  /** A path that is neither the target of an accepted entry nor the backup of one is as it was, so refused
      entries change nothing. */
  lemma {:induction false} RefusedWriteNothing(a: Archive, s: Setting, files: Files, path: string, m: nat, n: nat)
    requires a.Valid() && m <= n <= |FileNames(a.names)| && Spared(a, s, path, m, n)
    ensures SameAt(RestoreFirst(a, s, files, n).files, RestoreFirst(a, s, files, m).files, path)
  {
    hide FileNames, TranslateRestorePath, LStrip;
    if m < n {
      RefusedWriteNothing(a, s, files, path, m, n - 1);
      var i := n - 1;
      assert Passes(a, s, i) ==> PlaceAt(a, s, i) != path;
      OtherPath(a, s, RestoreFirst(a, s, files, i), path, i);
    }
  }

  lemma OtherPath(a: Archive, s: Setting, r: Report, path: string, i: nat)
    requires a.Valid() && i < |FileNames(a.names)| && Spared(a, s, path, i, i + 1)
    ensures SameAt(RestoreEntry(a, s, r, i).files, r.files, path)
  {
    hide FileNames, TranslateRestorePath, LStrip;
    assert Target(a, s, FileNames(a.names)[i]) == PlaceAt(a, s, i);
    assert Passes(a, s, i) ==> PlaceAt(a, s, i) != path;
  }

  /** Unless the policy is "skip", a path holds the content of the last accepted entry that goes there. */
  lemma LastEntryWins(a: Archive, s: Setting, files: Files, i: nat)
    requires a.Valid() && i < |FileNames(a.names)| && s.policy != Skip && Passes(a, s, i) && PlaceAt(a, s, i) !in s.blocked
    requires Spared(a, s, PlaceAt(a, s, i), i + 1, |FileNames(a.names)|)
    ensures var now := RestoreFirst(a, s, files, |FileNames(a.names)|).files;
      PlaceAt(a, s, i) in now && now[PlaceAt(a, s, i)] == a.contents[FileNames(a.names)[i]]
  {
    hide FileNames, TranslateRestorePath, LStrip;
    var path := PlaceAt(a, s, i);
    assert Target(a, s, FileNames(a.names)[i]) == path;
    RefusedWriteNothing(a, s, files, path, i + 1, |FileNames(a.names)|);
    var r := RestoreFirst(a, s, files, i);
    assert RestoreFirst(a, s, files, i + 1) == RestoreEntry(a, s, r, i);
    assert RestoreEntry(a, s, r, i).files[path] == a.contents[FileNames(a.names)[i]];
  }

  /** Under "skip" a path that did not exist holds the content of the first accepted entry that goes there. */
  lemma {:induction false} FirstEntryStays(a: Archive, s: Setting, files: Files, i: nat, n: nat)
    requires a.Valid() && i < n <= |FileNames(a.names)| && s.policy == Skip && Passes(a, s, i) && PlaceAt(a, s, i) !in s.blocked
    requires PlaceAt(a, s, i) !in files && Spared(a, s, PlaceAt(a, s, i), 0, i)
    ensures var now := RestoreFirst(a, s, files, n).files;
      PlaceAt(a, s, i) in now && now[PlaceAt(a, s, i)] == a.contents[FileNames(a.names)[i]]
  {
    hide FileNames, TranslateRestorePath, LStrip;
    var path := PlaceAt(a, s, i);
    if n == i + 1 {
      assert Target(a, s, FileNames(a.names)[i]) == path;
      RefusedWriteNothing(a, s, files, path, 0, i);
    } else {
      FirstEntryStays(a, s, files, i, n - 1);
      var r := RestoreFirst(a, s, files, n - 1);
      assert Target(a, s, FileNames(a.names)[n - 1]) == PlaceAt(a, s, n - 1);
    }
  }

  // ---------- What counts as a file of the archive ----------

  /** The archive's names in order, but for the two that hold metadata. */
  lemma FileNamesExactly(names: seq<string>, more: seq<string>)
    ensures FileNames(names + more) == FileNames(names) + FileNames(more)
    ensures forall n :: FileNames([n]) == if n == "metadata.json" || n == "checksums.json" then [] else [n]
  {
    FileNamesAppend(names, more);
    forall n ensures FileNames([n]) == if n == "metadata.json" || n == "checksums.json" then [] else [n] {
      OneFileName(n);
    }
  }

  lemma OneFileName(n: string)
    ensures FileNames([n]) == if n == "metadata.json" || n == "checksums.json" then [] else [n]
  {
    assert [n][1..] == [];
  }

  lemma {:induction false} FileNamesAppend(names: seq<string>, more: seq<string>)
    ensures FileNames(names + more) == FileNames(names) + FileNames(more)
  {
    hide IsMetadata;
    if names == [] {
      assert names + more == more;
    } else {
      FileNamesAppend(names[1..], more);
      assert (names + more)[1..] == names[1..] + more;
      Assoc([names[0]], FileNames(names[1..]), FileNames(more));
    }
  }
}
