/** The loops of `create_backup`, `preview_restore` and `restore_backup`, proved against BackupRestoreSpec. */
module BackupService {
  import opened BackupPaths
  import opened BackupRestoreSpec

  class FileSystem {
    var files: Files

    constructor (files: Files)
      ensures this.files == files
    {
      this.files := files;
    }
  }

  method ListFiles(names: seq<string>) returns (archiveFiles: seq<string>)
    ensures archiveFiles == FileNames(names)
  {
    archiveFiles := [];
    for i := 0 to |names|
      invariant archiveFiles + FileNames(names[i..]) == FileNames(names)
    {
      assert names[i..][0] == names[i] && names[i..][1..] == names[i + 1..];
      if !IsMetadata(names[i]) {
        assert archiveFiles + ([names[i]] + FileNames(names[i + 1..])) == archiveFiles + [names[i]] + FileNames(names[i + 1..]);
        archiveFiles := archiveFiles + [names[i]];
      }
    }
    assert archiveFiles + [] == archiveFiles;
  }

  method PreviewRestoreLoop(fs: FileSystem, a: Archive, s: Setting) returns (p: Preview)
    requires a.Valid()
    ensures p == PreviewRestore(a, s, fs.files)
  {
    var archiveFiles := ListFiles(a.names);
    var filesToRestore, skippedFiles := [], [];
    for i := 0 to |archiveFiles|
      invariant Preview(filesToRestore, skippedFiles) == PreviewFirst(a, s, fs.files, i)
    {
      var archivePath := archiveFiles[i];
      var targetPath := TranslateRestorePath(archivePath, a.root, s.currentRoot);
      var translated := LStrip(targetPath);
      if s.spec.Some? && !s.spec.value(translated) {
        skippedFiles := skippedFiles + [Skipped(archivePath, NotMatchedByPattern)];
        continue;
      }
      if targetPath in fs.files {
        if s.policy == Skip {
          skippedFiles := skippedFiles + [Skipped(archivePath, FileExistsSkipPolicy)];
          continue;
        }
      }
      filesToRestore := filesToRestore + [Placed(archivePath, targetPath)];
    }
    return Preview(filesToRestore, skippedFiles);
  }

  /** The file system ends as the report says; `toClean` are the files removed first. */
  method RestoreBackup(fs: FileSystem, a: Archive, s: Setting, toClean: seq<string>) returns (r: Report)
    requires a.Valid()
    modifies fs
    ensures r == Restore(a, s, old(fs.files), set p | p in toClean)
    ensures fs.files == r.files
  {
    for i := 0 to |toClean|
      invariant fs.files == old(fs.files) - set p | p in toClean[..i]
    {
      var realPath := toClean[i];
      assert toClean[..i + 1] == toClean[..i] + [realPath];
      if realPath in fs.files {
        fs.files := fs.files - {realPath};
      }
    }
    assert toClean[..|toClean|] == toClean;
    ghost var start := fs.files;

    var archiveFiles := ListFiles(a.names);
    var restoredFiles, skippedFiles, errors := [], [], [];
    for i := 0 to |archiveFiles|
      invariant Report(fs.files, restoredFiles, skippedFiles, errors) == RestoreFirst(a, s, start, i)
    {
      var archivePath := archiveFiles[i];
      var targetPath := TranslateRestorePath(archivePath, a.root, s.currentRoot);
      var translated := LStrip(targetPath);
      if s.spec.Some? && !s.spec.value(translated) {
        skippedFiles := skippedFiles + [Skipped(archivePath, NotMatchedByPattern)];
        continue;
      }
      if targetPath in fs.files {
        if s.policy == Skip {
          skippedFiles := skippedFiles + [Skipped(archivePath, FileExistsSkipPolicy)];
          continue;
        } else if s.policy == Backup {
          var backupPath := targetPath + ".backup." + s.stamp(i);
          fs.files := Move(fs.files, targetPath, backupPath);
        }
      }
      if targetPath in s.blocked {
        errors := errors + [archivePath];
        continue;
      }
      fs.files := fs.files[targetPath := a.contents[archivePath]];
      restoredFiles := restoredFiles + [Placed(archivePath, targetPath)];
    }
    return Report(fs.files, restoredFiles, skippedFiles, errors);
  }

  lemma PresentStep(files: Files, paths: seq<string>, p: string)
    ensures Present(files, paths + [p]) == if p in files then Present(files, paths) + [p] else Present(files, paths)
  {
    assert (paths + [p])[..|paths|] == paths;
  }

  lemma PackedStep(files: Files, paths: seq<string>, p: string)
    requires p in files && forall q :: q in paths ==> q in files
    ensures Packed(files, paths + [p]) == Packed(files, paths)[LStrip(p) := files[p]]
  {
    assert (paths + [p])[..|paths|] == paths;
  }

  lemma NamesStep(paths: seq<string>, p: string)
    ensures ["metadata.json"] + Names(paths + [p]) == ["metadata.json"] + Names(paths) + [LStrip(p)]
  {
    assert Names(paths + [p]) == Names(paths) + [LStrip(p)];
  }

  lemma PackStep(files: Files, paths: seq<string>, p: string, root: string)
    ensures var a := Pack(files, paths, root);
      Pack(files, paths + [p], root)
      == if p in files then Archive(a.names + [LStrip(p)], a.contents[LStrip(p) := files[p]], root) else a
  {
    hide LStrip, Present, Packed, Names;
    PresentStep(files, paths, p);
    if p in files {
      PackedStep(files, Present(files, paths), p);
      NamesStep(Present(files, paths), p);
    }
  }

  /** `create_backup` on the files that the walk matched: nothing matched is an error. */
  method CreateBackup(fs: FileSystem, matched: seq<string>, root: string) returns (a: Option<Archive>)
    ensures a == if matched == [] then None else Some(Pack(fs.files, matched, root))
  {
    if matched == [] {
      return None;
    }
    var names, contents := ["metadata.json"], map["metadata.json" := ""];
    for i := 0 to |matched|
      invariant Archive(names, contents, root) == Pack(fs.files, matched[..i], root)
    {
      var realPath := matched[i];
      var archivePath := LStrip(realPath);
      assert matched[..i + 1] == matched[..i] + [realPath];
      PackStep(fs.files, matched[..i], realPath, root);
      if realPath in fs.files {
        names := names + [archivePath];
        contents := contents[archivePath := fs.files[realPath]];
      }
    }
    assert matched[..|matched|] == matched;
    return Some(Archive(names, contents, root));
  }
}
