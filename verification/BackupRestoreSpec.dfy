/**
 Restoring an archive, previewing the restore, and creating the archive, over a file system that is a
 map from absolute paths to contents.
 */
module BackupRestoreSpec {
  import opened BackupPaths

  type Files = map<string, string>

  datatype Option<+T> = None | Some(value: T)

  datatype Policy = Skip | Backup | Overwrite

  /** A zip archive: its entry names in order, the contents by name, and the root its metadata records. */
  datatype Archive = Archive(names: seq<string>, contents: map<string, string>, root: string) {
    predicate Valid() {
      forall n :: n in names ==> n in contents
    }
  }

  datatype Reason = NotMatchedByPattern | FileExistsSkipPolicy

  datatype Skipped = Skipped(archivePath: string, reason: Reason)

  datatype Placed = Placed(archivePath: string, targetPath: string)

  /** What a run is given besides the archive: the current root, the restore patterns compiled into a
      predicate on slash-less paths, the overwrite policy, the clock read at each entry, and the paths
      that cannot be written. */
  datatype Setting = Setting(
    currentRoot: string, spec: Option<string -> bool>, policy: Policy, stamp: nat -> string, blocked: set<string>)

  datatype Report = Report(files: Files, restored: seq<Placed>, skipped: seq<Skipped>, errors: seq<string>)

  predicate IsMetadata(name: string) {
    name == "metadata.json" || name == "checksums.json"
  }

  /** The archive's files, without the metadata. */
  function FileNames(names: seq<string>): (r: seq<string>)
    ensures forall n :: n in r ==> n in names
  {
    if names == [] then []
    else if IsMetadata(names[0]) then FileNames(names[1..])
    else [names[0]] + FileNames(names[1..])
  }

  function Target(a: Archive, s: Setting, name: string): string {
    TranslateRestorePath(name, a.root, s.currentRoot)
  }

  predicate Matched(s: Setting, target: string) {
    s.spec.None? || s.spec.value(LStrip(target))
  }

  function BackupName(target: string, stamp: string): string {
    target + ".backup." + stamp
  }

  /** `shutil.move` of an existing file. */
  function Move(files: Files, from: string, to: string): Files
    requires from in files
  {
    (files - {from})[to := files[from]]
  }

  /** What becomes of the `i`th file of the archive. */
  function RestoreEntry(a: Archive, s: Setting, r: Report, i: nat): Report
    requires a.Valid() && i < |FileNames(a.names)|
  {
    var name := FileNames(a.names)[i];
    var target := Target(a, s, name);
    if !Matched(s, target) then r.(skipped := r.skipped + [Skipped(name, NotMatchedByPattern)])
    else if target in r.files && s.policy == Skip then r.(skipped := r.skipped + [Skipped(name, FileExistsSkipPolicy)])
    else
      var files := if target in r.files && s.policy == Backup then Move(r.files, target, BackupName(target, s.stamp(i))) else r.files;
      if target in s.blocked then r.(files := files, errors := r.errors + [name])
      else r.(files := files[target := a.contents[name]], restored := r.restored + [Placed(name, target)])
  }

  /** The report after the first `n` files. */
  function RestoreFirst(a: Archive, s: Setting, files: Files, n: nat): Report
    requires a.Valid() && n <= |FileNames(a.names)|
  {
    if n == 0 then Report(files, [], [], []) else RestoreEntry(a, s, RestoreFirst(a, s, files, n - 1), n - 1)
  }

  /** `restore_backup`, cleaning first. */
  function Restore(a: Archive, s: Setting, files: Files, clean: set<string>): Report
    requires a.Valid()
  {
    RestoreFirst(a, s, files - clean, |FileNames(a.names)|)
  }

  // ---------- Preview ----------

  datatype Preview = Preview(toRestore: seq<Placed>, skipped: seq<Skipped>)

  function PreviewEntry(a: Archive, s: Setting, files: Files, p: Preview, i: nat): Preview
    requires i < |FileNames(a.names)|
  {
    var name := FileNames(a.names)[i];
    var target := Target(a, s, name);
    if !Matched(s, target) then p.(skipped := p.skipped + [Skipped(name, NotMatchedByPattern)])
    else if target in files && s.policy == Skip then p.(skipped := p.skipped + [Skipped(name, FileExistsSkipPolicy)])
    else p.(toRestore := p.toRestore + [Placed(name, target)])
  }

  function PreviewFirst(a: Archive, s: Setting, files: Files, n: nat): Preview
    requires n <= |FileNames(a.names)|
  {
    if n == 0 then Preview([], []) else PreviewEntry(a, s, files, PreviewFirst(a, s, files, n - 1), n - 1)
  }

  function PreviewRestore(a: Archive, s: Setting, files: Files): Preview {
    PreviewFirst(a, s, files, |FileNames(a.names)|)
  }

  // ---------- Creating the archive ----------

  /** The paths that are archived: those that still exist. */
  function Present(files: Files, paths: seq<string>): (r: seq<string>)
    ensures forall p :: p in r <==> p in paths && p in files
  {
    if paths == [] then []
    else if paths[|paths| - 1] in files then Present(files, paths[..|paths| - 1]) + [paths[|paths| - 1]]
    else Present(files, paths[..|paths| - 1])
  }

  function Names(paths: seq<string>): (r: seq<string>)
    ensures |r| == |paths| && forall i :: 0 <= i < |r| ==> r[i] == LStrip(paths[i])
  {
    seq(|paths|, i requires 0 <= i < |paths| => LStrip(paths[i]))
  }

  /** Contents by archive name; of two entries with one name, the later is the one read back. */
  function Packed(files: Files, paths: seq<string>): (r: map<string, string>)
    requires forall p :: p in paths ==> p in files
    ensures "metadata.json" in r && forall i :: 0 <= i < |paths| ==> LStrip(paths[i]) in r
  {
    if paths == [] then map["metadata.json" := ""]
    else
      var last := paths[|paths| - 1];
      Packed(files, paths[..|paths| - 1])[LStrip(last) := files[last]]
  }

  /** The archive `create_backup` writes: its metadata, then every matched file that exists. */
  function Pack(files: Files, matched: seq<string>, root: string): (a: Archive)
    ensures a.Valid()
  {
    var present := Present(files, matched);
    Archive(["metadata.json"] + Names(present), Packed(files, present), root)
  }
}
