/**
 * `self update` (internal/cli/self.go): the decision whether to update, the
 * choice of the release asset for the platform, the choice of the binary
 * inside the downloaded archive, and the replacement of the running
 * executable with a backup that is restored when the copy fails. The HTTP
 * requests, the decompression and the byte copying are not modelled: the
 * release, the archive's entries, the new binary's content and the steps
 * that fail are parameters.
 */
module SelfUpdate {
  import opened Wrappers
  import opened Failures
  import opened Text
  import opened Archive

  datatype Asset = Asset(name: string, url: string)
  datatype Release = Release(tagName: string, assets: seq<Asset>)

  /** What the command reports when it ends without an error. */
  datatype Report = Silent | AlreadyLatest | NewerAvailable(latest: string) | Updated(latest: string)

  /** The outcome of the checks before any download. */
  datatype Decision = Refuse(error: Error) | Stop(report: Report) | Proceed(latest: string)

  /** One leading "v" is dropped before versions are compared. */
  function Clean(v: string): string {
    TrimPrefix(v, "v")
  }

  /**
   * runSelfUpdate up to the download: a development build is refused before
   * the release is fetched; equal versions without --force are up to date;
   * --check only reports.
   */
  function Decide(current: string, release: Option<Release>, force: bool, checkOnly: bool): Decision {
    if current == "dev" || current == "unknown" then Refuse(DevBuild)
    else if release.None? then Refuse(ReleaseFetchFailed)
    else
      var latest := Clean(release.value.tagName);
      var cur := Clean(current);
      if cur == latest && !force then Stop(AlreadyLatest)
      else if checkOnly then Stop(if cur != latest then NewerAvailable(latest) else Silent)
      else Proceed(latest)
  }

  /** The archive name the release must offer for the platform; the tag keeps its "v". */
  function ArchiveName(tag: string, goos: string, goarch: string): string {
    "bastion-arsenal-" + tag + "-" + goos + "-" + goarch + (if goos == "windows" then ".zip" else ".tar.gz")
  }

  /** The download URL of the first asset with the given name; "" when there is none. */
  function AssetURL(assets: seq<Asset>, name: string): (url: string)
    ensures url != "" ==> exists i :: 0 <= i < |assets| && assets[i].name == name && assets[i].url == url
  {
    if assets == [] then ""
    else if assets[0].name == name then assets[0].url
    else AssetURL(assets[1..], name)
  }

  /** The asset loop of runSelfUpdate: it stops at the first asset with the name. */
  method FindAsset(assets: seq<Asset>, name: string) returns (downloadURL: string)
    ensures downloadURL == AssetURL(assets, name)
  {
    downloadURL := "";
    var i := 0;
    while i < |assets|
      invariant 0 <= i <= |assets|
      invariant AssetURL(assets, name) == AssetURL(assets[i..], name)
    {
      if assets[i].name == name {
        downloadURL := assets[i].url;
        return;
      }
      assert assets[i..][1..] == assets[i + 1..];
      i := i + 1;
    }
  }

  datatype Format = TarGz | Zip

  /** extractArchive's dispatch on the archive name's suffix. */
  function FormatOf(archiveName: string): (f: Option<Format>)
    ensures f == Some(TarGz) <==> HasSuffix(archiveName, ".tar.gz")
    ensures f == Some(Zip) <==> !HasSuffix(archiveName, ".tar.gz") && HasSuffix(archiveName, ".zip")
  {
    if HasSuffix(archiveName, ".tar.gz") then Some(TarGz)
    else if HasSuffix(archiveName, ".zip") then Some(Zip)
    else None
  }

  /** The entries that can be the binary: regular files in a tar, anything but a directory in a zip. */
  predicate IsBinary(f: Format, e: TarEntry) {
    match f
    case TarGz => e.kind == RegEntry
    case Zip => e.kind != DirEntry
  }

  /** The index of the first entry that can be the binary. */
  function FirstBinary(f: Format, es: seq<TarEntry>): (r: Option<nat>)
    ensures r.Some? ==> r.value < |es| && IsBinary(f, es[r.value]) && forall j :: 0 <= j < r.value ==> !IsBinary(f, es[j])
    ensures r.None? ==> forall j :: 0 <= j < |es| ==> !IsBinary(f, es[j])
  {
    if es == [] then None
    else if IsBinary(f, es[0]) then Some(0)
    else match FirstBinary(f, es[1..])
      case Some(i) => Some(i + 1)
      case None => None
  }

  /**
   * extractArchive: the name the binary gets in the extraction directory, the
   * base name of the first suitable entry; an unknown suffix, a failure while
   * reading the archive or writing the binary (`ioFails`), or an archive
   * without a suitable entry is an error.
   */
  method ExtractArchive(archiveName: string, es: seq<TarEntry>, ioFails: bool) returns (r: Result<string, Error>)
    ensures FormatOf(archiveName).None? ==> r == Err(UnsupportedArchiveFile(archiveName))
    ensures FormatOf(archiveName).Some? && ioFails ==> r == Err(ArchiveReadFailed(archiveName))
    ensures FormatOf(archiveName).Some? && !ioFails && FirstBinary(FormatOf(archiveName).value, es).None? ==> r == Err(NoBinaryInArchive)
    ensures FormatOf(archiveName).Some? && !ioFails && FirstBinary(FormatOf(archiveName).value, es).Some? ==>
      r == Ok(Base(es[FirstBinary(FormatOf(archiveName).value, es).value].name))
    ensures r.Ok? ==> r.value == "/" || '/' !in r.value
  {
    var format := FormatOf(archiveName);
    if format.None? {
      return Err(UnsupportedArchiveFile(archiveName));
    }
    if ioFails {
      return Err(ArchiveReadFailed(archiveName));
    }
    var f := format.value;
    var i := 0;
    while i < |es|
      invariant 0 <= i <= |es|
      invariant forall j :: 0 <= j < i ==> !IsBinary(f, es[j])
    {
      if IsBinary(f, es[i]) {
        // the first one found is the binary, flattened to its base name
        FirstBinaryAt(f, es, i);
        return Ok(Base(es[i].name));
      }
      i := i + 1;
    }
    r := Err(NoBinaryInArchive);
  }

  lemma {:induction false} FirstBinaryAt(f: Format, es: seq<TarEntry>, i: nat)
    requires i < |es| && IsBinary(f, es[i])
    requires forall j :: 0 <= j < i ==> !IsBinary(f, es[j])
    ensures FirstBinary(f, es) == Some(i)
  {
    if i > 0 {
      assert es[1..][i - 1] == es[i];
      assert forall j :: 0 <= j < i - 1 ==> es[1..][j] == es[j + 1];
      FirstBinaryAt(f, es[1..], i - 1);
    }
  }

  // ---------------------------------------------------------------- replacing the executable

  /** The steps of downloadAndInstall that can fail. */
  datatype Step = TempDir | Download | ExtractStep | Executable | EvalSymlinks | BackupStep | CopyStep | RestoreStep | ChmodStep | RemoveBackupStep

  function BackupOf(exec: string): string {
    exec + ".backup"
  }

  /**
   * The binary swap: rename the executable to its backup, copy the new
   * binary in, and on a failed copy rename the backup back (a failed copy may
   * leave `partial` behind, which the restore overwrites); after a failed
   * chmod both stay; after success the backup is removed. The errors of the
   * restore and of the final removal are ignored.
   */
  function SwapSpec(c: map<string, string>, exec: string, newBinary: string, failing: set<Step>, partial: Option<string>)
    : (map<string, string>, Outcome<Error>)
  {
    var backup := BackupOf(exec);
    if exec !in c || BackupStep in failing then (c, Fail(BackupFailed(exec)))
    else
      var c1 := (c - {exec})[backup := c[exec]];
      if CopyStep in failing then
        var c2 := if partial.Some? then c1[exec := partial.value] else c1;
        var c3 := if RestoreStep in failing then c2 else (c2 - {backup})[exec := c2[backup]];
        (c3, Fail(CopyFailed(exec)))
      else
        var c2 := c1[exec := newBinary];
        if ChmodStep in failing then (c2, Fail(ChmodFailed(exec)))
        else (if RemoveBackupStep in failing then c2 else c2 - {backup}, Pass)
  }

  /** The files the update touches, by path. */
  class Files {
    var contents: map<string, string>

    constructor (contents: map<string, string>)
      ensures this.contents == contents
    {
      this.contents := contents;
    }

    /** os.Rename: replaces the target; fails when the source is missing. */
    method Rename(from: string, to: string, fails: bool) returns (ok: bool)
      modifies this
      ensures ok <==> from in old(contents) && !fails
      ensures ok ==> contents == (old(contents) - {from})[to := old(contents)[from]]
      ensures !ok ==> contents == old(contents)
    {
      if from !in contents || fails {
        return false;
      }
      contents := (contents - {from})[to := contents[from]];
      ok := true;
    }

    /** copyFile: on failure the target may hold a partial copy. */
    method Copy(content: string, to: string, fails: bool, partial: Option<string>) returns (ok: bool)
      modifies this
      ensures ok <==> !fails
      ensures ok ==> contents == old(contents)[to := content]
      ensures !ok ==> contents == if partial.Some? then old(contents)[to := partial.value] else old(contents)
    {
      if fails {
        if partial.Some? {
          contents := contents[to := partial.value];
        }
        return false;
      }
      contents := contents[to := content];
      ok := true;
    }

    /** os.Remove, its error ignored. */
    method Remove(path: string, fails: bool)
      modifies this
      ensures contents == if fails then old(contents) else old(contents) - {path}
    {
      if !fails {
        contents := contents - {path};
      }
    }

    /**
     * downloadAndInstall from the resolved executable path on: the backup, the
     * copy with its restore, the chmod, and the removal of the backup.
     */
    method Swap(exec: string, newBinary: string, failing: set<Step>, partial: Option<string>) returns (r: Outcome<Error>)
      modifies this
      ensures (contents, r) == SwapSpec(old(contents), exec, newBinary, failing, partial)
    {
      var backupPath := BackupOf(exec);
      var renamed := Rename(exec, backupPath, BackupStep in failing);
      if !renamed {
        return Fail(BackupFailed(exec));
      }
      var copied := Copy(newBinary, exec, CopyStep in failing, partial);
      if !copied {
        var restored := Rename(backupPath, exec, RestoreStep in failing);   // its error is ignored
        return Fail(CopyFailed(exec));
      }
      if ChmodStep in failing {
        return Fail(ChmodFailed(exec));
      }
      Remove(backupPath, RemoveBackupStep in failing);   // its error is ignored
      r := Pass;
    }
  }

  /**
   * downloadAndInstall: the temporary directory, the download and the
   * extraction come first and touch nothing the model tracks (they write only
   * under the temporary directory); then the executable's path is resolved
   * and swapped.
   */
  function InstallSpec(c: map<string, string>, archiveName: string, es: seq<TarEntry>, exec: string, newBinary: string,
                       failing: set<Step>, partial: Option<string>): (map<string, string>, Outcome<Error>)
  {
    if TempDir in failing then (c, Fail(SelfUpdateStep("temp dir")))
    else if Download in failing then (c, Fail(SelfUpdateStep("download")))
    else if FormatOf(archiveName).None? then (c, Fail(UnsupportedArchiveFile(archiveName)))
    else if ExtractStep in failing then (c, Fail(ArchiveReadFailed(archiveName)))
    else if FirstBinary(FormatOf(archiveName).value, es).None? then (c, Fail(NoBinaryInArchive))
    else if Executable in failing then (c, Fail(SelfUpdateStep("executable path")))
    else if EvalSymlinks in failing then (c, Fail(SelfUpdateStep("symlink resolution")))
    else SwapSpec(c, exec, newBinary, failing, partial)
  }

  /** The whole command: the decision, the asset, then downloadAndInstall. */
  function SelfUpdateSpec(c: map<string, string>, current: string, release: Option<Release>, force: bool, checkOnly: bool,
                          goos: string, goarch: string, es: seq<TarEntry>, exec: string, newBinary: string,
                          failing: set<Step>, partial: Option<string>): (map<string, string>, Outcome<Error>, Report)
  {
    match Decide(current, release, force, checkOnly)
    case Refuse(e) => (c, Fail(e), Silent)
    case Stop(report) => (c, Pass, report)
    case Proceed(latest) =>
      var name := ArchiveName(release.value.tagName, goos, goarch);
      if AssetURL(release.value.assets, name) == "" then (c, Fail(NoAssetForPlatform(goos + "-" + goarch)), Silent)
      else
        var installed := InstallSpec(c, name, es, exec, newBinary, failing, partial);
        (installed.0, installed.1, if installed.1.Pass? then Updated(latest) else Silent)
  }

  /**
   * runSelfUpdate. `release` is the fetched release (None when the fetch
   * failed), `es` the entries of the downloaded archive, `newBinary` the content
   * of the binary in it, `exec` the resolved executable path and `failing`
   * the steps that fail.
   */
  method RunSelfUpdate(files: Files, current: string, release: Option<Release>, force: bool, checkOnly: bool,
                       goos: string, goarch: string, es: seq<TarEntry>, exec: string, newBinary: string,
                       failing: set<Step>, partial: Option<string>) returns (r: Outcome<Error>, report: Report)
    modifies files
    ensures (files.contents, r, report)
         == SelfUpdateSpec(old(files.contents), current, release, force, checkOnly, goos, goarch, es, exec, newBinary, failing, partial)
  {
    report := Silent;
    if current == "dev" || current == "unknown" {
      return Fail(DevBuild), report;
    }
    if release.None? {
      return Fail(ReleaseFetchFailed), report;
    }
    var latestVersion := TrimPrefix(release.value.tagName, "v");
    var currentVersionClean := TrimPrefix(current, "v");
    if currentVersionClean == latestVersion && !force {
      return Pass, AlreadyLatest;
    }
    if checkOnly {
      if currentVersionClean != latestVersion {
        report := NewerAvailable(latestVersion);
      }
      return Pass, report;
    }
    var platform := goos + "-" + goarch;
    var archiveName := ArchiveName(release.value.tagName, goos, goarch);
    var downloadURL := FindAsset(release.value.assets, archiveName);
    if downloadURL == "" {
      return Fail(NoAssetForPlatform(platform)), report;
    }
    r := DownloadAndInstall(files, archiveName, es, exec, newBinary, failing, partial);
    if r.Pass? {
      report := Updated(latestVersion);
    }
  }

  /** downloadAndInstall: the steps before the swap can only fail; then the swap. */
  method DownloadAndInstall(files: Files, archiveName: string, es: seq<TarEntry>, exec: string, newBinary: string,
                            failing: set<Step>, partial: Option<string>) returns (r: Outcome<Error>)
    modifies files
    ensures (files.contents, r) == InstallSpec(old(files.contents), archiveName, es, exec, newBinary, failing, partial)
  {
    if TempDir in failing {
      return Fail(SelfUpdateStep("temp dir"));
    }
    if Download in failing {
      return Fail(SelfUpdateStep("download"));
    }
    var extracted := ExtractArchive(archiveName, es, ExtractStep in failing);
    if extracted.Err? {
      return Fail(extracted.error);
    }
    if Executable in failing {
      return Fail(SelfUpdateStep("executable path"));
    }
    if EvalSymlinks in failing {
      return Fail(SelfUpdateStep("symlink resolution"));
    }
    r := files.Swap(exec, newBinary, failing, partial);
  }

  // ---------------------------------------------------------------- properties

  /**
   * The decision: development builds are refused whatever the release;
   * nothing is installed when the cleaned versions agree without --force, nor
   * in --check mode, which reports exactly when the versions differ; the
   * update goes ahead otherwise.
   */
  lemma DecideMeaning(current: string, release: Option<Release>, force: bool, checkOnly: bool)
    ensures current == "dev" || current == "unknown" ==> Decide(current, release, force, checkOnly) == Refuse(DevBuild)
    ensures Decide(current, release, force, checkOnly).Proceed? <==>
      current != "dev" && current != "unknown" && release.Some? && !checkOnly
      && (force || Clean(current) != Clean(release.value.tagName))
    ensures Decide(current, release, force, checkOnly) == Stop(AlreadyLatest) <==>
      current != "dev" && current != "unknown" && release.Some? && !force && Clean(current) == Clean(release.value.tagName)
    ensures checkOnly && Decide(current, release, force, checkOnly).Stop? ==>
      (Decide(current, release, force, checkOnly).report.NewerAvailable? <==> Clean(current) != Clean(release.value.tagName))
  {
  }

  /** A tag with and without its "v" compares equal to a version with or without one. */
  lemma CleanIgnoresOneV(v: string)
    requires !HasPrefix(v, "v")
    ensures Clean("v" + v) == Clean(v) == v
  {
    assert ("v" + v)[..1] == "v";
    assert ("v" + v)[1..] == v;
  }

  /** The archive name's suffix sends the download to the extractor for the platform's format. */
  lemma ArchiveNameFormat(tag: string, goos: string, goarch: string)
    ensures FormatOf(ArchiveName(tag, goos, goarch)) == Some(if goos == "windows" then Zip else TarGz)
  {
    var base := "bastion-arsenal-" + tag + "-" + goos + "-" + goarch;
    if goos == "windows" {
      var n := base + ".zip";
      assert n[|n| - 4..] == ".zip";
      assert n[|n| - 1] == 'p';
      if |n| >= 7 {
        assert n[|n| - 7..][6] == 'p';
      }
    } else {
      var n := base + ".tar.gz";
      assert n[|n| - 7..] == ".tar.gz";
    }
  }

  /** The asset at `i`, with no earlier asset of that name, is the one chosen. */
  lemma {:induction false} AssetURLAt(assets: seq<Asset>, name: string, i: nat)
    requires i < |assets| && assets[i].name == name
    requires forall j :: 0 <= j < i ==> assets[j].name != name
    ensures AssetURL(assets, name) == assets[i].url
    decreases i
  {
    if i > 0 {
      var rest := assets[1..];
      assert rest[i - 1] == assets[i];
      forall j | 0 <= j < i - 1
        ensures rest[j].name != name
      {
        assert rest[j] == assets[j + 1];
      }
      AssetURLAt(rest, name, i - 1);
    }
  }

  /** Without an asset of that name there is no URL. */
  lemma {:induction false} AssetURLNone(assets: seq<Asset>, name: string)
    ensures (forall i :: 0 <= i < |assets| ==> assets[i].name != name) ==> AssetURL(assets, name) == ""
  {
    if assets != [] && forall i :: 0 <= i < |assets| ==> assets[i].name != name {
      var rest := assets[1..];
      forall i | 0 <= i < |rest|
        ensures rest[i].name != name
      {
        assert rest[i] == assets[i + 1];
      }
      AssetURLNone(rest, name);
    }
  }

  /** The asset chosen is the first one with the archive's name. */
  lemma {:induction false} AssetURLIsFirst(assets: seq<Asset>, name: string)
    ensures forall i :: (0 <= i < |assets| && assets[i].name == name && (forall j :: 0 <= j < i ==> assets[j].name != name)
      ==> AssetURL(assets, name) == assets[i].url)
    ensures (forall i :: 0 <= i < |assets| ==> assets[i].name != name) ==> AssetURL(assets, name) == ""
  {
    forall i | 0 <= i < |assets| && assets[i].name == name && (forall j :: 0 <= j < i ==> assets[j].name != name)
      ensures AssetURL(assets, name) == assets[i].url
    {
      AssetURLAt(assets, name, i);
    }
    AssetURLNone(assets, name);
  }

  /**
   * The swap never loses the old binary: when it fails, the executable's old
   * content is at the executable's path or at the backup path.
   */
  lemma SwapKeepsOldBinary(c: map<string, string>, exec: string, newBinary: string, failing: set<Step>, partial: Option<string>)
    requires exec in c
    requires SwapSpec(c, exec, newBinary, failing, partial).1.Fail?
    ensures var c' := SwapSpec(c, exec, newBinary, failing, partial).0;
      (exec in c' && c'[exec] == c[exec]) || (BackupOf(exec) in c' && c'[BackupOf(exec)] == c[exec])
  {
    assert BackupOf(exec) != exec by { assert |BackupOf(exec)| > |exec|; }
  }

  /**
   * A successful swap leaves the new binary at the executable's path and,
   * unless its removal failed, no backup; no other file changes.
   */
  lemma SwapSuccess(c: map<string, string>, exec: string, newBinary: string, failing: set<Step>, partial: Option<string>)
    requires SwapSpec(c, exec, newBinary, failing, partial).1.Pass?
    ensures var c' := SwapSpec(c, exec, newBinary, failing, partial).0;
      && exec in c && exec in c' && c'[exec] == newBinary
      && (RemoveBackupStep !in failing ==> BackupOf(exec) !in c')
      && (RemoveBackupStep in failing ==> c'[BackupOf(exec)] == c[exec])
      && forall p :: p != exec && p != BackupOf(exec) ==> (p in c' <==> p in c) && (p in c ==> c'[p] == c[p])
  {
    assert BackupOf(exec) != exec by { assert |BackupOf(exec)| > |exec|; }
  }

  /** A failed copy whose restore works puts the old binary back; only a stale backup file is gone. */
  lemma SwapRestoresOnCopyFailure(c: map<string, string>, exec: string, newBinary: string, failing: set<Step>, partial: Option<string>)
    requires exec in c && BackupStep !in failing
    requires CopyStep in failing && RestoreStep !in failing
    ensures SwapSpec(c, exec, newBinary, failing, partial) == (c - {BackupOf(exec)}, Fail(CopyFailed(exec)))
  {
    assert BackupOf(exec) != exec by { assert |BackupOf(exec)| > |exec|; }
    var backup := BackupOf(exec);
    var c1 := (c - {exec})[backup := c[exec]];
    var c2 := if partial.Some? then c1[exec := partial.value] else c1;
    assert c2[backup] == c[exec];
    var c3 := (c2 - {backup})[exec := c2[backup]];
    assert c3.Keys == (c - {backup}).Keys;
    assert forall p :: p in c3 ==> c3[p] == (c - {backup})[p];
    assert c3 == c - {backup};
    assert SwapSpec(c, exec, newBinary, failing, partial).0 == c3;
  }

  /** A failed backup rename changes nothing. */
  lemma SwapBackupFailure(c: map<string, string>, exec: string, newBinary: string, failing: set<Step>, partial: Option<string>)
    requires exec !in c || BackupStep in failing
    ensures SwapSpec(c, exec, newBinary, failing, partial) == (c, Fail(BackupFailed(exec)))
  {
  }

  /**
   * Every failure before the swap (temporary directory, download, archive
   * format, extraction, no binary, executable path, symbolic links) fails
   * the install and leaves every file as it was.
   */
  lemma FailureBeforeSwapKeepsFiles(c: map<string, string>, archiveName: string, es: seq<TarEntry>, exec: string,
                                    newBinary: string, failing: set<Step>, partial: Option<string>)
    requires || TempDir in failing || Download in failing || ExtractStep in failing
             || Executable in failing || EvalSymlinks in failing
             || FormatOf(archiveName).None? || FirstBinary(FormatOf(archiveName).value, es).None?
    ensures InstallSpec(c, archiveName, es, exec, newBinary, failing, partial).0 == c
    ensures InstallSpec(c, archiveName, es, exec, newBinary, failing, partial).1.Fail?
  {
  }

  /** No file is written, and no update reported, unless the update goes ahead and the platform's asset exists. */
  lemma NothingWrittenBeforeSwap(c: map<string, string>, current: string, release: Option<Release>, force: bool, checkOnly: bool,
                                 goos: string, goarch: string, es: seq<TarEntry>, exec: string, newBinary: string,
                                 failing: set<Step>, partial: Option<string>)
    requires !Decide(current, release, force, checkOnly).Proceed?
      || AssetURL(release.value.assets, ArchiveName(release.value.tagName, goos, goarch)) == ""
    ensures SelfUpdateSpec(c, current, release, force, checkOnly, goos, goarch, es, exec, newBinary, failing, partial).0 == c
    ensures !SelfUpdateSpec(c, current, release, force, checkOnly, goos, goarch, es, exec, newBinary, failing, partial).2.Updated?
  {
  }
}
