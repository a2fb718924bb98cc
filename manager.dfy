/**
 * The version manager (internal/version/manager.go and Manager.Sync in
 * internal/version/toolversions.go) as a class whose methods change a
 * file-system object step by step. Each method is proved to end in the state
 * and with the outcome the matching function of module Lifecycle gives.
 */
module VersionManager {
  import opened Wrappers
  import opened Failures
  import opened Text
  import opened Config
  import opened Lifecycle
  import Plugins
  import Archive
  import Manifest

  /** The part of the file system the manager works on. */
  class FileSystem {
    var versions: map<string, map<string, Node>>
    var current: map<string, Pointer>
    var manifests: map<Path, string>

    constructor (s: Store)
      ensures State() == s
    {
      versions, current, manifests := s.versions, s.current, s.manifests;
    }

    function State(): Store
      reads this
    {
      Store(versions, current, manifests)
    }

    /** os.MkdirAll of versions/<tool>/<version>. */
    method MkdirAll(tool: string, version: string)
      modifies this
      ensures State() == AddVersion(old(State()), tool, version)
    {
      var entries := if tool in versions then versions[tool] else map[];
      versions := versions[tool := entries[version := DirNode]];
    }

    /** os.RemoveAll of versions/<tool>/<version>. */
    method RemoveAll(tool: string, version: string)
      modifies this
      ensures State() == DropVersion(old(State()), tool, version)
    {
      if tool in versions {
        versions := versions[tool := versions[tool] - {version}];
      }
    }

    /** os.Remove of current/<tool>, its error ignored; `fails` says the removal fails. */
    method Remove(tool: string, fails: bool)
      modifies this
      ensures State() == RemovePointer(old(State()), tool, fails)
    {
      if tool in current && !fails && Removable(current[tool]) {
        current := current - {tool};
      }
    }

    /** os.Symlink(target, current/<tool>): fails when the entry exists or the oracle says so. */
    method Symlink(target: string, tool: string, fails: bool) returns (ok: bool)
      modifies this
      ensures ok <==> tool !in old(current) && !fails
      ensures ok ==> State() == old(State()).(current := old(current)[tool := Link(target)])
      ensures !ok ==> State() == old(State())
    {
      if tool in current || fails {
        return false;
      }
      current := current[tool := Link(target)];
      ok := true;
    }

    /** os.Create of <dir>/.toolversions followed by writing `text`. */
    method WriteManifest(dir: Path, text: string)
      modifies this
      ensures State() == old(State()).(manifests := old(manifests)[dir := text])
    {
      manifests := manifests[dir := text];
    }
  }

  /** The entry of a diagnosis: which check, its verdict, and the path or version it reports. */
  datatype Check = RootCheck | VersionsCheck | CurrentCheck | PathCheck | ToolCheck(tool: string)
  datatype Status = StatusOK | StatusWarn | StatusError
  datatype DiagResult = DiagResult(check: Check, status: Status, detail: string)

  class Manager {
    const paths: Paths
    const registry: Plugins.Registry
    const fs: FileSystem

    constructor (paths: Paths, registry: Plugins.Registry, fs: FileSystem)
      ensures this.paths == paths && this.registry == registry && this.fs == fs
    {
      this.paths, this.registry, this.fs := paths, registry, fs;
    }

    /** Install: see Lifecycle.InstallSpec. */
    method Install(tool: string, version: string, env: Env) returns (r: Outcome<Error>)
      modifies fs
      ensures (fs.State(), r) == InstallSpec(old(fs.State()), paths, registry.plugins, tool, version, env)
    {
      var p := registry.Get(tool);
      if p.Err? {
        return Fail(p.error);
      }
      var installDir := ToolVersionPath(paths, tool, version);
      if tool in fs.versions && version in fs.versions[tool] {
        return Fail(AlreadyInstalled(tool, version));
      }
      if installDir in env.mkdirFails {
        return Fail(MkdirFailed(installDir));
      }
      fs.MkdirAll(tool, version);
      var url := Plugins.ResolveDownloadURL(p.value, version, env.goos, env.goarch);
      if url in env.downloadFails {
        fs.RemoveAll(tool, version);
        return Fail(DownloadFailed(url));
      }
      var archiveType := Plugins.ResolveArchiveType(p.value, env.goos);
      if Archive.ExtractorFor(archiveType).None? {
        fs.RemoveAll(tool, version);
        return Fail(UnsupportedArchive(archiveType));
      }
      if url in env.extractFails {
        fs.RemoveAll(tool, version);
        return Fail(ExtractFailed(url));
      }
      // runPostInstall only prints a notice and succeeds
      r := Pass;
    }

    /** Use: see Lifecycle.UseSpec. */
    method Use(tool: string, version: string, env: Env) returns (r: Outcome<Error>)
      modifies fs
      ensures (fs.State(), r) == UseSpec(old(fs.State()), paths, registry.plugins, tool, version, env)
    {
      var p := registry.Get(tool);
      if p.Err? {
        return Fail(p.error);
      }
      var versionDir := ToolVersionPath(paths, tool, version);
      if !(tool in fs.versions && version in fs.versions[tool]) {
        return Fail(NotInstalled(tool, version));
      }
      var symlinkPath := ToolCurrentPath(paths, tool);
      fs.Remove(tool, symlinkPath in env.unlinkFails);
      var ok := fs.Symlink(Render(versionDir), tool, symlinkPath in env.linkFails);
      if !ok {
        return Fail(LinkFailed(symlinkPath));
      }
      r := Pass;
    }

    /**
     * Current: the version current/<tool> links to, "" when there is no
     * readable link; on a consistent state, a version Current reports is
     * installed.
     */
    function Current(tool: string): (r: string)
      reads this, fs
      ensures r == "" || (tool in fs.current && fs.current[tool].Link?)
      ensures Consistent(fs.State(), paths) && r != "" ==> Installed(fs.State(), tool, r)
      ensures tool in fs.current && fs.current[tool].Link? ==> r != ""
    {
      CurrentOf(fs.State(), tool)
    }

    /** Uninstall: see Lifecycle.UninstallSpec. */
    method Uninstall(tool: string, version: string, env: Env) returns (r: Outcome<Error>)
      modifies fs
      ensures (fs.State(), r) == UninstallSpec(old(fs.State()), paths, registry.plugins, tool, version, env)
    {
      var p := registry.Get(tool);
      if p.Err? {
        return Fail(p.error);
      }
      var versionDir := ToolVersionPath(paths, tool, version);
      if !(tool in fs.versions && version in fs.versions[tool]) {
        return Fail(NotInstalled(tool, version));
      }
      var current := Current(tool);
      if current == version {
        fs.Remove(tool, ToolCurrentPath(paths, tool) in env.unlinkFails);
      }
      if versionDir in env.removeFails {
        return Fail(RemoveFailed(versionDir));
      }
      fs.RemoveAll(tool, version);
      r := Pass;
    }

    /**
     * List: an unknown tool is an error, a missing versions/<tool>/ gives no
     * versions, and otherwise the names of the directory entries, sorted
     * ascending, each once.
     */
    method List(tool: string) returns (r: Result<seq<string>, Error>)
      ensures tool !in registry.plugins <==> r.Err?
      ensures r.Err? ==> r.error == UnknownTool(tool)
      ensures r.Ok? ==> Ascending(r.value) && Elems(r.value) == VersionDirs(fs.State(), tool)
      ensures r.Ok? && tool !in fs.versions ==> r.value == []
    {
      var p := registry.Get(tool);
      if p.Err? {
        return Err(p.error);
      }
      if tool !in fs.versions {
        return Ok([]);
      }
      var entries := fs.versions[tool];
      var names: set<string> := {};
      var rest := entries.Keys;
      while rest != {}
        invariant rest <= entries.Keys
        invariant names == set v | v in entries.Keys - rest && entries[v] == DirNode
        decreases |rest|
      {
        var e :| e in rest;
        if entries[e] == DirNode {
          names := names + {e};
        }
        rest := rest - {e};
      }
      var versions := SortNames(names);
      r := Ok(versions);
    }

    /** CurrentAll: every entry of current/ that is a readable link, with the version it names. */
    method CurrentAll() returns (result: map<string, string>)
      ensures result == ActiveVersions(fs.State())
    {
      result := map[];
      var rest := fs.current.Keys;
      while rest != {}
        invariant rest <= fs.current.Keys
        invariant result == map t | t in fs.current.Keys - rest && fs.current[t].Link? :: Base(fs.current[t].target)
        decreases |rest|
      {
        var name :| name in rest;
        if fs.current[name].Link? {
          result := result[name := Base(fs.current[name].target)];
        }
        rest := rest - {name};
      }
    }

    /** checkDir: an error exactly when the path does not exist. */
    function CheckDir(check: Check, path: Path, existing: set<Path>): (d: DiagResult)
      ensures d.check == check
      ensures d.status == StatusError <==> path !in existing
      ensures d.status != StatusWarn
    {
      if path !in existing then DiagResult(check, StatusError, "") else DiagResult(check, StatusOK, Render(path))
    }

    /** checkPATH: OK exactly when the PATH value contains the current/ directory as text, a warning otherwise. */
    function CheckPath(pathEnv: string): (d: DiagResult)
      ensures d.check == PathCheck
      ensures d.status == StatusOK <==> Contains(pathEnv, Render(paths.current))
      ensures d.status != StatusError
    {
      if Contains(pathEnv, Render(paths.current)) then DiagResult(PathCheck, StatusOK, "")
      else DiagResult(PathCheck, StatusWarn, Render(paths.current))
    }

    /**
     * Doctor: the checks of root, versions and current in that order, then the
     * PATH check, then one OK entry per active tool, in the map order recorded
     * by `tools`. `existing` holds the directories that exist and `pathEnv` is
     * the value of PATH.
     */
    method Doctor(existing: set<Path>, pathEnv: string) returns (results: seq<DiagResult>, ghost tools: seq<string>)
      ensures Elems(tools) == ActiveVersions(fs.State()).Keys && |tools| == |ActiveVersions(fs.State())|
      ensures forall i :: 0 <= i < |tools| ==> tools[i] in ActiveVersions(fs.State())
      ensures results == [CheckDir(RootCheck, paths.root, existing), CheckDir(VersionsCheck, paths.versions, existing),
                          CheckDir(CurrentCheck, paths.current, existing), CheckPath(pathEnv)]
                         + ToolChecks(ActiveVersions(fs.State()), tools)
    {
      var fixed := [CheckDir(RootCheck, paths.root, existing), CheckDir(VersionsCheck, paths.versions, existing),
                    CheckDir(CurrentCheck, paths.current, existing), CheckPath(pathEnv)];
      var currentAll := CurrentAll();
      var checks;
      checks, tools := ReportActive(currentAll);
      results := fixed + checks;
    }

    /** Doctor's loop over CurrentAll: one OK entry per tool, in map order. */
    static method ReportActive(currentAll: map<string, string>) returns (checks: seq<DiagResult>, ghost tools: seq<string>)
      ensures Elems(tools) == currentAll.Keys && |tools| == |currentAll|
      ensures forall i :: 0 <= i < |tools| ==> tools[i] in currentAll
      ensures checks == ToolChecks(currentAll, tools)
    {
      checks := [];
      tools := [];
      var rest := currentAll.Keys;
      while rest != {}
        invariant Visiting(currentAll.Keys, tools, rest)
        invariant checks == ToolChecks(currentAll, tools)
        decreases |rest|
      {
        var tool :| tool in rest;
        VisitNext(currentAll.Keys, tools, rest, tool);
        checks := checks + [DiagResult(ToolCheck(tool), StatusOK, currentAll[tool])];
        tools := tools + [tool];
        assert checks == ToolChecks(currentAll, tools);
        rest := rest - {tool};
      }
      assert |currentAll.Keys| == |currentAll|;
    }

    /** Sync's loop body: install when the directory is absent, then use; failures are only warnings. */
    method SyncEntry(tool: string, version: string, env: Env)
      modifies fs
      ensures fs.State() == SyncStep(old(fs.State()), paths, registry.plugins, tool, version, env).0
    {
      if !(tool in fs.versions && version in fs.versions[tool]) {
        var installed := Install(tool, version, env);
        if installed.Fail? {
          return;   // reported as a warning
        }
      }
      var used := Use(tool, version, env);   // a failure is reported as a warning
    }

    /**
     * Sync: read the nearest manifest from `dir` and, for each entry in map
     * order, install the version when its directory is absent and then use it.
     * Only a manifest that cannot be found or parsed is an error; `order` is
     * the order the entries were handled in.
     */
    method Sync(dir: Path, env: Env) returns (r: Outcome<Error>, ghost order: seq<string>)
      modifies fs
      ensures var read := Manifest.ReadSpec(old(fs.manifests), dir);
        && (r.Fail? <==> read.Err?)
        && (r.Fail? ==> r.error == read.error && fs.State() == old(fs.State()))
        && (r.Pass? ==>
              && Elems(order) == read.value.0.Keys
              && (forall i, j :: 0 <= i < j < |order| ==> order[i] != order[j])
              && (forall i :: 0 <= i < |order| ==> order[i] in read.value.0)
              && fs.State() == SyncFold(old(fs.State()), paths, registry.plugins, read.value.0, order, env))
    {
      var tv := Manifest.ReadToolVersions(fs.manifests, dir);
      if tv.Err? {
        return Fail(tv.error), [];
      }
      order := SyncAll(tv.value.0, env);
      r := Pass;
    }

    /** Sync's loop over the manifest's entries, in map order. */
    method SyncAll(tools: map<string, string>, env: Env) returns (ghost order: seq<string>)
      modifies fs
      ensures Elems(order) == tools.Keys
      ensures forall i, j :: 0 <= i < j < |order| ==> order[i] != order[j]
      ensures forall i :: 0 <= i < |order| ==> order[i] in tools
      ensures fs.State() == SyncFold(old(fs.State()), paths, registry.plugins, tools, order, env)
    {
      ghost var s0 := fs.State();
      order := [];
      var rest := tools.Keys;
      while rest != {}
        invariant Visiting(tools.Keys, order, rest)
        invariant fs.State() == SyncFold(s0, paths, registry.plugins, tools, order, env)
        decreases |rest|
      {
        var tool :| tool in rest;
        var version := tools[tool];
        SyncEntry(tool, version, env);
        SyncFoldSnoc(s0, paths, registry.plugins, tools, order, tool, env);
        VisitNext(tools.Keys, order, rest, tool);
        order := order + [tool];
        rest := rest - {tool};
      }
    }
  }

  /** One OK entry per tool, reporting its active version. */
  function ToolChecks(active: map<string, string>, tools: seq<string>): (ds: seq<DiagResult>)
    requires forall i :: 0 <= i < |tools| ==> tools[i] in active
    ensures |ds| == |tools|
    ensures forall i :: 0 <= i < |tools| ==> ds[i] == DiagResult(ToolCheck(tools[i]), StatusOK, active[tools[i]])
  {
    seq(|tools|, i requires 0 <= i < |tools| => DiagResult(ToolCheck(tools[i]), StatusOK, active[tools[i]]))
  }

  lemma {:induction false} SyncFoldSnoc(s: Store, paths: Paths, reg: Registry, tools: map<string, string>, order: seq<string>, tool: string, env: Env)
    requires forall i :: 0 <= i < |order| ==> order[i] in tools
    requires tool in tools
    ensures SyncFold(s, paths, reg, tools, order + [tool], env)
         == SyncStep(SyncFold(s, paths, reg, tools, order, env), paths, reg, tool, tools[tool], env).0
    decreases |order|
  {
    if order != [] {
      assert (order + [tool])[1..] == order[1..] + [tool];
      SyncFoldSnoc(SyncStep(s, paths, reg, order[0], tools[order[0]], env).0, paths, reg, tools, order[1..], tool, env);
    }
  }
}
