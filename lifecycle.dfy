/**
 * The version lifecycle of internal/version/manager.go as functions on a
 * value of the file-system state: which version directories exist under
 * versions/<tool>/, what each current/<tool> entry is, and the
 * `.toolversions` files. The methods of the Manager class are proved
 * against these functions; the properties are proved here.
 *
 * Download, extraction and the creation and removal of files and links are
 * oracles: an `Env` names the URLs and paths at which they fail.
 */
module Lifecycle {
  import opened Wrappers
  import opened Failures
  import opened Text
  import opened Config
  import Plugins
  import Archive

  /** An entry of a versions/<tool>/ directory. */
  datatype Node = DirNode | FileNode

  /**
   * An entry of the current/ directory: a symbolic link with its target text,
   * or something else that os.Remove may or may not be able to remove (a
   * file, an empty or a non-empty directory).
   */
  datatype Pointer = Link(target: string) | Other(removable: bool)

  datatype Store = Store(
    versions: map<string, map<string, Node>>,  // tool -> entries of versions/<tool>/; absent when that directory is
    current: map<string, Pointer>,             // entries of current/
    manifests: map<Path, string>)              // directory -> text of its .toolversions

  /** The outside world's answers: runtime platform and the places where an operation fails. */
  datatype Env = Env(
    goos: string,
    goarch: string,
    mkdirFails: set<Path>,
    downloadFails: set<string>,
    extractFails: set<string>,
    linkFails: set<Path>,     // os.Symlink of current/<tool> fails
    unlinkFails: set<Path>,   // os.Remove of current/<tool> fails (for instance, current/ is not writable)
    removeFails: set<Path>)   // os.RemoveAll of a version directory fails

  type Registry = map<string, Plugins.Plugin>

  /** os.Stat(ToolVersionPath(tool, version)) succeeds: there is an entry of that name, of any kind. */
  predicate Installed(s: Store, tool: string, version: string) {
    tool in s.versions && version in s.versions[tool]
  }

  /** The entries of versions/<tool>/, none when it does not exist. */
  function Entries(s: Store, tool: string): map<string, Node> {
    if tool in s.versions then s.versions[tool] else map[]
  }

  /** os.MkdirAll(ToolVersionPath(tool, version)) on a state where it did not exist. */
  function AddVersion(s: Store, tool: string, version: string): Store {
    s.(versions := s.versions[tool := Entries(s, tool)[version := DirNode]])
  }

  /** os.RemoveAll(ToolVersionPath(tool, version)): the tool directory itself stays. */
  function DropVersion(s: Store, tool: string, version: string): Store {
    if tool in s.versions then s.(versions := s.versions[tool := s.versions[tool] - {version}]) else s
  }

  predicate Removable(p: Pointer) {
    p.Link? || p.removable
  }

  /**
   * os.Remove(ToolCurrentPath(tool)), its error ignored: the entry stays when
   * the removal fails (`fails`) or the entry cannot be removed.
   */
  function RemovePointer(s: Store, tool: string, fails: bool): Store {
    if tool in s.current && !fails && Removable(s.current[tool]) then s.(current := s.current - {tool}) else s
  }

  /** Whether os.Remove of current/<tool> fails in `env`. */
  predicate UnlinkFails(paths: Paths, env: Env, tool: string) {
    ToolCurrentPath(paths, tool) in env.unlinkFails
  }

  /** The text of the link Use creates: the version directory as a path string. */
  function LinkTarget(paths: Paths, tool: string, version: string): string {
    Render(ToolVersionPath(paths, tool, version))
  }

  // ---------------------------------------------------------------- the operations

  /** Install: registry lookup, duplicate check, directory creation, then download, extract and post-install with rollback. */
  function InstallSpec(s: Store, paths: Paths, reg: Registry, tool: string, version: string, env: Env): (Store, Outcome<Error>) {
    if tool !in reg then (s, Fail(UnknownTool(tool)))
    else if Installed(s, tool, version) then (s, Fail(AlreadyInstalled(tool, version)))
    else
      var dir := ToolVersionPath(paths, tool, version);
      if dir in env.mkdirFails then (s, Fail(MkdirFailed(dir)))
      else
        var p := reg[tool];
        var url := Plugins.ResolveDownloadURL(p, version, env.goos, env.goarch);
        var tag := Plugins.ResolveArchiveType(p, env.goos);
        var created := AddVersion(s, tool, version);
        var rolledBack := DropVersion(created, tool, version);
        if url in env.downloadFails then (rolledBack, Fail(DownloadFailed(url)))
        else if Archive.ExtractorFor(tag).None? then (rolledBack, Fail(UnsupportedArchive(tag)))
        else if url in env.extractFails then (rolledBack, Fail(ExtractFailed(url)))
        else (created, Pass)   // the post-install step always succeeds
  }

  /** Use: registry lookup, installed check, removal of the old entry, creation of the link. */
  function UseSpec(s: Store, paths: Paths, reg: Registry, tool: string, version: string, env: Env): (Store, Outcome<Error>) {
    if tool !in reg then (s, Fail(UnknownTool(tool)))
    else if !Installed(s, tool, version) then (s, Fail(NotInstalled(tool, version)))
    else
      var link := ToolCurrentPath(paths, tool);
      var cleared := RemovePointer(s, tool, UnlinkFails(paths, env, tool));
      if tool in cleared.current || link in env.linkFails then (cleared, Fail(LinkFailed(link)))
      else (cleared.(current := cleared.current[tool := Link(LinkTarget(paths, tool, version))]), Pass)
  }

  /** Current: the last element of the link's target, "" when current/<tool> is not a link. */
  function CurrentOf(s: Store, tool: string): string {
    if tool in s.current && s.current[tool].Link? then Base(s.current[tool].target) else ""
  }

  /** Uninstall: registry lookup, installed check, the link first when it names this version, then the directory. */
  function UninstallSpec(s: Store, paths: Paths, reg: Registry, tool: string, version: string, env: Env): (Store, Outcome<Error>) {
    if tool !in reg then (s, Fail(UnknownTool(tool)))
    else if !Installed(s, tool, version) then (s, Fail(NotInstalled(tool, version)))
    else
      var unlinked := if CurrentOf(s, tool) == version then RemovePointer(s, tool, UnlinkFails(paths, env, tool)) else s;
      var dir := ToolVersionPath(paths, tool, version);
      if dir in env.removeFails then (unlinked, Fail(RemoveFailed(dir)))
      else (DropVersion(unlinked, tool, version), Pass)
  }

  /** The names List reports: the directory entries of versions/<tool>/. */
  function VersionDirs(s: Store, tool: string): set<string> {
    set v | v in Entries(s, tool) && Entries(s, tool)[v] == DirNode
  }

  /** CurrentAll: Current of every entry of current/ that is a link. */
  function ActiveVersions(s: Store): map<string, string> {
    map t | t in s.current && s.current[t].Link? :: Base(s.current[t].target)
  }

  // ---------------------------------------------------------------- what Install promises

  /** Installing an unknown tool or a version that exists fails and changes nothing. */
  lemma InstallRefusesEarly(s: Store, paths: Paths, reg: Registry, tool: string, version: string, env: Env)
    requires tool !in reg || Installed(s, tool, version)
    ensures InstallSpec(s, paths, reg, tool, version, env).0 == s
    ensures InstallSpec(s, paths, reg, tool, version, env).1 ==
      Fail(if tool !in reg then UnknownTool(tool) else AlreadyInstalled(tool, version))
  {
  }

  /**
   * A failing Install leaves the version not installed and every other version,
   * every pointer and every manifest as they were; at most an empty
   * versions/<tool>/ directory is left behind.
   */
  lemma InstallFailureRollsBack(s: Store, paths: Paths, reg: Registry, tool: string, version: string, env: Env)
    requires !Installed(s, tool, version)
    requires InstallSpec(s, paths, reg, tool, version, env).1.Fail?
    ensures var s' := InstallSpec(s, paths, reg, tool, version, env).0;
      && !Installed(s', tool, version)
      && s'.current == s.current && s'.manifests == s.manifests
      && Entries(s', tool) == Entries(s, tool)
      && (forall t :: t != tool ==> (t in s'.versions <==> t in s.versions))
      && (forall t :: t != tool && t in s.versions ==> s'.versions[t] == s.versions[t])
  {
    if tool in reg && ToolVersionPath(paths, tool, version) !in env.mkdirFails {
      assert InstallSpec(s, paths, reg, tool, version, env).0 == DropVersion(AddVersion(s, tool, version), tool, version);
      AddDropRestores(s, tool, version);
      var s' := s.(versions := s.versions[tool := Entries(s, tool)]);
      assert Entries(s', tool) == Entries(s, tool);
    }
  }

  /** Creating a version directory and removing it again leaves only the tool directory behind. */
  lemma AddDropRestores(s: Store, tool: string, version: string)
    requires !Installed(s, tool, version)
    ensures DropVersion(AddVersion(s, tool, version), tool, version) == s.(versions := s.versions[tool := Entries(s, tool)])
  {
    assert Entries(s, tool)[version := DirNode] - {version} == Entries(s, tool);
  }

  /**
   * A successful Install adds exactly the version directory: nothing else
   * changes, pointers and manifests included.
   */
  lemma InstallSuccessAddsExactly(s: Store, paths: Paths, reg: Registry, tool: string, version: string, env: Env)
    requires InstallSpec(s, paths, reg, tool, version, env).1.Pass?
    ensures var s' := InstallSpec(s, paths, reg, tool, version, env).0;
      && !Installed(s, tool, version) && Installed(s', tool, version)
      && s'.versions[tool] == Entries(s, tool)[version := DirNode]
      && s'.current == s.current && s'.manifests == s.manifests
      && (forall t :: t != tool ==> (t in s'.versions <==> t in s.versions))
      && (forall t :: t != tool && t in s.versions ==> s'.versions[t] == s.versions[t])
  {
  }

  /** Install succeeds exactly when every step does. */
  lemma InstallSucceedsIff(s: Store, paths: Paths, reg: Registry, tool: string, version: string, env: Env)
    ensures InstallSpec(s, paths, reg, tool, version, env).1.Pass? <==>
      && tool in reg && !Installed(s, tool, version)
      && ToolVersionPath(paths, tool, version) !in env.mkdirFails
      && Plugins.ResolveDownloadURL(reg[tool], version, env.goos, env.goarch) !in env.downloadFails
      && Archive.ExtractorFor(Plugins.ResolveArchiveType(reg[tool], env.goos)).Some?
      && Plugins.ResolveDownloadURL(reg[tool], version, env.goos, env.goarch) !in env.extractFails
  {
  }

  // ---------------------------------------------------------------- what Use promises

  /** Use of an unknown tool or a version that is not installed fails before touching the pointer. */
  lemma UseRefusesEarly(s: Store, paths: Paths, reg: Registry, tool: string, version: string, env: Env)
    requires tool !in reg || !Installed(s, tool, version)
    ensures UseSpec(s, paths, reg, tool, version, env).0 == s
    ensures UseSpec(s, paths, reg, tool, version, env).1 ==
      Fail(if tool !in reg then UnknownTool(tool) else NotInstalled(tool, version))
  {
  }

  /**
   * A successful Use points current/<tool> at the version directory, so that
   * Current reports the version; it touches no other pointer, no version
   * directory and no manifest.
   */
  lemma UseSetsOnlyThatPointer(s: Store, paths: Paths, reg: Registry, tool: string, version: string, env: Env)
    requires version != "" && '/' !in version
    requires UseSpec(s, paths, reg, tool, version, env).1.Pass?
    ensures var s' := UseSpec(s, paths, reg, tool, version, env).0;
      && s'.current == s.current[tool := Link(LinkTarget(paths, tool, version))]
      && CurrentOf(s', tool) == version
      && s'.versions == s.versions && s'.manifests == s.manifests
  {
    var l := Link(LinkTarget(paths, tool, version));
    var cleared := RemovePointer(s, tool, UnlinkFails(paths, env, tool));
    assert UseSpec(s, paths, reg, tool, version, env).0 == cleared.(current := cleared.current[tool := l]);
    assert cleared.current[tool := l] == s.current[tool := l];
    BaseOfRender(ToolVersionPath(paths, tool, version));
  }

  /**
   * When Use fails at the link step, the old entry has already been removed
   * when it could be, and the tool is left without an active version; when
   * the removal failed, the old entry is still there and is what made the
   * link fail.
   */
  lemma UseLinkFailureDropsPointer(s: Store, paths: Paths, reg: Registry, tool: string, version: string, env: Env)
    requires tool in reg && Installed(s, tool, version)
    requires UseSpec(s, paths, reg, tool, version, env).1.Fail?
    ensures var s' := UseSpec(s, paths, reg, tool, version, env).0;
      && UseSpec(s, paths, reg, tool, version, env).1 == Fail(LinkFailed(ToolCurrentPath(paths, tool)))
      && s'.versions == s.versions && s'.manifests == s.manifests
      && (forall t :: t != tool ==> (t in s'.current <==> t in s.current) && (t in s.current ==> s'.current[t] == s.current[t]))
      && (tool in s.current && !UnlinkFails(paths, env, tool) && Removable(s.current[tool]) ==> tool !in s'.current && CurrentOf(s', tool) == "")
      && (tool in s.current && (UnlinkFails(paths, env, tool) || !Removable(s.current[tool])) ==>
            tool in s'.current && s'.current[tool] == s.current[tool] && CurrentOf(s', tool) == CurrentOf(s, tool))
  {
  }

  // ---------------------------------------------------------------- what Uninstall promises

  /**
   * A successful Uninstall deletes exactly that version; it removes the
   * tool's pointer exactly when Current named the version, and no other.
   */
  lemma UninstallRemovesExactly(s: Store, paths: Paths, reg: Registry, tool: string, version: string, env: Env)
    requires UninstallSpec(s, paths, reg, tool, version, env).1.Pass?
    ensures var s' := UninstallSpec(s, paths, reg, tool, version, env).0;
      && Installed(s, tool, version) && !Installed(s', tool, version)
      && s'.versions == s.versions[tool := s.versions[tool] - {version}]
      && s'.current == (if CurrentOf(s, tool) == version then RemovePointer(s, tool, UnlinkFails(paths, env, tool)).current else s.current)
      && s'.manifests == s.manifests
  {
  }

  /** Uninstall of an unknown tool or a version that is not installed fails and changes nothing. */
  lemma UninstallRefusesEarly(s: Store, paths: Paths, reg: Registry, tool: string, version: string, env: Env)
    requires tool !in reg || !Installed(s, tool, version)
    ensures UninstallSpec(s, paths, reg, tool, version, env).0 == s
    ensures UninstallSpec(s, paths, reg, tool, version, env).1 ==
      Fail(if tool !in reg then UnknownTool(tool) else NotInstalled(tool, version))
  {
  }

  // ---------------------------------------------------------------- pointer consistency

  /** A version name that is a single path element: Current can read it back from a link. */
  predicate Component(v: string) {
    v != "" && '/' !in v
  }

  /**
   * Every link in current/ points at the directory of an installed version of
   * its own tool, and that version is what Current reports.
   */
  predicate Consistent(s: Store, paths: Paths) {
    forall t :: t in s.current && s.current[t].Link? ==>
      && Component(CurrentOf(s, t))
      && Installed(s, t, CurrentOf(s, t))
      && s.current[t].target == LinkTarget(paths, t, CurrentOf(s, t))
  }

  /** Consistency holds on a state with the same links, where every linked version is still installed. */
  lemma ConsistentWhenLinksKept(s: Store, s': Store, paths: Paths)
    requires Consistent(s, paths)
    requires s'.current == s.current
    requires forall t :: t in s.current && s.current[t].Link? ==> Installed(s', t, CurrentOf(s, t))
    ensures Consistent(s', paths)
  {
  }

  /** Install never removes an installed version and never changes a pointer. */
  lemma InstallMonotone(s: Store, paths: Paths, reg: Registry, tool: string, version: string, env: Env)
    ensures var s' := InstallSpec(s, paths, reg, tool, version, env).0;
      && s'.current == s.current && s'.manifests == s.manifests
      && forall t, v :: Installed(s, t, v) ==> Installed(s', t, v)
  {
    var r := InstallSpec(s, paths, reg, tool, version, env);
    if r.1.Fail? && r.0 != s {
      InstallFailureRollsBack(s, paths, reg, tool, version, env);
    }
  }

  lemma InstallKeepsConsistent(s: Store, paths: Paths, reg: Registry, tool: string, version: string, env: Env)
    requires Consistent(s, paths)
    ensures Consistent(InstallSpec(s, paths, reg, tool, version, env).0, paths)
  {
    InstallMonotone(s, paths, reg, tool, version, env);
    ConsistentWhenLinksKept(s, InstallSpec(s, paths, reg, tool, version, env).0, paths);
  }

  lemma UseKeepsConsistent(s: Store, paths: Paths, reg: Registry, tool: string, version: string, env: Env)
    requires Consistent(s, paths)
    requires Component(version)
    ensures Consistent(UseSpec(s, paths, reg, tool, version, env).0, paths)
  {
    var r := UseSpec(s, paths, reg, tool, version, env);
    if r.1.Pass? {
      UseSetsOnlyThatPointer(s, paths, reg, tool, version, env);
      assert Installed(s, tool, version);
      forall t | t in r.0.current && r.0.current[t].Link?
        ensures Component(CurrentOf(r.0, t)) && Installed(r.0, t, CurrentOf(r.0, t))
        ensures r.0.current[t].target == LinkTarget(paths, t, CurrentOf(r.0, t))
      {
        if t != tool {
          assert r.0.current[t] == s.current[t];
        }
      }
    } else if r.0 != s {
      assert r.0 == RemovePointer(s, tool, UnlinkFails(paths, env, tool));
    }
  }

  /**
   * Consistency survives dropping one version and possibly some pointers,
   * provided no remaining link names the dropped version.
   */
  lemma ConsistentAfterRemoval(s: Store, s': Store, paths: Paths, tool: string, version: string)
    requires Consistent(s, paths)
    requires forall t :: t in s'.current ==> t in s.current && s'.current[t] == s.current[t]
    requires forall t, v :: Installed(s, t, v) && (t != tool || v != version) ==> Installed(s', t, v)
    requires tool in s'.current && s'.current[tool].Link? ==> CurrentOf(s, tool) != version
    ensures Consistent(s', paths)
  {
    forall t | t in s'.current && s'.current[t].Link?
      ensures Installed(s', t, CurrentOf(s', t))
    {
      assert CurrentOf(s', t) == CurrentOf(s, t);
      assert Installed(s, t, CurrentOf(s, t));
    }
  }

  /**
   * The link goes before the directory, so when the unlink succeeds (or the
   * version is not the active one) uninstall never leaves a link to a
   * removed version.
   */
  lemma UninstallKeepsConsistent(s: Store, paths: Paths, reg: Registry, tool: string, version: string, env: Env)
    requires Consistent(s, paths)
    requires CurrentOf(s, tool) == version ==> !UnlinkFails(paths, env, tool)
    ensures Consistent(UninstallSpec(s, paths, reg, tool, version, env).0, paths)
  {
    if tool in reg && Installed(s, tool, version) {
      var fails := UnlinkFails(paths, env, tool);
      var unlinked := if CurrentOf(s, tool) == version then RemovePointer(s, tool, fails) else s;
      var dir := ToolVersionPath(paths, tool, version);
      if dir in env.removeFails {
        assert UninstallSpec(s, paths, reg, tool, version, env).0 == unlinked;
        UnlinkFacts(s, tool, version, fails);
        ConsistentAfterRemoval(s, unlinked, paths, tool, version);
      } else {
        assert UninstallSpec(s, paths, reg, tool, version, env).0 == DropVersion(unlinked, tool, version);
        UnlinkFacts(s, tool, version, fails);
        ConsistentAfterRemoval(s, DropVersion(unlinked, tool, version), paths, tool, version);
      }
    }
  }

  /**
   * The error of the unlink is ignored: when it fails and the directory is
   * removed, uninstall succeeds and current/<tool> still links to the removed
   * version, so the state is no longer consistent.
   */
  lemma UninstallUnlinkFailureDangles(s: Store, paths: Paths, reg: Registry, tool: string, version: string, env: Env)
    requires tool in reg && Installed(s, tool, version)
    requires tool in s.current && s.current[tool].Link? && CurrentOf(s, tool) == version
    requires UnlinkFails(paths, env, tool)
    requires ToolVersionPath(paths, tool, version) !in env.removeFails
    ensures var r := UninstallSpec(s, paths, reg, tool, version, env);
      && r.1.Pass?
      && tool in r.0.current && r.0.current[tool] == s.current[tool]
      && CurrentOf(r.0, tool) == version && !Installed(r.0, tool, version)
      && !Consistent(r.0, paths)
  {
    var r := UninstallSpec(s, paths, reg, tool, version, env);
    assert r.0 == DropVersion(s, tool, version);
  }

  /**
   * The link goes first when it names the version; unless its removal fails,
   * neither the unlinked state nor the one without the directory links to it.
   */
  lemma UnlinkFacts(s: Store, tool: string, version: string, fails: bool)
    requires CurrentOf(s, tool) == version ==> !fails
    ensures var u := if CurrentOf(s, tool) == version then RemovePointer(s, tool, fails) else s;
      && (forall t :: t in u.current ==> t in s.current && u.current[t] == s.current[t])
      && u.versions == s.versions
      && (tool in u.current && u.current[tool].Link? ==> CurrentOf(s, tool) != version)
      && DropVersion(u, tool, version).current == u.current
      && (forall t, v :: Installed(s, t, v) && (t != tool || v != version) ==> Installed(DropVersion(u, tool, version), t, v))
  {
  }

  /**
   * Installing and then uninstalling a version leaves pointers, manifests and
   * the other tools as they were, and versions/<tool>/ with its old entries.
   */
  lemma InstallThenUninstall(s: Store, paths: Paths, reg: Registry, tool: string, version: string, env: Env)
    requires Consistent(s, paths)
    requires version != ""
    requires InstallSpec(s, paths, reg, tool, version, env).1.Pass?
    requires ToolVersionPath(paths, tool, version) !in env.removeFails
    ensures var s1 := InstallSpec(s, paths, reg, tool, version, env).0;
      var s2 := UninstallSpec(s1, paths, reg, tool, version, env).0;
      && UninstallSpec(s1, paths, reg, tool, version, env).1.Pass?
      && s2.current == s.current && s2.manifests == s.manifests
      && Entries(s2, tool) == Entries(s, tool)
      && (forall t :: t != tool ==> Entries(s2, t) == Entries(s, t))
  {
    var s1 := InstallSpec(s, paths, reg, tool, version, env).0;
    InstallSuccessAddsExactly(s, paths, reg, tool, version, env);
    assert UninstallSpec(s1, paths, reg, tool, version, env).1.Pass?;
    UninstallRemovesExactly(s1, paths, reg, tool, version, env);
    if tool in s.current && s.current[tool].Link? {
      assert Installed(s, tool, CurrentOf(s, tool));
    }
    assert CurrentOf(s1, tool) != version;
    assert Entries(s, tool)[version := DirNode] - {version} == Entries(s, tool);
  }

  // ---------------------------------------------------------------- Sync

  /** How one manifest entry fared in Sync. */
  datatype SyncEntry = Activated(installedNow: bool) | InstallFailed(error: Error) | UseFailed(error: Error)

  /** Sync's loop body for one entry: install when the directory is absent, then use; failures are only reported. */
  function SyncStep(s: Store, paths: Paths, reg: Registry, tool: string, version: string, env: Env): (Store, SyncEntry) {
    var needInstall := !Installed(s, tool, version);
    var (s1, installed) := if needInstall then InstallSpec(s, paths, reg, tool, version, env) else (s, Pass);
    if installed.Fail? then (s1, InstallFailed(installed.error))
    else
      var (s2, used) := UseSpec(s1, paths, reg, tool, version, env);
      (s2, if used.Fail? then UseFailed(used.error) else Activated(needInstall))
  }

  /** The entries handled in `order`. */
  function SyncFold(s: Store, paths: Paths, reg: Registry, tools: map<string, string>, order: seq<string>, env: Env): Store
    requires forall i :: 0 <= i < |order| ==> order[i] in tools
    decreases |order|
  {
    if order == [] then s
    else SyncFold(SyncStep(s, paths, reg, order[0], tools[order[0]], env).0, paths, reg, tools, order[1..], env)
  }

  /** Everything of the state that concerns one tool. */
  datatype View = View(hasDir: bool, entries: map<string, Node>, pointer: Option<Pointer>)

  function ViewOf(s: Store, tool: string): View {
    View(tool in s.versions, Entries(s, tool), if tool in s.current then Some(s.current[tool]) else None)
  }

  /** A Sync step touches its own tool only, and never a manifest. */
  lemma SyncStepFrame(s: Store, paths: Paths, reg: Registry, tool: string, version: string, env: Env, other: string)
    requires other != tool
    ensures ViewOf(SyncStep(s, paths, reg, tool, version, env).0, other) == ViewOf(s, other)
    ensures SyncStep(s, paths, reg, tool, version, env).0.manifests == s.manifests
  {
    var i := InstallSpec(s, paths, reg, tool, version, env);
    InstallFrame(s, paths, reg, tool, version, env, other);
    UseFrame(s, paths, reg, tool, version, env, other);
    UseFrame(i.0, paths, reg, tool, version, env, other);
  }

  lemma InstallFrame(s: Store, paths: Paths, reg: Registry, tool: string, version: string, env: Env, other: string)
    requires other != tool
    ensures ViewOf(InstallSpec(s, paths, reg, tool, version, env).0, other) == ViewOf(s, other)
    ensures InstallSpec(s, paths, reg, tool, version, env).0.manifests == s.manifests
  {
    assert ViewOf(AddVersion(s, tool, version), other) == ViewOf(s, other);
    assert ViewOf(DropVersion(AddVersion(s, tool, version), tool, version), other) == ViewOf(s, other);
  }

  lemma UseFrame(s: Store, paths: Paths, reg: Registry, tool: string, version: string, env: Env, other: string)
    requires other != tool
    ensures ViewOf(UseSpec(s, paths, reg, tool, version, env).0, other) == ViewOf(s, other)
    ensures UseSpec(s, paths, reg, tool, version, env).0.manifests == s.manifests
  {
    assert ViewOf(RemovePointer(s, tool, UnlinkFails(paths, env, tool)), other) == ViewOf(s, other);
  }

  /** What a Sync step does to its tool depends only on that tool's part of the state. */
  lemma SyncStepLocal(s1: Store, s2: Store, paths: Paths, reg: Registry, tool: string, version: string, env: Env)
    requires ViewOf(s1, tool) == ViewOf(s2, tool)
    ensures ViewOf(SyncStep(s1, paths, reg, tool, version, env).0, tool) == ViewOf(SyncStep(s2, paths, reg, tool, version, env).0, tool)
    ensures SyncStep(s1, paths, reg, tool, version, env).1 == SyncStep(s2, paths, reg, tool, version, env).1
  {
    assert Installed(s1, tool, version) == Installed(s2, tool, version);
    InstallLocal(s1, s2, paths, reg, tool, version, env);
    var i1 := InstallSpec(s1, paths, reg, tool, version, env);
    var i2 := InstallSpec(s2, paths, reg, tool, version, env);
    if !Installed(s1, tool, version) && i1.1.Pass? {
      UseLocal(i1.0, i2.0, paths, reg, tool, version, env);
    } else if Installed(s1, tool, version) {
      UseLocal(s1, s2, paths, reg, tool, version, env);
    }
  }

  lemma InstallLocal(s1: Store, s2: Store, paths: Paths, reg: Registry, tool: string, version: string, env: Env)
    requires ViewOf(s1, tool) == ViewOf(s2, tool)
    ensures ViewOf(InstallSpec(s1, paths, reg, tool, version, env).0, tool) == ViewOf(InstallSpec(s2, paths, reg, tool, version, env).0, tool)
    ensures InstallSpec(s1, paths, reg, tool, version, env).1 == InstallSpec(s2, paths, reg, tool, version, env).1
  {
    assert Installed(s1, tool, version) == Installed(s2, tool, version);
    AddDropView(s1, tool, version);
    AddDropView(s2, tool, version);
  }

  lemma AddDropView(s: Store, tool: string, version: string)
    ensures ViewOf(AddVersion(s, tool, version), tool) == View(true, ViewOf(s, tool).entries[version := DirNode], ViewOf(s, tool).pointer)
    ensures ViewOf(DropVersion(AddVersion(s, tool, version), tool, version), tool)
         == View(true, ViewOf(s, tool).entries[version := DirNode] - {version}, ViewOf(s, tool).pointer)
  {
  }

  lemma UseLocal(s1: Store, s2: Store, paths: Paths, reg: Registry, tool: string, version: string, env: Env)
    requires ViewOf(s1, tool) == ViewOf(s2, tool)
    ensures ViewOf(UseSpec(s1, paths, reg, tool, version, env).0, tool) == ViewOf(UseSpec(s2, paths, reg, tool, version, env).0, tool)
    ensures UseSpec(s1, paths, reg, tool, version, env).1 == UseSpec(s2, paths, reg, tool, version, env).1
  {
    assert Installed(s1, tool, version) == Installed(s2, tool, version);
    var fails := UnlinkFails(paths, env, tool);
    assert ViewOf(RemovePointer(s1, tool, fails), tool) == ViewOf(RemovePointer(s2, tool, fails), tool);
  }

  lemma {:induction false} SyncFoldFrame(s: Store, paths: Paths, reg: Registry, tools: map<string, string>, order: seq<string>, env: Env, other: string)
    requires forall i :: 0 <= i < |order| ==> order[i] in tools
    requires other !in order
    ensures ViewOf(SyncFold(s, paths, reg, tools, order, env), other) == ViewOf(s, other)
    ensures SyncFold(s, paths, reg, tools, order, env).manifests == s.manifests
    decreases |order|
  {
    if order != [] {
      SyncStepFrame(s, paths, reg, order[0], tools[order[0]], env, other);
      SyncFoldFrame(SyncStep(s, paths, reg, order[0], tools[order[0]], env).0, paths, reg, tools, order[1..], env, other);
    }
  }

  /**
   * Whatever the order of the entries, each tool of the manifest ends in the
   * state its own step produces from the initial state: the entries do not
   * interfere.
   */
  lemma {:induction false} SyncFoldPerTool(s: Store, paths: Paths, reg: Registry, tools: map<string, string>, order: seq<string>, env: Env, k: nat)
    requires forall i :: 0 <= i < |order| ==> order[i] in tools
    requires forall i, j :: 0 <= i < j < |order| ==> order[i] != order[j]
    requires k < |order|
    ensures ViewOf(SyncFold(s, paths, reg, tools, order, env), order[k])
         == ViewOf(SyncStep(s, paths, reg, order[k], tools[order[k]], env).0, order[k])
    decreases |order|
  {
    var t := order[k];
    var s1 := SyncStep(s, paths, reg, order[0], tools[order[0]], env).0;
    if k == 0 {
      assert t !in order[1..];
      SyncFoldFrame(s1, paths, reg, tools, order[1..], env, t);
    } else {
      SyncFoldPerTool(s1, paths, reg, tools, order[1..], env, k - 1);
      SyncStepFrame(s, paths, reg, order[0], tools[order[0]], env, t);
      SyncStepLocal(s1, s, paths, reg, t, tools[t], env);
    }
  }

  /**
   * After Sync, a tool of the manifest whose step succeeded is active at the
   * manifest's version, whatever order the entries were handled in.
   */
  lemma SyncActivates(s: Store, paths: Paths, reg: Registry, tools: map<string, string>, order: seq<string>, env: Env, k: nat)
    requires forall i :: 0 <= i < |order| ==> order[i] in tools
    requires forall i, j :: 0 <= i < j < |order| ==> order[i] != order[j]
    requires k < |order| && Component(tools[order[k]])
    requires SyncStep(s, paths, reg, order[k], tools[order[k]], env).1.Activated?
    ensures CurrentOf(SyncFold(s, paths, reg, tools, order, env), order[k]) == tools[order[k]]
    ensures Installed(SyncFold(s, paths, reg, tools, order, env), order[k], tools[order[k]])
  {
    var t := order[k];
    var v := tools[t];
    SyncFoldPerTool(s, paths, reg, tools, order, env, k);
    var r := SyncStep(s, paths, reg, t, v, env);
    var s1 := if !Installed(s, t, v) then InstallSpec(s, paths, reg, t, v, env).0 else s;
    if !Installed(s, t, v) {
      InstallSuccessAddsExactly(s, paths, reg, t, v, env);
    }
    UseSetsOnlyThatPointer(s1, paths, reg, t, v, env);
  }

  // ---------------------------------------------------------------- links and Base

  /** filepath.Base of a rendered path is its last element. */
  lemma BaseOfRender(p: Path)
    requires p != [] && Component(p[|p| - 1])
    ensures Base(Render(p)) == p[|p| - 1]
  {
    var v := p[|p| - 1];
    RenderFromSnoc(p[..|p| - 1], v);
    assert p == p[..|p| - 1] + [v];
    var r := RenderFrom(p[..|p| - 1]);
    assert Render(p) == r + "/" + v;
    AfterLastOf(r, v);
  }

  lemma {:induction false} RenderFromSnoc(p: Path, v: string)
    ensures RenderFrom(p + [v]) == RenderFrom(p) + "/" + v
  {
    if p != [] {
      assert (p + [v])[1..] == p[1..] + [v];
      RenderFromSnoc(p[1..], v);
    }
  }

  lemma {:induction false} AfterLastOf(r: string, v: string)
    requires Component(v)
    ensures Base(r + "/" + v) == v
  {
    var s := r + "/" + v;
    assert s[|s| - 1] == v[|v| - 1] != '/';
    assert TrimTrailing(s, '/') == s;
    AfterLastSuffix(r, v);
  }

  lemma {:induction false} AfterLastSuffix(r: string, v: string)
    requires '/' !in v
    ensures AfterLast(r + "/" + v, '/') == v
    decreases |v|
  {
    var s := r + "/" + v;
    if v == [] {
      assert s[|s| - 1] == '/';
    } else {
      assert s[..|s| - 1] == r + "/" + v[..|v| - 1];
      assert v[|v| - 1] in v;
      AfterLastSuffix(r, v[..|v| - 1]);
      assert v[..|v| - 1] + [v[|v| - 1]] == v;
    }
  }
}
