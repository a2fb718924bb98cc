/**
 * The command policies of internal/cli that go beyond one manager call:
 * uninstall with its automatic switch to the newest remaining version, use
 * with the optional pin in the working directory's manifest, and the doctor
 * summary. Output text is not modelled; what is kept is the effect on the
 * file system and the error the command returns.
 */
module Commands {
  import opened Wrappers
  import opened Failures
  import opened Text
  import opened Config
  import opened Lifecycle
  import Manifest
  import opened VersionManager

  // ---------------------------------------------------------------- uninstall

  /** The listed versions other than `version`, in listing order. */
  function Remaining(vs: seq<string>, version: string): seq<string> {
    if vs == [] then [] else
      Remaining(vs[..|vs| - 1], version) + (if vs[|vs| - 1] != version then [vs[|vs| - 1]] else [])
  }

  /**
   * runUninstall: look the tool up, note whether the version is the active
   * one, list the other installed versions, uninstall, and when the active
   * version went and others remain, use the last of them. A failure of that
   * switch is only a warning. `listed` is what List returned before the
   * uninstall.
   */
  function RunUninstallSpec(s: Store, paths: Paths, reg: Registry, tool: string, version: string, env: Env, listed: seq<string>)
    : (Store, Outcome<Error>)
  {
    if tool !in reg then (s, Fail(UnknownTool(tool)))
    else
      var isCurrent := CurrentOf(s, tool) == version;
      var remaining := Remaining(listed, version);
      var u := UninstallSpec(s, paths, reg, tool, version, env);
      if u.1.Fail? then u
      else if isCurrent && remaining != [] then (UseSpec(u.0, paths, reg, tool, remaining[|remaining| - 1], env).0, Pass)
      else (u.0, Pass)
  }

  method RunUninstall(m: Manager, tool: string, version: string, env: Env) returns (r: Outcome<Error>, ghost listed: seq<string>)
    modifies m.fs
    ensures tool in m.registry.plugins ==> Ascending(listed) && Elems(listed) == VersionDirs(old(m.fs.State()), tool)
    ensures (m.fs.State(), r) == RunUninstallSpec(old(m.fs.State()), m.paths, m.registry.plugins, tool, version, env, listed)
  {
    var p := m.registry.Get(tool);
    if p.Err? {
      return Fail(p.error), [];
    }
    var current := m.Current(tool);
    var isCurrentVersion := current == version;
    var versions: seq<string> := [];
    var listing := m.List(tool);
    if listing.Ok? {
      versions := listing.value;
    }
    listed := versions;
    var remainingVersions := RemainingVersions(versions, version);
    var u := m.Uninstall(tool, version, env);
    if u.Fail? {
      return u, listed;
    }
    if isCurrentVersion && |remainingVersions| > 0 {
      var latestVersion := remainingVersions[|remainingVersions| - 1];
      var used := m.Use(tool, latestVersion, env);   // a failure is only a warning
    }
    r := Pass;
  }

  /** The loop of runUninstall that collects the versions other than `version`. */
  method RemainingVersions(versions: seq<string>, version: string) returns (remaining: seq<string>)
    ensures remaining == Remaining(versions, version)
  {
    remaining := [];
    for i := 0 to |versions|
      invariant remaining == Remaining(versions[..i], version)
    {
      assert versions[..i + 1][..i] == versions[..i];
      if versions[i] != version {
        remaining := remaining + [versions[i]];
      }
    }
    assert versions[..|versions|] == versions;
  }

  lemma AscendingSnoc(r: seq<string>, x: string)
    requires Ascending(r)
    requires forall y :: y in r ==> Less(y, x)
    ensures Ascending(r + [x])
  {
    forall i, j | 0 <= i < j < |r| + 1
      ensures Less((r + [x])[i], (r + [x])[j])
    {
      if j == |r| {
        assert (r + [x])[i] == r[i] && r[i] in r;
      } else {
        assert (r + [x])[i] == r[i] && (r + [x])[j] == r[j];
      }
    }
  }

  /** The remaining versions are the listed ones without `version`, and stay sorted. */
  lemma RemainingMeaning(vs: seq<string>, version: string)
    ensures Elems(Remaining(vs, version)) == Elems(vs) - {version}
    ensures Ascending(vs) ==> Ascending(Remaining(vs, version))
  {
    RemainingElems(vs, version);
    if Ascending(vs) {
      RemainingAscending(vs, version);
    }
  }

  lemma {:induction false} RemainingElems(vs: seq<string>, version: string)
    ensures Elems(Remaining(vs, version)) == Elems(vs) - {version}
  {
    if vs != [] {
      var init, x := vs[..|vs| - 1], vs[|vs| - 1];
      RemainingElems(init, version);
      assert vs == init + [x];
      assert Elems(vs) == Elems(init) + {x};
      var rest := Remaining(init, version);
      if x != version {
        assert Elems(rest + [x]) == Elems(rest) + {x};
      } else {
        assert rest + [] == rest;
      }
    }
  }

  lemma {:induction false} RemainingAscending(vs: seq<string>, version: string)
    requires Ascending(vs)
    ensures Ascending(Remaining(vs, version))
  {
    if vs != [] {
      var init, x := vs[..|vs| - 1], vs[|vs| - 1];
      assert Ascending(init) by {
        forall i, j | 0 <= i < j < |init| ensures Less(init[i], init[j]) {
          assert init[i] == vs[i] && init[j] == vs[j];
        }
      }
      RemainingAscending(init, version);
      var rest := Remaining(init, version);
      if x != version {
        RemainingElems(init, version);
        forall y | y in rest ensures Less(y, x) {
          assert y in Elems(rest);
          var k :| 0 <= k < |init| && init[k] == y;
          assert vs[k] == y;
        }
        AscendingSnoc(rest, x);
      } else {
        assert rest + [] == rest;
      }
    }
  }

  /** The command's outcome is the uninstall's: a failed switch afterwards does not make it fail. */
  lemma RunUninstallOutcome(s: Store, paths: Paths, reg: Registry, tool: string, version: string, env: Env, listed: seq<string>)
    ensures RunUninstallSpec(s, paths, reg, tool, version, env, listed).1 == UninstallSpec(s, paths, reg, tool, version, env).1
  {
  }

  /** Uninstalling a version that is not the active one is a plain uninstall: no switch happens. */
  lemma RunUninstallNotCurrent(s: Store, paths: Paths, reg: Registry, tool: string, version: string, env: Env, listed: seq<string>)
    requires CurrentOf(s, tool) != version
    ensures RunUninstallSpec(s, paths, reg, tool, version, env, listed) == UninstallSpec(s, paths, reg, tool, version, env)
    ensures RunUninstallSpec(s, paths, reg, tool, version, env, listed).0.current == s.current
  {
  }

  /**
   * Uninstalling the active version while others remain activates the
   * greatest of the remaining versions (in byte order), when the old link can
   * be removed and the new one made: Current then reports it, and the
   * removed version is gone.
   */
  lemma RunUninstallSwitchesToLatest(s: Store, paths: Paths, reg: Registry, tool: string, version: string, env: Env, listed: seq<string>)
    requires tool in reg && version != ""
    requires Ascending(listed) && Elems(listed) == VersionDirs(s, tool)
    requires CurrentOf(s, tool) == version
    requires UninstallSpec(s, paths, reg, tool, version, env).1.Pass?
    requires VersionDirs(s, tool) - {version} != {}
    requires !UnlinkFails(paths, env, tool) && ToolCurrentPath(paths, tool) !in env.linkFails
    requires forall w :: w in VersionDirs(s, tool) ==> Component(w)
    ensures var rem := Remaining(listed, version);
      && rem != []
      && rem[|rem| - 1] in VersionDirs(s, tool) - {version}
      && (forall w :: w in VersionDirs(s, tool) - {version} && w != rem[|rem| - 1] ==> Less(w, rem[|rem| - 1]))
      && var s' := RunUninstallSpec(s, paths, reg, tool, version, env, listed);
      && s'.1 == Pass
      && CurrentOf(s'.0, tool) == rem[|rem| - 1]
      && Installed(s'.0, tool, rem[|rem| - 1])
      && !Installed(s'.0, tool, version)
  {
    LatestRemaining(listed, version);
    var rem := Remaining(listed, version);
    var latest := rem[|rem| - 1];
    assert latest in VersionDirs(s, tool) && latest != version;
    assert Component(latest);
    SwitchAfterUninstall(s, paths, reg, tool, version, env, latest);
    var u := UninstallSpec(s, paths, reg, tool, version, env);
    assert RunUninstallSpec(s, paths, reg, tool, version, env, listed) == (UseSpec(u.0, paths, reg, tool, latest, env).0, Pass);
  }

  /** The last remaining version is the greatest listed version other than `version`. */
  lemma LatestRemaining(listed: seq<string>, version: string)
    requires Ascending(listed) && Elems(listed) - {version} != {}
    ensures var rem := Remaining(listed, version);
      && rem != []
      && rem[|rem| - 1] in Elems(listed) - {version}
      && (forall w :: w in Elems(listed) - {version} && w != rem[|rem| - 1] ==> Less(w, rem[|rem| - 1]))
  {
    RemainingMeaning(listed, version);
    var rem := Remaining(listed, version);
    assert rem != [] by {
      var w :| w in Elems(listed) - {version};
      assert w in Elems(rem);
    }
    var latest := rem[|rem| - 1];
    assert latest in Elems(rem);
    forall w | w in Elems(listed) - {version} && w != latest
      ensures Less(w, latest)
    {
      assert w in Elems(rem);
      var k :| 0 <= k < |rem| && rem[k] == w;
      AscendingLastIsGreatest(rem, k);
    }
  }

  /**
   * After uninstalling the active version, using another installed version
   * succeeds when the old link could be removed and the new one can be made.
   */
  lemma SwitchAfterUninstall(s: Store, paths: Paths, reg: Registry, tool: string, version: string, env: Env, latest: string)
    requires tool in reg && version != "" && CurrentOf(s, tool) == version
    requires UninstallSpec(s, paths, reg, tool, version, env).1.Pass?
    requires latest in VersionDirs(s, tool) && latest != version && Component(latest)
    requires !UnlinkFails(paths, env, tool) && ToolCurrentPath(paths, tool) !in env.linkFails
    ensures var u := UninstallSpec(s, paths, reg, tool, version, env).0;
      var s' := UseSpec(u, paths, reg, tool, latest, env);
      && s'.1 == Pass
      && CurrentOf(s'.0, tool) == latest
      && Installed(s'.0, tool, latest)
      && !Installed(s'.0, tool, version)
  {
    var u := UninstallSpec(s, paths, reg, tool, version, env);
    UninstallRemovesExactly(s, paths, reg, tool, version, env);
    assert Installed(u.0, tool, latest);
    assert tool !in u.0.current;
    assert UseSpec(u.0, paths, reg, tool, latest, env).1.Pass?;
    UseSetsOnlyThatPointer(u.0, paths, reg, tool, latest, env);
  }

  /** Nothing remains when every listed version is `version`. */
  lemma {:induction false} RemainingEmpty(vs: seq<string>, version: string)
    requires Elems(vs) <= {version}
    ensures Remaining(vs, version) == []
  {
    if vs != [] {
      assert vs == vs[..|vs| - 1] + [vs[|vs| - 1]];
      assert vs[|vs| - 1] in Elems(vs);
      assert Elems(vs[..|vs| - 1]) <= Elems(vs);
      RemainingEmpty(vs[..|vs| - 1], version);
    }
  }

  /**
   * Uninstalling the active version when it is the last one leaves the tool
   * with no versions, and with no link when the link could be removed.
   */
  lemma RunUninstallLastVersion(s: Store, paths: Paths, reg: Registry, tool: string, version: string, env: Env, listed: seq<string>)
    requires version != "" && !UnlinkFails(paths, env, tool)
    requires Elems(listed) == VersionDirs(s, tool)
    requires CurrentOf(s, tool) == version
    requires UninstallSpec(s, paths, reg, tool, version, env).1.Pass?
    requires VersionDirs(s, tool) <= {version}
    ensures var s' := RunUninstallSpec(s, paths, reg, tool, version, env, listed);
      && s'.1 == Pass
      && tool !in s'.0.current
      && VersionDirs(s'.0, tool) == {}
  {
    RemainingEmpty(listed, version);
    UninstallRemovesExactly(s, paths, reg, tool, version, env);
  }

  /**
   * On a consistent state, the whole command keeps every link pointing at an
   * installed version, unless the removal of the active version's link fails.
   */
  lemma RunUninstallKeepsConsistent(s: Store, paths: Paths, reg: Registry, tool: string, version: string, env: Env, listed: seq<string>)
    requires Consistent(s, paths)
    requires CurrentOf(s, tool) == version ==> !UnlinkFails(paths, env, tool)
    requires Elems(listed) == VersionDirs(s, tool)
    requires forall w :: w in VersionDirs(s, tool) ==> Component(w)
    ensures Consistent(RunUninstallSpec(s, paths, reg, tool, version, env, listed).0, paths)
  {
    UninstallKeepsConsistent(s, paths, reg, tool, version, env);
    var u := UninstallSpec(s, paths, reg, tool, version, env);
    var rem := Remaining(listed, version);
    var r := RunUninstallSpec(s, paths, reg, tool, version, env, listed);
    if tool in reg && u.1.Pass? && CurrentOf(s, tool) == version && rem != [] {
      var latest := rem[|rem| - 1];
      assert r.0 == UseSpec(u.0, paths, reg, tool, latest, env).0;
      RemainingMeaning(listed, version);
      assert latest in Elems(rem);
      assert Component(latest);
      UseKeepsConsistent(u.0, paths, reg, tool, latest, env);
    } else {
      assert tool !in reg || r.0 == u.0;
    }
  }

  /**
   * When the active version's link cannot be removed, the command still
   * succeeds once the directory is gone: the switch to another version fails
   * on the existing entry (a warning only), and current/<tool> is left
   * linking to the removed version.
   */
  lemma RunUninstallUnlinkFailure(s: Store, paths: Paths, reg: Registry, tool: string, version: string, env: Env, listed: seq<string>)
    requires tool in reg && Installed(s, tool, version)
    requires tool in s.current && s.current[tool].Link? && CurrentOf(s, tool) == version
    requires UnlinkFails(paths, env, tool)
    requires ToolVersionPath(paths, tool, version) !in env.removeFails
    ensures var r := RunUninstallSpec(s, paths, reg, tool, version, env, listed);
      && r.1.Pass?
      && r.0.current == s.current
      && CurrentOf(r.0, tool) == version && !Installed(r.0, tool, version)
  {
    UninstallUnlinkFailureDangles(s, paths, reg, tool, version, env);
    var u := UninstallSpec(s, paths, reg, tool, version, env);
    assert u.0 == DropVersion(s, tool, version);
    var rem := Remaining(listed, version);
    if rem != [] {
      var latest := rem[|rem| - 1];
      var cleared := RemovePointer(u.0, tool, true);
      assert cleared == u.0;
    }
  }

  // ---------------------------------------------------------------- use

  /** updateToolVersionsFile's map: the working directory's manifest, read leniently (none when absent), with the tool set. */
  function PinnedTools(manifests: map<Path, string>, cwd: Path, tool: string, version: string): Manifest.Tools {
    (if cwd in manifests then Manifest.ReadLenient(manifests[cwd]) else map[])[tool := version]
  }

  /**
   * runUse: use the version; with --local, then rewrite the working
   * directory's manifest with the tool pinned to it. `createOk` says whether
   * the manifest can be created; `order` is the order its lines were written in.
   */
  method RunUse(m: Manager, tool: string, version: string, local: bool, cwd: Path, readOk: bool, createOk: bool, env: Env)
    returns (r: Outcome<Error>, ghost order: seq<string>)
    modifies m.fs
    ensures var u := UseSpec(old(m.fs.State()), m.paths, m.registry.plugins, tool, version, env);
      var unreadable := ReadFails(u.0.manifests, cwd, readOk);
      && (u.1.Fail? || !local ==> m.fs.State() == u.0 && r == u.1)
      && (u.1.Pass? && local && unreadable ==> m.fs.State() == u.0 && r == Fail(ManifestReadFailed(Manifest.ManifestIn(cwd))))
      && (u.1.Pass? && local && !unreadable && !createOk ==> m.fs.State() == u.0 && r == Fail(ManifestWriteFailed(Manifest.ManifestIn(cwd))))
      && (u.1.Pass? && local && !unreadable && createOk ==>
            var pinned := PinnedTools(old(m.fs.manifests), cwd, tool, version);
            && r == Pass
            && Elems(order) == pinned.Keys && |order| == |pinned|
            && m.fs.State() == u.0.(manifests := u.0.manifests[cwd := JoinLines(Manifest.EntryLines(pinned, order))]))
  {
    order := [];
    var p := m.registry.Get(tool);
    if p.Err? {
      return Fail(p.error), order;
    }
    var used := m.Use(tool, version, env);
    if used.Fail? {
      return used, order;
    }
    if !local {
      return Pass, order;
    }
    r, order := UpdateToolVersionsFile(m.fs, tool, version, cwd, readOk, createOk);
  }

  /**
   * With no manifest in the working directory, `use --local` writes a file
   * of exactly one line, the tool pinned to the version.
   */
  lemma FreshPinSingleLine(manifests: map<Path, string>, cwd: Path, tool: string, version: string, order: seq<string>)
    requires cwd !in manifests
    requires Elems(order) == PinnedTools(manifests, cwd, tool, version).Keys
    requires |order| == |PinnedTools(manifests, cwd, tool, version)|
    ensures JoinLines(Manifest.EntryLines(PinnedTools(manifests, cwd, tool, version), order)) == tool + " " + version + "\n"
  {
    var pinned := PinnedTools(manifests, cwd, tool, version);
    assert pinned == map[tool := version];
    assert order[0] in Elems(order);
    assert order[0] == tool && order[1..] == [];
    var line := tool + " " + version;
    assert Manifest.EntryLines(pinned, order) == [line];
    assert JoinLines([line]) == line + "\n" + JoinLines([]);
  }

  /** An existing manifest in `cwd` whose os.ReadFile fails (`readOk` false). */
  predicate ReadFails(manifests: map<Path, string>, cwd: Path, readOk: bool) {
    cwd in manifests && !readOk
  }

  /**
   * updateToolVersionsFile: read the working directory's manifest leniently
   * (an empty map when there is none), set the tool, and rewrite the file. A
   * manifest that exists but cannot be read (`readOk` false) or a file that
   * cannot be created (`createOk` false) is an error, and nothing is written.
   */
  method UpdateToolVersionsFile(fs: FileSystem, tool: string, version: string, cwd: Path, readOk: bool, createOk: bool)
    returns (r: Outcome<Error>, ghost order: seq<string>)
    modifies fs
    ensures ReadFails(old(fs.manifests), cwd, readOk) ==>
      r == Fail(ManifestReadFailed(Manifest.ManifestIn(cwd))) && fs.State() == old(fs.State())
    ensures !ReadFails(old(fs.manifests), cwd, readOk) && !createOk ==>
      r == Fail(ManifestWriteFailed(Manifest.ManifestIn(cwd))) && fs.State() == old(fs.State())
    ensures !ReadFails(old(fs.manifests), cwd, readOk) && createOk ==>
      var pinned := PinnedTools(old(fs.manifests), cwd, tool, version);
      && r == Pass
      && Elems(order) == pinned.Keys && |order| == |pinned|
      && fs.State() == old(fs.State()).(manifests := old(fs.manifests)[cwd := JoinLines(Manifest.EntryLines(pinned, order))])
  {
    order := [];
    var tools: Manifest.Tools := map[];
    if cwd in fs.manifests {
      if !readOk {
        return Fail(ManifestReadFailed(Manifest.ManifestIn(cwd))), order;
      }
      tools := Manifest.ReadToolVersionsSimple(fs.manifests[cwd]);
    }
    tools := tools[tool := version];
    if !createOk {
      return Fail(ManifestWriteFailed(Manifest.ManifestIn(cwd))), order;
    }
    var text;
    text, order := Manifest.RenderManifest(tools);
    fs.WriteManifest(cwd, text);
    r := Pass;
  }

  /** Pinning keeps every other entry the old manifest had, as the lenient reader saw it. */
  lemma PinnedKeepsOthers(manifests: map<Path, string>, cwd: Path, tool: string, version: string)
    ensures var pinned := PinnedTools(manifests, cwd, tool, version);
      var old_ := if cwd in manifests then Manifest.ReadLenient(manifests[cwd]) else map[];
      && pinned.Keys == old_.Keys + {tool}
      && pinned[tool] == version
      && forall t :: t in old_ && t != tool ==> pinned[t] == old_[t]
  {
  }

  /**
   * The manifest `use --local` writes is read back, by the lenient reader
   * and by the strict one Sync uses from that directory, as exactly the
   * pinned tools, whatever the order the lines were written in; this needs
   * the tool and version to be single words and the tool not to start with "#".
   */
  lemma PinnedReadsBack(manifests: map<Path, string>, cwd: Path, tool: string, version: string, order: seq<string>)
    requires Manifest.Token(tool) && Manifest.Token(version) && tool[0] != '#'
    requires Elems(order) == PinnedTools(manifests, cwd, tool, version).Keys
    ensures var pinned := PinnedTools(manifests, cwd, tool, version);
      var text := JoinLines(Manifest.EntryLines(pinned, order));
      && Manifest.ReadLenient(text) == pinned
      && Manifest.ReadSpec(manifests[cwd := text], cwd) == Ok((pinned, Manifest.ManifestIn(cwd)))
  {
    var pinned := PinnedTools(manifests, cwd, tool, version);
    if cwd in manifests {
      Manifest.ReadLenientWritable(manifests[cwd]);
    }
    assert Manifest.Writable(pinned);
    Manifest.RenderReadLenient(pinned, order);
    Manifest.RenderParseRoundTrip(Manifest.ManifestIn(cwd), pinned, order);
  }

  // ---------------------------------------------------------------- doctor

  /** The summary runDoctor prints after the results. */
  datatype Summary = AllPassed | SomeWarnings | SomeErrors

  /** runDoctor's loop and summary: an error is returned exactly when some check is an error. */
  method RunDoctor(results: seq<DiagResult>) returns (r: Outcome<Error>, summary: Summary)
    ensures summary == SomeErrors <==> exists i :: 0 <= i < |results| && results[i].status == StatusError
    ensures summary == SomeWarnings <==>
      (forall i :: 0 <= i < |results| ==> results[i].status != StatusError)
      && exists i :: 0 <= i < |results| && results[i].status == StatusWarn
    ensures r == if summary == SomeErrors then Fail(DoctorFoundErrors) else Pass
  {
    var hasWarnings := false;
    var hasErrors := false;
    for k := 0 to |results|
      invariant hasErrors <==> exists i :: 0 <= i < k && results[i].status == StatusError
      invariant hasWarnings <==> exists i :: 0 <= i < k && results[i].status == StatusWarn
    {
      match results[k].status {
        case StatusOK =>
        case StatusWarn => hasWarnings := true;
        case StatusError => hasErrors := true;
      }
    }
    if hasErrors {
      return Fail(DoctorFoundErrors), SomeErrors;
    } else if hasWarnings {
      summary := SomeWarnings;
    } else {
      summary := AllPassed;
    }
    r := Pass;
  }

  /**
   * The doctor command as a whole: it fails exactly when one of the root,
   * versions and current directories is missing, and warns exactly when they
   * all exist but PATH does not contain the current directory.
   */
  method DoctorCommand(m: Manager, existing: set<Path>, pathEnv: string) returns (r: Outcome<Error>, summary: Summary)
    ensures r.Fail? <==> !(m.paths.root in existing && m.paths.versions in existing && m.paths.current in existing)
    ensures r.Fail? ==> r.error == DoctorFoundErrors
    ensures summary == SomeWarnings <==>
      m.paths.root in existing && m.paths.versions in existing && m.paths.current in existing
      && !Contains(pathEnv, Render(m.paths.current))
  {
    var results, tools := m.Doctor(existing, pathEnv);
    var a, b, c := m.CheckDir(RootCheck, m.paths.root, existing), m.CheckDir(VersionsCheck, m.paths.versions, existing),
                   m.CheckDir(CurrentCheck, m.paths.current, existing);
    var d := m.CheckPath(pathEnv);
    DoctorStatuses(results, a, b, c, d, ToolChecks(ActiveVersions(m.fs.State()), tools));
    r, summary := RunDoctor(results);
  }

  /** Only the four fixed checks can warn or fail: every per-tool entry is OK. */
  lemma DoctorStatuses(results: seq<DiagResult>, a: DiagResult, b: DiagResult, c: DiagResult, d: DiagResult, checks: seq<DiagResult>)
    requires results == [a, b, c, d] + checks
    requires forall i :: 0 <= i < |checks| ==> checks[i].status == StatusOK
    ensures (exists i :: 0 <= i < |results| && results[i].status == StatusError)
      <==> a.status == StatusError || b.status == StatusError || c.status == StatusError || d.status == StatusError
    ensures (exists i :: 0 <= i < |results| && results[i].status == StatusWarn)
      <==> a.status == StatusWarn || b.status == StatusWarn || c.status == StatusWarn || d.status == StatusWarn
  {
    forall i | 4 <= i < |results| ensures results[i].status == StatusOK {
      assert results[i] == checks[i - 4];
    }
    assert results[0] == a && results[1] == b && results[2] == c && results[3] == d;
  }
}
