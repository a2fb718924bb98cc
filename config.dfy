/**
 * The directory layout under the user's home (internal/config/config.go).
 * A path is the sequence of its components from the file-system root.
 */
module Config {
  import opened Wrappers
  import opened Failures

  const AppDir := ".arsenal"
  const ToolVersionFile := ".toolversions"
  const ConfigFile := "config.toml"

  datatype Paths = Paths(root: Path, versions: Path, current: Path, plugins: Path, config: Path)

  /** GetPaths, with the home directory passed in instead of read from the environment. */
  function GetPaths(home: Path): Paths {
    var root := home + [AppDir];
    Paths(root, root + ["versions"], root + ["current"], root + ["plugins"], root + [ConfigFile])
  }

  /** The four managed directories and the configuration file are distinct direct children of home/.arsenal. */
  lemma GetPathsLayout(home: Path)
    ensures var p := GetPaths(home);
      && p.root == home + [".arsenal"]
      && p.versions[..|p.root|] == p.current[..|p.root|] == p.plugins[..|p.root|] == p.config[..|p.root|] == p.root
      && |p.versions| == |p.current| == |p.plugins| == |p.config| == |p.root| + 1
      && p.versions != p.current && p.versions != p.plugins && p.current != p.plugins
      && p.config !in [p.root, p.versions, p.current, p.plugins]
  {
  }

  /** ToolVersionPath: versions/<tool>/<version>. */
  function ToolVersionPath(p: Paths, tool: string, version: string): Path {
    p.versions + [tool, version]
  }

  /** ToolCurrentPath: current/<tool>, where the active-version link lives. */
  function ToolCurrentPath(p: Paths, tool: string): Path {
    p.current + [tool]
  }

  /** ToolBinPath: current/<tool>/bin. */
  function ToolBinPath(p: Paths, tool: string): Path {
    p.current + [tool, "bin"]
  }

  /**
   * Each (tool, version) pair has its own directory, the bin path is the
   * link path plus "bin", and a version directory is never a link path.
   */
  lemma ToolPathsLayout(home: Path, t1: string, v1: string, t2: string, v2: string)
    ensures var p := GetPaths(home);
      && (ToolVersionPath(p, t1, v1) == ToolVersionPath(p, t2, v2) <==> t1 == t2 && v1 == v2)
      && (ToolCurrentPath(p, t1) == ToolCurrentPath(p, t2) <==> t1 == t2)
      && ToolBinPath(p, t1) == ToolCurrentPath(p, t1) + ["bin"]
      && ToolVersionPath(p, t1, v1) != ToolCurrentPath(p, t2)
  {
    var p := GetPaths(home);
    if ToolVersionPath(p, t1, v1) == ToolVersionPath(p, t2, v2) {
      assert ToolVersionPath(p, t1, v1)[|p.versions|] == t1;
      assert ToolVersionPath(p, t1, v1)[|p.versions| + 1] == v1;
    }
    if ToolCurrentPath(p, t1) == ToolCurrentPath(p, t2) {
      assert ToolCurrentPath(p, t1)[|p.current|] == t1;
    }
    assert ToolVersionPath(p, t1, v1)[|p.root|] == "versions";
  }

  /** The path as Go prints it: "/" then the components separated by "/". */
  function Render(path: Path): string {
    if path == [] then "/" else RenderFrom(path)
  }

  function RenderFrom(path: Path): string {
    if path == [] then "" else "/" + path[0] + RenderFrom(path[1..])
  }

  /** The index of the first element of `s` in `fails`, or |s| when there is none. */
  function FirstIn(s: seq<Path>, fails: set<Path>): (k: nat)
    ensures k <= |s|
    ensures forall i :: 0 <= i < k ==> s[i] !in fails
    ensures k < |s| ==> s[k] in fails
  {
    if s == [] then 0 else if s[0] in fails then 0 else 1 + FirstIn(s[1..], fails)
  }

  /** The directories EnsureDirs creates, in order. */
  function ManagedDirs(p: Paths): seq<Path> {
    [p.root, p.versions, p.current, p.plugins]
  }

  /**
   * EnsureDirs: creates root, versions, current and plugins in that order and
   * stops at the first directory whose creation fails. `existing` is the set
   * of directories before the call, `mkdirFails` the directories whose
   * creation fails; an existing directory never fails (MkdirAll accepts it).
   */
  method EnsureDirs(p: Paths, existing: set<Path>, mkdirFails: set<Path>) returns (dirs: set<Path>, r: Outcome<Error>)
    ensures var order := ManagedDirs(p);
      var k := FirstIn(order, mkdirFails - existing);
      && dirs == existing + (set i | 0 <= i < k :: order[i])
      && (r.Pass? <==> k == |order|)
      && (r.Fail? ==> r.error == MkdirFailed(order[k]))
  {
    var order := ManagedDirs(p);
    ghost var k := FirstIn(order, mkdirFails - existing);
    dirs := existing;
    var i := 0;
    while i < |order|
      invariant 0 <= i <= k
      invariant dirs == existing + (set j | 0 <= j < i :: order[j])
    {
      var d := order[i];
      if d !in existing && d in mkdirFails {
        return dirs, Fail(MkdirFailed(d));
      }
      dirs := dirs + {d};
      i := i + 1;
    }
    r := Pass;
  }
}
