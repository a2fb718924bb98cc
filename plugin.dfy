/**
 * Plugin descriptors and the registry that holds them (internal/plugin/plugin.go).
 * Descriptors arrive already decoded; the registry is filled in place, builtin
 * descriptors first and user descriptors after them.
 */
module Plugins {
  import opened Wrappers
  import opened Failures
  import opened Text

  /** The descriptor fields the modelled code reads. */
  datatype Plugin = Plugin(
    name: string,
    displayName: string,
    listURL: string,
    listFormat: string,
    downloadURL: string,
    archiveType: string,
    versionPrefix: string,
    osMap: map<string, string>,
    archMap: map<string, string>,
    postInstall: seq<string>)

  // ---------------------------------------------------------------- URL templates

  const VersionKey := "{{version}}"
  const OsKey := "{{os}}"
  const ArchKey := "{{arch}}"

  /**
   * strings.NewReplacer("{{version}}", version, "{{os}}", os, "{{arch}}", arch).Replace(t):
   * one left-to-right pass; at each position the first key (in argument
   * order) that starts there is replaced, otherwise one character is copied.
   * Inserted text is never scanned again.
   */
  function Substitute(t: string, version: string, os: string, arch: string): string
    decreases |t|
  {
    if t == [] then []
    else if HasPrefix(t, VersionKey) then version + Substitute(t[|VersionKey|..], version, os, arch)
    else if HasPrefix(t, OsKey) then os + Substitute(t[|OsKey|..], version, os, arch)
    else if HasPrefix(t, ArchKey) then arch + Substitute(t[|ArchKey|..], version, os, arch)
    else [t[0]] + Substitute(t[1..], version, os, arch)
  }

  /** The runtime name, or its entry in a descriptor's remapping table when it has one. */
  function MapName(table: map<string, string>, name: string): (r: string)
    ensures name in table ==> r == table[name]
    ensures name !in table ==> r == name
  {
    if name in table then table[name] else name
  }

  /** ResolveDownloadURL, with runtime.GOOS and runtime.GOARCH passed in. */
  function ResolveDownloadURL(p: Plugin, version: string, goos: string, goarch: string): string {
    Substitute(p.downloadURL, version, MapName(p.osMap, goos), MapName(p.archMap, goarch))
  }

  /** ResolveArchiveType, with runtime.GOOS passed in. */
  function ResolveArchiveType(p: Plugin, goos: string): (r: string)
    ensures r != ""
    ensures p.archiveType != "" ==> r == p.archiveType
    ensures p.archiveType == "" ==> r == (if goos == "windows" then "zip" else "tar.gz")
  {
    if p.archiveType != "" then p.archiveType
    else if goos == "windows" then "zip"
    else "tar.gz"
  }

  /** A template viewed as literal text and placeholders. */
  datatype Piece = Lit(text: string) | Var(key: Placeholder)
  datatype Placeholder = VersionVar | OsVar | ArchVar

  function KeyOf(k: Placeholder): string {
    match k
    case VersionVar => VersionKey
    case OsVar => OsKey
    case ArchVar => ArchKey
  }

  function ValueOf(k: Placeholder, version: string, os: string, arch: string): string {
    match k
    case VersionVar => version
    case OsVar => os
    case ArchVar => arch
  }

  /** The template text the pieces spell. */
  function Spell(ps: seq<Piece>): string {
    if ps == [] then [] else
      (match ps[0] case Lit(s) => s case Var(k) => KeyOf(k)) + Spell(ps[1..])
  }

  /** The text with every placeholder piece replaced by its value. */
  function Expand(ps: seq<Piece>, version: string, os: string, arch: string): string {
    if ps == [] then [] else
      (match ps[0] case Lit(s) => s case Var(k) => ValueOf(k, version, os, arch)) + Expand(ps[1..], version, os, arch)
  }

  predicate BraceFree(ps: seq<Piece>) {
    forall i :: 0 <= i < |ps| && ps[i].Lit? ==> '{' !in ps[i].text
  }

  /** Text without '{' is copied unchanged. */
  lemma {:induction false} SubstituteLiteral(s: string, rest: string, version: string, os: string, arch: string)
    requires '{' !in s
    ensures Substitute(s + rest, version, os, arch) == s + Substitute(rest, version, os, arch)
  {
    if s != [] {
      var t := s + rest;
      assert t[0] == s[0] && t[0] != '{';
      assert !HasPrefix(t, VersionKey) && !HasPrefix(t, OsKey) && !HasPrefix(t, ArchKey) by {
        assert VersionKey[0] == '{' && OsKey[0] == '{' && ArchKey[0] == '{';
      }
      assert t[1..] == s[1..] + rest;
      SubstituteLiteral(s[1..], rest, version, os, arch);
      var tail := Substitute(rest, version, os, arch);
      assert Substitute(t, version, os, arch) == [s[0]] + (s[1..] + tail);
      assert [s[0]] + (s[1..] + tail) == s + tail;
    } else {
      assert s + rest == rest;
    }
  }

  /**
   * A placeholder is replaced by its value, and the value is not rescanned:
   * the rest of the template continues right after the placeholder.
   */
  lemma SubstitutePlaceholder(k: Placeholder, rest: string, version: string, os: string, arch: string)
    ensures Substitute(KeyOf(k) + rest, version, os, arch)
         == ValueOf(k, version, os, arch) + Substitute(rest, version, os, arch)
  {
    var t := KeyOf(k) + rest;
    assert t[..|KeyOf(k)|] == KeyOf(k);
    assert t[|KeyOf(k)|..] == rest;
    match k
    case VersionVar =>
    case OsVar =>
      assert t[2] == 'o';
      assert !HasPrefix(t, VersionKey) by { assert VersionKey[2] == 'v'; }
    case ArchVar =>
      assert t[2] == 'a';
      assert !HasPrefix(t, VersionKey) by { assert VersionKey[2] == 'v'; }
      assert !HasPrefix(t, OsKey) by { assert OsKey[2] == 'o'; }
  }

  /**
   * Every placeholder of a template is replaced by its value and every other
   * piece is kept, whatever the values contain.
   */
  lemma {:induction false} SubstituteSpelled(ps: seq<Piece>, version: string, os: string, arch: string)
    requires BraceFree(ps)
    ensures Substitute(Spell(ps), version, os, arch) == Expand(ps, version, os, arch)
  {
    if ps != [] {
      SubstituteSpelled(ps[1..], version, os, arch);
      match ps[0]
      case Lit(s) => SubstituteLiteral(s, Spell(ps[1..]), version, os, arch);
      case Var(k) => SubstitutePlaceholder(k, Spell(ps[1..]), version, os, arch);
    }
  }

  /**
   * Any other placeholder, such as "{{tool}}", is kept verbatim: "{{" followed
   * by brace-free text that starts none of the three names is copied unchanged.
   */
  lemma DoubleBraceKept(name: string, rest: string, version: string, os: string, arch: string)
    requires name != [] && name[0] != 'v' && name[0] != 'o' && name[0] != 'a' && '{' !in name
    ensures Substitute("{{" + (name + rest), version, os, arch) == "{{" + (name + Substitute(rest, version, os, arch))
  {
    var t1 := ['{'] + (name + rest);
    var t := ['{'] + t1;
    assert t == "{{" + (name + rest);
    assert t1[1..] == name + rest && t[1..] == t1;
    assert t1[1] == name[0] && name[0] in name;
    SubstituteCopiesOne(t, version, os, arch);
    SubstituteCopiesOne(t1, version, os, arch);
    SubstituteLiteral(name, rest, version, os, arch);
  }

  /** Text that starts with none of the three placeholders has its first character copied. */
  lemma SubstituteCopiesOne(t: string, version: string, os: string, arch: string)
    requires t != [] && (|t| < 3 || t[1] != '{' || (t[2] != 'v' && t[2] != 'o' && t[2] != 'a'))
    ensures Substitute(t, version, os, arch) == [t[0]] + Substitute(t[1..], version, os, arch)
  {
    assert !HasPrefix(t, VersionKey) && !HasPrefix(t, OsKey) && !HasPrefix(t, ArchKey);
  }

  /**
   * The resolved URL is the template with version, remapped OS and remapped
   * architecture in place of the three placeholders.
   */
  lemma ResolveDownloadURLSpelled(p: Plugin, ps: seq<Piece>, version: string, goos: string, goarch: string)
    requires p.downloadURL == Spell(ps) && BraceFree(ps)
    ensures ResolveDownloadURL(p, version, goos, goarch)
         == Expand(ps, version,
                   if goos in p.osMap then p.osMap[goos] else goos,
                   if goarch in p.archMap then p.archMap[goarch] else goarch)
  {
    SubstituteSpelled(ps, version, MapName(p.osMap, goos), MapName(p.archMap, goarch));
  }

  // ---------------------------------------------------------------- registry

  /** Loading descriptors in order into a map keyed by name: a later descriptor replaces an earlier one. */
  function Load(m: map<string, Plugin>, ps: seq<Plugin>): map<string, Plugin> {
    if ps == [] then m else Load(m, ps[..|ps| - 1])[ps[|ps| - 1].name := ps[|ps| - 1]]
  }

  /** The index of the last descriptor called `name`, or -1. */
  function LastNamed(ps: seq<Plugin>, name: string): (k: int)
    ensures -1 <= k < |ps|
    ensures k >= 0 ==> ps[k].name == name
    ensures forall i :: k < i < |ps| ==> ps[i].name != name
  {
    if ps == [] then -1
    else if ps[|ps| - 1].name == name then |ps| - 1
    else LastNamed(ps[..|ps| - 1], name)
  }

  /** After loading, a name maps to its last descriptor in `ps`, or keeps its earlier entry when `ps` has none. */
  lemma {:induction false} LoadLastWins(m: map<string, Plugin>, ps: seq<Plugin>, name: string)
    ensures var k := LastNamed(ps, name);
      && (k >= 0 ==> name in Load(m, ps) && Load(m, ps)[name] == ps[k])
      && (k < 0 ==> (name in Load(m, ps) <==> name in m) && (name in m ==> Load(m, ps)[name] == m[name]))
  {
    if ps != [] {
      LoadLastWins(m, ps[..|ps| - 1], name);
    }
  }

  /** The names loaded are the earlier names plus those of `ps`. */
  lemma {:induction false} LoadKeys(m: map<string, Plugin>, ps: seq<Plugin>)
    ensures Load(m, ps).Keys == m.Keys + set i | 0 <= i < |ps| :: ps[i].name
  {
    if ps != [] {
      var init := ps[..|ps| - 1];
      LoadKeys(m, init);
      assert (set i | 0 <= i < |ps| :: ps[i].name) == (set i | 0 <= i < |init| :: init[i].name) + {ps[|ps| - 1].name};
    }
  }

  class Registry {
    var plugins: map<string, Plugin>

    /**
     * NewRegistry: the builtin descriptors, then the user descriptors, into
     * one map. Reading and decoding the descriptor files is not modelled.
     */
    constructor (builtin: seq<Plugin>, user: seq<Plugin>)
      ensures plugins == Load(Load(map[], builtin), user)
    {
      plugins := map[];
      new;
      LoadPlugins(builtin);
      LoadPlugins(user);
    }

    /** loadBuiltinPlugins / loadUserPlugins: each descriptor is stored under its name, in order. */
    method LoadPlugins(ps: seq<Plugin>)
      modifies this
      ensures plugins == Load(old(plugins), ps)
    {
      for i := 0 to |ps|
        invariant plugins == Load(old(plugins), ps[..i])
      {
        assert ps[..i + 1][..i] == ps[..i];
        plugins := plugins[ps[i].name := ps[i]];
      }
      assert ps[..|ps|] == ps;
    }

    /** Get: the descriptor registered under `name`, an unknown-tool error otherwise. */
    function Get(name: string): (r: Result<Plugin, Error>)
      reads this
      ensures r.Ok? <==> name in plugins
      ensures r.Ok? ==> r.value == plugins[name]
      ensures r.Err? ==> r.error == UnknownTool(name)
    {
      if name in plugins then Ok(plugins[name]) else Err(UnknownTool(name))
    }

    /** List: every registered name exactly once, in map iteration order. */
    method List() returns (names: seq<string>)
      ensures Elems(names) == plugins.Keys
      ensures forall i, j :: 0 <= i < j < |names| ==> names[i] != names[j]
    {
      names := [];
      var rest := plugins.Keys;
      while rest != {}
        invariant rest <= plugins.Keys
        invariant Elems(names) == plugins.Keys - rest
        invariant forall i, j :: 0 <= i < j < |names| ==> names[i] != names[j]
        decreases |rest|
      {
        var name :| name in rest;
        assert name !in Elems(names);
        assert Elems(names + [name]) == Elems(names) + {name};
        names := names + [name];
        rest := rest - {name};
      }
    }
  }

  /**
   * A user descriptor replaces a builtin one of the same name; a name with no
   * user descriptor keeps its (last) builtin descriptor.
   */
  lemma UserOverridesBuiltin(builtin: seq<Plugin>, user: seq<Plugin>, name: string)
    ensures var m := Load(Load(map[], builtin), user);
      && (LastNamed(user, name) >= 0 ==> name in m && m[name] == user[LastNamed(user, name)])
      && (LastNamed(user, name) < 0 && LastNamed(builtin, name) >= 0 ==>
            name in m && m[name] == builtin[LastNamed(builtin, name)])
      && (LastNamed(user, name) < 0 && LastNamed(builtin, name) < 0 ==> name !in m)
  {
    LoadLastWins(map[], builtin, name);
    LoadLastWins(Load(map[], builtin), user, name);
  }
}
