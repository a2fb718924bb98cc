/**
 * Archive extraction as the version manager does it (internal/version/manager.go):
 * the dispatch on the archive-format tag, and the mapping from tar entry
 * names to paths under the install directory, which strips one top-level
 * wrapper directory. Byte copying, permission bits and link creation are
 * not modelled; the result is the list of file-system actions in order.
 */
module Archive {
  import opened Wrappers
  import opened Text
  import Plugins

  datatype Extractor = TarExtractor | ZipExtractor

  /** extract: "tar.gz", "tgz" and "tar.xz" go to the tar reader, "zip" to the zip reader, anything else is unsupported. */
  function ExtractorFor(tag: string): (r: Option<Extractor>)
    ensures r == Some(TarExtractor) <==> tag == "tar.gz" || tag == "tgz" || tag == "tar.xz"
    ensures r == Some(ZipExtractor) <==> tag == "zip"
  {
    match tag
    case "tar.gz" => Some(TarExtractor)
    case "tgz" => Some(TarExtractor)
    case "tar.xz" => Some(TarExtractor)   // no xz decoder: read as gzip
    case "zip" => Some(ZipExtractor)
    case _ => None
  }

  /** A descriptor that leaves the archive type unset always gets a format the extractor supports. */
  lemma DefaultArchiveSupported(p: Plugins.Plugin, goos: string)
    requires p.archiveType == ""
    ensures ExtractorFor(Plugins.ResolveArchiveType(p, goos)) == Some(if goos == "windows" then ZipExtractor else TarExtractor)
  {
  }

  datatype EntryKind = DirEntry | RegEntry | SymlinkEntry(linkname: string) | OtherEntry
  datatype TarEntry = TarEntry(name: string, kind: EntryKind)

  /** What extraction does for one entry, at a path relative to the install directory. */
  datatype Action = MakeDir(path: string) | WriteFile(path: string) | MakeLink(path: string, target: string)

  /** The wrapper prefix a name announces: the text before its first "/", and the "/". */
  function TopOf(name: string): string {
    Before(name, '/') + "/"
  }

  /**
   * The strip prefix after reading `es`: it stays "" until an entry whose
   * name contains "/" and is then fixed.
   */
  function StripPrefixAfter(es: seq<TarEntry>): string {
    if es == [] then "" else
      var p := StripPrefixAfter(es[..|es| - 1]);
      var name := es[|es| - 1].name;
      if p == "" && '/' in name then TopOf(name) else p
  }

  /** The action for one entry under a given strip prefix: none for the wrapper itself, "." or unhandled kinds. */
  function Place(e: TarEntry, prefix: string): seq<Action> {
    var name := TrimPrefix(e.name, prefix);
    if name == "" || name == "." then [] else
      match e.kind
      case DirEntry => [MakeDir(name)]
      case RegEntry => [WriteFile(name)]
      case SymlinkEntry(l) => [MakeLink(name, l)]
      case OtherEntry => []
  }

  /** The actions for the entries in archive order, each under the prefix known when it is read. */
  function Plan(es: seq<TarEntry>): seq<Action> {
    if es == [] then [] else Plan(es[..|es| - 1]) + Place(es[|es| - 1], StripPrefixAfter(es))
  }

  /** The actions when one prefix applies to every entry. */
  function PlanWith(es: seq<TarEntry>, prefix: string): seq<Action> {
    if es == [] then [] else PlanWith(es[..|es| - 1], prefix) + Place(es[|es| - 1], prefix)
  }

  /** extractTarGz's entry loop: updates the strip prefix and places each entry. */
  method PlanTarExtraction(entries: seq<TarEntry>) returns (actions: seq<Action>)
    ensures actions == Plan(entries)
  {
    var stripPrefix := "";
    actions := [];
    for i := 0 to |entries|
      invariant stripPrefix == StripPrefixAfter(entries[..i])
      invariant actions == Plan(entries[..i])
    {
      var header := entries[i];
      assert entries[..i + 1][..i] == entries[..i];
      if stripPrefix == "" {
        if '/' in header.name {
          stripPrefix := Before(header.name, '/') + "/";
        }
      }
      var name := TrimPrefix(header.name, stripPrefix);
      if name == "" || name == "." {
        continue;
      }
      match header.kind {
        case DirEntry => actions := actions + [MakeDir(name)];
        case RegEntry => actions := actions + [WriteFile(name)];
        case SymlinkEntry(l) => actions := actions + [MakeLink(name, l)];
        case OtherEntry =>
      }
    }
    assert entries[..|entries|] == entries;
  }

  lemma {:induction false} StripPrefixNone(es: seq<TarEntry>)
    requires forall i :: 0 <= i < |es| ==> '/' !in es[i].name
    ensures StripPrefixAfter(es) == ""
  {
    if es != [] {
      StripPrefixNone(es[..|es| - 1]);
    }
  }

  /**
   * The strip prefix is decided by the first entry whose name contains "/",
   * and later entries never change it.
   */
  lemma {:induction false} StripPrefixFromFirstSlashed(es: seq<TarEntry>, k: nat)
    requires k < |es| && '/' in es[k].name
    requires forall i :: 0 <= i < k ==> '/' !in es[i].name
    ensures StripPrefixAfter(es) == TopOf(es[k].name)
  {
    if k == |es| - 1 {
      StripPrefixNone(es[..k]);
    } else {
      StripPrefixFromFirstSlashed(es[..|es| - 1], k);
    }
  }

  /** Once the first entry names a wrapper directory, every entry is placed under that one prefix. */
  lemma {:induction false} PlanUnderWrapper(es: seq<TarEntry>)
    requires es != [] && '/' in es[0].name
    ensures Plan(es) == PlanWith(es, TopOf(es[0].name))
  {
    StripPrefixFromFirstSlashed(es, 0);
    if |es| > 1 {
      PlanUnderWrapper(es[..|es| - 1]);
    } else {
      assert es[..0] == [];
    }
  }

  /**
   * Inside a wrapper "w/": the wrapper announces the prefix "w/", the entry
   * "w/" itself yields nothing, and an entry "w/rest" is placed exactly as an
   * entry "rest" would be in an archive without the wrapper.
   */
  lemma WrapperStripped(w: string, rest: string, kind: EntryKind)
    requires '/' !in w
    ensures TopOf(w + "/" + rest) == w + "/"
    ensures Place(TarEntry(w + "/", kind), w + "/") == []
    ensures Place(TarEntry(w + "/" + rest, kind), w + "/") == Place(TarEntry(rest, kind), "")
  {
    BeforeOf(w, rest);
    assert w + "/" + rest == (w + "/") + rest;
    assert (w + "/") + [] == w + "/";
    assert HasPrefix(rest, "");
  }

  lemma {:induction false} BeforeOf(w: string, rest: string)
    requires '/' !in w
    ensures Before(w + "/" + rest, '/') == w
  {
    if w != [] {
      assert (w + "/" + rest)[1..] == w[1..] + "/" + rest;
      BeforeOf(w[1..], rest);
    }
  }

  /** An archive without any "/" in its names is placed with every name unchanged. */
  lemma PlanFlat(es: seq<TarEntry>)
    requires forall i :: 0 <= i < |es| ==> '/' !in es[i].name
    ensures Plan(es) == PlanWith(es, "")
  {
    if es != [] {
      StripPrefixNone(es);
      PlanFlat(es[..|es| - 1]);
    }
  }
}
