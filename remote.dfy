/**
 * Remote version listing (Manager.ListRemote in internal/version/manager.go
 * and runLsRemote in internal/cli/lsremote.go): the checks before the fetch
 * and the post-processing of the decoded listing. The HTTP request and the
 * JSON decoding are not modelled; the response arrives as a `Response`.
 */
module Remote {
  import opened Wrappers
  import opened Failures
  import opened Text
  import Plugins

  /** A decoded JSON value, as far as the listing code looks at it. */
  datatype Json = JString(s: string) | JBool(b: bool) | JOther

  /** One element of the decoded array: a JSON object. */
  type Item = map<string, Json>

  /** What the fetch gives: no answer, a non-200 status, or a body that did or did not decode as an array of objects. */
  datatype Response = Unreachable | BadStatus(code: int) | Body(decoded: Option<seq<Item>>)

  datatype RemoteVersion = RemoteVersion(version: string, lts: string)

  /** The version prefix is removed once, and only when it is non-empty and present. */
  function StripPrefix(ver: string, prefix: string): (r: string)
    ensures prefix != "" && HasPrefix(ver, prefix) ==> ver == prefix + r
    ensures !(prefix != "" && HasPrefix(ver, prefix)) ==> r == ver
  {
    if prefix != "" && HasPrefix(ver, prefix) then TrimPrefix(ver, prefix) else ver
  }

  /** One listing item: dropped without a string "version"; a "lts" that is not a string reads as "". */
  function Convert(item: Item, prefix: string): Option<RemoteVersion> {
    if "version" in item && item["version"].JString? then
      var lts := if "lts" in item && item["lts"].JString? then item["lts"].s else "";
      Some(RemoteVersion(StripPrefix(item["version"].s, prefix), lts))
    else None
  }

  /** The converted items, in input order. */
  function Extracted(items: seq<Item>, prefix: string): seq<RemoteVersion> {
    if items == [] then [] else
      var rest := Extracted(items[..|items| - 1], prefix);
      match Convert(items[|items| - 1], prefix)
      case Some(v) => rest + [v]
      case None => rest
  }

  /**
   * `versions[:limit]` when limit > 0 and the list is longer; the list itself
   * otherwise: a prefix of min(limit, n) entries, or all n when limit <= 0.
   */
  function Truncate<T>(vs: seq<T>, limit: int): (r: seq<T>)
    ensures |r| <= |vs| && r == vs[..|r|]
    ensures limit > 0 ==> |r| == if limit < |vs| then limit else |vs|
    ensures limit <= 0 ==> |r| == |vs|
  {
    if limit > 0 && |vs| > limit then vs[..limit] else vs
  }

  /** The loop of ListRemote over the decoded items. */
  method ExtractVersions(data: seq<Item>, prefix: string) returns (versions: seq<RemoteVersion>)
    ensures versions == Extracted(data, prefix)
  {
    versions := [];
    for i := 0 to |data|
      invariant versions == Extracted(data[..i], prefix)
    {
      assert data[..i + 1][..i] == data[..i];
      var item := data[i];
      if "version" in item && item["version"].JString? {
        var ver := item["version"].s;
        if prefix != "" && HasPrefix(ver, prefix) {
          ver := TrimPrefix(ver, prefix);
        }
        var lts := "";
        if "lts" in item {
          if item["lts"].JString? {
            lts := item["lts"].s;
          }
        }
        versions := versions + [RemoteVersion(ver, lts)];
      }
    }
    assert data[..|data|] == data;
  }

  /**
   * ListRemote: unknown tool, then no list URL, then a failed fetch, then a
   * format other than "json", then an undecodable body are errors, in that
   * order; otherwise the extracted versions, truncated to `limit`.
   */
  method ListRemote(registry: Plugins.Registry, tool: string, limit: int, response: Response)
    returns (r: Result<seq<RemoteVersion>, Error>)
    ensures tool !in registry.plugins ==> r == Err(UnknownTool(tool))
    ensures tool in registry.plugins ==> r == ListRemoteSpec(registry.plugins[tool], tool, limit, response)
  {
    var p := registry.Get(tool);
    if p.Err? {
      return Err(p.error);
    }
    if p.value.listURL == "" {
      return Err(ListUnsupported(tool));
    }
    if !response.Body? {
      return Err(FetchFailed);
    }
    if p.value.listFormat != "json" {
      return Err(ListFormatUnsupported(p.value.listFormat));
    }
    if response.decoded.None? {
      return Err(FetchFailed);
    }
    var versions := ExtractVersions(response.decoded.value, p.value.versionPrefix);
    if limit > 0 && |versions| > limit {
      versions := versions[..limit];
    }
    r := Ok(versions);
  }

  function ListRemoteSpec(p: Plugins.Plugin, tool: string, limit: int, response: Response): Result<seq<RemoteVersion>, Error> {
    if p.listURL == "" then Err(ListUnsupported(tool))
    else if !response.Body? then Err(FetchFailed)
    else if p.listFormat != "json" then Err(ListFormatUnsupported(p.listFormat))
    else if response.decoded.None? then Err(FetchFailed)
    else Ok(Truncate(Extracted(response.decoded.value, p.versionPrefix), limit))
  }

  /** The entries that carry an LTS name, in order. */
  function LtsOnly(vs: seq<RemoteVersion>): seq<RemoteVersion> {
    if vs == [] then [] else LtsOnly(vs[..|vs| - 1]) + (if vs[|vs| - 1].lts != "" then [vs[|vs| - 1]] else [])
  }

  /** ls-remote's options: --limit (default 20), --all and --lts-only. */
  datatype Options = Options(limit: int, all: bool, ltsOnly: bool)

  /** --all overrides --limit with 0, which means no truncation. */
  function EffectiveLimit(o: Options): int {
    if o.all then 0 else o.limit
  }

  /**
   * runLsRemote: list everything (limit 0), keep the LTS entries if asked,
   * then apply the limit. An empty result is not an error.
   */
  method RunLsRemote(registry: Plugins.Registry, tool: string, o: Options, response: Response)
    returns (r: Result<seq<RemoteVersion>, Error>)
    ensures tool !in registry.plugins ==> r == Err(UnknownTool(tool))
    ensures tool in registry.plugins ==>
      match ListRemoteSpec(registry.plugins[tool], tool, 0, response)
      case Err(e) => r == Err(e)
      case Ok(all) => r == Ok(Truncate(if o.ltsOnly then LtsOnly(all) else all, EffectiveLimit(o)))
  {
    var limit := EffectiveLimit(o);
    var p := registry.Get(tool);
    if p.Err? {
      return Err(p.error);
    }
    var listed := ListRemote(registry, tool, 0, response);
    if listed.Err? {
      return Err(listed.error);
    }
    var versions := listed.value;
    if o.ltsOnly {
      var ltsVersions := [];
      for i := 0 to |versions|
        invariant ltsVersions == LtsOnly(versions[..i])
      {
        assert versions[..i + 1][..i] == versions[..i];
        if versions[i].lts != "" {
          ltsVersions := ltsVersions + [versions[i]];
        }
      }
      assert versions[..|versions|] == versions;
      versions := ltsVersions;
    }
    if limit > 0 && |versions| > limit {
      versions := versions[..limit];
    }
    r := Ok(versions);   // an empty list only prints a notice
  }

  // ---------------------------------------------------------------- properties

  /** The prefix goes exactly once, even when what follows starts with it again. */
  lemma StripPrefixOnce(prefix: string, rest: string)
    requires prefix != ""
    ensures StripPrefix(prefix + rest, prefix) == rest
  {
    assert (prefix + rest)[..|prefix|] == prefix;
  }

  /** Extraction maps item by item: the result for `a + b` is the result for `a` followed by that for `b`. */
  lemma {:induction false} ExtractedConcat(a: seq<Item>, b: seq<Item>, prefix: string)
    ensures Extracted(a + b, prefix) == Extracted(a, prefix) + Extracted(b, prefix)
    decreases |b|
  {
    if b == [] {
      assert a + b == a;
    } else {
      assert (a + b)[..|a + b| - 1] == a + b[..|b| - 1];
      ExtractedConcat(a, b[..|b| - 1], prefix);
    }
  }

  /** A single item yields its conversion, or nothing when it has no string "version". */
  lemma ExtractedSingle(item: Item, prefix: string)
    ensures Extracted([item], prefix) == match Convert(item, prefix) case Some(v) => [v] case None => []
  {
    assert [item][..0] == [];
  }

  /** The LTS filter keeps exactly the entries with an LTS name, in order: it distributes over concatenation. */
  lemma {:induction false} LtsOnlyConcat(a: seq<RemoteVersion>, b: seq<RemoteVersion>)
    ensures LtsOnly(a + b) == LtsOnly(a) + LtsOnly(b)
    decreases |b|
  {
    if b == [] {
      assert a + b == a;
    } else {
      assert (a + b)[..|a + b| - 1] == a + b[..|b| - 1];
      LtsOnlyConcat(a, b[..|b| - 1]);
    }
  }

  /** Every entry the LTS filter keeps has an LTS name, and every entry with one is kept. */
  lemma {:induction false} LtsOnlyMembers(vs: seq<RemoteVersion>)
    ensures forall v :: v in LtsOnly(vs) <==> v in vs && v.lts != ""
  {
    if vs != [] {
      LtsOnlyMembers(vs[..|vs| - 1]);
      assert vs == vs[..|vs| - 1] + [vs[|vs| - 1]];
    }
  }

  /** --all lists everything, whatever --limit says. */
  lemma AllListsEverything(o: Options, vs: seq<RemoteVersion>)
    requires o.all
    ensures Truncate(vs, EffectiveLimit(o)) == vs
  {
  }
}
