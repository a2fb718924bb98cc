# arsenal version manager — a Dafny model

`arsenal` (bastion-arsenal) installs tool versions under `~/.arsenal`.
- Each installed version gets a directory `versions/<tool>/<version>`.
- A symbolic link `current/<tool>` marks the active version.
- A `.toolversions` manifest pins one version per tool for a directory tree.

This project models the core of that program:
- the install / use / uninstall / list / current / doctor lifecycle of the version manager;
- the manifest's parser, writer, upward search and `sync`;
- plugin descriptors, their registry and the download-URL template;
- the directory layout;
- the policies of the `uninstall`, `use --local`, `ls-remote` and `doctor` commands;
- `self update`.

Modules:

| module | file | what it holds |
|---|---|---|
| `Wrappers`, `Failures` | wrappers.dfy, failures.dfy | `Option`, `Result`, `Outcome`; the error values the operations return |
| `Text` | text.dfy | the parts of Go's `strings`, `bufio`, `filepath.Base` and `sort.Strings` the code relies on |
| `Config` | config.dfy | the `~/.arsenal` layout and `EnsureDirs` |
| `Plugins` | plugin.dfy | descriptors, URL templates, the `Registry` class |
| `Archive` | archive.dfy | the archive-format dispatch and the tar strip-prefix loop |
| `Manifest` | manifest.dfy | `.toolversions`: strict and lenient readers, writer, upward search |
| `Lifecycle` | lifecycle.dfy | install / use / uninstall / sync as functions on a file-system value, and their properties |
| `VersionManager` | manager.dfy | the `Manager` and `FileSystem` classes; each method is proved to reach the state its `Lifecycle` function gives |
| `Remote` | remote.dfy | `ListRemote` and `ls-remote` |
| `Commands` | cli.dfy | the `uninstall`, `use`, `doctor` commands |
| `SelfUpdate` | selfupdate.dfy | `self update` |

Modelling choices:

- **The file system.** It is a value (`Lifecycle.Store`):
  - the entries of each `versions/<tool>/` directory;
  - what each `current/<tool>` entry is (a link with its target text, or something else);
  - the text of each directory's manifest.
- **Failures are parameters.** Download, extraction, directory creation, link creation, link removal (`os.Remove` of `current/<tool>`) and directory removal each fail where an `Env` value says they do; so do reading and creating the manifest in `use --local`. The HTTP body of a listing and the contents of an archive are parameters too.
- **Go map iteration order.** It is unspecified, so each loop over a map returns a ghost `order`. Each contract holds for any order. The properties proved about manifests and `sync` hold whatever the order.
- **Version order.** `uninstall` switches to the last remaining version of the byte-order sorted listing. It does not use semantic-version order, so `9.0.0` sorts after `10.0.0`. The model keeps the code's byte order.

## Model

| member | source | states |
|---|---|---|
| `Config.GetPaths` | internal/config/config.go:30-44 | the layout under `home`: root `home/.arsenal`, then `versions`, `current`, `plugins` and `config.toml` under the root |
| `Config.ToolVersionPath` | internal/config/config.go:57-61 | a version's install directory is `versions/<tool>/<version>` |
| `Config.ToolCurrentPath` | internal/config/config.go:63-67 | a tool's active-version link is `current/<tool>` |
| `Config.ToolBinPath` | internal/config/config.go:69-73 | a tool's bin directory is `current/<tool>/bin` |
| `Config.GetPathsLayout` | internal/config/config.go:30-44 | root is `home/.arsenal`; versions, current and plugins are distinct directories directly under it; the config file is none of them |
| `Config.ToolPathsLayout` | internal/config/config.go:57-73 | version directories are equal only for the same (tool, version); link paths are equal only for the same tool; the bin path is the link path plus `bin`; a version directory is never a link path |
| `Config.FirstIn` | internal/config/config.go:49-53 | the index of the first directory whose creation fails: every directory before it succeeds |
| `Config.EnsureDirs` | internal/config/config.go:47-55 | creates root, versions, current and plugins in that order; stops at the first failure, which it reports; an existing directory never fails |
| `Archive.ExtractorFor` | internal/version/manager.go:372-383 | exactly `tar.gz`, `tgz` and `tar.xz` go to the tar reader; exactly `zip` goes to the zip reader; anything else is unsupported |
| `Archive.DefaultArchiveSupported` | internal/plugin/plugin.go:176-184 | a descriptor without an archive type always resolves to a format the extractor supports: zip on Windows, tar otherwise |
| `Archive.TopOf` | internal/version/manager.go:414-416 | the wrapper prefix a name announces: the text before its first `/`, with the `/` |
| `Archive.StripPrefixAfter` | internal/version/manager.go:412-418 | the strip prefix after a run of entries: empty until an entry whose name holds `/`, then that entry's top directory |
| `Archive.Place` | internal/version/manager.go:420-453 | one entry after stripping the prefix: nothing for an empty name or `.`; a directory, a file or a link by kind; nothing for other kinds |
| `Archive.Plan` | internal/version/manager.go:403-454 | the actions of all entries in archive order, each under the prefix known when it is read |
| `Archive.PlanTarExtraction` | internal/version/manager.go:400-454 | the entry loop produces exactly the actions of the specification `Plan`: each entry placed under the strip prefix known when it is read |
| `Archive.StripPrefixNone` | internal/version/manager.go:412-418 | without a `/` in any name, no prefix is ever stripped |
| `Archive.StripPrefixFromFirstSlashed` | internal/version/manager.go:412-418 | the first entry whose name holds `/` fixes the prefix; later entries never change it |
| `Archive.PlanUnderWrapper` | internal/version/manager.go:400-424 | when the first entry names a wrapper directory, every entry is placed under that one prefix |
| `Archive.WrapperStripped` | internal/version/manager.go:420-424 | inside wrapper `w/`, the wrapper itself yields nothing and `w/rest` is placed exactly as `rest` would be in an archive without it |
| `Archive.PlanFlat` | internal/version/manager.go:412-424 | an archive without `/` in its names is extracted with every name unchanged |
| `Plugins.MapName` | internal/plugin/plugin.go:156-164 | the runtime OS or arch name is replaced by its table entry when there is one, and kept otherwise |
| `Plugins.ResolveArchiveType` | internal/plugin/plugin.go:176-184 | never empty; the descriptor's type when set; otherwise `zip` on Windows and `tar.gz` elsewhere |
| `Plugins.Substitute` | internal/plugin/plugin.go:166-172 | one left-to-right replacer pass: at each position the first of `{{version}}`, `{{os}}`, `{{arch}}` that starts there is replaced, otherwise one character is copied; inserted text is not scanned again |
| `Plugins.ResolveDownloadURL` | internal/plugin/plugin.go:150-173 | the template with the version and the OS and arch names, each mapped through its table, in place of the placeholders |
| `Plugins.SubstituteLiteral` | internal/plugin/plugin.go:166-172 | the replacer copies text without `{` unchanged |
| `Plugins.SubstitutePlaceholder` | internal/plugin/plugin.go:166-172 | each of `{{version}}`, `{{os}}`, `{{arch}}` is replaced by its value, and the value is not scanned again |
| `Plugins.SubstituteSpelled` | internal/plugin/plugin.go:166-172 | a template made of brace-free text and placeholders expands to the text with each placeholder's value in its place |
| `Plugins.DoubleBraceKept` | internal/plugin/plugin.go:166-172 | any other `{{name...` placeholder is copied verbatim |
| `Plugins.ResolveDownloadURLSpelled` | internal/plugin/plugin.go:150-173 | the download URL is the template with the version and the mapped OS and arch names in place of their placeholders |
| `Plugins.LastNamed` | internal/plugin/plugin.go:95 | the last descriptor with a given name, or none |
| `Plugins.LoadLastWins` | internal/plugin/plugin.go:80-96 | after loading, a name maps to its last descriptor in load order; a name that is not loaded keeps its earlier entry |
| `Plugins.LoadKeys` | internal/plugin/plugin.go:110-121 | the registered names are the earlier ones plus those loaded |
| `Plugins.Registry.constructor` | internal/plugin/plugin.go:56-72 | the registry is the builtin descriptors loaded first, then the user descriptors |
| `Plugins.Registry.LoadPlugins` | internal/plugin/plugin.go:74-124 | each descriptor is stored under its name, in order |
| `Plugins.Registry.Get` | internal/plugin/plugin.go:127-133 | succeeds exactly for a registered name, with its descriptor; otherwise fails with an unknown-tool error |
| `Plugins.Registry.List` | internal/plugin/plugin.go:136-142 | every registered name exactly once |
| `Plugins.UserOverridesBuiltin` | internal/plugin/plugin.go:56-72 | a user descriptor replaces a builtin one of the same name; a name without a user descriptor keeps its builtin; a name in neither is absent |
| `Manifest.Classify` | internal/version/toolversions.go:133-145 | an entry line names the two fields of its trimmed text; a malformed line keeps its trimmed text, which does not have two fields |
| `Manifest.EntryIsWritable` | internal/version/toolversions.go:136-145 | every entry the parser accepts names a tool and a version that can be written back: single words, the tool not starting with `#` |
| `Manifest.ParseFrom` | internal/version/toolversions.go:131-148 | from a line on: blank and comment lines are skipped, the first malformed line is an error with its 1-based number and text, and each entry sets its tool, later lines overriding earlier ones |
| `Manifest.ParseToolVersions` | internal/version/toolversions.go:118-149 | the scanning loop computes exactly the specification parse of the file's lines |
| `Manifest.LastEntryFor` | internal/version/toolversions.go:145 | the last entry line for a tool, after which no line names it |
| `Manifest.ParseFromMeaning` | internal/version/toolversions.go:131-146 | the parse succeeds exactly when no line is malformed; each tool then has the version of its last line, and a tool with no line is absent |
| `Manifest.ParseErrorIsFirstMalformed` | internal/version/toolversions.go:131-143 | a parse error names the first malformed line, numbered from 1, with its trimmed text |
| `Manifest.ReadLenient` | internal/cli/use.go:100-120 | the text split at `\n`; each well-formed entry sets its tool, later lines overriding earlier ones; every other line is ignored |
| `Manifest.ReadToolVersionsSimple` | internal/cli/use.go:100-120 | the loop of the lenient reader computes the specification `ReadLenient` |
| `Manifest.LenientAgreesWithStrict` | internal/cli/use.go:100-120 | where the strict parser accepts the lines, the lenient reader reads the same map |
| `Manifest.LenientShift` | internal/cli/use.go:108-117 | reading two pieces of text is reading the first, then the second on top of it |
| `Manifest.LenientSkipsMalformed` | internal/cli/use.go:113-116 | a malformed line changes nothing the lenient reader reads |
| `Manifest.RenderManifest` | internal/version/toolversions.go:44-48 | one `tool version` line per tool, each tool once, in the recorded map order |
| `Manifest.EntryLineClassifies` | internal/version/toolversions.go:45 | a written line is a plain line that the parser reads back as its own entry |
| `Manifest.RenderParseRoundTrip` | internal/version/toolversions.go:36-51 | whatever the order the tools were written in, the strict parser reads back the original map |
| `Manifest.ReadLenientWritable` | internal/cli/use.go:100-120 | whatever text it reads, the lenient reader returns a map that can be written back |
| `Manifest.RenderReadLenient` | internal/cli/use.go:91-116 | the lenient reader reads back exactly what was written |
| `Manifest.Nearest` | internal/version/toolversions.go:91-111 | the directory found holds a manifest and is `dir` or an ancestor of it |
| `Manifest.NearestMeaning` | internal/version/toolversions.go:91-111 | the search finds the deepest ancestor holding a manifest, `dir` included; it finds nothing only when no ancestor up to the root holds one |
| `Manifest.FindToolVersionsFile` | internal/version/toolversions.go:91-111 | the loop returns the manifest of the nearest such directory, or a not-found error |
| `Manifest.ReadSpec` | internal/version/toolversions.go:21-33 | the nearest directory holding a manifest, its text parsed strictly, with the manifest's path; no such directory, or a parse error, is the error |
| `Manifest.ReadToolVersions` | internal/version/toolversions.go:21-33 | the nearest manifest is parsed, with its path; a missing or malformed manifest is an error |
| `Manifest.WriteToolVersions` | internal/version/toolversions.go:36-51 | fails exactly when the file cannot be created; otherwise writes one `tool version` line per tool, each tool exactly once, in some map order |
| `Manifest.WriteThenRead` | internal/version/toolversions.go:36-51 | what is written is read back as the same manifest, whatever the iteration order |
| `Lifecycle.InstallSpec` | internal/version/manager.go:37-87 | unknown tool, existing version, failed mkdir are refused unchanged; a failed download, an unsupported archive type or a failed extraction rolls the new directory back; otherwise the directory stays |
| `Lifecycle.UseSpec` | internal/version/manager.go:90-115 | unknown tool or missing version are refused unchanged; otherwise `os.Remove` of the old `current/<tool>` entry is tried, its error ignored, and the link to the version directory is made unless an entry remains (an existing entry fails the link) or linking fails |
| `Lifecycle.CurrentOf` | internal/version/manager.go:171-179 | the last element of the link's target; empty when `current/<tool>` is not a link |
| `Lifecycle.UninstallSpec` | internal/version/manager.go:118-142 | unknown tool or missing version are refused unchanged; when the link names the version its removal is tried first, its error ignored; then the version directory is removed unless that fails |
| `Lifecycle.VersionDirs` | internal/version/manager.go:159-164 | the names List reports: the directory entries of `versions/<tool>/` |
| `Lifecycle.ActiveVersions` | internal/version/manager.go:182-202 | every entry of `current/` that is a link, with the version it names |
| `Lifecycle.InstallRefusesEarly` | internal/version/manager.go:37-48 | installing an unknown tool or an existing version fails with that error and changes nothing |
| `Lifecycle.InstallFailureRollsBack` | internal/version/manager.go:51-82 | a failed install leaves the version not installed; every other version, every link and every manifest are as before |
| `Lifecycle.AddDropRestores` | internal/version/manager.go:61-74 | creating the version directory and rolling it back leaves only the tool directory behind |
| `Lifecycle.InstallSuccessAddsExactly` | internal/version/manager.go:37-87 | a successful install adds exactly the version directory; links, manifests and other tools are unchanged |
| `Lifecycle.InstallSucceedsIff` | internal/version/manager.go:37-87 | install succeeds exactly when the tool is known, the version is absent, and the mkdir, download, format and extraction steps all succeed |
| `Lifecycle.UseRefusesEarly` | internal/version/manager.go:90-102 | use of an unknown tool or an uninstalled version fails and changes nothing |
| `Lifecycle.UseSetsOnlyThatPointer` | internal/version/manager.go:104-115 | a successful use links `current/<tool>` to the version directory, so Current reports the version; nothing else changes |
| `Lifecycle.UseLinkFailureDropsPointer` | internal/version/manager.go:104-111 | a failed link step changes no other tool, version or manifest; the old entry is gone when its removal succeeded, and otherwise stays, with Current unchanged |
| `Lifecycle.UninstallRemovesExactly` | internal/version/manager.go:118-142 | a successful uninstall deletes exactly that version, and removes the tool's link exactly when Current named the version |
| `Lifecycle.UninstallRefusesEarly` | internal/version/manager.go:118-127 | uninstall of an unknown tool or an uninstalled version fails and changes nothing |
| `Lifecycle.InstallMonotone` | internal/version/manager.go:37-87 | install never removes an installed version and never changes a link or a manifest |
| `Lifecycle.InstallKeepsConsistent` | internal/version/manager.go:37-87 | install keeps every link pointing at an installed version of its own tool |
| `Lifecycle.UseKeepsConsistent` | internal/version/manager.go:90-115 | use of a single-component version keeps every link pointing at an installed version of its own tool |
| `Lifecycle.ConsistentAfterRemoval` | internal/version/manager.go:130-138 | dropping a version keeps links consistent when no remaining link names it |
| `Lifecycle.UninstallKeepsConsistent` | internal/version/manager.go:118-142 | because the link goes before the directory, uninstall keeps every link pointing at an installed version whenever the active version's link can be removed |
| `Lifecycle.UninstallUnlinkFailureDangles` | internal/version/manager.go:130-141 | when the active version's link cannot be removed, uninstall still succeeds and leaves `current/<tool>` linking to the removed version, so the state is no longer consistent |
| `Lifecycle.UnlinkFacts` | internal/version/manager.go:130-138 | when the unlink step succeeds (or is not needed) no link names the version; removing the directory keeps every other installed version |
| `Lifecycle.InstallThenUninstall` | internal/version/manager.go:118-142 | installing then uninstalling a version restores links, manifests and every tool's entries |
| `Lifecycle.SyncStep` | internal/version/toolversions.go:66-82 | one manifest entry: install when the version directory is absent, then use; an install failure skips the use; either failure is only reported |
| `Lifecycle.SyncFold` | internal/version/toolversions.go:62-83 | the manifest's entries handled one after another, in the map order given |
| `Lifecycle.SyncStepFrame` | internal/version/toolversions.go:62-83 | one sync entry touches only its own tool and never a manifest |
| `Lifecycle.InstallFrame` | internal/version/manager.go:37-87 | install touches only its own tool's part of the state |
| `Lifecycle.UseFrame` | internal/version/manager.go:90-115 | use touches only its own tool's part of the state |
| `Lifecycle.SyncStepLocal` | internal/version/toolversions.go:66-82 | what one sync entry does depends only on its own tool's part of the state |
| `Lifecycle.InstallLocal` | internal/version/manager.go:37-87 | install's effect and outcome depend only on its own tool's part of the state |
| `Lifecycle.UseLocal` | internal/version/manager.go:90-115 | use's effect and outcome depend only on its own tool's part of the state |
| `Lifecycle.SyncFoldFrame` | internal/version/toolversions.go:62-83 | sync leaves every tool outside the manifest, and every manifest, unchanged |
| `Lifecycle.SyncFoldPerTool` | internal/version/toolversions.go:62-83 | whatever the map order, each manifest tool ends as its own step leaves it from the initial state: entries do not interfere |
| `Lifecycle.SyncActivates` | internal/version/toolversions.go:62-83 | after sync, every tool whose step succeeded is installed and active at the manifest's version |
| `Lifecycle.BaseOfRender` | internal/version/manager.go:171-179 | Current reads back the last element of the directory a link was made to |
| `VersionManager.FileSystem.constructor` | internal/version/manager.go:37-142 | the file system starts in the given state |
| `VersionManager.FileSystem.MkdirAll` | internal/version/manager.go:51 | creates the version directory |
| `VersionManager.FileSystem.RemoveAll` | internal/version/manager.go:136 | removes the version directory and nothing else |
| `VersionManager.FileSystem.Remove` | internal/version/manager.go:106 | removes the tool's entry in `current/` unless the removal fails or the entry cannot be removed; its error is ignored |
| `VersionManager.FileSystem.Symlink` | internal/version/manager.go:109 | makes the link exactly when no entry exists and the oracle allows it; otherwise changes nothing |
| `VersionManager.FileSystem.WriteManifest` | internal/version/toolversions.go:38-48 | replaces the directory's manifest text and nothing else |
| `VersionManager.Manager.constructor` | internal/version/manager.go:37-142 | the manager holds the paths, the registry and the file system |
| `VersionManager.Manager.Install` | internal/version/manager.go:37-87 | ends in the state and with the outcome `Lifecycle.InstallSpec` gives |
| `VersionManager.Manager.Use` | internal/version/manager.go:90-115 | ends in the state and with the outcome `Lifecycle.UseSpec` gives |
| `VersionManager.Manager.Current` | internal/version/manager.go:171-179 | non-empty exactly when `current/<tool>` is a link; on a consistent state, a reported version is installed; the same reading of the link as the lifecycle's `CurrentOf` |
| `VersionManager.Manager.Uninstall` | internal/version/manager.go:118-142 | ends in the state and with the outcome `Lifecycle.UninstallSpec` gives |
| `VersionManager.Manager.List` | internal/version/manager.go:145-168 | an unknown tool is an error; a missing tool directory gives no versions; otherwise the directory entries, ascending, each once |
| `VersionManager.Manager.CurrentAll` | internal/version/manager.go:182-202 | every entry of `current/` that is a link, with the version it names |
| `VersionManager.Manager.CheckDir` | internal/version/manager.go:245-250 | an error exactly when the directory is missing, never a warning |
| `VersionManager.Manager.CheckPath` | internal/version/manager.go:252-263 | OK exactly when PATH contains the current directory as text, a warning otherwise, never an error |
| `VersionManager.Manager.Doctor` | internal/version/manager.go:205-227 | the root, versions and current checks, then PATH, then one OK entry per active tool, each active tool once |
| `VersionManager.Manager.ReportActive` | internal/version/manager.go:217-224 | one OK entry per active tool with its version, each tool once |
| `VersionManager.ToolChecks` | internal/version/manager.go:218-224 | one OK entry per listed tool, reporting that tool's active version |
| `VersionManager.Manager.SyncEntry` | internal/version/toolversions.go:66-82 | one sync step: install when the directory is absent, then use; failures are only warnings |
| `VersionManager.Manager.Sync` | internal/version/toolversions.go:54-88 | fails exactly when the nearest manifest cannot be found or parsed, and then changes nothing; otherwise handles each entry once |
| `VersionManager.Manager.SyncAll` | internal/version/toolversions.go:62-83 | handles each manifest entry exactly once, in map order, ending in the state of the specification fold |
| `VersionManager.SyncFoldSnoc` | internal/version/toolversions.go:62-83 | handling one more entry applies its step to the state reached so far |
| `Remote.Convert` | internal/version/manager.go:550-570 | an item without a string `version` is dropped; otherwise its version without the prefix, and its `lts` when that is a string, empty otherwise |
| `Remote.Extracted` | internal/version/manager.go:548-571 | the converted items, in input order |
| `Remote.ListRemoteSpec` | internal/version/manager.go:523-578 | no list URL, failed fetch, a format other than `json` and an undecodable body are errors in that order; otherwise the extracted versions, truncated to the limit |
| `Remote.LtsOnly` | internal/cli/lsremote.go:62-70 | the entries with a non-empty LTS name, in order |
| `Remote.EffectiveLimit` | internal/cli/lsremote.go:29-34 | `--all` means limit 0, no truncation; otherwise `--limit` |
| `Remote.StripPrefix` | internal/version/manager.go:552-555 | the version prefix is removed once, only when non-empty and present |
| `Remote.Truncate` | internal/version/manager.go:573-576 | the result is a prefix of the list: the first min(limit, n) entries when the limit is positive, all n entries when it is 0 or less |
| `Remote.ExtractVersions` | internal/version/manager.go:548-571 | the loop computes the specification `Extracted`: items with a string version, in order; a non-string `lts` reads as empty |
| `Remote.ListRemote` | internal/version/manager.go:517-579 | unknown tool, missing list URL, failed fetch, non-json format and undecodable body are errors in that order; otherwise the extracted versions, truncated |
| `Remote.RunLsRemote` | internal/cli/lsremote.go:45-84 | lists everything, keeps the LTS entries when asked, then applies the limit; an empty result is not an error |
| `Remote.StripPrefixOnce` | internal/version/manager.go:552-555 | the prefix goes exactly once, even when what follows starts with it again |
| `Remote.ExtractedConcat` | internal/version/manager.go:548-571 | extraction works item by item: it distributes over concatenation |
| `Remote.ExtractedSingle` | internal/version/manager.go:550-570 | a single item yields its conversion, or nothing without a string version |
| `Remote.LtsOnlyConcat` | internal/cli/lsremote.go:62-70 | the LTS filter keeps order: it distributes over concatenation |
| `Remote.LtsOnlyMembers` | internal/cli/lsremote.go:62-70 | the filter keeps exactly the entries with an LTS name |
| `Remote.AllListsEverything` | internal/cli/lsremote.go:29-34 | `--all` lists everything, whatever `--limit` says |
| `Commands.Remaining` | internal/cli/uninstall.go:48-54 | the listed versions other than the removed one, in listing order |
| `Commands.RunUninstallSpec` | internal/cli/uninstall.go:30-89 | unknown tool is refused; otherwise the uninstall's outcome, and when it removed the active version and others remain, the state after using the last remaining one, whose failure is ignored |
| `Commands.RunUninstall` | internal/cli/uninstall.go:30-89 | the command lists the versions sorted, uninstalls, and ends in the state `RunUninstallSpec` gives |
| `Commands.RemainingVersions` | internal/cli/uninstall.go:48-54 | the loop keeps the listed versions other than the removed one, in order |
| `Commands.RemainingMeaning` | internal/cli/uninstall.go:48-54 | the remaining versions are the listed ones without the removed one, still ascending |
| `Commands.RunUninstallOutcome` | internal/cli/uninstall.go:57-70 | the command's outcome is the uninstall's; a failed switch afterwards is only a warning |
| `Commands.RunUninstallNotCurrent` | internal/cli/uninstall.go:38-62 | uninstalling an inactive version is a plain uninstall that leaves every link alone |
| `Commands.RunUninstallSwitchesToLatest` | internal/cli/uninstall.go:62-70 | uninstalling the active version while others remain activates the greatest remaining version in byte order, when the old link can be removed and the new one made |
| `Commands.LatestRemaining` | internal/cli/uninstall.go:62-64 | the last remaining version is the greatest listed version other than the removed one |
| `Commands.SwitchAfterUninstall` | internal/cli/uninstall.go:62-70 | after the active version is removed, using another installed version succeeds when the old link could be removed and the new one can be made |
| `Commands.RemainingEmpty` | internal/cli/uninstall.go:48-54 | nothing remains when every listed version is the removed one |
| `Commands.RunUninstallLastVersion` | internal/cli/uninstall.go:57-70 | uninstalling the only, active version leaves the tool with no versions, and with no link when the link could be removed |
| `Commands.RunUninstallKeepsConsistent` | internal/cli/uninstall.go:30-89 | on a consistent state, the whole command keeps every link pointing at an installed version whenever the active version's link can be removed |
| `Commands.RunUninstallUnlinkFailure` | internal/cli/uninstall.go:57-70 | when the active version's link cannot be removed, the command succeeds, the switch fails on the existing entry, and `current/<tool>` still links to the removed version |
| `Commands.RunUse` | internal/cli/use.go:37-58 | use first; with `--local` and a successful use, an existing manifest that cannot be read or a file that cannot be created is the command's error and nothing is written; otherwise the manifest is rewritten with the tool pinned, one line per tool, each tool once |
| `Commands.UpdateToolVersionsFile` | internal/cli/use.go:60-120 | reads the working directory's manifest leniently (empty when absent), sets the tool, rewrites the file with one line per tool, each tool once; fails without change when an existing manifest cannot be read or the file cannot be created |
| `Commands.FreshPinSingleLine` | internal/cli/use.go:70-95 | with no manifest in the working directory, the file written is exactly the one line `tool version` |
| `Commands.PinnedTools` | internal/cli/use.go:66-82 | the working directory's manifest read leniently, empty when there is none, with the tool set to the version |
| `Commands.PinnedKeepsOthers` | internal/cli/use.go:66-82 | pinning sets the tool's version and keeps every other entry the lenient reader saw |
| `Commands.PinnedReadsBack` | internal/cli/use.go:60-98 | the written manifest is read back as exactly the pinned tools, by the lenient reader and by the strict reader `sync` uses |
| `Commands.RunDoctor` | internal/cli/doctor.go:27-70 | reports errors exactly when some check is an error, and warnings exactly when there is a warning but no error; fails exactly on errors |
| `Commands.DoctorCommand` | internal/cli/doctor.go:27-70 | doctor fails exactly when root, versions or current is missing, and warns exactly when they exist but PATH lacks the current directory |
| `Commands.DoctorStatuses` | internal/version/manager.go:216-224 | only the four fixed checks can warn or fail: every per-tool entry is OK |
| `SelfUpdate.Clean` | internal/cli/self.go:79-80 | a version with one leading `v` removed |
| `SelfUpdate.Decide` | internal/cli/self.go:67-98 | `dev` and `unknown` builds are refused, then a failed release fetch; equal cleaned versions without `--force` stop as up to date; `--check` stops, reporting a newer version when they differ; otherwise the update proceeds |
| `SelfUpdate.ArchiveName` | internal/cli/self.go:100-110 | `bastion-arsenal-<tag>-<os>-<arch>` with `.zip` on Windows and `.tar.gz` elsewhere; the tag keeps its `v` |
| `SelfUpdate.AssetURL` | internal/cli/self.go:112-122 | a non-empty URL comes from an asset with the archive's name |
| `SelfUpdate.FindAsset` | internal/cli/self.go:112-118 | the loop stops at the first asset with the name |
| `SelfUpdate.FormatOf` | internal/cli/self.go:238-247 | a `.tar.gz` name goes to the tar reader, otherwise a `.zip` name to the zip reader, anything else is unsupported |
| `SelfUpdate.FirstBinary` | internal/cli/self.go:271-296 | the first entry that can be the binary; none when no entry can |
| `SelfUpdate.ExtractArchive` | internal/cli/self.go:238-339 | an unknown suffix is an error; then a failure reading the archive or writing the binary is an error naming the archive; then an archive without a suitable entry is an error; otherwise the base name of the first suitable entry, which has no directory part |
| `SelfUpdate.FirstBinaryAt` | internal/cli/self.go:281-295 | an entry that can be the binary, with none before it, is the one chosen |
| `SelfUpdate.SwapSpec` | internal/cli/self.go:191-212 | a missing executable or failed backup rename changes nothing; a failed copy leaves any partial copy and restores the backup unless the restore fails; a failed chmod keeps both files; success removes the backup unless that fails |
| `SelfUpdate.InstallSpec` | internal/cli/self.go:158-215 | temporary directory, download, archive format, extraction I/O, finding the binary, executable path and symlink resolution fail in that order without touching a file; then the swap |
| `SelfUpdate.FailureBeforeSwapKeepsFiles` | internal/cli/self.go:158-190 | any failure before the swap fails the install and leaves every file as it was |
| `SelfUpdate.Files.constructor` | internal/cli/self.go:158-215 | the files start with the given contents |
| `SelfUpdate.Files.Rename` | internal/cli/self.go:194 | moves a file, replacing the target; fails when the source is missing or the oracle says so |
| `SelfUpdate.Files.Copy` | internal/cli/self.go:341-359 | writes the content, or on failure leaves at most a partial copy |
| `SelfUpdate.Files.Remove` | internal/cli/self.go:212 | removes the file unless the oracle says it fails |
| `SelfUpdate.Files.Swap` | internal/cli/self.go:191-212 | ends in the state and with the outcome `SwapSpec` gives |
| `SelfUpdate.SelfUpdateSpec` | internal/cli/self.go:64-135 | the decision first; a proceeding update without the platform's asset fails with no file touched; otherwise the install, reporting the update only when it passes |
| `SelfUpdate.DownloadAndInstall` | internal/cli/self.go:158-215 | ends in the files and with the outcome `InstallSpec` gives, extraction I/O failures included |
| `SelfUpdate.RunSelfUpdate` | internal/cli/self.go:64-135 | ends in the files, outcome and report `SelfUpdateSpec` gives, extraction I/O failures included |
| `SelfUpdate.DecideMeaning` | internal/cli/self.go:68-98 | development builds are refused; with equal cleaned versions and no `--force` it is up to date; `--check` never installs and reports exactly when versions differ; otherwise the update goes ahead |
| `SelfUpdate.CleanIgnoresOneV` | internal/cli/self.go:79-80 | a tag with or without its `v` compares equal to the bare version |
| `SelfUpdate.ArchiveNameFormat` | internal/cli/self.go:105-110 | the archive name chosen for the platform is one the extractor accepts: zip on Windows, tar.gz otherwise |
| `SelfUpdate.AssetURLAt` | internal/cli/self.go:112-118 | an asset with the archive's name and none before it is the one whose URL is taken |
| `SelfUpdate.AssetURLNone` | internal/cli/self.go:112-122 | without an asset of that name the URL is empty |
| `SelfUpdate.AssetURLIsFirst` | internal/cli/self.go:112-122 | the asset chosen is the first with the archive's name; none gives no URL |
| `SelfUpdate.SwapKeepsOldBinary` | internal/cli/self.go:191-209 | a failed swap never loses the old binary: it is at the executable's path or at the backup path |
| `SelfUpdate.SwapSuccess` | internal/cli/self.go:191-212 | a successful swap leaves the new binary at the executable's path, no backup unless its removal failed, and every other file unchanged |
| `SelfUpdate.SwapRestoresOnCopyFailure` | internal/cli/self.go:199-204 | a failed copy with a working restore puts the old binary back |
| `SelfUpdate.SwapBackupFailure` | internal/cli/self.go:192-196 | a failed backup rename changes nothing |
| `SelfUpdate.NothingWrittenBeforeSwap` | internal/cli/self.go:64-122 | no file is written and no update reported unless the update goes ahead and the platform's asset exists |
| `Text.TrimSpaceShape` | internal/version/toolversions.go:133 | trimming leaves no white space at either end, and gives the empty string exactly for all-space text |
| `Text.Fields` | internal/version/toolversions.go:140 | every field is non-empty and holds no white space |
| `Text.FieldsOfPair` | internal/version/toolversions.go:45 | a line written as two space-free words splits back into exactly those two fields |
| `Text.SplitJoined` | internal/cli/use.go:108 | splitting written lines at `\n` gives the lines and a final empty piece |
| `Text.ScanJoined` | internal/version/toolversions.go:129-146 | scanning written lines gives back the lines |
| `Text.Base` | internal/version/manager.go:178 | the result is `/` or a single element without `/` |
| `Text.LessTransitive` | internal/version/manager.go:166 | the sort order is transitive |
| `Text.LessTotal` | internal/version/manager.go:166 | the sort order is total on distinct names |
| `Text.InsertAscending` | internal/version/manager.go:166 | inserting a new name keeps the sequence ascending and adds exactly that name |
| `Text.SortNames` | internal/version/manager.go:159-166 | the names in ascending order, each exactly once |
| `Text.AscendingLastIsGreatest` | internal/cli/uninstall.go:63-64 | the last element of an ascending sequence is its greatest |

## Left out

- Path joining: path components are kept verbatim. Go's `filepath.Join` collapsing of empty, `.` and `..` components is not modelled.
- Rollback: the `RemoveAll` of the rollback in Install is taken to succeed; its error is ignored in the code as well.
- Failed steps: a failed `MkdirAll` or `RemoveAll` is taken to change nothing, though a real one can leave some directories created or removed.
- `List` and `CurrentAll`: read errors other than "does not exist" are not modelled.
- `Lifecycle.InstallSpec`: the existence check is a set lookup. The code refuses only when `os.Stat` succeeds, so a Stat error other than "does not exist" lets the install go ahead; the model has no such error.
- `Lifecycle.UseSpec`: the code refuses only when `os.Stat` reports "does not exist", so any other Stat error counts as installed; the model has no such error.
- `Lifecycle.UninstallSpec`: as for `UseSpec`, a Stat error other than "does not exist" counts as installed in the code and is not modelled.
- `Lifecycle.SyncStep`: as for `UseSpec`, a Stat error other than "does not exist" makes the code skip the install and go to `Use`; the model has no such error.
- `Commands.UpdateToolVersionsFile`: when no manifest exists, the code still reads one if `os.Stat` fails with an error other than "does not exist", and that read fails; the model has no such Stat error.
- `SelfUpdate.ExtractArchive`: every I/O failure of extraction is one step, `ExtractStep`, reported as `ArchiveReadFailed`. In the tar path that covers `MkdirAll`, `os.Open`, the gzip header, `tr.Next`, `os.Create` and `io.Copy`; in the zip path `zip.OpenReader`, `f.Open`, `os.Create` and `io.Copy`. In the code such a failure can come before or after the binary entry is reached; the model lets it win over "no binary", and the error text is not modelled.
- Plugin files: errors reading or decoding them are not modelled. TOML decoding and the embedded builtin files are out of scope; descriptors arrive decoded.
- Scanner line limit: `bufio.Scanner`'s 64 KiB line limit and read errors are not modelled.
- Printing: all printing, colours, progress output and the doctor's message texts are left out, as are errors from `Fprintf` while writing a manifest.
- Error wrapping: messages are not modelled; each failure is an `Error` value naming its cause.
- Network: HTTP requests, status codes and JSON decoding are not modelled. In `ListRemote` an unreachable server and a non-200 status both become `FetchFailed`, and the decoded body is a parameter.
- Downloads: the temporary file and the bytes written are not modelled; a download fails or succeeds by URL.
- Archives: byte copying, permission bits and the entry handling of `extractZip` in internal/version/manager.go are not modelled (the self-update zip reader's directory skip is modelled by `SelfUpdate.IsBinary`). A `tar.xz` archive goes to the gzip reader, as in the code, and is not decompressed.
- Post-install commands: `runPostInstall` only prints a notice and always succeeds, and is modelled that way.
- Parameters: the home directory, the working directory, `PATH`, `GOOS`/`GOARCH`, the set of existing directories, the running executable's resolved path and the fetched release are passed in; the environment lookups that produce them are not modelled.
- `SelfUpdate.Files.Swap`: the chmod after the copy is a step that succeeds or fails; permission bits are not tracked.
- `SelfUpdate.FindAsset`: a matching asset with an empty download URL counts as "not found", as it does in the code.
- Concurrency and the locking of progress output are out of scope.
- Go map iteration order is not fixed: loops over maps record the order in a ghost sequence rather than computing a particular one.
