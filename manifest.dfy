/**
 * The `.toolversions` manifest (internal/version/toolversions.go and the
 * lenient reader of internal/cli/use.go): one "tool version" pair per line,
 * blank lines and "#" comments ignored, the last line for a tool winning.
 */
module Manifest {
  import opened Wrappers
  import opened Failures
  import opened Text
  import Config

  type Tools = map<string, string>

  /** What one manifest line means once trimmed; a malformed line keeps its trimmed text. */
  datatype LineKind = Skip | Entry(tool: string, version: string) | Malformed(text: string)

  function Classify(raw: string): (k: LineKind)
    ensures k.Entry? ==> Fields(TrimSpace(raw)) == [k.tool, k.version]
    ensures k.Malformed? ==> k.text == TrimSpace(raw) && |Fields(k.text)| != 2
  {
    var line := TrimSpace(raw);
    if line == "" || HasPrefix(line, "#") then Skip
    else
      var parts := Fields(line);
      if |parts| != 2 then Malformed(line) else Entry(parts[0], parts[1])
  }

  /** An entry line names a tool and a version that can be written back: tokens, the tool not starting with "#". */
  lemma EntryIsWritable(raw: string)
    requires Classify(raw).Entry?
    ensures Token(Classify(raw).tool) && Token(Classify(raw).version) && Classify(raw).tool[0] != '#'
  {
    var k := Classify(raw);
    var line := TrimSpace(raw);
    ClassifiedEntryShape(raw);
    TrimSpaceShape(raw);
    FirstFieldNotHash(line);
    assert k.tool == Fields(line)[0];
  }

  /** A trimmed line that is not a comment does not start its first field with "#". */
  lemma FirstFieldNotHash(line: string)
    requires line != "" && !HasPrefix(line, "#") && !IsSpace(line[0])
    ensures Fields(line) != [] && Fields(line)[0][0] != '#'
  {
    FieldsFirst(line);
    NoHashPrefix(line);
  }

  lemma NoHashPrefix(line: string)
    requires line != "" && !HasPrefix(line, "#")
    ensures line[0] != '#'
  {
    assert line[..1] == [line[0]];
  }

  lemma ClassifiedEntryShape(raw: string)
    requires Classify(raw).Entry?
    ensures var line := TrimSpace(raw);
      line != "" && !HasPrefix(line, "#") && Fields(line) == [Classify(raw).tool, Classify(raw).version]
  {
  }

  /** Every line classified. */
  function Classified(lines: seq<string>): (ks: seq<LineKind>)
    ensures |ks| == |lines|
  {
    if lines == [] then [] else [Classify(lines[0])] + Classified(lines[1..])
  }

  lemma {:induction false} ClassifiedAt(lines: seq<string>, i: nat)
    requires i < |lines|
    ensures Classified(lines)[i] == Classify(lines[i])
  {
    if i > 0 {
      ClassifiedAt(lines[1..], i - 1);
    }
  }

  predicate IsEntryFor(k: LineKind, tool: string) {
    k.Entry? && k.tool == tool
  }

  // ---------------------------------------------------------------- the strict parser

  /**
   * parseToolVersionsFile from line index `i` on, with the entries read so far
   * in `acc`; the error carries the file, the 1-based line number and the text.
   */
  function ParseFrom(file: Path, ks: seq<LineKind>, i: nat, acc: Tools): Result<Tools, Error>
    requires i <= |ks|
    decreases |ks| - i
  {
    if i == |ks| then Ok(acc) else
      match ks[i]
      case Skip => ParseFrom(file, ks, i + 1, acc)
      case Malformed(text) => Err(ManifestParse(file, i + 1, text))
      case Entry(t, v) => ParseFrom(file, ks, i + 1, acc[t := v])
  }

  function ParseLines(file: Path, lines: seq<string>): Result<Tools, Error> {
    ParseFrom(file, Classified(lines), 0, map[])
  }

  /** parseToolVersionsFile, over the file's text: scan the lines and fill the map. */
  method ParseToolVersions(file: Path, content: string) returns (r: Result<Tools, Error>)
    ensures r == ParseLines(file, ScanLines(content))
  {
    var lines := ScanLines(content);
    ghost var ks := Classified(lines);
    var tools: Tools := map[];
    var lineNum := 0;
    while lineNum < |lines|
      invariant 0 <= lineNum <= |lines|
      invariant ParseFrom(file, ks, lineNum, tools) == ParseFrom(file, ks, 0, map[])
    {
      ClassifiedAt(lines, lineNum);
      var kind := Classify(lines[lineNum]);
      lineNum := lineNum + 1;
      match kind {
        case Skip =>
        case Malformed(line) => return Err(ManifestParse(file, lineNum, line));
        case Entry(tool, version) => tools := tools[tool := version];
      }
    }
    r := Ok(tools);
  }

  /** The index of the last entry line for `tool` at or after `i`, or -1. */
  function LastEntryFor(ks: seq<LineKind>, i: nat, tool: string): (k: int)
    requires i <= |ks|
    ensures k == -1 || (i <= k < |ks| && IsEntryFor(ks[k], tool))
    ensures forall j :: i <= j < |ks| && k < j ==> !IsEntryFor(ks[j], tool)
    decreases |ks| - i
  {
    if i == |ks| then -1 else
      var later := LastEntryFor(ks, i + 1, tool);
      if later == -1 && IsEntryFor(ks[i], tool) then i else later
  }

  /**
   * The strict parser succeeds exactly when no line is malformed; it then maps
   * each tool to the version on its last line, and a tool without a line keeps
   * what it had before (so, from an empty map, is absent).
   */
  lemma {:induction false} ParseFromMeaning(file: Path, ks: seq<LineKind>, i: nat, acc: Tools, tool: string)
    requires i <= |ks|
    ensures ParseFrom(file, ks, i, acc).Ok? <==> forall j :: i <= j < |ks| ==> !ks[j].Malformed?
    ensures var r := ParseFrom(file, ks, i, acc); var k := LastEntryFor(ks, i, tool);
      r.Ok? ==>
        && (k >= 0 ==> tool in r.value && r.value[tool] == ks[k].version)
        && (k < 0 ==> (tool in r.value <==> tool in acc) && (tool in acc ==> r.value[tool] == acc[tool]))
    decreases |ks| - i
  {
    if i < |ks| {
      match ks[i]
      case Skip => ParseFromMeaning(file, ks, i + 1, acc, tool);
      case Malformed(_) =>
      case Entry(t, v) => ParseFromMeaning(file, ks, i + 1, acc[t := v], tool);
    }
  }

  /** A parse error names the first malformed line, counting lines from 1, with its trimmed text. */
  lemma {:induction false} ParseErrorIsFirstMalformed(file: Path, ks: seq<LineKind>, i: nat, acc: Tools)
    requires i <= |ks|
    requires ParseFrom(file, ks, i, acc).Err?
    ensures var e := ParseFrom(file, ks, i, acc).error;
      && e.ManifestParse? && e.file == file && i < e.line <= |ks|
      && ks[e.line - 1] == Malformed(e.text)
      && forall j :: i <= j < e.line - 1 ==> !ks[j].Malformed?
    decreases |ks| - i
  {
    match ks[i]
    case Skip => ParseErrorIsFirstMalformed(file, ks, i + 1, acc);
    case Malformed(_) =>
    case Entry(t, v) => ParseErrorIsFirstMalformed(file, ks, i + 1, acc[t := v]);
  }

  // ---------------------------------------------------------------- the lenient reader of `use --local`

  /** readToolVersionsSimple's loop from line `i`: malformed lines are dropped instead of rejected. */
  function LenientFrom(ks: seq<LineKind>, i: nat, acc: Tools): Tools
    requires i <= |ks|
    decreases |ks| - i
  {
    if i == |ks| then acc else
      match ks[i]
      case Entry(t, v) => LenientFrom(ks, i + 1, acc[t := v])
      case _ => LenientFrom(ks, i + 1, acc)
  }

  function ReadLenient(content: string): Tools {
    LenientFrom(Classified(Split(content, '\n')), 0, map[])
  }

  /** readToolVersionsSimple: split the text at "\n" and keep the well-formed entries. */
  method ReadToolVersionsSimple(content: string) returns (tools: Tools)
    ensures tools == ReadLenient(content)
  {
    var lines := Split(content, '\n');
    ghost var ks := Classified(lines);
    tools := map[];
    for i := 0 to |lines|
      invariant LenientFrom(ks, i, tools) == LenientFrom(ks, 0, map[])
    {
      ClassifiedAt(lines, i);
      match Classify(lines[i]) {
        case Entry(tool, version) => tools := tools[tool := version];
        case _ =>
      }
    }
  }

  /** Where the strict parser accepts the lines, the lenient reader reads the same map. */
  lemma {:induction false} LenientAgreesWithStrict(file: Path, ks: seq<LineKind>, i: nat, acc: Tools)
    requires i <= |ks|
    requires ParseFrom(file, ks, i, acc).Ok?
    ensures LenientFrom(ks, i, acc) == ParseFrom(file, ks, i, acc).value
    decreases |ks| - i
  {
    if i < |ks| {
      match ks[i]
      case Skip => LenientAgreesWithStrict(file, ks, i + 1, acc);
      case Malformed(_) =>
      case Entry(t, v) => LenientAgreesWithStrict(file, ks, i + 1, acc[t := v]);
    }
  }

  /** Reading `pre + post` is reading `pre`, then reading `post` on top of it. */
  lemma {:induction false} LenientShift(pre: seq<LineKind>, post: seq<LineKind>, i: nat, acc: Tools)
    requires i <= |pre|
    ensures LenientFrom(pre + post, i, acc) == LenientFrom(post, 0, LenientFrom(pre, i, acc))
    decreases |pre| - i
  {
    if i == |pre| {
      LenientDrop(pre, post, 0, acc);
    } else {
      assert (pre + post)[i] == pre[i];
      match pre[i]
      case Entry(t, v) => LenientShift(pre, post, i + 1, acc[t := v]);
      case _ => LenientShift(pre, post, i + 1, acc);
    }
  }

  lemma {:induction false} LenientDrop(pre: seq<LineKind>, post: seq<LineKind>, j: nat, acc: Tools)
    requires j <= |post|
    ensures LenientFrom(pre + post, |pre| + j, acc) == LenientFrom(post, j, acc)
    decreases |post| - j
  {
    if j < |post| {
      assert (pre + post)[|pre| + j] == post[j];
      match post[j]
      case Entry(t, v) => LenientDrop(pre, post, j + 1, acc[t := v]);
      case _ => LenientDrop(pre, post, j + 1, acc);
    }
  }

  /** The lenient reader never fails, and a malformed line changes nothing it reads. */
  lemma LenientSkipsMalformed(pre: seq<LineKind>, text: string, post: seq<LineKind>, acc: Tools)
    ensures LenientFrom(pre + [Malformed(text)] + post, 0, acc) == LenientFrom(pre + post, 0, acc)
  {
    var mid := LenientFrom(pre, 0, acc);
    assert pre + [Malformed(text)] + post == pre + ([Malformed(text)] + post);
    LenientShift(pre, [Malformed(text)] + post, 0, acc);
    LenientShift(pre, post, 0, acc);
    LenientDrop([Malformed(text)], post, 0, mid);
  }

  // ---------------------------------------------------------------- writing

  /** A name that survives a write/parse round trip: non-empty, no white space. */
  predicate Token(s: string) {
    s != [] && NoSpace(s)
  }

  /** The manifest's tools can be written and read back: tokens, and no tool starting with "#". */
  predicate Writable(tools: Tools) {
    forall t :: t in tools ==> Token(t) && Token(tools[t]) && t[0] != '#'
  }

  /** The entries of `tools` for the tools in `keys`. */
  function Pick(tools: Tools, keys: set<string>): Tools
    requires keys <= tools.Keys
  {
    map t | t in keys :: tools[t]
  }

  /** The "tool version" lines for `order`. */
  function EntryLines(tools: Tools, order: seq<string>): (ls: seq<string>)
    requires forall i :: 0 <= i < |order| ==> order[i] in tools
    ensures |ls| == |order|
  {
    if order == [] then [] else [order[0] + " " + tools[order[0]]] + EntryLines(tools, order[1..])
  }

  /** One "tool version\n" line per tool, in map iteration order; `order` records that order. */
  method RenderManifest(tools: Tools) returns (text: string, ghost order: seq<string>)
    ensures Elems(order) == tools.Keys && |order| == |tools|
    ensures text == JoinLines(EntryLines(tools, order))
  {
    text := "";
    order := [];
    var rest := tools.Keys;
    while rest != {}
      invariant Visiting(tools.Keys, order, rest)
      invariant text == JoinLines(EntryLines(tools, order))
      decreases |rest|
    {
      var tool :| tool in rest;
      var line := tool + " " + tools[tool];
      EntryLinesAppend(tools, order, tool);
      JoinLinesAppend(EntryLines(tools, order), line);
      VisitNext(tools.Keys, order, rest, tool);
      text := text + line + "\n";
      order := order + [tool];
      rest := rest - {tool};
    }
    assert |tools.Keys| == |tools|;
  }

  lemma {:induction false} EntryLinesAppend(tools: Tools, order: seq<string>, t: string)
    requires forall i :: 0 <= i < |order| ==> order[i] in tools
    requires t in tools
    ensures EntryLines(tools, order + [t]) == EntryLines(tools, order) + [t + " " + tools[t]]
  {
    if order != [] {
      assert (order + [t])[1..] == order[1..] + [t];
      EntryLinesAppend(tools, order[1..], t);
    }
  }

  lemma {:induction false} JoinLinesAppend(ls: seq<string>, l: string)
    ensures JoinLines(ls + [l]) == JoinLines(ls) + l + "\n"
  {
    if ls != [] {
      assert (ls + [l])[1..] == ls[1..] + [l];
      JoinLinesAppend(ls[1..], l);
    }
  }

  /** White space includes the line break, so a token holds no "\n" and does not end in "\r". */
  lemma TokenPlain(s: string)
    requires Token(s)
    ensures '\n' !in s && s[|s| - 1] != '\r'
  {
    forall i | 0 <= i < |s| ensures s[i] != '\n' {
      assert !IsSpace(s[i]);
    }
    assert !IsSpace(s[|s| - 1]);
  }

  /** Each written line is a plain line that classifies as its own entry. */
  lemma EntryLineClassifies(t: string, v: string)
    requires Token(t) && Token(v) && t[0] != '#'
    ensures Classify(t + " " + v) == Entry(t, v)
    ensures PlainLine(t + " " + v)
  {
    var line := t + " " + v;
    EntryLineTrimmed(t, v);
    FieldsOfPair(t, v);
    ClassifyEntry(line, t, v);
    TokenPlain(t);
    TokenPlain(v);
    PlainJoin(t, v);
  }

  lemma EntryLineTrimmed(t: string, v: string)
    requires Token(t) && Token(v) && t[0] != '#'
    ensures var line := t + " " + v; TrimSpace(line) == line && line != "" && !HasPrefix(line, "#")
  {
    var line := t + " " + v;
    assert line[0] == t[0] && line[|line| - 1] == v[|v| - 1];
    assert !IsSpace(t[0]) && !IsSpace(v[|v| - 1]);
    TrimSpaceKeeps(line);
    assert line[..1] == [t[0]];
  }

  lemma ClassifyEntry(raw: string, t: string, v: string)
    requires TrimSpace(raw) == raw && raw != "" && !HasPrefix(raw, "#")
    requires Fields(raw) == [t, v]
    ensures Classify(raw) == Entry(t, v)
  {
  }

  lemma PlainJoin(t: string, v: string)
    requires '\n' !in t && '\n' !in v && v != [] && v[|v| - 1] != '\r'
    ensures PlainLine(t + " " + v)
  {
    var line := t + " " + v;
    assert line[|line| - 1] == v[|v| - 1];
    forall i | 0 <= i < |line| ensures line[i] != '\n' {
      if i < |t| {
        assert line[i] == t[i];
      } else if i > |t| {
        assert line[i] == v[i - |t| - 1];
      }
    }
  }

  /** The classified form of the entry lines. */
  function EntryKinds(tools: Tools, order: seq<string>): (ks: seq<LineKind>)
    requires forall i :: 0 <= i < |order| ==> order[i] in tools
    ensures |ks| == |order|
  {
    if order == [] then [] else [Entry(order[0], tools[order[0]])] + EntryKinds(tools, order[1..])
  }

  lemma {:induction false} EntryLinesClassified(tools: Tools, order: seq<string>)
    requires Writable(tools)
    requires forall i :: 0 <= i < |order| ==> order[i] in tools
    ensures var ls := EntryLines(tools, order);
      && (forall i :: 0 <= i < |ls| ==> PlainLine(ls[i]))
      && Classified(ls) == EntryKinds(tools, order)
  {
    var ls := EntryLines(tools, order);
    var ks := EntryKinds(tools, order);
    forall i | 0 <= i < |ls| ensures PlainLine(ls[i]) && Classify(ls[i]) == ks[i] {
      EntryAt(tools, order, i);
      EntryLineClassifies(order[i], tools[order[i]]);
    }
    ClassifiedAll(ls, ks);
  }

  lemma {:induction false} EntryAt(tools: Tools, order: seq<string>, i: nat)
    requires forall j :: 0 <= j < |order| ==> order[j] in tools
    requires i < |order|
    ensures |EntryKinds(tools, order)| == |order|
    ensures EntryLines(tools, order)[i] == order[i] + " " + tools[order[i]]
    ensures EntryKinds(tools, order)[i] == Entry(order[i], tools[order[i]])
  {
    if i > 0 {
      EntryAt(tools, order[1..], i - 1);
    } else if |order| > 1 {
      EntryAt(tools, order[1..], 0);
    }
  }

  lemma {:induction false} ClassifiedAll(ls: seq<string>, ks: seq<LineKind>)
    requires |ls| == |ks|
    requires forall i :: 0 <= i < |ls| ==> Classify(ls[i]) == ks[i]
    ensures Classified(ls) == ks
  {
    if ls != [] {
      ClassifiedAll(ls[1..], ks[1..]);
    }
  }

  lemma ClassifiedCons(l: string, rest: seq<string>)
    ensures Classified([l] + rest) == [Classify(l)] + Classified(rest)
  {
    assert ([l] + rest)[1..] == rest;
  }

  lemma {:induction false} ParseFromDrop(file: Path, pre: seq<LineKind>, post: seq<LineKind>, j: nat, acc: Tools)
    requires j <= |post|
    ensures ParseFrom(file, pre + post, |pre| + j, acc).Ok? == ParseFrom(file, post, j, acc).Ok?
    ensures ParseFrom(file, pre + post, |pre| + j, acc).Ok? ==>
      ParseFrom(file, pre + post, |pre| + j, acc).value == ParseFrom(file, post, j, acc).value
    decreases |post| - j
  {
    if j < |post| {
      assert (pre + post)[|pre| + j] == post[j];
      match post[j]
      case Skip => ParseFromDrop(file, pre, post, j + 1, acc);
      case Malformed(_) =>
      case Entry(t, v) => ParseFromDrop(file, pre, post, j + 1, acc[t := v]);
    }
  }

  /** Parsing the entries of distinct tools on top of `acc` adds exactly those tools. */
  lemma {:induction false} ParseEntryKinds(file: Path, tools: Tools, order: seq<string>, acc: Tools)
    requires forall i :: 0 <= i < |order| ==> order[i] in tools
    ensures ParseFrom(file, EntryKinds(tools, order), 0, acc) == Ok(acc + Pick(tools, Elems(order)))
  {
    if order == [] {
      assert acc + Pick(tools, Elems(order)) == acc;
    } else {
      var t := order[0];
      var ks := EntryKinds(tools, order);
      ParseEntryKinds(file, tools, order[1..], acc[t := tools[t]]);
      assert ks == [Entry(t, tools[t])] + EntryKinds(tools, order[1..]);
      ParseFromDrop(file, [Entry(t, tools[t])], EntryKinds(tools, order[1..]), 0, acc[t := tools[t]]);
      PickStep(tools, order, acc);
    }
  }

  lemma PickStep(tools: Tools, order: seq<string>, acc: Tools)
    requires order != [] && forall i :: 0 <= i < |order| ==> order[i] in tools
    ensures acc[order[0] := tools[order[0]]] + Pick(tools, Elems(order[1..])) == acc + Pick(tools, Elems(order))
  {
    assert order == [order[0]] + order[1..];
    assert Elems(order) == {order[0]} + Elems(order[1..]);
  }

  /**
   * Round trip: whatever order the tools were written in, parsing the written
   * text yields the original map.
   */
  lemma RenderParseRoundTrip(file: Path, tools: Tools, order: seq<string>)
    requires Writable(tools)
    requires Elems(order) == tools.Keys
    ensures ParseLines(file, ScanLines(JoinLines(EntryLines(tools, order)))) == Ok(tools)
  {
    assert forall i :: 0 <= i < |order| ==> order[i] in Elems(order);
    var ls := EntryLines(tools, order);
    EntryLinesClassified(tools, order);
    ScanJoined(ls);
    ParseEntryKinds(file, tools, order, map[]);
    PickAll(tools, order);
  }

  lemma PickAll(tools: Tools, order: seq<string>)
    requires Elems(order) == tools.Keys
    ensures map[] + Pick(tools, Elems(order)) == tools
  {
  }

  /** Every entry among the classified lines is writable. */
  predicate EntriesWritable(ks: seq<LineKind>) {
    forall i :: 0 <= i < |ks| && ks[i].Entry? ==> Token(ks[i].tool) && Token(ks[i].version) && ks[i].tool[0] != '#'
  }

  lemma ClassifiedWritable(lines: seq<string>)
    ensures EntriesWritable(Classified(lines))
  {
    forall i | 0 <= i < |lines| && Classified(lines)[i].Entry?
      ensures Token(Classified(lines)[i].tool) && Token(Classified(lines)[i].version) && Classified(lines)[i].tool[0] != '#'
    {
      ClassifiedAt(lines, i);
      EntryIsWritable(lines[i]);
    }
  }

  /** The lenient reader only ever reads a manifest that can be written back unchanged. */
  lemma {:induction false} LenientWritable(ks: seq<LineKind>, i: nat, acc: Tools)
    requires i <= |ks|
    requires EntriesWritable(ks) && Writable(acc)
    ensures Writable(LenientFrom(ks, i, acc))
    decreases |ks| - i
  {
    if i < |ks| {
      match ks[i]
      case Entry(t, v) => LenientWritable(ks, i + 1, acc[t := v]);
      case _ => LenientWritable(ks, i + 1, acc);
    }
  }

  /** Whatever text it reads, the lenient reader returns a writable manifest. */
  lemma ReadLenientWritable(content: string)
    ensures Writable(ReadLenient(content))
  {
    ClassifiedWritable(Split(content, '\n'));
    LenientWritable(Classified(Split(content, '\n')), 0, map[]);
  }

  /** The lenient reader, too, reads back exactly what was written. */
  lemma RenderReadLenient(tools: Tools, order: seq<string>)
    requires Writable(tools)
    requires Elems(order) == tools.Keys
    ensures ReadLenient(JoinLines(EntryLines(tools, order))) == tools
  {
    assert forall i :: 0 <= i < |order| ==> order[i] in Elems(order);
    var ls := EntryLines(tools, order);
    var ks := EntryKinds(tools, order);
    EntryLinesClassified(tools, order);
    SplitJoined(ls);
    ClassifiedTrailingBlank(ls);
    LenientSkipTail(ks, map[]);
    ParseEntryKinds([], tools, order, map[]);
    LenientAgreesWithStrict([], ks, 0, map[]);
    PickAll(tools, order);
  }

  lemma ClassifiedTrailingBlank(ls: seq<string>)
    ensures Classified(ls + [""]) == Classified(ls) + [Skip]
  {
    ClassifiedConcat(ls, [""]);
    assert Classify("") == Skip;
    ClassifiedCons("", []);
  }

  lemma LenientSkipTail(ks: seq<LineKind>, acc: Tools)
    ensures LenientFrom(ks + [Skip], 0, acc) == LenientFrom(ks, 0, acc)
  {
    LenientShift(ks, [Skip], 0, acc);
  }

  lemma {:induction false} ClassifiedConcat(a: seq<string>, b: seq<string>)
    ensures Classified(a + b) == Classified(a) + Classified(b)
  {
    if a != [] {
      var h := a[0];
      assert a + b == [h] + (a[1..] + b);
      ClassifiedCons(h, a[1..] + b);
      assert a == [h] + a[1..];
      ClassifiedCons(h, a[1..]);
      ClassifiedConcat(a[1..], b);
    } else {
      assert a + b == b;
    }
  }

  // ---------------------------------------------------------------- search, read and write

  /** The nearest of `dir` and its ancestors that holds a manifest. */
  function Nearest(present: set<Path>, dir: Path): (r: Option<Path>)
    ensures r.Some? ==> r.value in present && |r.value| <= |dir| && r.value == dir[..|r.value|]
    decreases |dir|
  {
    if dir in present then Some(dir)
    else if dir == [] then None
    else Nearest(present, dir[..|dir| - 1])
  }

  /**
   * `Nearest` finds the longest prefix of `dir` (the deepest ancestor,
   * `dir` itself included) that holds a manifest, and finds nothing only
   * when no ancestor up to the root holds one.
   */
  lemma {:induction false} NearestMeaning(present: set<Path>, dir: Path)
    ensures Nearest(present, dir).Some? ==>
      exists k :: 0 <= k <= |dir| && Nearest(present, dir).value == dir[..k] && dir[..k] in present
        && forall j :: k < j <= |dir| ==> dir[..j] !in present
    ensures Nearest(present, dir).None? <==> forall j :: 0 <= j <= |dir| ==> dir[..j] !in present
    decreases |dir|
  {
    if dir in present {
      assert dir[..|dir|] == dir;
    } else if dir == [] {
      assert dir[..0] == dir;
    } else {
      var up := dir[..|dir| - 1];
      NearestMeaning(present, up);
      assert forall j :: 0 <= j <= |up| ==> up[..j] == dir[..j];
      assert dir[..|dir|] == dir;
      if Nearest(present, up).Some? {
        var k :| 0 <= k <= |up| && Nearest(present, up).value == up[..k] && up[..k] in present
          && forall j :: k < j <= |up| ==> up[..j] !in present;
        assert dir[..k] == up[..k];
      }
    }
  }

  /** The manifest file in `dir`. */
  function ManifestIn(dir: Path): Path {
    dir + [Config.ToolVersionFile]
  }

  /**
   * findToolVersionsFile, with filepath.Abs done by the caller: look for the
   * manifest in `dir`, then in each parent up to the root. `present` holds the
   * directories that contain a manifest.
   */
  method FindToolVersionsFile(present: set<Path>, dir: Path) returns (r: Result<Path, Error>)
    ensures Nearest(present, dir).Some? ==> r == Ok(ManifestIn(Nearest(present, dir).value))
    ensures Nearest(present, dir).None? ==> r == Err(ManifestNotFound(dir))
  {
    var absDir := dir;
    while true
      invariant |absDir| <= |dir|
      invariant Nearest(present, absDir) == Nearest(present, dir)
      decreases |absDir|
    {
      if absDir in present {
        return Ok(ManifestIn(absDir));
      }
      if absDir == [] {
        break;
      }
      absDir := absDir[..|absDir| - 1];
    }
    r := Err(ManifestNotFound(dir));
  }

  /** The outcome of ReadToolVersions: the nearest manifest's tools and file, or the error. */
  function ReadSpec(manifests: map<Path, string>, dir: Path): Result<(Tools, Path), Error> {
    match Nearest(manifests.Keys, dir)
    case None => Err(ManifestNotFound(dir))
    case Some(d) =>
      match ParseLines(ManifestIn(d), ScanLines(manifests[d]))
      case Ok(tools) => Ok((tools, ManifestIn(d)))
      case Err(e) => Err(e)
  }

  /**
   * ReadToolVersions: the nearest manifest, parsed. `manifests` maps each
   * directory holding a manifest to the manifest's text.
   */
  method ReadToolVersions(manifests: map<Path, string>, dir: Path) returns (r: Result<(Tools, Path), Error>)
    ensures r == ReadSpec(manifests, dir)
  {
    var path := FindToolVersionsFile(manifests.Keys, dir);
    if path.Err? {
      return Err(path.error);
    }
    var d := Nearest(manifests.Keys, dir).value;
    var tv := ParseToolVersions(path.value, manifests[d]);
    if tv.Err? {
      return Err(tv.error);
    }
    r := Ok((tv.value, path.value));
  }

  /**
   * WriteToolVersions: create (or truncate) the manifest in `dir` and write
   * one line per tool. `createOk` says whether the file can be created; the
   * result is the new text of the file, whose lines, in some order, are the
   * tools' "tool version" lines, one per tool.
   */
  method WriteToolVersions(dir: Path, tools: Tools, createOk: bool) returns (r: Result<string, Error>)
    ensures !createOk <==> r.Err?
    ensures r.Err? ==> r.error == ManifestWriteFailed(ManifestIn(dir))
    ensures r.Ok? ==> exists order :: Elems(order) == tools.Keys && |order| == |tools| && r.value == JoinLines(EntryLines(tools, order))
  {
    if !createOk {
      return Err(ManifestWriteFailed(ManifestIn(dir)));
    }
    var text, order := RenderManifest(tools);
    r := Ok(text);
  }

  /** What is written is read back as the same manifest, whatever the iteration order. */
  lemma WriteThenRead(dir: Path, tools: Tools, text: string)
    requires Writable(tools)
    requires exists order :: Elems(order) == tools.Keys && text == JoinLines(EntryLines(tools, order))
    ensures ParseLines(ManifestIn(dir), ScanLines(text)) == Ok(tools)
  {
    var order :| Elems(order) == tools.Keys && text == JoinLines(EntryLines(tools, order));
    RenderParseRoundTrip(ManifestIn(dir), tools, order);
  }
}
