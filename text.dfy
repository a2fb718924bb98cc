/**
 * The pieces of Go's `strings`, `bufio` (line scanning), `path/filepath`
 * (Base) and `sort.Strings` that the modelled code relies on, over Dafny
 * strings. Go works on UTF-8 bytes; comparing characters by code point gives
 * the same order as comparing their UTF-8 encodings byte by byte.
 */
module Text {

  /** Go's unicode.IsSpace: the Latin-1 spaces and the other White_Space code points. */
  predicate IsSpace(c: char) {
    || c == ' ' || c == '\t' || c == '\n' || c == '\r' || c == '\U{000B}' || c == '\U{000C}'
    || c == '\U{0085}' || c == '\U{00A0}' || c == '\U{1680}'
    || ('\U{2000}' <= c <= '\U{200A}')
    || c == '\U{2028}' || c == '\U{2029}' || c == '\U{202F}' || c == '\U{205F}' || c == '\U{3000}'
  }

  predicate NoSpace(s: string) {
    forall i :: 0 <= i < |s| ==> !IsSpace(s[i])
  }

  predicate AllSpace(s: string) {
    forall i :: 0 <= i < |s| ==> IsSpace(s[i])
  }

  // ---------------------------------------------------------------- trimming

  /** Drops the leading white space. */
  function TrimLeft(s: string): (r: string)
    ensures |r| <= |s| && r == s[|s| - |r|..]
    ensures AllSpace(s[..|s| - |r|])
    ensures r == [] || !IsSpace(r[0])
  {
    if s != [] && IsSpace(s[0]) then TrimLeft(s[1..]) else s
  }

  /** Drops the trailing white space. */
  function TrimRight(s: string): (r: string)
    ensures |r| <= |s| && r == s[..|r|]
    ensures AllSpace(s[|r|..])
    ensures r == [] || !IsSpace(r[|r| - 1])
  {
    if s != [] && IsSpace(s[|s| - 1]) then TrimRight(s[..|s| - 1]) else s
  }

  /** strings.TrimSpace */
  function TrimSpace(s: string): string {
    TrimRight(TrimLeft(s))
  }

  /** A string that neither starts nor ends with white space is its own trim. */
  lemma TrimSpaceKeeps(s: string)
    requires s != [] && !IsSpace(s[0]) && !IsSpace(s[|s| - 1])
    ensures TrimSpace(s) == s
  {
  }

  /** Trimming leaves no white space at either end, and removes only white space. */
  lemma TrimSpaceShape(s: string)
    ensures var t := TrimSpace(s);
      && (t == [] || (!IsSpace(t[0]) && !IsSpace(t[|t| - 1])))
      && (t == [] <==> AllSpace(s))
  {
    var l := TrimLeft(s);
    var t := TrimRight(l);
    if t == [] {
      assert s[..|s| - |l|] == s;
    } else {
      assert t[0] == l[0];
      assert s[|s| - |l|] == l[0];
    }
  }

  // ---------------------------------------------------------------- fields

  /** The longest prefix of `s` without white space. */
  function Word(s: string): (w: string)
    ensures |w| <= |s| && w == s[..|w|] && NoSpace(w)
    ensures |w| < |s| ==> IsSpace(s[|w|])
    ensures s != [] && !IsSpace(s[0]) ==> w != []
  {
    if s == [] || IsSpace(s[0]) then [] else [s[0]] + Word(s[1..])
  }

  /** strings.Fields: the maximal runs of non-space characters, in order. */
  function Fields(s: string): (r: seq<string>)
    ensures forall i :: 0 <= i < |r| ==> r[i] != [] && NoSpace(r[i])
    decreases |s|
  {
    var t := TrimLeft(s);
    if t == [] then [] else
      var w := Word(t);
      var ws := Fields(t[|w|..]);
      ConsFields(w, ws);
      [w] + ws
  }

  lemma ConsFields(w: string, ws: seq<string>)
    requires w != [] && NoSpace(w)
    requires forall i :: 0 <= i < |ws| ==> ws[i] != [] && NoSpace(ws[i])
    ensures forall i :: 0 <= i < |[w] + ws| ==> ([w] + ws)[i] != [] && NoSpace(([w] + ws)[i])
  {
    forall i | 0 <= i < |[w] + ws| ensures ([w] + ws)[i] != [] && NoSpace(([w] + ws)[i]) {
      if i > 0 {
        assert ([w] + ws)[i] == ws[i - 1];
      }
    }
  }

  lemma {:induction false} WordOf(w: string, rest: string)
    requires NoSpace(w)
    requires rest == [] || IsSpace(rest[0])
    ensures Word(w + rest) == w
  {
    if w != [] {
      assert (w + rest)[1..] == w[1..] + rest;
      WordOf(w[1..], rest);
    }
  }

  lemma {:induction false} TrimLeftOf(pre: string, s: string)
    requires AllSpace(pre)
    requires s == [] || !IsSpace(s[0])
    ensures TrimLeft(pre + s) == s
    decreases |pre|
  {
    if pre != [] {
      assert (pre + s)[1..] == pre[1..] + s;
      TrimLeftOf(pre[1..], s);
    }
  }

  /** A string that starts with a non-space character starts its first field. */
  lemma FieldsFirst(s: string)
    requires s != [] && !IsSpace(s[0])
    ensures Fields(s) != [] && Fields(s)[0][0] == s[0]
  {
    TrimLeftOf([], s);
    assert [] + s == s;
  }

  lemma FieldsOfWord(v: string)
    requires v != [] && NoSpace(v)
    ensures Fields(v) == [v]
  {
    WordOf(v, []);
    assert v + [] == v;
    assert v[|v|..] == [];
  }

  lemma FieldsAfterSpace(v: string)
    requires v != [] && NoSpace(v)
    ensures Fields(" " + v) == [v]
  {
    TrimLeftOf(" ", v);
    FieldsOfWord(v);
  }

  /** A string made of two space-free words with one separator splits into exactly those two fields. */
  lemma FieldsOfPair(k: string, v: string)
    requires k != [] && v != [] && NoSpace(k) && NoSpace(v)
    ensures Fields(k + " " + v) == [k, v]
  {
    var rest := " " + v;
    assert k + " " + v == k + rest;
    FieldsCons(k, rest);
    FieldsAfterSpace(v);
  }

  /** A leading word ended by white space (or by the end) is the first field. */
  lemma FieldsCons(w: string, rest: string)
    requires w != [] && NoSpace(w)
    requires rest == [] || IsSpace(rest[0])
    ensures Fields(w + rest) == [w] + Fields(rest)
  {
    var s := w + rest;
    assert s[0] == w[0];
    TrimLeftOf([], s);
    assert [] + s == s;
    WordOf(w, rest);
    assert s[|w|..] == rest;
  }

  // ---------------------------------------------------------------- prefixes and substrings

  predicate HasPrefix(s: string, p: string) {
    |p| <= |s| && s[..|p|] == p
  }

  predicate HasSuffix(s: string, p: string) {
    |p| <= |s| && s[|s| - |p|..] == p
  }

  /** strings.TrimPrefix: drops `p` once when `s` starts with it. */
  function TrimPrefix(s: string, p: string): (r: string)
    ensures HasPrefix(s, p) ==> s == p + r
    ensures !HasPrefix(s, p) ==> r == s
  {
    if HasPrefix(s, p) then s[|p|..] else s
  }

  /** strings.Contains */
  predicate Contains(s: string, sub: string)
    decreases |s|
  {
    HasPrefix(s, sub) || (s != [] && Contains(s[1..], sub))
  }

  /** `Contains` holds exactly when `sub` occurs at some position of `s`. */
  lemma {:induction false} ContainsAt(s: string, sub: string, i: nat)
    requires i + |sub| <= |s| && s[i..i + |sub|] == sub
    ensures Contains(s, sub)
  {
    if i > 0 {
      assert s[1..][i - 1..i - 1 + |sub|] == s[i..i + |sub|];
      ContainsAt(s[1..], sub, i - 1);
    }
  }

  // ---------------------------------------------------------------- lines

  /**
   * strings.Split(s, string(sep)): the pieces between separators; always at
   * least one piece.
   */
  function Split(s: string, sep: char): (r: seq<string>)
    ensures |r| >= 1
    ensures forall i :: 0 <= i < |r| ==> sep !in r[i]
  {
    if s == [] then [""] else
      var rest := Split(s[1..], sep);
      if s[0] == sep then [""] + rest else [[s[0]] + rest[0]] + rest[1..]
  }

  lemma {:induction false} SplitAfter(a: string, sep: char, b: string)
    requires sep !in a
    ensures Split(a + [sep] + b, sep) == [a] + Split(b, sep)
  {
    if a == [] {
      assert a + [sep] + b == [sep] + b;
      assert ([sep] + b)[1..] == b;
    } else {
      assert (a + [sep] + b)[1..] == a[1..] + [sep] + b;
      SplitAfter(a[1..], sep, b);
      assert [a[0]] + a[1..] == a;
    }
  }

  /** bufio.ScanLines drops a final '\r' from each line. */
  function DropCR(line: string): string {
    if line != [] && line[|line| - 1] == '\r' then line[..|line| - 1] else line
  }

  /**
   * The lines a bufio.Scanner with ScanLines yields: the text split at '\n',
   * without the empty piece after a final '\n', each without a final '\r'.
   */
  function ScanLines(s: string): (r: seq<string>) {
    if s == [] then [] else
      var pieces := Split(s, '\n');
      var body := if s[|s| - 1] == '\n' then pieces[..|pieces| - 1] else pieces;
      seq(|body|, i requires 0 <= i < |body| => DropCR(body[i]))
  }

  /** Each line followed by '\n', as a writer printing "%s\n" per line produces. */
  function JoinLines(ls: seq<string>): string {
    if ls == [] then "" else ls[0] + "\n" + JoinLines(ls[1..])
  }

  predicate PlainLine(l: string) {
    '\n' !in l && (l == [] || l[|l| - 1] != '\r')
  }

  lemma {:induction false} SplitJoined(ls: seq<string>)
    requires forall i :: 0 <= i < |ls| ==> PlainLine(ls[i])
    ensures Split(JoinLines(ls), '\n') == ls + [""]
  {
    if ls != [] {
      SplitJoined(ls[1..]);
      assert JoinLines(ls) == ls[0] + ['\n'] + JoinLines(ls[1..]);
      SplitAfter(ls[0], '\n', JoinLines(ls[1..]));
      assert [ls[0]] + ls[1..] == ls;
    }
  }

  lemma {:induction false} JoinLinesEnd(ls: seq<string>)
    requires ls != []
    ensures JoinLines(ls) != [] && JoinLines(ls)[|JoinLines(ls)| - 1] == '\n'
  {
    if |ls| > 1 {
      JoinLinesEnd(ls[1..]);
    }
  }

  /** Scanning what JoinLines wrote gives back the lines. */
  lemma ScanJoined(ls: seq<string>)
    requires forall i :: 0 <= i < |ls| ==> PlainLine(ls[i])
    ensures ScanLines(JoinLines(ls)) == ls
  {
    if ls != [] {
      var s := JoinLines(ls);
      JoinLinesEnd(ls);
      SplitJoined(ls);
      ScanTerminated(s, ls);
    }
  }

  /** A text ending in '\n' whose pieces are the plain lines `ls` and a final empty piece scans as `ls`. */
  lemma ScanTerminated(s: string, ls: seq<string>)
    requires s != [] && s[|s| - 1] == '\n'
    requires Split(s, '\n') == ls + [""]
    requires forall i :: 0 <= i < |ls| ==> PlainLine(ls[i])
    ensures ScanLines(s) == ls
  {
    var pieces := Split(s, '\n');
    assert pieces[..|pieces| - 1] == ls;
    assert ScanLines(s) == seq(|ls|, i requires 0 <= i < |ls| => DropCR(ls[i]));
    forall i | 0 <= i < |ls| ensures DropCR(ls[i]) == ls[i] {
      assert PlainLine(ls[i]);
    }
  }

  // ---------------------------------------------------------------- file names

  /** filepath.Base on a slash-separated name: the last element, "." for "", "/" for all slashes. */
  function Base(p: string): (r: string)
    ensures r != [] && (r == "/" || '/' !in r)
  {
    if p == [] then "." else
      var t := TrimTrailing(p, '/');
      if t == [] then "/" else AfterLast(t, '/')
  }

  function TrimTrailing(s: string, c: char): (r: string)
    ensures |r| <= |s| && r == s[..|r|]
    ensures r == [] || r[|r| - 1] != c
  {
    if s != [] && s[|s| - 1] == c then TrimTrailing(s[..|s| - 1], c) else s
  }

  /** The text after the last `c`; all of `s` when it holds no `c`. */
  function AfterLast(s: string, c: char): (r: string)
    ensures c !in r && |r| <= |s| && r == s[|s| - |r|..]
    ensures |r| < |s| ==> s[|s| - |r| - 1] == c
  {
    if s == [] then [] else if s[|s| - 1] == c then [] else AfterLast(s[..|s| - 1], c) + [s[|s| - 1]]
  }

  /** The text before the first `c`, as strings.SplitN(s, c, 2)[0]; all of `s` when it holds no `c`. */
  function Before(s: string, c: char): (r: string)
    ensures c !in r && |r| <= |s| && r == s[..|r|]
    ensures |r| < |s| ==> s[|r|] == c
  {
    if s == [] || s[0] == c then [] else [s[0]] + Before(s[1..], c)
  }

  // ---------------------------------------------------------------- ordering

  /** The order of sort.Strings: lexicographic by code point, a proper prefix first. */
  predicate Less(a: string, b: string) {
    if a == [] then b != []
    else if b == [] then false
    else if a[0] != b[0] then a[0] < b[0]
    else Less(a[1..], b[1..])
  }

  lemma {:induction false} LessIrreflexive(a: string)
    ensures !Less(a, a)
  {
    if a != [] {
      LessIrreflexive(a[1..]);
    }
  }

  lemma {:induction false} LessTransitive(a: string, b: string, c: string)
    requires Less(a, b) && Less(b, c)
    ensures Less(a, c)
  {
    if a != [] && b != [] && c != [] && a[0] == b[0] && b[0] == c[0] {
      LessTransitive(a[1..], b[1..], c[1..]);
    }
  }

  lemma {:induction false} LessTotal(a: string, b: string)
    requires a != b
    ensures Less(a, b) != Less(b, a)
  {
    if a != [] && b != [] && a[0] == b[0] {
      assert a == [a[0]] + a[1..] && b == [b[0]] + b[1..];
      LessTotal(a[1..], b[1..]);
    }
  }

  function Elems(s: seq<string>): set<string> {
    set y | y in s
  }

  /**
   * A loop over the keys of a map, part way: `order` lists the keys visited
   * so far, each once, and `rest` the keys still to visit.
   */
  predicate Visiting(keys: set<string>, order: seq<string>, rest: set<string>) {
    && rest <= keys
    && Elems(order) == keys - rest
    && |order| + |rest| == |keys|
    && (forall i :: 0 <= i < |order| ==> order[i] in keys)
    && (forall i, j :: 0 <= i < j < |order| ==> order[i] != order[j])
  }

  /** Visiting one more key, whichever the loop picks. */
  lemma VisitNext(keys: set<string>, order: seq<string>, rest: set<string>, x: string)
    requires Visiting(keys, order, rest) && x in rest
    ensures Visiting(keys, order + [x], rest - {x})
  {
    assert x !in Elems(order);
    assert Elems(order + [x]) == Elems(order) + {x};
    forall i, j | 0 <= i < j < |order + [x]| ensures (order + [x])[i] != (order + [x])[j] {
      if j == |order| {
        assert order[i] in Elems(order);
      }
    }
  }

  /** Strictly ascending: sorted, and no name twice. */
  predicate Ascending(s: seq<string>) {
    forall i, j :: 0 <= i < j < |s| ==> Less(s[i], s[j])
  }

  /** Inserts `x` into an ascending sequence at its place. */
  function Insert(s: seq<string>, x: string): (r: seq<string>) {
    if s == [] then [x]
    else if Less(x, s[0]) then [x] + s
    else [s[0]] + Insert(s[1..], x)
  }

  /** Insertion keeps the sequence ascending and adds exactly `x`. */
  lemma {:induction false} InsertAscending(s: seq<string>, x: string)
    requires Ascending(s) && x !in s
    ensures Ascending(Insert(s, x))
    ensures Elems(Insert(s, x)) == Elems(s) + {x}
    ensures |Insert(s, x)| == |s| + 1
  {
    InsertElems(s, x);
    if s != [] {
      if Less(x, s[0]) {
        forall k | 0 <= k < |s| ensures Less(x, s[k]) {
          if k > 0 { LessTransitive(x, s[0], s[k]); }
        }
        ConsAscending(x, s);
      } else {
        LessTotal(x, s[0]);
        assert Ascending(s[1..]) by {
          forall i, j | 0 <= i < j < |s[1..]| ensures Less(s[1..][i], s[1..][j]) {
            assert s[1..][i] == s[i + 1] && s[1..][j] == s[j + 1];
          }
        }
        assert x !in s[1..] by {
          assert s == [s[0]] + s[1..];
        }
        InsertAscending(s[1..], x);
        var t := Insert(s[1..], x);
        forall k | 0 <= k < |t| ensures Less(s[0], t[k]) {
          assert t[k] in Elems(t);
          if t[k] != x {
            var m :| 0 <= m < |s[1..]| && s[1..][m] == t[k];
            assert s[m + 1] == t[k];
          }
        }
        ConsAscending(s[0], t);
      }
    }
  }

  /** Insertion adds exactly `x`, ascending or not. */
  lemma {:induction false} InsertElems(s: seq<string>, x: string)
    ensures Elems(Insert(s, x)) == Elems(s) + {x}
    ensures |Insert(s, x)| == |s| + 1
  {
    if s != [] {
      assert s == [s[0]] + s[1..];
      assert Elems(s) == {s[0]} + Elems(s[1..]);
      if Less(x, s[0]) {
        assert Elems([x] + s) == {x} + Elems(s);
      } else {
        InsertElems(s[1..], x);
        var t := Insert(s[1..], x);
        assert Elems([s[0]] + t) == {s[0]} + Elems(t);
      }
    }
  }

  /** A name below every element of an ascending sequence can go in front. */
  lemma ConsAscending(h: string, t: seq<string>)
    requires Ascending(t)
    requires forall k :: 0 <= k < |t| ==> Less(h, t[k])
    ensures Ascending([h] + t)
  {
    forall i, j | 0 <= i < j < |t| + 1 ensures Less(([h] + t)[i], ([h] + t)[j]) {
      assert ([h] + t)[j] == t[j - 1];
      if i > 0 {
        assert ([h] + t)[i] == t[i - 1];
      }
    }
  }

  /** sort.Strings over a set of names: the names in ascending order, each once. */
  method SortNames(names: set<string>) returns (sorted: seq<string>)
    ensures Ascending(sorted)
    ensures Elems(sorted) == names
    ensures |sorted| == |names|
  {
    sorted := [];
    var rest := names;
    while rest != {}
      invariant Ascending(sorted)
      invariant rest <= names
      invariant Elems(sorted) == names - rest
      invariant |sorted| + |rest| == |names|
      decreases |rest|
    {
      var x :| x in rest;
      assert x !in Elems(sorted);
      InsertAscending(sorted, x);
      sorted := Insert(sorted, x);
      rest := rest - {x};
    }
  }

  /** The last element of an ascending sequence is its greatest. */
  lemma AscendingLastIsGreatest(s: seq<string>, i: nat)
    requires Ascending(s) && i < |s| - 1
    ensures Less(s[i], s[|s| - 1])
  {
  }
}
