/** ContextBuilder (src/context_retrieval/context_builder.py): the code, the
    callers, callees, parent class and tests of a changed node, and the
    token-budgeted review text built from them. Reading a node's code from
    disk is modelled by a map from each readable path to its lines. */
module ContextBuilding {
  import opened Text
  import opened SemanticNodes

  /** A ContextBuilder's fields, and the files it can read: each readable
      path with its lines as `readlines()` gives them. */
  datatype Builder = Builder(nodes: seq<SemanticNode>, nodeMap: map<string, SemanticNode>,
                             repositoryPath: string, files: map<string, seq<string>>)

  /** A `{'node': …, 'code': …}` dictionary. */
  datatype Entry = Entry(node: SemanticNode, code: string)

  /** The fields of a CodeContext. */
  datatype CodeContext = CodeContext(
    changedCode: string,
    changedNode: SemanticNode,
    immediateCallers: seq<Entry>,
    immediateCallees: seq<Entry>,
    parentClass: Option<Entry>,
    relatedTests: seq<Entry>,
    fileImports: seq<string>,
    constantsUsed: seq<string>,
    allCallersCount: nat,
    testCoverage: Option<real>)

  // ----- reading code -----

  function Min(a: int, b: int): int { if a < b then a else b }
  function Max(a: int, b: int): int { if a < b then b else a }

  /** Python's `s[i:j]`: a negative bound counts from the end, and both
      bounds are clamped to the sequence. */
  function Slice<T>(s: seq<T>, i: int, j: int): (r: seq<T>)
    ensures |r| <= |s|
    ensures 0 <= i <= j <= |s| ==> r == s[i..j]
  {
    var lo := if i < 0 then Max(0, |s| + i) else Min(i, |s|);
    var hi := if j < 0 then Max(0, |s| + j) else Min(j, |s|);
    if lo < hi then s[lo..hi] else []
  }

  /** A node with `start_line` 0 slices from index -1, that is from the
      file's last line: its code is that line alone when `end_line` is past
      it, and empty otherwise. */
  lemma StartLineZero<T>(s: seq<T>, j: int)
    requires |s| > 0 && 0 <= j
    ensures Slice(s, -1, j) == if j >= |s| then [s[|s| - 1]] else []
  {
  }

  /** The path `_get_node_code` opens. */
  function PathOf(b: Builder, n: SemanticNode): string
    reads n
  {
    b.repositoryPath + "/" + n.filepath
  }

  /** What `_get_node_code` returns when the file cannot be read (the
      exception's text is not modelled). */
  const CouldNotRead: string := "# Could not read source code: "

  /** `_get_node_code(node)`: lines `start_line` to `end_line` of the file,
      concatenated. */
  function Code(b: Builder, n: SemanticNode): string
    reads n
  {
    var path := PathOf(b, n);
    if path in b.files then Join(Slice(b.files[path], n.startLine - 1, n.endLine), "") else CouldNotRead
  }

  /** Concatenating lines. */
  function Concat(ls: seq<string>): string
  {
    if ls == [] then "" else ls[0] + Concat(ls[1..])
  }

  lemma {:induction false} JoinEmptyIsConcat(ls: seq<string>)
    ensures Join(ls, "") == Concat(ls)
  {
    if |ls| > 1 {
      JoinEmptyIsConcat(ls[1..]);
      assert ls[0] + "" + Join(ls[1..], "") == ls[0] + Join(ls[1..], "");
    } else if |ls| == 1 {
      assert Concat(ls[1..]) == "";
      assert ls[0] + "" == ls[0];
    }
  }

  /** For a readable file and a node whose lines lie in it, the code is
      exactly those lines, from `start_line` to `end_line` counted from 1. */
  lemma CodeOfLines(b: Builder, n: SemanticNode)
    requires PathOf(b, n) in b.files
    requires 1 <= n.startLine <= n.endLine + 1 && n.endLine <= |b.files[PathOf(b, n)]|
    ensures Code(b, n) == Concat(b.files[PathOf(b, n)][n.startLine - 1..n.endLine])
  {
    JoinEmptyIsConcat(b.files[PathOf(b, n)][n.startLine - 1..n.endLine]);
  }

  /** `_estimate_tokens(text)`: a quarter of the length, rounded down. */
  function Tokens(text: string): (r: nat)
    ensures 4 * r <= |text| < 4 * r + 4
  {
    |text| / 4
  }

  // ----- callers and callees -----

  /** The entries for the keys of `ps` that are in node_map, in order; a
      `None` key is never in node_map. */
  function Lookup(b: Builder, ps: seq<Option<string>>): (r: seq<Entry>)
    reads b.nodeMap.Values
    ensures |r| <= |ps|
    ensures forall i :: 0 <= i < |r| ==> r[i].node in b.nodeMap.Values
  {
    if ps == [] then []
    else
      var r := Lookup(b, ps[..|ps| - 1]);
      var p := ps[|ps| - 1];
      if p.Some? && p.value in b.nodeMap then r + [Entry(b.nodeMap[p.value], Code(b, b.nodeMap[p.value]))] else r
  }

  /** The entry one key gives: the node it names with its code, or nothing
      when the key is not in node_map. */
  function LookupOne(b: Builder, p: Option<string>): seq<Entry>
    reads b.nodeMap.Values
  {
    if p.Some? && p.value in b.nodeMap then [Entry(b.nodeMap[p.value], Code(b, b.nodeMap[p.value]))] else []
  }

  /** Looking up keys one after another: the result for a list is the results
      for its keys in order, so nothing is reordered and a missing key adds
      nothing. */
  lemma {:induction false} LookupAppend(b: Builder, ps: seq<Option<string>>, qs: seq<Option<string>>)
    ensures Lookup(b, ps + qs) == Lookup(b, ps) + Lookup(b, qs)
    decreases |qs|
  {
    if qs == [] {
      assert ps + qs == ps;
    } else {
      var q0, q := qs[..|qs| - 1], qs[|qs| - 1];
      assert (ps + qs)[..|ps + qs| - 1] == ps + q0;
      LookupAppend(b, ps, q0);
      assert qs[..|qs| - 1] == q0;
    }
  }

  lemma LookupSingle(b: Builder, p: Option<string>)
    ensures Lookup(b, [p]) == LookupOne(b, p)
  {
    assert [p][..0] == [];
  }

  function Callers(b: Builder, n: SemanticNode): seq<Entry>
    reads n, b.nodeMap.Values
  {
    Lookup(b, Take(n.calledBy, 10))
  }

  function Callees(b: Builder, n: SemanticNode): seq<Entry>
    reads n, b.nodeMap.Values
  {
    Lookup(b, Keys(Take(n.calls, 10)))
  }

  /** Only the first ten `called_by` and `calls` entries are looked at: at
      most ten callers and ten callees, each a node of node_map, and a
      node with no more than ten of each gets every one that is in node_map. */
  lemma ImmediateBound(b: Builder, n: SemanticNode)
    ensures |Callers(b, n)| <= 10 && |Callees(b, n)| <= 10
    ensures Callers(b, n) == Lookup(b, n.calledBy[..Min(10, |n.calledBy|)])
    ensures Callees(b, n) == Lookup(b, Keys(n.calls[..Min(10, |n.calls|)]))
    ensures |n.calledBy| <= 10 ==> Callers(b, n) == Lookup(b, n.calledBy)
  {
  }

  /** The loop of `_get_immediate_callers` and `_get_immediate_callees`. */
  method LookupAll(b: Builder, ps: seq<Option<string>>) returns (found: seq<Entry>)
    ensures found == Lookup(b, ps)
  {
    found := [];
    for i := 0 to |ps|
      invariant found == Lookup(b, ps[..i])
    {
      assert ps[..i + 1][..i] == ps[..i];
      if ps[i].Some? && ps[i].value in b.nodeMap {
        var node := b.nodeMap[ps[i].value];
        var code := Code(b, node);
        found := found + [Entry(node, code)];
      }
    }
    assert ps[..|ps|] == ps;
  }

  /** `_get_immediate_callers(node)` */
  method GetImmediateCallers(b: Builder, node: SemanticNode) returns (callers: seq<Entry>)
    ensures callers == Callers(b, node)
  {
    callers := LookupAll(b, Take(node.calledBy, 10));
  }

  /** `_get_immediate_callees(node)` */
  method GetImmediateCallees(b: Builder, node: SemanticNode) returns (callees: seq<Entry>)
    ensures callees == Callees(b, node)
  {
    callees := LookupAll(b, Keys(Take(node.calls, 10)));
  }

  // ----- parent class -----

  /** The node_map key of a method's class. */
  function ClassKey(n: SemanticNode): string
    reads n
    requires n.parentClass.Some?
  {
    PathKey(n.filepath, n.parentClass.value)
  }

  /** `_get_parent_class(node)` */
  function ParentClass(b: Builder, n: SemanticNode): Option<Entry>
    reads n, b.nodeMap.Values
  {
    if Truthy(n.parentClass) && ClassKey(n) in b.nodeMap then
      var c := b.nodeMap[ClassKey(n)];
      Some(Entry(c, Code(b, c)))
    else None
  }

  /** There is a parent class exactly when `parent_class` is set and
      `filepath::parent_class` is a key of node_map, and it is that node. */
  lemma ParentClassSpec(b: Builder, n: SemanticNode)
    ensures ParentClass(b, n).Some? <==>
            n.parentClass.Some? && n.parentClass.value != "" && PathKey(n.filepath, n.parentClass.value) in b.nodeMap
    ensures ParentClass(b, n).Some? ==>
            ParentClass(b, n).value.node == b.nodeMap[PathKey(n.filepath, n.parentClass.value)]
  {
  }

  // ----- related tests -----

  function UpperChar(c: char): char
  {
    if 'a' <= c <= 'z' then (c as int - 'a' as int + 'A' as int) as char else c
  }

  /** `s.capitalize()` restricted to ASCII letters. */
  function Capitalize(s: string): string
  {
    if s == [] then [] else [UpperChar(s[0])] + Lower(s[1..])
  }

  /** `s.replace(c, '')` for one character. */
  function Without(s: string, c: char): (r: string)
    ensures c !in r
  {
    if s == [] then [] else (if s[0] == c then [] else [s[0]]) + Without(s[1..], c)
  }

  /** The three `test_name_patterns`. */
  function Patterns(name: string): seq<string>
  {
    ["test_" + name, "test" + Capitalize(name), Lower(Without(name, '_'))]
  }

  predicate MatchesAny(name: string, patterns: seq<string>)
  {
    exists k :: 0 <= k < |patterns| && Contains(name, patterns[k])
  }

  /** A function or method of a file whose lowercase path contains "test",
      whose lowercase name contains one of the patterns. */
  predicate IsTestFor(n: SemanticNode, patterns: seq<string>)
    reads n
  {
    n.kind.IsCallable() && Contains(Lower(n.filepath), "test") && MatchesAny(Lower(n.name), patterns)
  }

  /** The entries the loop of `_get_related_tests` appends, in node order. */
  function Matches(b: Builder, ns: seq<SemanticNode>, patterns: seq<string>): (r: seq<Entry>)
    reads set n | n in ns
    ensures |r| <= |ns|
    ensures forall i :: 0 <= i < |r| ==> r[i].node in ns
  {
    if ns == [] then []
    else
      var r := Matches(b, ns[..|ns| - 1], patterns);
      var n := ns[|ns| - 1];
      if IsTestFor(n, patterns) then r + [Entry(n, Code(b, n))] else r
  }

  /** `_get_related_tests(node)`: the first five matches. */
  function RelatedTests(b: Builder, n: SemanticNode): seq<Entry>
    reads n, set m | m in b.nodes
  {
    Take(Matches(b, b.nodes, Patterns(n.name)), 5)
  }

  /** One node of the loop: the pattern loop appends it once, at the first
      pattern that matches, and then breaks. */
  method VisitTest(b: Builder, t: SemanticNode, patterns: seq<string>, tests: seq<Entry>) returns (tests': seq<Entry>)
    ensures tests' == if IsTestFor(t, patterns) then tests + [Entry(t, Code(b, t))] else tests
  {
    tests' := tests;
    if t.kind == Function || t.kind == Method {
      if Contains(Lower(t.filepath), "test") {
        var name := Lower(t.name);
        var k := 0;
        while k < |patterns|
          invariant 0 <= k <= |patterns|
          invariant forall j :: 0 <= j < k ==> !Contains(name, patterns[j])
        {
          if Contains(name, patterns[k]) {
            var code := Code(b, t);
            tests' := tests + [Entry(t, code)];
            return;
          }
          k := k + 1;
        }
      }
    }
  }

  /** `_get_related_tests(node)` */
  method GetRelatedTests(b: Builder, node: SemanticNode) returns (tests: seq<Entry>)
    ensures tests == RelatedTests(b, node)
  {
    var patterns := Patterns(node.name);
    var all: seq<Entry> := [];
    for i := 0 to |b.nodes|
      invariant all == Matches(b, b.nodes[..i], patterns)
    {
      assert b.nodes[..i + 1][..i] == b.nodes[..i];
      all := VisitTest(b, b.nodes[i], patterns, all);
    }
    assert b.nodes[..|b.nodes|] == b.nodes;
    tests := Take(all, 5);
  }

  /** The matches are exactly the nodes that pass the test, in node order:
      each node contributes its own entry once, at its place. */
  lemma {:induction false} MatchesAppend(b: Builder, ns: seq<SemanticNode>, ms: seq<SemanticNode>, patterns: seq<string>)
    ensures Matches(b, ns + ms, patterns) == Matches(b, ns, patterns) + Matches(b, ms, patterns)
    decreases |ms|
  {
    if ms == [] {
      assert ns + ms == ns;
    } else {
      var m0 := ms[..|ms| - 1];
      assert (ns + ms)[..|ns + ms| - 1] == ns + m0;
      MatchesAppend(b, ns, m0, patterns);
    }
  }

  lemma MatchesSingle(b: Builder, n: SemanticNode, patterns: seq<string>)
    ensures Matches(b, [n], patterns) == if IsTestFor(n, patterns) then [Entry(n, Code(b, n))] else []
  {
    assert [n][..0] == [];
  }

  /** At most five tests, each a node of the list that passes the test. */
  lemma RelatedTestsSound(b: Builder, n: SemanticNode)
    ensures |RelatedTests(b, n)| <= 5
    ensures forall i :: 0 <= i < |RelatedTests(b, n)| ==>
              RelatedTests(b, n)[i].node in b.nodes && IsTestFor(RelatedTests(b, n)[i].node, Patterns(n.name))
  {
    var ms := Matches(b, b.nodes, Patterns(n.name));
    MatchesPass(b, b.nodes, Patterns(n.name));
  }

  lemma {:induction false} MatchesPass(b: Builder, ns: seq<SemanticNode>, patterns: seq<string>)
    ensures forall i :: 0 <= i < |Matches(b, ns, patterns)| ==>
              IsTestFor(Matches(b, ns, patterns)[i].node, patterns) &&
              Matches(b, ns, patterns)[i].code == Code(b, Matches(b, ns, patterns)[i].node)
  {
    if ns != [] {
      MatchesPass(b, ns[..|ns| - 1], patterns);
    }
  }

  /** A node that passes the test is among the matches. */
  lemma {:induction false} MatchesComplete(b: Builder, ns: seq<SemanticNode>, patterns: seq<string>, k: nat)
    requires k < |ns| && IsTestFor(ns[k], patterns)
    ensures exists i :: 0 <= i < |Matches(b, ns, patterns)| && Matches(b, ns, patterns)[i].node == ns[k]
  {
    assert ns == ns[..k] + [ns[k]] + ns[k + 1..];
    MatchesAppend(b, ns[..k] + [ns[k]], ns[k + 1..], patterns);
    MatchesAppend(b, ns[..k], [ns[k]], patterns);
    MatchesSingle(b, ns[k], patterns);
    var i := |Matches(b, ns[..k], patterns)|;
    assert Matches(b, ns, patterns)[i].node == ns[k];
  }

  /** The second pattern, `test` followed by the capitalized name, has an
      upper-case letter where the name starts with a letter, and is looked
      for in a lower-cased name: it can never match. */
  lemma CapitalizedPatternNeverMatches(name: string, other: string)
    requires name != [] && ('a' <= name[0] <= 'z' || 'A' <= name[0] <= 'Z')
    ensures !Contains(Lower(other), Patterns(name)[1])
  {
    var p := Patterns(name)[1];
    assert p[4] == UpperChar(name[0]);
    if Contains(Lower(other), p) {
      var i := ContainsWitness(Lower(other), p);
      assert false;
    }
  }

  /** A name made only of underscores gives an empty third pattern, and
      every function or method of a test file matches it. */
  lemma UnderscoreNameMatchesAll(name: string, n: SemanticNode)
    requires forall i :: 0 <= i < |name| ==> name[i] == '_'
    requires n.kind.IsCallable() && Contains(Lower(n.filepath), "test")
    ensures IsTestFor(n, Patterns(name))
  {
    NoneLeft(name);
    assert Patterns(name)[2] == [];
    assert StartsWith(Lower(n.name), []);
  }

  lemma {:induction false} NoneLeft(s: string)
    requires forall i :: 0 <= i < |s| ==> s[i] == '_'
    ensures Without(s, '_') == []
  {
    if s != [] {
      NoneLeft(s[1..]);
    }
  }

  // ----- file imports -----

  /** The lines of the node's file, or none when it cannot be read. */
  function FileLines(b: Builder, n: SemanticNode): seq<string>
    reads n
  {
    var path := PathOf(b, n);
    if path in b.files then b.files[path] else []
  }

  predicate IsImport(s: string)
  {
    StartsWith(s, "import ") || StartsWith(s, "from ")
  }

  /** The stripped lines that start an import, in order. */
  function Imports(ls: seq<string>): (r: seq<string>)
    ensures |r| <= |ls|
    ensures forall i :: 0 <= i < |r| ==> IsImport(r[i]) && Clean(r[i])
  {
    if ls == [] then []
    else
      var r := Imports(ls[..|ls| - 1]);
      var s := Strip(ls[|ls| - 1]);
      StripClean(ls[|ls| - 1]);
      if IsImport(s) then r + [s] else r
  }

  /** `_get_file_imports(node)` */
  function FileImports(b: Builder, n: SemanticNode): seq<string>
    reads n
  {
    Imports(Take(FileLines(b, n), 50))
  }

  /** Only the first fifty lines are read, an unreadable file has no
      imports, and each import is a stripped `import …` or `from …` line. */
  lemma FileImportsSpec(b: Builder, n: SemanticNode)
    ensures |FileImports(b, n)| <= 50
    ensures PathOf(b, n) !in b.files ==> FileImports(b, n) == []
    ensures forall i :: 0 <= i < |FileImports(b, n)| ==> IsImport(FileImports(b, n)[i]) && Clean(FileImports(b, n)[i])
  {
  }

  /** An indented import line with its line break is kept, stripped. */
  lemma ImportLineKept(ls: seq<string>, body: string, indent: string)
    requires Clean(body) && IsImport(body) && AllSpace(indent)
    ensures Imports(ls + [indent + body + "\n"]) == Imports(ls) + [body]
  {
    var line := indent + body + "\n";
    assert Strip(line) == body by {
      LeadingSpace(indent, body + "\n");
      assert line == indent + (body + "\n");
      StripPadded(body, "\n");
    }
    assert (ls + [line])[..|ls|] == ls;
  }

  lemma {:induction false} LeadingSpace(ws: string, s: string)
    requires AllSpace(ws) && s != [] && !IsSpace(s[0])
    ensures TrimStart(ws + s) == s
  {
    if ws != [] {
      assert (ws + s)[1..] == ws[1..] + s;
      LeadingSpace(ws[1..], s);
    } else {
      assert ws + s == s;
    }
  }

  lemma ImportsSnoc(ls: seq<string>, i: nat)
    requires i < |ls|
    ensures Imports(ls[..i + 1]) == Imports(ls[..i]) + (if IsImport(Strip(ls[i])) then [Strip(ls[i])] else [])
  {
    assert ls[..i + 1][..i] == ls[..i];
  }

  /** The method reading the first fifty lines. */
  method GetFileImports(b: Builder, node: SemanticNode) returns (imports: seq<string>)
    ensures imports == FileImports(b, node)
  {
    var lines := Take(FileLines(b, node), 50);
    imports := [];
    for i := 0 to |lines|
      invariant imports == Imports(lines[..i])
    {
      ImportsSnoc(lines, i);
      var line := Strip(lines[i]);
      if IsImport(line) {
        imports := imports + [line];
      }
    }
    assert lines[..|lines|] == lines;
  }

  // ----- metadata -----

  /** The lines of `_build_metadata_summary(node)`. */
  function MetadataLines(n: SemanticNode): seq<string>
    reads n
  {
    ["- **File**: `" + n.filepath + "`",
     "- **Lines**: " + IntToString(n.startLine) + "-" + IntToString(n.endLine),
     "- **Type**: " + n.kind.Name(),
     "- **Language**: " + n.language.Name(),
     "- **Called by**: " + NatToString(|n.calledBy|) + " function(s)",
     "- **Calls**: " + NatToString(|n.calls|) + " function(s)"]
    + (if n.parameters != [] then ["- **Parameters**: `" + Join(n.parameters, ", ") + "`"] else [])
    + (if Truthy(n.returnType) then ["- **Return Type**: `" + n.returnType.value + "`"] else [])
    + (if Truthy(n.parentClass) then ["- **Parent Class**: `" + n.parentClass.value + "`"] else [])
  }

  function Metadata(n: SemanticNode): string
    reads n
  {
    Join(MetadataLines(n), "\n")
  }

  /** Six lines always, one more for each of parameters, a return type and
      a parent class that is set; the parameters line is last but for the
      other two. */
  lemma MetadataShape(n: SemanticNode)
    ensures |MetadataLines(n)| == 6 + (if n.parameters != [] then 1 else 0)
                                    + (if Truthy(n.returnType) then 1 else 0)
                                    + (if Truthy(n.parentClass) then 1 else 0)
    ensures MetadataLines(n)[0] == "- **File**: `" + n.filepath + "`"
    ensures n.parameters != [] ==> StartsWith(MetadataLines(n)[6], "- **Parameters**: `")
    ensures Truthy(n.parentClass) ==>
              MetadataLines(n)[|MetadataLines(n)| - 1] == "- **Parent Class**: `" + n.parentClass.value + "`"
  {
  }

  // ----- the review text -----

  /** The included entries and the tokens used after the loop of one section:
      each entry is added when the tokens used so far are below the limit,
      a fraction `limit / 10` of `maxTokens`. */
  function Greedy(es: seq<Entry>, used: int, limit: int, maxTokens: int): (r: (seq<Entry>, int))
  {
    if es == [] then ([], used)
    else
      var g := Greedy(es[..|es| - 1], used, limit, maxTokens);
      var e := es[|es| - 1];
      if 10 * g.1 < limit * maxTokens then (g.0 + [e], g.1 + Tokens(e.code)) else g
  }

  function TokenSum(es: seq<Entry>): nat
  {
    if es == [] then 0 else TokenSum(es[..|es| - 1]) + Tokens(es[|es| - 1].code)
  }

  /** What a section loop does: it includes a prefix of the entries and
      adds their tokens; the tokens before each included entry are below the
      limit (its own tokens may then pass it), and when an entry is left
      out the limit has been reached. */
  predicate GreedyShape(es: seq<Entry>, used: int, limit: int, maxTokens: int, inc: seq<Entry>, u: int)
  {
    && |inc| <= |es| && inc == es[..|inc|]
    && u == used + TokenSum(inc)
    && (forall i :: 0 <= i < |inc| ==> 10 * (used + TokenSum(inc[..i])) < limit * maxTokens)
    && (|inc| < |es| ==> 10 * u >= limit * maxTokens)
  }

  lemma {:induction false} GreedyPrefix(es: seq<Entry>, used: int, limit: int, maxTokens: int)
    ensures GreedyShape(es, used, limit, maxTokens, Greedy(es, used, limit, maxTokens).0, Greedy(es, used, limit, maxTokens).1)
  {
    if es != [] {
      var init, e := es[..|es| - 1], es[|es| - 1];
      GreedyPrefix(init, used, limit, maxTokens);
      var g := Greedy(init, used, limit, maxTokens);
      var inc0, u0 := g.0, g.1;
      if 10 * u0 < limit * maxTokens {
        assert inc0 == init;
        var inc := inc0 + [e];
        assert inc == es;
        assert inc[..|inc| - 1] == inc0;
        forall i | 0 <= i < |inc|
          ensures 10 * (used + TokenSum(inc[..i])) < limit * maxTokens
        {
          if i < |inc0| {
            assert inc[..i] == inc0[..i];
          } else {
            assert inc[..i] == inc0;
          }
        }
      } else {
        assert es[..|inc0|] == init[..|inc0|];
      }
    }
  }

  /** Tokens are only ever added. */
  lemma GreedyGrows(es: seq<Entry>, used: int, limit: int, maxTokens: int)
    ensures Greedy(es, used, limit, maxTokens).1 >= used
  {
    GreedyPrefix(es, used, limit, maxTokens);
  }

  /** One entry whose code alone is over the limit is still included when
      the section starts below it. */
  lemma GreedyOvershoots(e: Entry, limit: int, maxTokens: int)
    requires 0 < limit < 10 && 0 < maxTokens && |e.code| >= 4 * maxTokens
    ensures Greedy([e], 0, limit, maxTokens) == ([e], Tokens(e.code))
    ensures 10 * Tokens(e.code) > limit * maxTokens
  {
    assert [e][..0] == [];
    assert Greedy([], 0, limit, maxTokens) == ([], 0);
    assert limit * maxTokens > 0;
    assert [] + [e] == [e];
    assert Tokens(e.code) >= maxTokens;
    assert (10 - limit) * maxTokens > 0;
  }

  /** `f"\n### {node.full_path}\n```python\n{code}\n```\n"`; a missing full
      path prints as `None`. */
  function EntryText(e: Entry): string
    reads e.node
  {
    var p := if e.node.fullPath.Some? then e.node.fullPath.value else "None";
    "\n### " + p + "\n```python\n" + e.code + "\n```\n"
  }

  function Texts(es: seq<Entry>): (r: seq<string>)
    reads set e | e in es :: e.node
    ensures |r| == |es|
  {
    if es == [] then [] else Texts(es[..|es| - 1]) + [EntryText(es[|es| - 1])]
  }

  /** One section: its heading and entry texts, present only when the tokens
      used are below the limit at the start and there are entries; and the
      tokens used after it. */
  function Section(heading: string, es: seq<Entry>, used: int, limit: int, maxTokens: int): (r: (seq<string>, int))
    reads set e | e in es :: e.node
  {
    if 10 * used < limit * maxTokens && es != [] then
      var g := Greedy(es, used, limit, maxTokens);
      assert forall e :: e in g.0 ==> e in es by { GreedyPrefix(es, used, limit, maxTokens); }
      ([heading] + Texts(g.0), g.1)
    else ([], used)
  }

  /** A section holds its heading and the texts of a budget-checked prefix
      of its entries, or is empty when the check fails at its start or there
      are no entries; either way no tokens are taken back. */
  lemma SectionSpec(heading: string, es: seq<Entry>, used: int, limit: int, maxTokens: int)
    ensures var s := Section(heading, es, used, limit, maxTokens);
            && (s.0 != [] <==> 10 * used < limit * maxTokens && es != [])
            && (s.0 == [] ==> s.1 == used)
            && s.1 >= used
    ensures var s := Section(heading, es, used, limit, maxTokens);
            s.0 != [] ==>
              && s.0[0] == heading
              && exists k :: 1 <= k <= |es| && GreedyShape(es, used, limit, maxTokens, es[..k], s.1) && s.0[1..] == Texts(es[..k])
  {
    var s := Section(heading, es, used, limit, maxTokens);
    if 10 * used < limit * maxTokens && es != [] {
      GreedyPrefix(es, used, limit, maxTokens);
      var g := Greedy(es, used, limit, maxTokens);
      var k := |g.0|;
      assert TokenSum([]) == 0;
      assert k >= 1;
      assert s.0[1..] == Texts(es[..k]);
    }
  }

  const CallersHeading: string := "\n## Functions That Call This (May Break)\n"
  const CalleesHeading: string := "\n## Functions This Calls (Dependencies)\n"
  const TestsHeading: string := "\n## Related Tests\n"

  function ChangedText(code: string): string
  {
    "## Changed Code\n\n```python\n" + code + "\n```\n"
  }

  function MetadataText(n: SemanticNode): string
    reads n
  {
    "\n## Additional Context\n" + Metadata(n) + "\n"
  }

  /** What the readable parts of a review read. */
  function Footprint(b: Builder, n: SemanticNode): set<object>
  {
    {n} + b.nodeMap.Values + set m | m in b.nodes
  }

  lemma RelatedInNodes(b: Builder, n: SemanticNode)
    ensures forall e :: e in RelatedTests(b, n) ==> e.node in b.nodes
  {
    var ms := Matches(b, b.nodes, Patterns(n.name));
    assert RelatedTests(b, n) == ms[..|RelatedTests(b, n)|];
  }

  /** `context_parts` of `build_review_context(node, max_tokens)` and the
      final `tokens_used`: the changed code, callers below 0.4 of the
      budget, callees below 0.6, tests below 0.8, then the metadata. */
  function Review(b: Builder, n: SemanticNode, maxTokens: int): (r: (seq<string>, int))
    reads Footprint(b, n)
  {
    RelatedInNodes(b, n);
    Assemble(Code(b, n), Callers(b, n), Callees(b, n), RelatedTests(b, n), MetadataText(n), maxTokens)
  }

  /** The parts of a review, given what goes in them. */
  function Assemble(code: string, callers: seq<Entry>, callees: seq<Entry>, tests: seq<Entry>,
                    metadata: string, maxTokens: int): (r: (seq<string>, int))
    reads (set e | e in callers :: e.node), (set e | e in callees :: e.node), (set e | e in tests :: e.node)
  {
    var s1 := Section(CallersHeading, callers, Tokens(code), 4, maxTokens);
    var s2 := Section(CalleesHeading, callees, s1.1, 6, maxTokens);
    var s3 := Section(TestsHeading, tests, s2.1, 8, maxTokens);
    ([ChangedText(code)] + s1.0 + s2.0 + s3.0 + [metadata], s3.1)
  }

  /** Whatever the budget, the review opens with the changed code and ends
      with the metadata, and the tokens used are at least the changed
      code's. */
  lemma ReviewFrame(b: Builder, n: SemanticNode, maxTokens: int)
    ensures |Review(b, n, maxTokens).0| >= 2
    ensures Review(b, n, maxTokens).0[0] == ChangedText(Code(b, n))
    ensures Review(b, n, maxTokens).0[|Review(b, n, maxTokens).0| - 1] == MetadataText(n)
    ensures Review(b, n, maxTokens).1 >= Tokens(Code(b, n))
  {
    var code := Code(b, n);
    RelatedInNodes(b, n);
    var callers, callees, tests := Callers(b, n), Callees(b, n), RelatedTests(b, n);
    var s1 := Section(CallersHeading, callers, Tokens(code), 4, maxTokens);
    var s2 := Section(CalleesHeading, callees, s1.1, 6, maxTokens);
    SectionSpec(CallersHeading, callers, Tokens(code), 4, maxTokens);
    SectionSpec(CalleesHeading, callees, s1.1, 6, maxTokens);
    SectionSpec(TestsHeading, tests, s2.1, 8, maxTokens);
    assert Review(b, n, maxTokens) == Assemble(code, callers, callees, tests, MetadataText(n), maxTokens);
  }

  /** A budget of zero or less leaves out every caller, callee and test. */
  lemma NoBudget(b: Builder, n: SemanticNode, maxTokens: int)
    requires maxTokens <= 0
    ensures Review(b, n, maxTokens).0 == [ChangedText(Code(b, n)), MetadataText(n)]
  {
  }

  lemma GreedyStep(es: seq<Entry>, i: nat, used: int, limit: int, maxTokens: int)
    requires i < |es|
    ensures var g := Greedy(es[..i], used, limit, maxTokens);
            Greedy(es[..i + 1], used, limit, maxTokens) ==
              if 10 * g.1 < limit * maxTokens then (g.0 + [es[i]], g.1 + Tokens(es[i].code)) else g
  {
    assert es[..i + 1][..i] == es[..i];
  }

  lemma TextsSnoc(es: seq<Entry>, e: Entry)
    ensures Texts(es + [e]) == Texts(es) + [EntryText(e)]
  {
    assert (es + [e])[..|es|] == es;
  }

  /** The loop of one section. */
  method AddSection(heading: string, es: seq<Entry>, used: int, limit: int, maxTokens: int)
    returns (parts: seq<string>, used': int)
    ensures parts == Section(heading, es, used, limit, maxTokens).0
    ensures used' == Section(heading, es, used, limit, maxTokens).1
  {
    parts, used' := [], used;
    if 10 * used < limit * maxTokens && es != [] {
      parts := [heading];
      for i := 0 to |es|
        invariant parts == [heading] + Texts(Greedy(es[..i], used, limit, maxTokens).0)
        invariant used' == Greedy(es[..i], used, limit, maxTokens).1
      {
        GreedyStep(es, i, used, limit, maxTokens);
        if 10 * used' < limit * maxTokens {
          TextsSnoc(Greedy(es[..i], used, limit, maxTokens).0, es[i]);
          parts := parts + [EntryText(es[i])];
          used' := used' + Tokens(es[i].code);
        }
      }
      assert es[..|es|] == es;
    }
  }

  /** The body of `build_review_context` once the code, callers, callees and
      tests are known: the changed code, three budgeted sections, the
      metadata. */
  method Compose(code: string, callers: seq<Entry>, callees: seq<Entry>, tests: seq<Entry>,
                 metadata: string, maxTokens: int) returns (parts: seq<string>)
    ensures parts == Assemble(code, callers, callees, tests, metadata, maxTokens).0
  {
    parts := [ChangedText(code)];
    var used := Tokens(code);
    // the entries' nodes exist before the calls, so the sections read the
    // same fields after them
    assert forall i :: 0 <= i < |callers| ==> allocated(callers[i].node);
    assert forall i :: 0 <= i < |callees| ==> allocated(callees[i].node);
    assert forall i :: 0 <= i < |tests| ==> allocated(tests[i].node);
    ghost var s1 := Section(CallersHeading, callers, used, 4, maxTokens);
    var p1, u1 := AddSection(CallersHeading, callers, used, 4, maxTokens);
    ghost var s2 := Section(CalleesHeading, callees, u1, 6, maxTokens);
    var p2, u2 := AddSection(CalleesHeading, callees, u1, 6, maxTokens);
    ghost var s3 := Section(TestsHeading, tests, u2, 8, maxTokens);
    var p3, u3 := AddSection(TestsHeading, tests, u2, 8, maxTokens);
    parts := parts + p1 + p2 + p3 + [metadata];
  }

  /** `build_review_context(node, max_tokens)`, without its console output. */
  method BuildReviewContext(b: Builder, changedNode: SemanticNode, maxTokens: int) returns (text: string)
    ensures text == Join(Review(b, changedNode, maxTokens).0, "\n")
  {
    var code := Code(b, changedNode);
    var callers := GetImmediateCallers(b, changedNode);
    var callees := GetImmediateCallees(b, changedNode);
    var tests := GetRelatedTests(b, changedNode);
    RelatedInNodes(b, changedNode);
    var parts := Compose(code, callers, callees, tests, MetadataText(changedNode), maxTokens);
    text := Join(parts, "\n");
  }

  // ----- contexts -----

  /** `_build_single_context(node, max_tokens, include_tests)` */
  function SingleContext(b: Builder, n: SemanticNode, includeTests: bool): CodeContext
    reads Footprint(b, n)
  {
    CodeContext(Code(b, n), n, Callers(b, n), Callees(b, n), ParentClass(b, n),
                if includeTests then RelatedTests(b, n) else [],
                FileImports(b, n), [], |n.calledBy|, None)
  }

  /** Tests are gathered only when asked for; the caller count is that of
      every `called_by` entry, not only the ten looked up; constants and
      coverage are never filled in. */
  lemma SingleContextSpec(b: Builder, n: SemanticNode, includeTests: bool)
    ensures var c := SingleContext(b, n, includeTests);
            && (!includeTests ==> c.relatedTests == [])
            && (includeTests ==> c.relatedTests == RelatedTests(b, n))
            && c.allCallersCount == |n.calledBy| >= |c.immediateCallers|
            && c.constantsUsed == [] && c.testCoverage.None?
  {
    ImmediateBound(b, n);
  }

  method BuildSingleContext(b: Builder, changedNode: SemanticNode, maxTokens: int, includeTests: bool)
    returns (context: CodeContext)
    ensures context == SingleContext(b, changedNode, includeTests)
  {
    var changedCode := Code(b, changedNode);
    var callers := GetImmediateCallers(b, changedNode);
    var callees := GetImmediateCallees(b, changedNode);
    var parent := ParentClass(b, changedNode);
    var tests: seq<Entry> := [];
    if includeTests {
      tests := GetRelatedTests(b, changedNode);
    }
    var imports := GetFileImports(b, changedNode);
    context := CodeContext(changedCode, changedNode, callers, callees, parent, tests, imports, [],
                           |changedNode.calledBy|, None);
  }

  /** `build_context_for_changes(changed_nodes, max_tokens, include_tests)`:
      one context per changed node, in order. */
  method BuildContextForChanges(b: Builder, changedNodes: seq<SemanticNode>, maxTokens: int, includeTests: bool)
    returns (contexts: seq<CodeContext>)
    ensures |contexts| == |changedNodes|
    ensures forall i :: 0 <= i < |changedNodes| ==>
              contexts[i].changedNode == changedNodes[i] && contexts[i] == SingleContext(b, changedNodes[i], includeTests)
  {
    contexts := [];
    for i := 0 to |changedNodes|
      invariant |contexts| == i
      invariant forall j :: 0 <= j < i ==>
                  contexts[j].changedNode == changedNodes[j] && contexts[j] == SingleContext(b, changedNodes[j], includeTests)
    {
      var context := BuildSingleContext(b, changedNodes[i], maxTokens, includeTests);
      contexts := contexts + [context];
    }
  }
}
