/** MultiLanguageScanner, the self-contained scanner of
    semantic_tree_builder.py: the same walk, ignore rules and language
    table as RepositoryScanner, but one nodes list and one node_map that
    every language's walk appends to directly, a Java walk that knows only
    classes, a call graph built at the end of every scan, and statistics of
    classes, functions and methods only. */
module SingleFileScanning {
  import opened Text
  import opened SyntaxTree
  import opened SemanticNodes
  import opened LanguageDetection
  import opened Statistics
  import opened RepositoryScanning
  import opened CallGraph
  import opened NodeSearch
  import PythonExtractor
  import JavaExtractor
  import CExtractor
  import CppExtractor

  /** What `_extract_<lang>` appends for one file. */
  function MonoEmitFor(lang: Language, tree: Tree, rel: string): seq<NodeView>
  {
    match lang
    case Python => PythonExtractor.Emit(tree, None, rel)
    case Java => JavaExtractor.Emit(JavaExtractor.Monolith, tree, None, rel)
    case C => CExtractor.Emit(tree, rel)
    case Cpp => CppExtractor.Emit(tree, None, rel)
  }

  /** The single list after the successfully scanned files `fs`, in walk
      order. */
  function MonoEmitted(table: seq<(string, Language)>, fs: seq<FileEntry>): seq<NodeView>
  {
    if fs == [] then []
    else
      var f := fs[|fs| - 1];
      MonoEmitted(table, fs[..|fs| - 1])
      + (match DetectWith(table, f.path)
         case None => []
         case Some(l) => MonoEmitFor(l, f.tree, f.relPath))
  }

  lemma MonoEmittedSnoc(table: seq<(string, Language)>, fs: seq<FileEntry>, f: FileEntry)
    requires DetectWith(table, f.path).Some?
    ensures MonoEmitted(table, fs + [f]) == MonoEmitted(table, fs) + MonoEmitFor(DetectWith(table, f.path).value, f.tree, f.relPath)
  {
    assert (fs + [f])[..|fs|] == fs;
  }

  // ----- one list versus one list per language -----

  /** The records of language `l`, in order. */
  function OfLanguage(vs: seq<NodeView>, l: Language): seq<NodeView>
  {
    if vs == [] then []
    else OfLanguage(vs[..|vs| - 1], l) + (if vs[|vs| - 1].language == l then [vs[|vs| - 1]] else [])
  }

  lemma {:induction false} OfLanguageAppend(a: seq<NodeView>, b: seq<NodeView>, l: Language)
    ensures OfLanguage(a + b, l) == OfLanguage(a, l) + OfLanguage(b, l)
    decreases |b|
  {
    if b == [] {
      assert a + b == a;
    } else {
      assert (a + b)[..|a + b| - 1] == a + b[..|b| - 1];
      OfLanguageAppend(a, b[..|b| - 1], l);
    }
  }

  /** Filtering a list of one language keeps all of it or none of it. */
  lemma {:induction false} OfLanguageUniform(vs: seq<NodeView>, k: Language, l: Language)
    requires forall i :: 0 <= i < |vs| ==> vs[i].language == k
    ensures OfLanguage(vs, l) == if k == l then vs else []
  {
    if vs != [] {
      var init := vs[..|vs| - 1];
      OfLanguageUniform(init, k, l);
      if k == l {
        assert vs == init + [vs[|vs| - 1]];
      }
    }
  }

  /** Every record a file contributes is tagged with the file's language. */
  lemma MonoEmitForLanguage(lang: Language, tree: Tree, rel: string)
    ensures forall i :: 0 <= i < |MonoEmitFor(lang, tree, rel)| ==> MonoEmitFor(lang, tree, rel)[i].language == lang
  {
    var s := MonoEmitFor(lang, tree, rel);
    match lang
    case Python => PythonExtractor.EmitQualified(tree, None, rel);
    case Java => JavaExtractor.EmitQualified(JavaExtractor.Monolith, tree, None, rel);
    case C => CExtractor.EmitQualified(tree, rel);
    case Cpp => CppExtractor.EmitQualified(tree, None, rel);
    forall i | 0 <= i < |s|
      ensures s[i].language == lang
    {
      assert s[i] in s;
    }
  }

  /** For Python, C and C++ the single list, restricted to the language, is
      exactly what RepositoryScanner's extractor for it accumulates from the
      same files (Java differs: the walks recognise different types). */
  lemma {:induction false} SameAsPerLanguage(table: seq<(string, Language)>, fs: seq<FileEntry>, l: Language)
    requires l != Java
    ensures OfLanguage(MonoEmitted(table, fs), l) == Emitted(table, fs).Of(l)
  {
    if fs != [] {
      var init := fs[..|fs| - 1];
      var f := fs[|fs| - 1];
      SameAsPerLanguage(table, init, l);
      match DetectWith(table, f.path)
      case None =>
        assert MonoEmitted(table, fs) == MonoEmitted(table, init) + [] == MonoEmitted(table, init);
      case Some(k) =>
        OfLanguageAppend(MonoEmitted(table, init), MonoEmitFor(k, f.tree, f.relPath), l);
        MonoEmitForLanguage(k, f.tree, f.relPath);
        OfLanguageUniform(MonoEmitFor(k, f.tree, f.relPath), k, l);
    }
  }

  class MultiLanguageScanner {
    var fileCount: nat
    var errorCount: nat
    const ignorePatterns: set<string>
    /** The languages whose parser loaded (the keys of `self.parsers`). */
    const parsers: set<Language>
    /** The table LanguageDetector.detect looks extensions up in. */
    const detector: seq<(string, Language)>
    /** `self.nodes` and `self.node_map`. */
    const reg: Registry

    /** `MultiLanguageScanner(ignore_patterns)`, with `parsers` the languages
        whose parser loads: defaults plus the user's patterns, everything
        else empty. */
    constructor (userPatterns: seq<string>, parsers: set<Language>)
      ensures reg.Valid() && fresh(reg)
      ensures reg.nodes == [] && reg.nodeMap == map[] && reg.views == []
      ensures fileCount == 0 && errorCount == 0
      ensures ignorePatterns == DefaultIgnore + (set p | p in userPatterns) && this.parsers == parsers
      ensures detector == LanguageMap
    {
      fileCount := 0;
      errorCount := 0;
      var patterns := DefaultIgnore;
      if userPatterns != [] {
        patterns := patterns + (set p | p in userPatterns);
      }
      ignorePatterns := patterns;
      this.parsers := parsers;
      detector := LanguageMap;
      reg := new Registry();
    }

    /** `scan_file`: the language's walk appends the file's records to the
        one nodes list and writes them into the one node_map. */
    method ScanFile(rel: string, lang: Language, tree: Tree) returns (ghost added: seq<SemanticNode>)
      requires reg.Valid()
      modifies reg
      ensures reg.Valid()
      ensures reg.nodes == old(reg.nodes) + added && forall n :: n in added ==> fresh(n)
      ensures reg.views == old(reg.views) + MonoEmitFor(lang, tree, rel)
      ensures |added| == |MonoEmitFor(lang, tree, rel)|
      ensures reg.nodeMap == Register(old(reg.nodeMap), added, MonoEmitFor(lang, tree, rel))
    {
      match lang {
        case Python => added := PythonExtractor.Walk(reg, tree, None, rel);
        case Java => added := JavaExtractor.Walk(reg, JavaExtractor.Monolith, tree, None, rel);
        case C => added := CExtractor.Walk(reg, tree, rel);
        case Cpp => added := CppExtractor.Walk(reg, tree, None, rel);
      }
    }

    /** What one file of the walk appends: its records if it is attempted and
        does not raise, nothing otherwise. */
    ghost function Gain(repo: string, f: FileEntry): seq<NodeView>
    {
      if Attempted(ignorePatterns, parsers, detector, repo, f) && !f.raises
      then MonoEmitFor(DetectWith(detector, f.path).value, f.tree, f.relPath)
      else []
    }

    /** One step of the walk for `f`, with the checks of RepositoryScanner. */
    method ScanOne(repo: string, f: FileEntry) returns (ghost added: seq<SemanticNode>)
      requires reg.Valid()
      modifies this, reg
      ensures reg.Valid()
      ensures reg.nodes == old(reg.nodes) + added && forall n :: n in added ==> fresh(n)
      ensures reg.views == old(reg.views) + Gain(repo, f) && |added| == |Gain(repo, f)|
      ensures reg.nodeMap == Register(old(reg.nodeMap), added, Gain(repo, f))
      ensures fileCount == old(fileCount) + if Attempted(ignorePatterns, parsers, detector, repo, f) && !f.raises then 1 else 0
      ensures errorCount == old(errorCount) + if Attempted(ignorePatterns, parsers, detector, repo, f) && f.raises then 1 else 0
    {
      added := [];
      if Attempted(ignorePatterns, parsers, detector, repo, f) {
        var language := DetectWith(detector, f.path).value;
        if f.raises {
          errorCount := errorCount + 1;
        } else {
          added := ScanFile(f.relPath, language, f.tree);
          fileCount := fileCount + 1;
        }
      }
    }

    /** `scan_repository(repo_path)`: the walk over `files`, then
        build_call_graph over the whole list, so every node of the map ends
        with exactly the edges into it (and one already in the map before the
        scan gains them after those it had). */
    method ScanRepository(repo: string, files: seq<FileEntry>) returns (result: seq<SemanticNode>)
      requires reg.Valid()
      modifies this, reg, set n | n in reg.nodeMap.Values
      ensures reg.Valid() && result == reg.nodes
      ensures fileCount == old(fileCount) + |Outcomes(ignorePatterns, parsers, detector, repo, files, false)|
      ensures errorCount == old(errorCount) + |Outcomes(ignorePatterns, parsers, detector, repo, files, true)|
      ensures reg.views == old(reg.views) + MonoEmitted(detector, Outcomes(ignorePatterns, parsers, detector, repo, files, false))
      ensures old(reg.nodes) <= reg.nodes
      ensures forall n :: n in reg.nodeMap.Values ==>
                var edges := Incoming(ViewCallers(reg.views), reg.nodeMap, n);
                |edges| <= |n.calledBy| && n.calledBy[|n.calledBy| - |edges|..] == edges
      ensures forall n :: n in old(reg.nodeMap.Values) && n in reg.nodeMap.Values ==>
                n.calledBy == old(n.calledBy) + Incoming(ViewCallers(reg.views), reg.nodeMap, n)
    {
      ghost var added := WalkFiles(repo, files);
      RegisterValues(old(reg.nodeMap), added, reg.views[|old(reg.views)|..]);
      BuildCallGraph();
      result := reg.nodes;
    }

    /** What the walk up to file `i` adds to the counters and the views
        when file `i` is the next one. */
    lemma WalkSnoc(repo: string, files: seq<FileEntry>, i: nat)
      requires i < |files|
      ensures |Outcomes(ignorePatterns, parsers, detector, repo, files[..i + 1], false)|
              == |Outcomes(ignorePatterns, parsers, detector, repo, files[..i], false)|
                 + if Attempted(ignorePatterns, parsers, detector, repo, files[i]) && !files[i].raises then 1 else 0
      ensures |Outcomes(ignorePatterns, parsers, detector, repo, files[..i + 1], true)|
              == |Outcomes(ignorePatterns, parsers, detector, repo, files[..i], true)|
                 + if Attempted(ignorePatterns, parsers, detector, repo, files[i]) && files[i].raises then 1 else 0
      ensures MonoEmitted(detector, Outcomes(ignorePatterns, parsers, detector, repo, files[..i + 1], false))
              == MonoEmitted(detector, Outcomes(ignorePatterns, parsers, detector, repo, files[..i], false)) + Gain(repo, files[i])
    {
      var f := files[i];
      var ok := Outcomes(ignorePatterns, parsers, detector, repo, files[..i], false);
      OutcomesSnoc(ignorePatterns, parsers, detector, repo, files, i, false);
      OutcomesSnoc(ignorePatterns, parsers, detector, repo, files, i, true);
      if Attempted(ignorePatterns, parsers, detector, repo, f) && !f.raises {
        MonoEmittedSnoc(detector, ok, f);
      } else {
        assert Outcomes(ignorePatterns, parsers, detector, repo, files[..i + 1], false) == ok;
        assert Gain(repo, f) == [];
      }
    }

    /** The `os.walk` loop of scan_repository: every successful file's records
        are appended to the one list and map, and each attempted file
        increments one counter; no node that existed before changes. */
    method WalkFiles(repo: string, files: seq<FileEntry>) returns (ghost added: seq<SemanticNode>)
      requires reg.Valid()
      modifies this, reg
      ensures reg.Valid()
      ensures fileCount == old(fileCount) + |Outcomes(ignorePatterns, parsers, detector, repo, files, false)|
      ensures errorCount == old(errorCount) + |Outcomes(ignorePatterns, parsers, detector, repo, files, true)|
      ensures reg.views == old(reg.views) + MonoEmitted(detector, Outcomes(ignorePatterns, parsers, detector, repo, files, false))
      ensures reg.nodes == old(reg.nodes) + added && forall n :: n in added ==> fresh(n)
      ensures |added| == |reg.views| - |old(reg.views)|
      ensures reg.nodeMap == Register(old(reg.nodeMap), added, reg.views[|old(reg.views)|..])
    {
      added := [];
      var i := 0;
      assert files[..0] == [];
      while i < |files|
        invariant 0 <= i <= |files|
        invariant reg.Valid()
        invariant fileCount == old(fileCount) + |Outcomes(ignorePatterns, parsers, detector, repo, files[..i], false)|
        invariant errorCount == old(errorCount) + |Outcomes(ignorePatterns, parsers, detector, repo, files[..i], true)|
        invariant reg.views == old(reg.views) + MonoEmitted(detector, Outcomes(ignorePatterns, parsers, detector, repo, files[..i], false))
        invariant reg.nodes == old(reg.nodes) + added && forall n :: n in added ==> fresh(n)
        invariant |added| == |reg.views| - |old(reg.views)|
        invariant reg.nodeMap == Register(old(reg.nodeMap), added, reg.views[|old(reg.views)|..])
      {
        added := WalkStep(repo, files, i, old(fileCount), old(errorCount), old(reg.nodes), old(reg.views), old(reg.nodeMap), added);
        i := i + 1;
      }
      assert files[..|files|] == files;
    }

    /** One file of the walk: the walk's state after files[..i], given as
        what it was before the walk (`fc0` … `map0`) and the nodes `added`
        since, becomes the state after files[..i + 1]. */
    method WalkStep(repo: string, files: seq<FileEntry>, i: nat,
                    ghost fc0: nat, ghost ec0: nat, ghost nodes0: seq<SemanticNode>,
                    ghost views0: seq<NodeView>, ghost map0: map<string, SemanticNode>,
                    ghost added: seq<SemanticNode>)
      returns (ghost added': seq<SemanticNode>)
      requires i < |files| && reg.Valid()
      requires fileCount == fc0 + |Outcomes(ignorePatterns, parsers, detector, repo, files[..i], false)|
      requires errorCount == ec0 + |Outcomes(ignorePatterns, parsers, detector, repo, files[..i], true)|
      requires reg.views == views0 + MonoEmitted(detector, Outcomes(ignorePatterns, parsers, detector, repo, files[..i], false))
      requires reg.nodes == nodes0 + added
      requires |added| == |reg.views| - |views0|
      requires reg.nodeMap == Register(map0, added, reg.views[|views0|..])
      modifies this, reg
      ensures reg.Valid()
      ensures fileCount == fc0 + |Outcomes(ignorePatterns, parsers, detector, repo, files[..i + 1], false)|
      ensures errorCount == ec0 + |Outcomes(ignorePatterns, parsers, detector, repo, files[..i + 1], true)|
      ensures reg.views == views0 + MonoEmitted(detector, Outcomes(ignorePatterns, parsers, detector, repo, files[..i + 1], false))
      ensures reg.nodes == nodes0 + added' && added <= added'
      ensures forall n :: n in added' ==> n in added || fresh(n)
      ensures |added'| == |reg.views| - |views0|
      ensures reg.nodeMap == Register(map0, added', reg.views[|views0|..])
    {
      var f := files[i];
      ghost var before := reg.views;
      WalkSnoc(repo, files, i);
      var more := ScanOne(repo, f);
      AppendAssoc(views0, MonoEmitted(detector, Outcomes(ignorePatterns, parsers, detector, repo, files[..i], false)), Gain(repo, f));
      assert reg.views[|views0|..] == before[|views0|..] + Gain(repo, f);
      RegisterAppend(map0, added, more, before[|views0|..], Gain(repo, f));
      AppendAssoc(nodes0, added, more);
      added' := added + more;
    }

    /** `build_call_graph()`: links the nodes list through the node_map; only
        `called_by` lists change. */
    method BuildCallGraph()
      requires reg.Valid()
      modifies set n | n in reg.nodeMap.Values
      ensures reg.Valid()
      ensures forall n :: n in reg.nodeMap.Values ==>
                n.calledBy == old(n.calledBy) + Incoming(ViewCallers(reg.views), reg.nodeMap, n)
    {
      assert Callers(reg.nodes) == ViewCallers(reg.views);
      var linked := CallGraph.BuildCallGraph(reg.nodes, reg.nodeMap);
      forall j | 0 <= j < |reg.nodes|
        ensures reg.nodes[j].Core() == reg.views[j]
      {
        if reg.nodes[j] in reg.nodeMap.Values {
          assert reg.nodes[j].Core() == old(reg.nodes[j].Core());
        }
      }
    }

    /** `get_statistics()`: classes, functions and methods only. */
    method GetStats() returns (stats: Stats)
      ensures stats.totalFiles == fileCount
      ensures forall k :: stats.totals.Get(k) == (if k in {Class, Function, Method} then CountKind(Tags(reg.nodes), k) else 0)
      ensures stats.byLanguage == ByLanguage(Tags(reg.nodes), ClassesAndCallables)
      ensures stats.files == ByFile(Tags(reg.nodes), ClassesAndCallables)
    {
      stats := GetStatistics(Tags(reg.nodes), fileCount, ClassesAndCallables);
    }

    /** `search_function(func_name)` */
    method SearchFunction(funcName: string) returns (results: seq<SemanticNode>)
      ensures results == Found(reg.nodes, funcName, CallableKinds)
    {
      results := Search(reg.nodes, funcName, CallableKinds);
    }

    /** `search_class(class_name)` */
    method SearchClass(className: string) returns (results: seq<SemanticNode>)
      ensures results == Found(reg.nodes, className, ClassKinds)
    {
      results := Search(reg.nodes, className, ClassKinds);
    }
  }
}
