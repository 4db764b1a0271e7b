/** RepositoryScanner: which files a scan reads, how their nodes are merged,
    and the success and error counters. The directory walk, file reads and
    parsing are inputs: each candidate file arrives with its syntax tree and
    whether reading or parsing it raises. */
module RepositoryScanning {
  import opened Text
  import opened Paths
  import opened SyntaxTree
  import opened SemanticNodes
  import opened LanguageDetection
  import opened Statistics
  import PythonExtractor
  import JavaExtractor
  import CExtractor
  import CppExtractor

  /** DEFAULT_IGNORE (identical in both scanners). */
  const DefaultIgnore: set<string> := {
    ".git", ".svn", "node_modules", "__pycache__", ".venv", "venv",
    "env", "build", "dist", ".idea", ".vscode", "target", "out",
    ".pytest_cache", ".mypy_cache", "htmlcov", ".tox", "eggs",
    "*.egg-info", ".eggs", "migrations", "tests", "test"
  }

  /** `should_ignore(path)`: the basename is a pattern, or some pattern occurs
      literally in the path, or the basename is hidden (starts with '.' but is
      not '.'). The patterns are a set, so their order does not matter. */
  predicate ShouldIgnore(patterns: set<string>, path: string)
  {
    var base := Basename(path);
    base in patterns
    || (exists pattern :: pattern in patterns && Contains(path, pattern))
    || (StartsWith(base, ".") && base != ".")
  }

  /** The exact-basename test adds nothing: a path is ignored iff some
      pattern is a substring of it or its basename is hidden. */
  lemma ShouldIgnoreIff(patterns: set<string>, path: string)
    ensures ShouldIgnore(patterns, path) <==>
              (exists pattern :: pattern in patterns && Contains(path, pattern))
              || (StartsWith(Basename(path), ".") && Basename(path) != ".")
  {
    var base := Basename(path);
    if base in patterns {
      ContainsAt(path, base, |path| - |base|);
    }
  }

  /** Adding patterns never un-ignores a path, so user patterns only add to
      the defaults. */
  lemma ShouldIgnoreMonotone(patterns: set<string>, more: set<string>, path: string)
    requires patterns <= more && ShouldIgnore(patterns, path)
    ensures ShouldIgnore(more, path)
  {
  }

  /** Patterns are literal substrings: `test` ignores everything under a
      `latest` directory. */
  lemma LiteralSubstring()
    ensures ShouldIgnore(DefaultIgnore, "src/latest/main.py")
  {
    var p := "src/latest/main.py";
    assert p[6..10] == "test";
    ContainsAt(p, "test", 6);
  }

  /** Patterns are not globs: `*.egg-info` ignores no path without a '*'
      and without a hidden basename, so it never matches a real
      `.egg-info` directory such as `pkg.egg-info`. */
  lemma NotAGlob(path: string)
    requires '*' !in path && !StartsWith(Basename(path), ".")
    ensures !ShouldIgnore({"*.egg-info"}, path)
  {
    MissingFirstChar(path, "*.egg-info");
    var base := Basename(path);
    if base != [] {
      assert base[0] == path[|path| - |base|];
    }
  }

  /** One file os.walk reaches: its full path, its path relative to the
      repository, its syntax tree, and whether reading or parsing it raises. */
  datatype FileEntry = FileEntry(path: string, relPath: string, tree: Tree, raises: bool)

  /** The walk prunes a directory (and everything below it) that
      should_ignore rejects; `repo` itself is never checked. */
  predicate Pruned(patterns: set<string>, repo: string, path: string)
  {
    exists j :: |repo| < j < |path| && path[j] == '/' && ShouldIgnore(patterns, path[..j])
  }

  /** A file is attempted when it is not under a pruned directory, not
      ignored itself, and of a detected language that has a parser. */
  predicate Attempted(patterns: set<string>, parsers: set<Language>, table: seq<(string, Language)>, repo: string, f: FileEntry)
  {
    && !Pruned(patterns, repo, f.path)
    && !ShouldIgnore(patterns, f.path)
    && DetectWith(table, f.path).Some?
    && DetectWith(table, f.path).value in parsers
  }

  /** The files of `fs` attempted and ending with (`raises`) or without an
      exception. */
  function Outcomes(patterns: set<string>, parsers: set<Language>, table: seq<(string, Language)>, repo: string, fs: seq<FileEntry>, raises: bool): seq<FileEntry>
  {
    if fs == [] then []
    else
      var f := fs[|fs| - 1];
      Outcomes(patterns, parsers, table, repo, fs[..|fs| - 1], raises)
      + (if Attempted(patterns, parsers, table, repo, f) && f.raises == raises then [f] else [])
  }

  /** Every attempted file is counted exactly once, as a success or an error. */
  lemma {:induction false} OutcomesPartition(patterns: set<string>, parsers: set<Language>, table: seq<(string, Language)>, repo: string, fs: seq<FileEntry>)
    ensures |Outcomes(patterns, parsers, table, repo, fs, false)| + |Outcomes(patterns, parsers, table, repo, fs, true)|
            == |Attempts(patterns, parsers, table, repo, fs)|
  {
    if fs != [] {
      OutcomesPartition(patterns, parsers, table, repo, fs[..|fs| - 1]);
    }
  }

  function Attempts(patterns: set<string>, parsers: set<Language>, table: seq<(string, Language)>, repo: string, fs: seq<FileEntry>): seq<FileEntry>
  {
    if fs == [] then []
    else
      Attempts(patterns, parsers, table, repo, fs[..|fs| - 1])
      + (if Attempted(patterns, parsers, table, repo, fs[|fs| - 1]) then [fs[|fs| - 1]] else [])
  }

  /** What the extractor for `lang` appends for one file. */
  function EmitFor(lang: Language, tree: Tree, rel: string): seq<NodeView>
  {
    match lang
    case Python => PythonExtractor.Emit(tree, None, rel)
    case Java => JavaExtractor.Emit(JavaExtractor.Modular, tree, None, rel)
    case C => CExtractor.Emit(tree, rel)
    case Cpp => CppExtractor.Emit(tree, None, rel)
  }

  /** One record list per language, in the order of `Language`. */
  datatype PerLanguage = PerLanguage(python: seq<NodeView>, java: seq<NodeView>, c: seq<NodeView>, cpp: seq<NodeView>)
  {
    function Of(l: Language): seq<NodeView>
    {
      match l
      case Python => python
      case Java => java
      case C => c
      case Cpp => cpp
    }

    /** `s` appended to the list of `l`; the other lists are unchanged. */
    function Append(l: Language, s: seq<NodeView>): (r: PerLanguage)
      ensures r.Of(l) == Of(l) + s
      ensures forall k :: k != l ==> r.Of(k) == Of(k)
    {
      match l
      case Python => this.(python := python + s)
      case Java => this.(java := java + s)
      case C => this.(c := c + s)
      case Cpp => this.(cpp := cpp + s)
    }

    /** Each list of `other` appended to the same language's list. */
    function Concat(other: PerLanguage): (r: PerLanguage)
      ensures forall l :: r.Of(l) == Of(l) + other.Of(l)
    {
      PerLanguage(python + other.python, java + other.java, c + other.c, cpp + other.cpp)
    }
  }

  const NoViews: PerLanguage := PerLanguage([], [], [], [])

  /** What each extractor has appended after the successfully scanned files
      `fs`, in order: every file's nodes go to its detected language only. */
  function Emitted(table: seq<(string, Language)>, fs: seq<FileEntry>): PerLanguage
  {
    if fs == [] then NoViews
    else
      var f := fs[|fs| - 1];
      match DetectWith(table, f.path)
      case None => Emitted(table, fs[..|fs| - 1])
      case Some(l) => Emitted(table, fs[..|fs| - 1]).Append(l, EmitFor(l, f.tree, f.relPath))
  }

  /** The list of language `l` is the concatenation, in order, of what each
      file detected as `l` emits. */
  lemma {:induction false} EmittedOf(table: seq<(string, Language)>, fs: seq<FileEntry>, l: Language)
    ensures Emitted(table, fs).Of(l) == ScanEmit(table, l, fs)
  {
    if fs != [] {
      EmittedOf(table, fs[..|fs| - 1], l);
    }
  }

  /** What the extractor for `lang` has appended after the successful files
      `fs`. */
  function ScanEmit(table: seq<(string, Language)>, lang: Language, fs: seq<FileEntry>): seq<NodeView>
  {
    if fs == [] then []
    else
      var f := fs[|fs| - 1];
      ScanEmit(table, lang, fs[..|fs| - 1]) + (if DetectWith(table, f.path) == Some(lang) then EmitFor(lang, f.tree, f.relPath) else [])
  }

  /** Only attempted files with the given outcome are listed, in walk order. */
  lemma {:induction false} OutcomesMembers(patterns: set<string>, parsers: set<Language>, table: seq<(string, Language)>, repo: string, fs: seq<FileEntry>, raises: bool)
    ensures |Outcomes(patterns, parsers, table, repo, fs, raises)| <= |fs|
    ensures forall f :: f in Outcomes(patterns, parsers, table, repo, fs, raises) ==>
              f in fs && Attempted(patterns, parsers, table, repo, f) && f.raises == raises
  {
    if fs != [] {
      OutcomesMembers(patterns, parsers, table, repo, fs[..|fs| - 1], raises);
      assert forall f :: f in fs[..|fs| - 1] ==> f in fs;
    }
  }

  /** The outcomes after one more file. */
  lemma OutcomesSnoc(patterns: set<string>, parsers: set<Language>, table: seq<(string, Language)>, repo: string, fs: seq<FileEntry>, i: nat, raises: bool)
    requires i < |fs|
    ensures Outcomes(patterns, parsers, table, repo, fs[..i + 1], raises)
            == Outcomes(patterns, parsers, table, repo, fs[..i], raises)
               + (if Attempted(patterns, parsers, table, repo, fs[i]) && fs[i].raises == raises then [fs[i]] else [])
  {
    assert fs[..i + 1][..i] == fs[..i];
  }

  /** What one more successful file adds. */
  lemma EmittedSnoc(table: seq<(string, Language)>, fs: seq<FileEntry>, f: FileEntry)
    requires DetectWith(table, f.path).Some?
    ensures Emitted(table, fs + [f]) == Emitted(table, fs).Append(DetectWith(table, f.path).value, EmitFor(DetectWith(table, f.path).value, f.tree, f.relPath))
  {
    assert (fs + [f])[..|fs|] == fs;
  }

  /** Appending to a list after concatenating is concatenating after
      appending. */
  lemma ConcatAppend(a: PerLanguage, b: PerLanguage, l: Language, s: seq<NodeView>)
    ensures a.Concat(b).Append(l, s) == a.Concat(b.Append(l, s))
  {
    match l
    case Python => AppendAssoc(a.python, b.python, s);
    case Java => AppendAssoc(a.java, b.java, s);
    case C => AppendAssoc(a.c, b.c, s);
    case Cpp => AppendAssoc(a.cpp, b.cpp, s);
  }

  /** One node list per language. */
  datatype NodeLists = NodeLists(python: seq<SemanticNode>, java: seq<SemanticNode>, c: seq<SemanticNode>, cpp: seq<SemanticNode>)
  {
    function Of(l: Language): seq<SemanticNode>
    {
      match l
      case Python => python
      case Java => java
      case C => c
      case Cpp => cpp
    }

    /** The list of `l` replaced by `s`; the other lists are unchanged. */
    function With(l: Language, s: seq<SemanticNode>): (r: NodeLists)
      ensures r.Of(l) == s
      ensures forall k :: k != l ==> r.Of(k) == Of(k)
    {
      match l
      case Python => this.(python := s)
      case Java => this.(java := s)
      case C => this.(c := s)
      case Cpp => this.(cpp := s)
    }
  }

  /** One node_map per language. */
  datatype NodeMaps = NodeMaps(python: map<string, SemanticNode>, java: map<string, SemanticNode>,
                               c: map<string, SemanticNode>, cpp: map<string, SemanticNode>)
  {
    function Of(l: Language): map<string, SemanticNode>
    {
      match l
      case Python => python
      case Java => java
      case C => c
      case Cpp => cpp
    }

    /** The map of `l` replaced by `m`; the other maps are unchanged. */
    function With(l: Language, m: map<string, SemanticNode>): (r: NodeMaps)
      ensures r.Of(l) == m
      ensures forall k :: k != l ==> r.Of(k) == Of(k)
    {
      match l
      case Python => this.(python := m)
      case Java => this.(java := m)
      case C => this.(c := m)
      case Cpp => this.(cpp := m)
    }
  }

  /** What scan_file appends to `nodes` for the successful files `oks`, in
      order: for each, the whole list of its language's extractor as it
      stood right after that file. The extractors started with lists
      holding the records `start` and end with the lists `lists`; after a
      file the list of its language `l` is the first `|start.Of(l)|` nodes
      plus one per record emitted for `l` so far. */
  function Appended(table: seq<(string, Language)>, start: PerLanguage, oks: seq<FileEntry>,
                    lists: NodeLists): seq<SemanticNode>
  {
    if oks == [] then []
    else
      Appended(table, start, oks[..|oks| - 1], lists)
      + Contribution(DetectWith(table, oks[|oks| - 1].path), start, lists, Emitted(table, oks))
  }

  /** What scan_file appends for a file detected as `d`, once the
      extractors have emitted `emitted` since the start: the list of its
      language as it stood then, its first nodes up to that count (all of
      it if it never grew that long). */
  function Contribution(d: Option<Language>, start: PerLanguage, lists: NodeLists, emitted: PerLanguage): seq<SemanticNode>
  {
    match d
    case None => []
    case Some(l) => Take(lists.Of(l), |start.Of(l)| + |emitted.Of(l)|)
  }

  /** What scan_file merges into `node_map` for the successful files `oks`,
      in order: for each, the node_map of its language's extractor as it
      stood right after that file, that is the extractor's starting map
      `maps.Of(l)` with the nodes it has added since registered over it.
      (The lists are never too short for a scanner's own extractors; the
      starting map stands in when they are.) */
  function AppendedMap(table: seq<(string, Language)>, start: PerLanguage, oks: seq<FileEntry>,
                       lists: NodeLists, maps: NodeMaps): map<string, SemanticNode>
  {
    if oks == [] then map[]
    else
      AppendedMap(table, start, oks[..|oks| - 1], lists, maps)
      + Merged(DetectWith(table, oks[|oks| - 1].path), start, lists, maps, Emitted(table, oks))
  }

  /** What scan_file merges for a file detected as `d`, once the extractors
      have emitted `emitted` since the start. */
  function Merged(d: Option<Language>, start: PerLanguage, lists: NodeLists, maps: NodeMaps, emitted: PerLanguage): map<string, SemanticNode>
  {
    match d
    case None => map[]
    case Some(l) => Since(maps.Of(l), lists.Of(l), |start.Of(l)|, emitted.Of(l))
  }

  /** The map `m` with the nodes of `list` from position `s0` on, holding
      the records `e`, registered over it. */
  function Since(m: map<string, SemanticNode>, list: seq<SemanticNode>, s0: nat, e: seq<NodeView>): map<string, SemanticNode>
  {
    if s0 + |e| <= |list| then Register(m, list[s0..s0 + |e|], e) else m
  }

  /** Only the part of each list already reached matters: lists that have
      grown since give the same appended nodes. */
  lemma {:induction false} AppendedFrame(table: seq<(string, Language)>, start: PerLanguage, oks: seq<FileEntry>,
                                         lists: NodeLists, lists': NodeLists)
    requires forall l :: lists.Of(l) <= lists'.Of(l) && |start.Of(l)| + |Emitted(table, oks).Of(l)| <= |lists.Of(l)|
    ensures Appended(table, start, oks, lists') == Appended(table, start, oks, lists)
  {
    if oks != [] {
      EmittedGrows(table, oks);
      AppendedFrame(table, start, oks[..|oks| - 1], lists, lists');
      ContributionFrame(DetectWith(table, oks[|oks| - 1].path), start, lists, lists', Emitted(table, oks));
    }
  }

  /** One file's contribution, likewise. */
  lemma ContributionFrame(d: Option<Language>, start: PerLanguage, lists: NodeLists, lists': NodeLists, emitted: PerLanguage)
    requires forall l :: lists.Of(l) <= lists'.Of(l) && |start.Of(l)| + |emitted.Of(l)| <= |lists.Of(l)|
    ensures Contribution(d, start, lists', emitted) == Contribution(d, start, lists, emitted)
  {
    if d.Some? {
      var l := d.value;
      PrefixFrame(lists.Of(l), lists'.Of(l), |start.Of(l)|, |start.Of(l)| + |emitted.Of(l)|);
    }
  }

  /** Likewise for the merged maps. */
  lemma {:induction false} AppendedMapFrame(table: seq<(string, Language)>, start: PerLanguage, oks: seq<FileEntry>,
                                            lists: NodeLists, lists': NodeLists, maps: NodeMaps)
    requires forall l :: lists.Of(l) <= lists'.Of(l) && |start.Of(l)| + |Emitted(table, oks).Of(l)| <= |lists.Of(l)|
    ensures AppendedMap(table, start, oks, lists', maps) == AppendedMap(table, start, oks, lists, maps)
  {
    if oks != [] {
      EmittedGrows(table, oks);
      AppendedMapFrame(table, start, oks[..|oks| - 1], lists, lists', maps);
      MergedFrame(DetectWith(table, oks[|oks| - 1].path), start, lists, lists', maps, Emitted(table, oks));
    }
  }

  /** One file's merged map, likewise. */
  lemma MergedFrame(d: Option<Language>, start: PerLanguage, lists: NodeLists, lists': NodeLists, maps: NodeMaps,
                    emitted: PerLanguage)
    requires forall l :: lists.Of(l) <= lists'.Of(l) && |start.Of(l)| + |emitted.Of(l)| <= |lists.Of(l)|
    ensures Merged(d, start, lists', maps, emitted) == Merged(d, start, lists, maps, emitted)
  {
    if d.Some? {
      var l := d.value;
      SinceFrame(maps.Of(l), lists.Of(l), lists'.Of(l), |start.Of(l)|, emitted.Of(l));
    }
  }

  /** Registering from a list that has grown since gives the same map. */
  lemma SinceFrame(m: map<string, SemanticNode>, a: seq<SemanticNode>, b: seq<SemanticNode>, s0: nat, e: seq<NodeView>)
    requires a <= b && s0 + |e| <= |a|
    ensures Since(m, b, s0, e) == Since(m, a, s0, e)
  {
    assert b[s0..s0 + |e|] == a[s0..s0 + |e|];
  }

  /** The lists emitted after the files before the last are no longer. */
  lemma EmittedGrows(table: seq<(string, Language)>, oks: seq<FileEntry>)
    requires oks != []
    ensures forall l :: |Emitted(table, oks[..|oks| - 1]).Of(l)| <= |Emitted(table, oks).Of(l)|
  {
  }

  /** Within the part of `a` that `b` extends, the two agree. */
  lemma PrefixFrame(a: seq<SemanticNode>, b: seq<SemanticNode>, i: nat, n: nat)
    requires a <= b && i <= n <= |a|
    ensures Take(b, n) == Take(a, n) && b[i..n] == a[i..n]
  {
  }

  /** One more successful file of language `L`, whose extractor's list now
      holds everything emitted for `L`, appends that whole list and merges
      that extractor's map as registered since the start. */
  lemma AppendedSnoc(table: seq<(string, Language)>, start: PerLanguage, oks: seq<FileEntry>, f: FileEntry,
                     lists: NodeLists, lists': NodeLists, maps: NodeMaps, L: Language)
    requires DetectWith(table, f.path) == Some(L)
    requires forall l :: lists.Of(l) <= lists'.Of(l) && |start.Of(l)| + |Emitted(table, oks).Of(l)| <= |lists.Of(l)|
    requires |lists'.Of(L)| == |start.Of(L)| + |Emitted(table, oks + [f]).Of(L)|
    ensures Appended(table, start, oks + [f], lists') == Appended(table, start, oks, lists) + lists'.Of(L)
    ensures AppendedMap(table, start, oks + [f], lists', maps)
            == AppendedMap(table, start, oks, lists, maps)
               + Register(maps.Of(L), lists'.Of(L)[|start.Of(L)|..], Emitted(table, oks + [f]).Of(L))
  {
    AppendedFrame(table, start, oks, lists, lists');
    AppendedMapFrame(table, start, oks, lists, lists', maps);
    AppendedUnfold(table, start, oks, f, lists');
    assert Contribution(Some(L), start, lists', Emitted(table, oks + [f])) == lists'.Of(L);
    AppendedMapUnfold(table, start, oks, f, lists', maps);
    SinceAll(maps.Of(L), lists'.Of(L), |start.Of(L)|, Emitted(table, oks + [f]).Of(L));
  }

  /** The last successful file, of language `L`, contributes its
      extractor's list as it stood after it. */
  lemma AppendedUnfold(table: seq<(string, Language)>, start: PerLanguage, oks: seq<FileEntry>, f: FileEntry, lists: NodeLists)
    ensures Appended(table, start, oks + [f], lists)
            == Appended(table, start, oks, lists) + Contribution(DetectWith(table, f.path), start, lists, Emitted(table, oks + [f]))
  {
    assert (oks + [f])[..|oks|] == oks;
  }

  /** Likewise for the merged maps. */
  lemma AppendedMapUnfold(table: seq<(string, Language)>, start: PerLanguage, oks: seq<FileEntry>, f: FileEntry,
                          lists: NodeLists, maps: NodeMaps)
    ensures AppendedMap(table, start, oks + [f], lists, maps)
            == AppendedMap(table, start, oks, lists, maps) + Merged(DetectWith(table, f.path), start, lists, maps, Emitted(table, oks + [f]))
  {
    assert (oks + [f])[..|oks|] == oks;
  }

  /** When the list ends exactly after the records `e`, all its nodes from
      `s0` on are registered. */
  lemma SinceAll(m: map<string, SemanticNode>, list: seq<SemanticNode>, s0: nat, e: seq<NodeView>)
    requires s0 + |e| == |list|
    ensures Since(m, list, s0, e) == Register(m, list[s0..], e)
  {
    assert list[s0..s0 + |e|] == list[s0..];
  }

  /** Registering the nodes added since `s0` in two rounds is registering
      them at once. */
  lemma RegisterGrows(m0: map<string, SemanticNode>, before: seq<SemanticNode>, after: seq<SemanticNode>, s0: nat,
                      e0: seq<NodeView>, e: seq<NodeView>)
    requires s0 <= |before| && before <= after && |before| - s0 == |e0| && |after| - |before| == |e|
    ensures Register(Register(m0, before[s0..], e0), after[|before|..], e) == Register(m0, after[s0..], e0 + e)
  {
    assert before[s0..] + after[|before|..] == after[s0..];
    RegisterAppend(m0, before[s0..], after[|before|..], e0, e);
  }

  /** Where scan_repository stands after the successful files `oks`: the
      extractors, which started with the lists `lists0` (holding the records
      `start`) and the maps `maps0`, have only grown, to the lists `lists`
      holding one node per record emitted since and the maps `maps` with
      those nodes registered; the scanner, which started with `nodes0` and
      `map0`, holds what scan_file appended and merged for each file. */
  predicate ScannedSoFar(table: seq<(string, Language)>, start: PerLanguage, lists0: NodeLists,
                         maps0: NodeMaps, nodes0: seq<SemanticNode>, map0: map<string, SemanticNode>, oks: seq<FileEntry>,
                         lists: NodeLists, maps: NodeMaps, nodes: seq<SemanticNode>, nodeMap: map<string, SemanticNode>)
  {
    && (forall l :: lists0.Of(l) <= lists.Of(l) && |lists.Of(l)| == |start.Of(l)| + |Emitted(table, oks).Of(l)|)
    && nodes == nodes0 + Appended(table, start, oks, lists)
    && nodeMap == map0 + AppendedMap(table, start, oks, lists, maps0)
    && (forall l :: maps.Of(l) == Register(maps0.Of(l), lists.Of(l)[|start.Of(l)|..], Emitted(table, oks).Of(l)))
  }

  /** A successful file of language `L`: its extractor's list grows to
      `list'` by one node per record the file emits and its map to `m'`,
      the scanner appends `list'` and merges `m'`. */
  lemma ScannedStep(table: seq<(string, Language)>, start: PerLanguage, lists0: NodeLists,
                    maps0: NodeMaps, nodes0: seq<SemanticNode>, map0: map<string, SemanticNode>, oks: seq<FileEntry>,
                    lists: NodeLists, maps: NodeMaps, nodes: seq<SemanticNode>, nodeMap: map<string, SemanticNode>,
                    f: FileEntry, L: Language, list': seq<SemanticNode>, m': map<string, SemanticNode>)
    requires ScannedSoFar(table, start, lists0, maps0, nodes0, map0, oks, lists, maps, nodes, nodeMap)
    requires DetectWith(table, f.path) == Some(L)
    requires lists.Of(L) <= list' && |list'| == |lists.Of(L)| + |EmitFor(L, f.tree, f.relPath)|
    requires m' == Register(maps.Of(L), list'[|lists.Of(L)|..], EmitFor(L, f.tree, f.relPath))
    ensures ScannedSoFar(table, start, lists0, maps0, nodes0, map0, oks + [f],
                         lists.With(L, list'), maps.With(L, m'), nodes + list', nodeMap + m')
  {
    var e := EmitFor(L, f.tree, f.relPath);
    var lists', maps' := lists.With(L, list'), maps.With(L, m');
    EmittedSnoc(table, oks, f);
    assert Emitted(table, oks + [f]).Of(L) == Emitted(table, oks).Of(L) + e;
    assert forall l :: l != L ==> Emitted(table, oks + [f]).Of(l) == Emitted(table, oks).Of(l);
    forall l
      ensures lists0.Of(l) <= lists'.Of(l) && |lists'.Of(l)| == |start.Of(l)| + |Emitted(table, oks + [f]).Of(l)|
    {
    }
    forall l
      ensures maps'.Of(l) == Register(maps0.Of(l), lists'.Of(l)[|start.Of(l)|..], Emitted(table, oks + [f]).Of(l))
    {
      if l == L {
        RegisterGrows(maps0.Of(L), lists.Of(L), list', |start.Of(L)|, Emitted(table, oks).Of(L), e);
      }
    }
    AppendedSnoc(table, start, oks, f, lists, lists', maps0, L);
    AppendAssoc(nodes0, Appended(table, start, oks, lists), list');
    MergeAssoc(map0, AppendedMap(table, start, oks, lists, maps0), m');
  }

  lemma MergeAssoc<K, V>(a: map<K, V>, b: map<K, V>, c: map<K, V>)
    ensures (a + b) + c == a + (b + c)
  {
    var l, r := (a + b) + c, a + (b + c);
    assert l.Keys == r.Keys;
    forall k | k in l.Keys
      ensures l[k] == r[k]
    {
    }
  }

  /** `extractor.extract(tree, filepath)` for the extractor of `lang`: the
      registry's list grows by the file's nodes, which it returns whole. */
  method Extract(lang: Language, reg: Registry, tree: Tree, rel: string) returns (extracted: seq<SemanticNode>)
    requires reg.Valid()
    modifies reg
    ensures reg.Valid() && extracted == reg.nodes
    ensures old(reg.nodes) <= reg.nodes
    ensures reg.views == old(reg.views) + EmitFor(lang, tree, rel)
    ensures reg.nodeMap == Register(old(reg.nodeMap), reg.nodes[|old(reg.nodes)|..], EmitFor(lang, tree, rel))
  {
    match lang {
      case Python => extracted := PythonExtractor.Extract(reg, tree, rel);
      case Java => extracted := JavaExtractor.Extract(reg, tree, rel);
      case C => extracted := CExtractor.Extract(reg, tree, rel);
      case Cpp => extracted := CppExtractor.Extract(reg, tree, rel);
    }
  }

  class RepositoryScanner {
    var nodes: seq<SemanticNode>
    var nodeMap: map<string, SemanticNode>
    var fileCount: nat
    var errorCount: nat
    const ignorePatterns: set<string>
    /** The languages whose parser loaded (the keys of `self.parsers`). */
    const parsers: set<Language>
    /** The table `self.detector` looks extensions up in. */
    const detector: seq<(string, Language)>
    /** `self.extractors`: one extractor, with its own nodes and node_map, per language. */
    const python: Registry
    const java: Registry
    const c: Registry
    const cpp: Registry

    function Extractor(lang: Language): Registry
    {
      match lang
      case Python => python
      case Java => java
      case C => c
      case Cpp => cpp
    }

    /** The four extractors are distinct objects. */
    predicate Distinct()
    {
      python != java && python != c && python != cpp && java != c && java != cpp && c != cpp
    }

    ghost predicate Valid()
      reads python, java, c, cpp
      reads set n | n in python.nodes, set n | n in java.nodes
      reads set n | n in c.nodes, set n | n in cpp.nodes
    {
      Distinct() && python.Valid() && java.Valid() && c.Valid() && cpp.Valid()
    }

    /** What each extractor has recorded so far. */
    ghost function Views(): PerLanguage
      reads python, java, c, cpp
    {
      PerLanguage(python.views, java.views, c.views, cpp.views)
    }

    /** Each extractor's `nodes` list. */
    function Objects(): NodeLists
      reads python, java, c, cpp
    {
      NodeLists(python.nodes, java.nodes, c.nodes, cpp.nodes)
    }

    /** Each extractor's `node_map`. */
    function Maps(): NodeMaps
      reads python, java, c, cpp
    {
      NodeMaps(python.nodeMap, java.nodeMap, c.nodeMap, cpp.nodeMap)
    }

    /** `RepositoryScanner(ignore_patterns)`, with `parsers` the languages
        whose parser loads: the ignore set is the defaults plus the user's
        patterns, and all collections and counters start empty. */
    constructor (userPatterns: seq<string>, parsers: set<Language>)
      ensures Valid() && Views() == NoViews
      ensures ignorePatterns == DefaultIgnore + (set p | p in userPatterns) && this.parsers == parsers
      ensures detector == LanguageMap
      ensures nodes == [] && nodeMap == map[] && fileCount == 0 && errorCount == 0
      ensures forall l :: Extractor(l).nodes == [] && Extractor(l).nodeMap == map[]
    {
      nodes := [];
      nodeMap := map[];
      fileCount := 0;
      errorCount := 0;
      var patterns := DefaultIgnore;
      if userPatterns != [] {
        patterns := patterns + (set p | p in userPatterns);
      }
      ignorePatterns := patterns;
      this.parsers := parsers;
      detector := LanguageMap;
      python := new Registry();
      java := new Registry();
      c := new Registry();
      cpp := new Registry();
    }

    /** `scan_file`: the extractor for `lang` extracts the tree under the
        relative path; its whole accumulated list (earlier files of the same
        language included) is appended to `nodes`, and its whole node_map
        is merged into `node_map`. */
    method ScanFile(rel: string, lang: Language, tree: Tree)
      requires Valid()
      modifies this, Extractor(lang)
      ensures Valid() && Views() == old(Views()).Append(lang, EmitFor(lang, tree, rel))
      ensures nodes == old(nodes) + Extractor(lang).nodes
      ensures nodeMap == old(nodeMap) + Extractor(lang).nodeMap
      ensures fileCount == old(fileCount) && errorCount == old(errorCount)
      ensures Objects() == old(Objects()).With(lang, Extractor(lang).nodes)
      ensures Maps() == old(Maps()).With(lang, Extractor(lang).nodeMap)
      ensures old(Objects()).Of(lang) <= Extractor(lang).nodes
      ensures |Extractor(lang).nodes| == |old(Objects()).Of(lang)| + |EmitFor(lang, tree, rel)|
      ensures Extractor(lang).nodeMap
              == Register(old(Maps()).Of(lang), Extractor(lang).nodes[|old(Objects()).Of(lang)|..], EmitFor(lang, tree, rel))
    {
      var extractor := Extractor(lang);
      var extracted := Extract(lang, extractor, tree, rel);
      nodes := nodes + extracted;
      nodeMap := nodeMap + extractor.nodeMap;
    }

    /** One step of the walk for the file `f`: after the directory pruning,
        should_ignore, detect and the parser lookup (in that order), a file
        whose reading or parsing raises increments the error counter, and
        any other is scanned and increments the file counter. Only a
        scanned file changes the lists and maps, and only those of its
        language's extractor. */
    method ScanOne(repo: string, f: FileEntry)
      requires Valid()
      modifies this, python, java, c, cpp
      ensures Valid()
      ensures Attempted(ignorePatterns, parsers, detector, repo, f) && !f.raises ==>
                var L := DetectWith(detector, f.path).value;
                && fileCount == old(fileCount) + 1 && errorCount == old(errorCount)
                && Views() == old(Views()).Append(L, EmitFor(L, f.tree, f.relPath))
                && nodes == old(nodes) + Extractor(L).nodes
                && nodeMap == old(nodeMap) + Extractor(L).nodeMap
                && Objects() == old(Objects()).With(L, Extractor(L).nodes)
                && Maps() == old(Maps()).With(L, Extractor(L).nodeMap)
                && old(Objects()).Of(L) <= Extractor(L).nodes
                && |Extractor(L).nodes| == |old(Objects()).Of(L)| + |EmitFor(L, f.tree, f.relPath)|
                && Extractor(L).nodeMap
                   == Register(old(Maps()).Of(L), Extractor(L).nodes[|old(Objects()).Of(L)|..], EmitFor(L, f.tree, f.relPath))
      ensures !(Attempted(ignorePatterns, parsers, detector, repo, f) && !f.raises) ==>
                && nodes == old(nodes) && nodeMap == old(nodeMap)
                && Views() == old(Views()) && Objects() == old(Objects()) && Maps() == old(Maps())
      ensures Attempted(ignorePatterns, parsers, detector, repo, f) && f.raises ==>
                fileCount == old(fileCount) && errorCount == old(errorCount) + 1
      ensures !Attempted(ignorePatterns, parsers, detector, repo, f) ==>
                fileCount == old(fileCount) && errorCount == old(errorCount)
    {
      if Attempted(ignorePatterns, parsers, detector, repo, f) {
        var language := DetectWith(detector, f.path).value;
        if f.raises {
          errorCount := errorCount + 1;
        } else {
          ScanFile(f.relPath, language, f.tree);
          fileCount := fileCount + 1;
        }
      }
    }

    /** `scan_repository(repo_path)` over the files os.walk reaches, in walk
        order: each attempted file increments exactly one counter; each
        extractor has appended what its language's successful files emit,
        and only grows; `nodes` grows by, for each successful file, its
        extractor's whole list as it stood after that file, and `node_map`
        is merged with that extractor's map as it stood then; no call graph
        is built. */
    method ScanRepository(repo: string, files: seq<FileEntry>) returns (result: seq<SemanticNode>)
      requires Valid()
      modifies this, python, java, c, cpp
      ensures Valid() && result == nodes
      ensures fileCount == old(fileCount) + |Outcomes(ignorePatterns, parsers, detector, repo, files, false)|
      ensures errorCount == old(errorCount) + |Outcomes(ignorePatterns, parsers, detector, repo, files, true)|
      ensures Views() == old(Views()).Concat(Emitted(detector, Outcomes(ignorePatterns, parsers, detector, repo, files, false)))
      ensures forall l :: old(Objects()).Of(l) <= Objects().Of(l)
      ensures nodes == old(nodes) + Appended(detector, old(Views()), Outcomes(ignorePatterns, parsers, detector, repo, files, false), Objects())
      ensures nodeMap == old(nodeMap) + AppendedMap(detector, old(Views()), Outcomes(ignorePatterns, parsers, detector, repo, files, false), Objects(), old(Maps()))
    {
      ghost var start, lists0, maps0 := Views(), Objects(), Maps();
      var i := 0;
      assert files[..0] == [];
      while i < |files|
        invariant 0 <= i <= |files|
        invariant Valid()
        invariant fileCount == old(fileCount) + |Outcomes(ignorePatterns, parsers, detector, repo, files[..i], false)|
        invariant errorCount == old(errorCount) + |Outcomes(ignorePatterns, parsers, detector, repo, files[..i], true)|
        invariant Views() == start.Concat(Emitted(detector, Outcomes(ignorePatterns, parsers, detector, repo, files[..i], false)))
        invariant ScannedSoFar(detector, start, lists0, maps0, old(nodes), old(nodeMap),
                               Outcomes(ignorePatterns, parsers, detector, repo, files[..i], false), Objects(), Maps(), nodes, nodeMap)
      {
        var f := files[i];
        ghost var ok := Outcomes(ignorePatterns, parsers, detector, repo, files[..i], false);
        ghost var ok' := Outcomes(ignorePatterns, parsers, detector, repo, files[..i + 1], false);
        ghost var lists, maps, nodesBefore, mapBefore := Objects(), Maps(), nodes, nodeMap;
        OutcomesSnoc(ignorePatterns, parsers, detector, repo, files, i, false);
        OutcomesSnoc(ignorePatterns, parsers, detector, repo, files, i, true);
        ghost var success := Attempted(ignorePatterns, parsers, detector, repo, f) && !f.raises;
        ScanOne(repo, f);
        if success {
          var lang := DetectWith(detector, f.path).value;
          var e := EmitFor(lang, f.tree, f.relPath);
          EmittedSnoc(detector, ok, f);
          ConcatAppend(start, Emitted(detector, ok), lang, e);
          ScannedStep(detector, start, lists0, maps0, old(nodes), old(nodeMap), ok, lists, maps, nodesBefore, mapBefore,
                      f, lang, Extractor(lang).nodes, Extractor(lang).nodeMap);
          assert ok' == ok + [f];
        } else {
          assert ok' == ok;
        }
        i := i + 1;
      }
      assert files[..|files|] == files;
      result := nodes;
    }

    /** `get_statistics()`. */
    method GetStats() returns (stats: Stats)
      ensures stats.totalFiles == fileCount
      ensures forall k :: stats.totals.Get(k) == CountKind(Tags(nodes), k)
      ensures stats.byLanguage == ByLanguage(Tags(nodes), AllKinds) && stats.files == ByFile(Tags(nodes), AllKinds)
    {
      stats := GetStatistics(Tags(nodes), fileCount, AllKinds);
    }
  }
}
