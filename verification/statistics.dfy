/** get_statistics: node counts overall, per language and per file. The
    extractor-based scanner counts all five kinds; the single-file scanner
    counts only classes, functions and methods. */
module Statistics {
  import opened SemanticNodes

  /** One counter per kind (`classes`, `enums`, `interfaces`, `functions`,
      `methods`). */
  datatype Counts = Counts(classes: nat, enums: nat, interfaces: nat, functions: nat, methods: nat)
  {
    function Get(k: Kind): nat
    {
      match k
      case Class => classes
      case Enum => enums
      case Interface => interfaces
      case Function => functions
      case Method => methods
    }

    /** `counts[plural(k)] += 1` */
    function Inc(k: Kind): (r: Counts)
      ensures r.Get(k) == Get(k) + 1
      ensures forall j :: j != k ==> r.Get(j) == Get(j)
    {
      match k
      case Class => this.(classes := classes + 1)
      case Enum => this.(enums := enums + 1)
      case Interface => this.(interfaces := interfaces + 1)
      case Function => this.(functions := functions + 1)
      case Method => this.(methods := methods + 1)
    }
  }

  const Zero := Counts(0, 0, 0, 0, 0)

  /** What a node contributes to the statistics. */
  datatype Tag = Tag(kind: Kind, language: Language, filepath: string)

  function TagOf(n: SemanticNode): Tag
    reads n
  {
    Tag(n.kind, n.language, n.filepath)
  }

  function Tags(nodes: seq<SemanticNode>): (r: seq<Tag>)
    reads set n | n in nodes
    ensures |r| == |nodes| && forall i :: 0 <= i < |nodes| ==> r[i] == TagOf(nodes[i])
  {
    seq(|nodes|, i reads set n | n in nodes requires 0 <= i < |nodes| => TagOf(nodes[i]))
  }

  /** Which kinds a scanner's statistics count: all five, or (in the
      single-file scanner) classes, functions and methods only. */
  datatype Scope = AllKinds | ClassesAndCallables
  {
    predicate Counts(k: Kind)
    {
      this == AllKinds || k == Class || k == Function || k == Method
    }
  }

  /** The number of tags of kind `k` (`len([n for n in nodes if n.node_type == k])`). */
  function CountKind(ts: seq<Tag>, k: Kind): nat
  {
    if ts == [] then 0 else CountKind(ts[..|ts| - 1], k) + (if ts[|ts| - 1].kind == k then 1 else 0)
  }

  function CountLanguage(ts: seq<Tag>, l: Language, k: Kind): nat
  {
    if ts == [] then 0
    else CountLanguage(ts[..|ts| - 1], l, k) + (if ts[|ts| - 1].kind == k && ts[|ts| - 1].language == l then 1 else 0)
  }

  function CountFile(ts: seq<Tag>, f: string, k: Kind): nat
  {
    if ts == [] then 0
    else CountFile(ts[..|ts| - 1], f, k) + (if ts[|ts| - 1].kind == k && ts[|ts| - 1].filepath == f then 1 else 0)
  }

  /** The statistics dictionary. */
  datatype Stats = Stats(totalFiles: nat, totals: Counts, byLanguage: map<Language, Counts>, files: map<string, Counts>)

  /** `counts[key]`, where a defaultdict gives all-zero counters to a new key. */
  function Lookup<K>(m: map<K, Counts>, key: K): Counts
  {
    if key in m then m[key] else Zero
  }

  /** by_language after the loop has seen `ts`. */
  function ByLanguage(ts: seq<Tag>, scope: Scope): map<Language, Counts>
  {
    if ts == [] then map[]
    else
      var m := ByLanguage(ts[..|ts| - 1], scope);
      var t := ts[|ts| - 1];
      if scope.Counts(t.kind) then m[t.language := Lookup(m, t.language).Inc(t.kind)] else m
  }

  /** files after the loop has seen `ts`. */
  function ByFile(ts: seq<Tag>, scope: Scope): map<string, Counts>
  {
    if ts == [] then map[]
    else
      var m := ByFile(ts[..|ts| - 1], scope);
      var t := ts[|ts| - 1];
      if scope.Counts(t.kind) then m[t.filepath := Lookup(m, t.filepath).Inc(t.kind)] else m
  }

  /** A language is a by_language key exactly when some counted node has it,
      and its counter of a counted kind is the number of such nodes. */
  lemma {:induction false} ByLanguageKeys(ts: seq<Tag>, scope: Scope, l: Language)
    ensures l in ByLanguage(ts, scope) <==> exists i :: 0 <= i < |ts| && ts[i].language == l && scope.Counts(ts[i].kind)
  {
    if ts != [] {
      var init := ts[..|ts| - 1];
      ByLanguageKeys(init, scope, l);
      if exists i :: 0 <= i < |init| && init[i].language == l && scope.Counts(init[i].kind) {
        var i :| 0 <= i < |init| && init[i].language == l && scope.Counts(init[i].kind);
        assert ts[i] == init[i];
      }
      if exists i :: 0 <= i < |ts| && ts[i].language == l && scope.Counts(ts[i].kind) {
        var i :| 0 <= i < |ts| && ts[i].language == l && scope.Counts(ts[i].kind);
        if i < |init| {
          assert init[i] == ts[i];
        }
      }
    }
  }

  lemma {:induction false} ByLanguageCount(ts: seq<Tag>, scope: Scope, l: Language, k: Kind)
    ensures Lookup(ByLanguage(ts, scope), l).Get(k) == (if scope.Counts(k) then CountLanguage(ts, l, k) else 0)
  {
    if ts != [] {
      ByLanguageCount(ts[..|ts| - 1], scope, l, k);
    }
  }

  /** The same for files and their paths. */
  lemma {:induction false} ByFileKeys(ts: seq<Tag>, scope: Scope, f: string)
    ensures f in ByFile(ts, scope) <==> exists i :: 0 <= i < |ts| && ts[i].filepath == f && scope.Counts(ts[i].kind)
  {
    if ts != [] {
      var init := ts[..|ts| - 1];
      ByFileKeys(init, scope, f);
      if exists i :: 0 <= i < |init| && init[i].filepath == f && scope.Counts(init[i].kind) {
        var i :| 0 <= i < |init| && init[i].filepath == f && scope.Counts(init[i].kind);
        assert ts[i] == init[i];
      }
      if exists i :: 0 <= i < |ts| && ts[i].filepath == f && scope.Counts(ts[i].kind) {
        var i :| 0 <= i < |ts| && ts[i].filepath == f && scope.Counts(ts[i].kind);
        if i < |init| {
          assert init[i] == ts[i];
        }
      }
    }
  }

  lemma {:induction false} ByFileCount(ts: seq<Tag>, scope: Scope, f: string, k: Kind)
    ensures Lookup(ByFile(ts, scope), f).Get(k) == (if scope.Counts(k) then CountFile(ts, f, k) else 0)
  {
    if ts != [] {
      ByFileCount(ts[..|ts| - 1], scope, f, k);
    }
  }

  /** `get_statistics()` over the tags of the scanner's nodes: totals by list
      comprehension, then one loop that increments the language and file
      counters of every counted node (a key appears once it is first used). */
  method GetStatistics(ts: seq<Tag>, fileCount: nat, scope: Scope) returns (stats: Stats)
    ensures stats.totalFiles == fileCount
    ensures forall k :: stats.totals.Get(k) == (if scope.Counts(k) then CountKind(ts, k) else 0)
    ensures stats.byLanguage == ByLanguage(ts, scope) && stats.files == ByFile(ts, scope)
  {
    var totals := Counts(CountKind(ts, Class),
                         if scope == AllKinds then CountKind(ts, Enum) else 0,
                         if scope == AllKinds then CountKind(ts, Interface) else 0,
                         CountKind(ts, Function), CountKind(ts, Method));
    var byLanguage: map<Language, Counts> := map[];
    var files: map<string, Counts> := map[];
    var i := 0;
    while i < |ts|
      invariant 0 <= i <= |ts|
      invariant byLanguage == ByLanguage(ts[..i], scope) && files == ByFile(ts[..i], scope)
    {
      var t := ts[i];
      assert ts[..i + 1][..i] == ts[..i];
      if scope.Counts(t.kind) {
        var lc := if t.language in byLanguage then byLanguage[t.language] else Zero;
        byLanguage := byLanguage[t.language := lc.Inc(t.kind)];
        var fc := if t.filepath in files then files[t.filepath] else Zero;
        files := files[t.filepath := fc.Inc(t.kind)];
      }
      i := i + 1;
    }
    assert ts[..|ts|] == ts;
    stats := Stats(fileCount, totals, byLanguage, files);
  }

  // ----- every node is counted exactly once -----

  /** The per-language counters of one kind add up to its total: each node
      increments exactly one by_language counter. */
  lemma {:induction false} LanguagesPartition(ts: seq<Tag>, k: Kind)
    ensures CountLanguage(ts, Python, k) + CountLanguage(ts, Java, k) + CountLanguage(ts, C, k)
            + CountLanguage(ts, Cpp, k) == CountKind(ts, k)
  {
    if ts != [] {
      LanguagesPartition(ts[..|ts| - 1], k);
    }
  }

  /** The five totals add up to the number of nodes: each node has exactly one
      kind. */
  lemma {:induction false} KindsPartition(ts: seq<Tag>)
    ensures CountKind(ts, Class) + CountKind(ts, Enum) + CountKind(ts, Interface)
            + CountKind(ts, Function) + CountKind(ts, Method) == |ts|
  {
    if ts != [] {
      KindsPartition(ts[..|ts| - 1]);
    }
  }

  /** A file's counter of one kind never exceeds that kind's total, and a file
      without nodes has none. */
  lemma {:induction false} FileBounded(ts: seq<Tag>, f: string, k: Kind)
    ensures CountFile(ts, f, k) <= CountLanguage(ts, Python, k) + CountLanguage(ts, Java, k)
                                   + CountLanguage(ts, C, k) + CountLanguage(ts, Cpp, k)
    ensures (forall j :: 0 <= j < |ts| ==> ts[j].filepath != f) ==> CountFile(ts, f, k) == 0
  {
    if ts != [] {
      FileBounded(ts[..|ts| - 1], f, k);
    }
  }
}
