/** The analysis half of pr_context_retrieval.py: ChangedFunction naming,
    DiffAnalyzer.find_changed_functions, ContextBuilder.build_context and
    PRContextRetriever._analyze_impact, over the scanner's `nodes` list and
    `node_map`. */
module PrContext {
  import opened Text
  import opened SemanticNodes
  import opened PrDiffParsing

  // ----- ChangedFunction -----

  /** A ChangedFunction. */
  datatype ChangedFunction = ChangedFunction(filepath: string, functionName: string, parentClass: Option<string>,
                                             qualifiedName: string, fullPath: string)

  /** `ChangedFunction(filepath, function_name, parent_class)`: qualified by
      the parent class when one is given (a non-empty name), keyed by
      `filepath::qualified`. */
  function NewChangedFunction(filepath: string, functionName: string, parentClass: Option<string>): (cf: ChangedFunction)
    ensures cf.filepath == filepath && cf.functionName == functionName && cf.parentClass == parentClass
    ensures cf.fullPath == PathKey(filepath, cf.qualifiedName)
  {
    var q := if Truthy(parentClass) then Dotted(parentClass.value, functionName) else functionName;
    ChangedFunction(filepath, functionName, parentClass, q, PathKey(filepath, q))
  }

  /** The key of the ChangedFunction made from a node. */
  function Key(n: SemanticNode): string
    reads n
  {
    NewChangedFunction(n.filepath, n.name, n.parentClass).fullPath
  }

  /** The ChangedFunction of a callable node that an extractor recorded is
      keyed by the node's own full path, so it finds the node in node_map. */
  lemma SameKeyAsExtractor(v: NodeView, fp: string)
    requires Qualified(v, fp) && v.kind.IsCallable()
    ensures NewChangedFunction(fp, v.name, v.parentClass).fullPath == v.fullPath.value
    ensures NewChangedFunction(fp, v.name, v.parentClass).qualifiedName == v.qualifiedName.value
  {
  }

  // ----- find_changed_functions -----

  /** `[n for n in nodes if n.filepath == filepath and n.node_type in
      ['function', 'method']]` */
  function FileNodes(nodes: seq<SemanticNode>, filepath: Option<string>): (r: seq<SemanticNode>)
    reads set n | n in nodes
    ensures forall j :: 0 <= j < |r| ==> r[j] in nodes
  {
    if nodes == [] then []
    else
      var n := nodes[|nodes| - 1];
      FileNodes(nodes[..|nodes| - 1], filepath) + if filepath == Some(n.filepath) && n.kind.IsCallable() then [n] else []
  }

  /** A node is among the file's nodes exactly when it is a listed
      function or method of that file. */
  lemma {:induction false} FileNodesMember(nodes: seq<SemanticNode>, filepath: Option<string>, x: SemanticNode)
    ensures x in FileNodes(nodes, filepath) <==> x in nodes && filepath == Some(x.filepath) && x.kind.IsCallable()
  {
    if nodes != [] {
      var init := nodes[..|nodes| - 1];
      FileNodesMember(init, filepath, x);
      assert nodes == init + [nodes[|nodes| - 1]];
    }
  }

  /** `affected_lines & function_lines` is not empty: some line is both in
      `range(new_start, new_start + new_count)` and in
      `range(start_line, end_line + 1)`. */
  predicate Meets(h: DiffHunk, n: SemanticNode)
    reads n
  {
    exists x :: h.newStart <= x < h.newStart + h.newCount && Between(x, n.startLine, n.endLine)
  }

  /** `x in range(start, end + 1)` */
  predicate Between(x: int, start: int, end: int)
  {
    start <= x <= end
  }

  /** The two ranges meet exactly when both are non-empty and each starts
      before the other ends. */
  lemma MeetsIff(h: DiffHunk, n: SemanticNode)
    ensures Meets(h, n) <==>
            h.newCount > 0 && n.startLine <= n.endLine && h.newStart <= n.endLine && n.startLine < h.newStart + h.newCount
  {
    if h.newCount > 0 && n.startLine <= n.endLine && h.newStart <= n.endLine && n.startLine < h.newStart + h.newCount {
      var x := if h.newStart < n.startLine then n.startLine else h.newStart;
      assert h.newStart <= x < h.newStart + h.newCount && Between(x, n.startLine, n.endLine);
    }
  }

  /** Some entry of `acc` has full path `p`. */
  predicate Listed(acc: seq<ChangedFunction>, p: string)
  {
    exists j :: 0 <= j < |acc| && acc[j].fullPath == p
  }

  /** `if not any(cf.full_path == changed_func.full_path ...): append` */
  function Offer(acc: seq<ChangedFunction>, cf: ChangedFunction): seq<ChangedFunction>
  {
    if Listed(acc, cf.fullPath) then acc else acc + [cf]
  }

  /** The innermost loop, over the file's nodes, for one hunk. */
  function OverNodes(acc: seq<ChangedFunction>, h: DiffHunk, ns: seq<SemanticNode>): seq<ChangedFunction>
    reads set n | n in ns
  {
    if ns == [] then acc
    else
      var r := OverNodes(acc, h, ns[..|ns| - 1]);
      var n := ns[|ns| - 1];
      if Meets(h, n) then Offer(r, NewChangedFunction(n.filepath, n.name, n.parentClass)) else r
  }

  /** The loop over the hunks of one file. */
  function OverHunks(acc: seq<ChangedFunction>, hs: seq<DiffHunk>, ns: seq<SemanticNode>): seq<ChangedFunction>
    reads set n | n in ns
  {
    if hs == [] then acc else OverNodes(OverHunks(acc, hs[..|hs| - 1], ns), hs[|hs| - 1], ns)
  }

  /** The loop over the files, deleted ones skipped. The ChangedFunction's
      file path is the diff's new path, which every file node carries. */
  function OverFiles(acc: seq<ChangedFunction>, files: seq<FileDiff>, nodes: seq<SemanticNode>): seq<ChangedFunction>
    reads set n | n in nodes
  {
    if files == [] then acc
    else
      var r := OverFiles(acc, files[..|files| - 1], nodes);
      var f := files[|files| - 1];
      if f.isDeletedFile then r else OverHunks(r, f.hunks, FileNodes(nodes, f.newPath))
  }

  /** `find_changed_functions(git_diff)` */
  function Found(files: seq<FileDiff>, nodes: seq<SemanticNode>): seq<ChangedFunction>
    reads set n | n in nodes
  {
    OverFiles([], files, nodes)
  }

  /** The method: three nested loops appending to `changed_functions`. */
  method FindChangedFunctions(files: seq<FileDiff>, nodes: seq<SemanticNode>) returns (changed: seq<ChangedFunction>)
    ensures changed == Found(files, nodes)
  {
    changed := [];
    for i := 0 to |files|
      invariant changed == OverFiles([], files[..i], nodes)
    {
      assert files[..i + 1][..i] == files[..i];
      var fileDiff := files[i];
      if fileDiff.isDeletedFile {
        continue;
      }
      var fileNodes := FileNodes(nodes, fileDiff.newPath);
      var before := changed;
      for t := 0 to |fileDiff.hunks|
        invariant changed == OverHunks(before, fileDiff.hunks[..t], fileNodes)
      {
        assert fileDiff.hunks[..t + 1][..t] == fileDiff.hunks[..t];
        var hunk := fileDiff.hunks[t];
        var start := changed;
        for j := 0 to |fileNodes|
          invariant changed == OverNodes(start, hunk, fileNodes[..j])
        {
          assert fileNodes[..j + 1][..j] == fileNodes[..j];
          var node := fileNodes[j];
          if exists x :: hunk.newStart <= x < hunk.newStart + hunk.newCount && Between(x, node.startLine, node.endLine) {
            var cf := NewChangedFunction(node.filepath, node.name, node.parentClass);
            if !exists k :: 0 <= k < |changed| && changed[k].fullPath == cf.fullPath {
              changed := changed + [cf];
            }
          }
        }
        assert fileNodes[..|fileNodes|] == fileNodes;
      }
      assert fileDiff.hunks[..|fileDiff.hunks|] == fileDiff.hunks;
    }
    assert files[..|files|] == files;
  }

  // ----- what find_changed_functions reports -----

  /** No two entries of `acc` share a full path. */
  predicate DistinctPaths(acc: seq<ChangedFunction>)
  {
    forall i, j :: 0 <= i < j < |acc| ==> acc[i].fullPath != acc[j].fullPath
  }

  lemma OfferDistinct(acc: seq<ChangedFunction>, cf: ChangedFunction)
    requires DistinctPaths(acc)
    ensures DistinctPaths(Offer(acc, cf))
  {
    if !Listed(acc, cf.fullPath) {
      var s := acc + [cf];
      forall i, j | 0 <= i < j < |s|
        ensures s[i].fullPath != s[j].fullPath
      {
        assert s[i] == acc[i];
        if j < |acc| {
          assert s[j] == acc[j];
        }
      }
    }
  }

  /** Offering adds exactly the offered path. */
  lemma OfferListed(acc: seq<ChangedFunction>, cf: ChangedFunction, p: string)
    ensures Listed(Offer(acc, cf), p) <==> Listed(acc, p) || p == cf.fullPath
  {
    if !Listed(acc, cf.fullPath) {
      var s := acc + [cf];
      if Listed(acc, p) {
        var j :| 0 <= j < |acc| && acc[j].fullPath == p;
        assert s[j] == acc[j];
      }
      assert s[|acc|] == cf;
      if Listed(s, p) && p != cf.fullPath {
        var j :| 0 <= j < |s| && s[j].fullPath == p;
        assert j < |acc| && s[j] == acc[j];
      }
    }
  }

  lemma {:induction false} OverNodesDistinct(acc: seq<ChangedFunction>, h: DiffHunk, ns: seq<SemanticNode>)
    requires DistinctPaths(acc)
    ensures DistinctPaths(OverNodes(acc, h, ns))
  {
    if ns != [] {
      var n := ns[|ns| - 1];
      OverNodesDistinct(acc, h, ns[..|ns| - 1]);
      if Meets(h, n) {
        OfferDistinct(OverNodes(acc, h, ns[..|ns| - 1]), NewChangedFunction(n.filepath, n.name, n.parentClass));
      }
    }
  }

  lemma {:induction false} OverHunksDistinct(acc: seq<ChangedFunction>, hs: seq<DiffHunk>, ns: seq<SemanticNode>)
    requires DistinctPaths(acc)
    ensures DistinctPaths(OverHunks(acc, hs, ns))
  {
    if hs != [] {
      OverHunksDistinct(acc, hs[..|hs| - 1], ns);
      OverNodesDistinct(OverHunks(acc, hs[..|hs| - 1], ns), hs[|hs| - 1], ns);
    }
  }

  lemma {:induction false} OverFilesDistinct(acc: seq<ChangedFunction>, files: seq<FileDiff>, nodes: seq<SemanticNode>)
    requires DistinctPaths(acc)
    ensures DistinctPaths(OverFiles(acc, files, nodes))
  {
    if files != [] {
      var f := files[|files| - 1];
      OverFilesDistinct(acc, files[..|files| - 1], nodes);
      if !f.isDeletedFile {
        OverHunksDistinct(OverFiles(acc, files[..|files| - 1], nodes), f.hunks, FileNodes(nodes, f.newPath));
      }
    }
  }

  /** Each full path is reported once. */
  lemma FoundDistinct(files: seq<FileDiff>, nodes: seq<SemanticNode>)
    ensures DistinctPaths(Found(files, nodes))
  {
    OverFilesDistinct([], files, nodes);
  }

  /** Some node of `ns` meeting the hunk has key `p`. */
  predicate NodesTouch(h: DiffHunk, ns: seq<SemanticNode>, p: string)
    reads set n | n in ns
  {
    exists j :: 0 <= j < |ns| && Meets(h, ns[j]) && Key(ns[j]) == p
  }

  /** Some hunk of `hs` meets a node of `ns` with key `p`. */
  predicate HunksTouch(hs: seq<DiffHunk>, ns: seq<SemanticNode>, p: string)
    reads set n | n in ns
  {
    exists t :: 0 <= t < |hs| && NodesTouch(hs[t], ns, p)
  }

  /** Some file of `files`, not deleted, has a hunk meeting one of its
      function or method nodes with key `p`. */
  predicate FilesTouch(files: seq<FileDiff>, nodes: seq<SemanticNode>, p: string)
    reads set n | n in nodes
  {
    exists k :: 0 <= k < |files| && !files[k].isDeletedFile && HunksTouch(files[k].hunks, FileNodes(nodes, files[k].newPath), p)
  }

  lemma {:induction false} OverNodesListed(acc: seq<ChangedFunction>, h: DiffHunk, ns: seq<SemanticNode>, p: string)
    ensures Listed(OverNodes(acc, h, ns), p) <==> Listed(acc, p) || NodesTouch(h, ns, p)
  {
    if ns != [] {
      var init, n := ns[..|ns| - 1], ns[|ns| - 1];
      var r := OverNodes(acc, h, init);
      OverNodesListed(acc, h, init, p);
      if Meets(h, n) {
        OfferListed(r, NewChangedFunction(n.filepath, n.name, n.parentClass), p);
      }
      if NodesTouch(h, ns, p) && !NodesTouch(h, init, p) {
        var j :| 0 <= j < |ns| && Meets(h, ns[j]) && Key(ns[j]) == p;
        if j < |init| {
          assert ns[j] == init[j];
        }
      }
      if NodesTouch(h, init, p) {
        var j :| 0 <= j < |init| && Meets(h, init[j]) && Key(init[j]) == p;
        assert ns[j] == init[j];
      }
    }
  }

  lemma {:induction false} OverHunksListed(acc: seq<ChangedFunction>, hs: seq<DiffHunk>, ns: seq<SemanticNode>, p: string)
    ensures Listed(OverHunks(acc, hs, ns), p) <==> Listed(acc, p) || HunksTouch(hs, ns, p)
  {
    if hs != [] {
      var init := hs[..|hs| - 1];
      OverHunksListed(acc, init, ns, p);
      OverNodesListed(OverHunks(acc, init, ns), hs[|hs| - 1], ns, p);
      if HunksTouch(init, ns, p) {
        var t :| 0 <= t < |init| && NodesTouch(init[t], ns, p);
        assert hs[t] == init[t];
      }
    }
  }

  lemma {:induction false} OverFilesListed(acc: seq<ChangedFunction>, files: seq<FileDiff>, nodes: seq<SemanticNode>, p: string)
    ensures Listed(OverFiles(acc, files, nodes), p) <==> Listed(acc, p) || FilesTouch(files, nodes, p)
  {
    if files != [] {
      var init, f := files[..|files| - 1], files[|files| - 1];
      OverFilesListed(acc, init, nodes, p);
      if !f.isDeletedFile {
        OverHunksListed(OverFiles(acc, init, nodes), f.hunks, FileNodes(nodes, f.newPath), p);
      }
      if FilesTouch(files, nodes, p) && !FilesTouch(init, nodes, p) {
        var k :| 0 <= k < |files| && !files[k].isDeletedFile && HunksTouch(files[k].hunks, FileNodes(nodes, files[k].newPath), p);
        if k < |init| {
          assert files[k] == init[k];
        }
      }
      if FilesTouch(init, nodes, p) {
        var k :| 0 <= k < |init| && !init[k].isDeletedFile && HunksTouch(init[k].hunks, FileNodes(nodes, init[k].newPath), p);
        assert files[k] == init[k];
      }
    }
  }

  /** A full path is reported exactly when some hunk of a file that is not
      deleted meets a function or method of that file with that key. */
  lemma FoundPaths(files: seq<FileDiff>, nodes: seq<SemanticNode>, p: string)
    ensures Listed(Found(files, nodes), p) <==> FilesTouch(files, nodes, p)
  {
    OverFilesListed([], files, nodes, p);
  }

  // ----- the order of find_changed_functions -----

  /** The ChangedFunction made from each node of `ns` meeting the hunk, in
      list order. */
  function HunkHits(h: DiffHunk, ns: seq<SemanticNode>): seq<ChangedFunction>
    reads set n | n in ns
  {
    if ns == [] then []
    else
      var n := ns[|ns| - 1];
      HunkHits(h, ns[..|ns| - 1]) + if Meets(h, n) then [NewChangedFunction(n.filepath, n.name, n.parentClass)] else []
  }

  /** The hits of each hunk in turn. */
  function FileHits(hs: seq<DiffHunk>, ns: seq<SemanticNode>): seq<ChangedFunction>
    reads set n | n in ns
  {
    if hs == [] then [] else FileHits(hs[..|hs| - 1], ns) + HunkHits(hs[|hs| - 1], ns)
  }

  /** Every (file, hunk, node) meeting, in the order the three loops reach
      them, with the same full path as often as it is met. */
  function Discoveries(files: seq<FileDiff>, nodes: seq<SemanticNode>): seq<ChangedFunction>
    reads set n | n in nodes
  {
    if files == [] then []
    else
      var f := files[|files| - 1];
      Discoveries(files[..|files| - 1], nodes) + if f.isDeletedFile then [] else FileHits(f.hunks, FileNodes(nodes, f.newPath))
  }

  /** Offer each of `ds` in turn. */
  function OfferAll(acc: seq<ChangedFunction>, ds: seq<ChangedFunction>): seq<ChangedFunction>
  {
    if ds == [] then acc else Offer(OfferAll(acc, ds[..|ds| - 1]), ds[|ds| - 1])
  }

  lemma {:induction false} OfferAllAppend(acc: seq<ChangedFunction>, a: seq<ChangedFunction>, b: seq<ChangedFunction>)
    ensures OfferAll(acc, a + b) == OfferAll(OfferAll(acc, a), b)
  {
    if b == [] {
      assert a + b == a;
    } else {
      OfferAllAppend(acc, a, b[..|b| - 1]);
      assert (a + b)[..|a + b| - 1] == a + b[..|b| - 1];
    }
  }

  lemma {:induction false} OverNodesOffers(acc: seq<ChangedFunction>, h: DiffHunk, ns: seq<SemanticNode>)
    ensures OverNodes(acc, h, ns) == OfferAll(acc, HunkHits(h, ns))
  {
    if ns != [] {
      var init, n := ns[..|ns| - 1], ns[|ns| - 1];
      OverNodesOffers(acc, h, init);
      if Meets(h, n) {
        var cf := NewChangedFunction(n.filepath, n.name, n.parentClass);
        assert HunkHits(h, ns) == HunkHits(h, init) + [cf];
        assert (HunkHits(h, init) + [cf])[..|HunkHits(h, init)|] == HunkHits(h, init);
      } else {
        assert HunkHits(h, ns) == HunkHits(h, init);
      }
    }
  }

  lemma {:induction false} OverHunksOffers(acc: seq<ChangedFunction>, hs: seq<DiffHunk>, ns: seq<SemanticNode>)
    ensures OverHunks(acc, hs, ns) == OfferAll(acc, FileHits(hs, ns))
  {
    if hs != [] {
      var init := hs[..|hs| - 1];
      OverHunksOffers(acc, init, ns);
      OverNodesOffers(OverHunks(acc, init, ns), hs[|hs| - 1], ns);
      OfferAllAppend(acc, FileHits(init, ns), HunkHits(hs[|hs| - 1], ns));
    }
  }

  lemma {:induction false} OverFilesOffers(acc: seq<ChangedFunction>, files: seq<FileDiff>, nodes: seq<SemanticNode>)
    ensures OverFiles(acc, files, nodes) == OfferAll(acc, Discoveries(files, nodes))
  {
    if files != [] {
      var init, f := files[..|files| - 1], files[|files| - 1];
      OverFilesOffers(acc, init, nodes);
      if f.isDeletedFile {
        assert Discoveries(files, nodes) == Discoveries(init, nodes) + [];
        assert Discoveries(init, nodes) + [] == Discoveries(init, nodes);
      } else {
        OverHunksOffers(OverFiles(acc, init, nodes), f.hunks, FileNodes(nodes, f.newPath));
        OfferAllAppend(acc, Discoveries(init, nodes), FileHits(f.hunks, FileNodes(nodes, f.newPath)));
      }
    }
  }

  /** A full path is listed after offering `ds` exactly when it was listed
      before or some entry of `ds` has it. */
  lemma {:induction false} OfferAllListed(acc: seq<ChangedFunction>, ds: seq<ChangedFunction>, p: string)
    ensures Listed(OfferAll(acc, ds), p) <==> Listed(acc, p) || Listed(ds, p)
  {
    if ds != [] {
      var init := ds[..|ds| - 1];
      OfferAllListed(acc, init, p);
      OfferListed(OfferAll(acc, init), ds[|ds| - 1], p);
      if Listed(init, p) {
        var j :| 0 <= j < |init| && init[j].fullPath == p;
        assert ds[j] == init[j];
      }
      if Listed(ds, p) {
        var j :| 0 <= j < |ds| && ds[j].fullPath == p;
        if j < |init| {
          assert ds[j] == init[j];
        }
      }
    }
  }

  /** The position in `ds` of each entry `OfferAll([], ds)` keeps. */
  function OfferedAt(ds: seq<ChangedFunction>): (idx: seq<nat>)
    ensures |idx| == |OfferAll([], ds)|
  {
    if ds == [] then []
    else
      var r := OfferAll([], ds[..|ds| - 1]);
      if Listed(r, ds[|ds| - 1].fullPath) then OfferedAt(ds[..|ds| - 1])
      else OfferedAt(ds[..|ds| - 1]) + [|ds| - 1]
  }

  /** `r` is taken from `ds` at the strictly increasing positions `idx`, and
      no entry of `ds` before a taken one has its full path. */
  predicate FirstInOrder(ds: seq<ChangedFunction>, r: seq<ChangedFunction>, idx: seq<nat>)
  {
    |idx| == |r| &&
    (forall j :: 0 <= j < |idx| ==> idx[j] < |ds| && ds[idx[j]] == r[j]) &&
    (forall i, j :: 0 <= i < j < |idx| ==> idx[i] < idx[j]) &&
    (forall j, k :: 0 <= j < |idx| && 0 <= k < idx[j] ==> ds[k].fullPath != r[j].fullPath)
  }

  /** Offering keeps the first entry per full path, in order. */
  lemma {:induction false} OfferAllInOrder(ds: seq<ChangedFunction>)
    ensures FirstInOrder(ds, OfferAll([], ds), OfferedAt(ds))
  {
    if ds != [] {
      var init, d, m := ds[..|ds| - 1], ds[|ds| - 1], |ds| - 1;
      OfferAllInOrder(init);
      var r0, idx0 := OfferAll([], init), OfferedAt(init);
      assert forall k :: 0 <= k < m ==> init[k] == ds[k];
      if !Listed(r0, d.fullPath) {
        var r, idx := r0 + [d], idx0 + [m];
        assert OfferAll([], ds) == r && OfferedAt(ds) == idx;
        OfferAllListed([], init, d.fullPath);
        forall j | 0 <= j < |idx|
          ensures idx[j] < |ds| && ds[idx[j]] == r[j]
        {
          if j < |idx0| {
            assert idx[j] == idx0[j] && r[j] == r0[j];
          }
        }
        forall j, k | 0 <= j < |idx| && 0 <= k < idx[j]
          ensures ds[k].fullPath != r[j].fullPath
        {
          if j < |idx0| {
            assert idx[j] == idx0[j] && r[j] == r0[j];
          } else {
            assert r[j] == d && init[k] == ds[k];
          }
        }
      } else {
        assert OfferAll([], ds) == r0 && OfferedAt(ds) == idx0;
      }
    }
  }

  /** find_changed_functions reports, of all (file, hunk, node) meetings in
      the order the loops reach them, the first per full path, in that
      order. */
  lemma FoundInOrder(files: seq<FileDiff>, nodes: seq<SemanticNode>)
    ensures Found(files, nodes) == OfferAll([], Discoveries(files, nodes))
    ensures FirstInOrder(Discoveries(files, nodes), Found(files, nodes), OfferedAt(Discoveries(files, nodes)))
  {
    OverFilesOffers([], files, nodes);
    OfferAllInOrder(Discoveries(files, nodes));
  }

  // ----- build_context -----

  /** The dictionary recorded for a callee or caller (its code left out). */
  datatype CallInfo = CallInfo(name: string, qualifiedName: Option<string>, filepath: string, startLine: int, endLine: int)

  /** A FunctionContext (its code left out). */
  datatype FunctionContext = FunctionContext(
    functionName: string,
    qualifiedName: Option<string>,
    filepath: string,
    startLine: int,
    endLine: int,
    parameters: seq<string>,
    returnType: Option<string>,
    calls: seq<CallInfo>,
    calledBy: seq<CallInfo>,
    relatedFiles: set<string>)

  function Info(n: SemanticNode): CallInfo
    reads n
  {
    CallInfo(n.name, n.qualifiedName, n.filepath, n.startLine, n.endLine)
  }

  /** `calls` as possibly-unset paths, like `called_by`. */
  function Lift(paths: seq<string>): (r: seq<Option<string>>)
    ensures |r| == |paths| && forall j :: 0 <= j < |paths| ==> r[j] == Some(paths[j])
  {
    if paths == [] then [] else Lift(paths[..|paths| - 1]) + [Some(paths[|paths| - 1])]
  }

  /** The entries for the paths found in node_map, in list order. */
  function Lookups(paths: seq<Option<string>>, nodeMap: map<string, SemanticNode>): seq<CallInfo>
    reads nodeMap.Values
  {
    if paths == [] then []
    else
      var p := paths[|paths| - 1];
      Lookups(paths[..|paths| - 1], nodeMap) + if p.Some? && p.value in nodeMap then [Info(nodeMap[p.value])] else []
  }

  /** The file paths of the entries. */
  function Files(infos: seq<CallInfo>): set<string>
  {
    set j | 0 <= j < |infos| :: infos[j].filepath
  }

  lemma FilesSnoc(infos: seq<CallInfo>, x: CallInfo)
    ensures Files(infos + [x]) == Files(infos) + {x.filepath}
  {
    var s := infos + [x];
    assert s[|infos|] == x;
    forall f | f in Files(infos)
      ensures f in Files(s)
    {
      var j :| 0 <= j < |infos| && infos[j].filepath == f;
      assert s[j] == infos[j];
    }
  }

  /** The context of a node found in node_map. */
  function ContextOf(node: SemanticNode, nodeMap: map<string, SemanticNode>): FunctionContext
    reads node, nodeMap.Values
  {
    var calls := Lookups(Lift(node.calls), nodeMap);
    var calledBy := Lookups(node.calledBy, nodeMap);
    FunctionContext(node.name, node.qualifiedName, node.filepath, node.startLine, node.endLine, node.parameters,
                    node.returnType, calls, calledBy, Files(calls) + Files(calledBy))
  }

  /** `build_context(changed_function)`: None when the full path is not in
      node_map; otherwise the node's context, filled by two loops. */
  method BuildContext(changedFunction: ChangedFunction, nodeMap: map<string, SemanticNode>) returns (context: Option<FunctionContext>)
    ensures context.None? <==> changedFunction.fullPath !in nodeMap
    ensures context.Some? ==> context.value == ContextOf(nodeMap[changedFunction.fullPath], nodeMap)
  {
    if changedFunction.fullPath !in nodeMap {
      return None;
    }
    var node := nodeMap[changedFunction.fullPath];
    var calls, calleeFiles := AddCallees(node.calls, nodeMap);
    var calledBy, callerFiles := AddCallers(node.calledBy, nodeMap);
    context := Some(FunctionContext(node.name, node.qualifiedName, node.filepath, node.startLine, node.endLine,
                                    node.parameters, node.returnType, calls, calledBy, calleeFiles + callerFiles));
  }

  /** The loop over `node.calls`. */
  method AddCallees(paths: seq<string>, nodeMap: map<string, SemanticNode>) returns (calls: seq<CallInfo>, relatedFiles: set<string>)
    ensures calls == Lookups(Lift(paths), nodeMap) && relatedFiles == Files(calls)
  {
    calls := [];
    relatedFiles := {};
    for i := 0 to |paths|
      invariant calls == Lookups(Lift(paths[..i]), nodeMap)
      invariant relatedFiles == Files(calls)
    {
      assert paths[..i + 1][..i] == paths[..i];
      assert Lift(paths[..i + 1])[..i] == Lift(paths[..i]);
      var calleePath := paths[i];
      if calleePath in nodeMap {
        var calleeNode := nodeMap[calleePath];
        FilesSnoc(calls, Info(calleeNode));
        calls := calls + [Info(calleeNode)];
        relatedFiles := relatedFiles + {calleeNode.filepath};
      }
    }
    assert paths[..|paths|] == paths;
  }

  /** The loop over `node.called_by`. */
  method AddCallers(paths: seq<Option<string>>, nodeMap: map<string, SemanticNode>) returns (calledBy: seq<CallInfo>, relatedFiles: set<string>)
    ensures calledBy == Lookups(paths, nodeMap) && relatedFiles == Files(calledBy)
  {
    calledBy := [];
    relatedFiles := {};
    for i := 0 to |paths|
      invariant calledBy == Lookups(paths[..i], nodeMap)
      invariant relatedFiles == Files(calledBy)
    {
      assert paths[..i + 1][..i] == paths[..i];
      var callerPath := paths[i];
      if callerPath.Some? && callerPath.value in nodeMap {
        var callerNode := nodeMap[callerPath.value];
        FilesSnoc(calledBy, Info(callerNode));
        calledBy := calledBy + [Info(callerNode)];
        relatedFiles := relatedFiles + {callerNode.filepath};
      }
    }
    assert paths[..|paths|] == paths;
  }

  /** `info` is the entry of some path of `paths` found in node_map. */
  predicate Resolves(paths: seq<Option<string>>, nodeMap: map<string, SemanticNode>, info: CallInfo)
    reads nodeMap.Values
  {
    exists j :: 0 <= j < |paths| && paths[j].Some? && paths[j].value in nodeMap && info == Info(nodeMap[paths[j].value])
  }

  /** Every entry comes from a path found in node_map, and there are never
      more entries than paths. */
  lemma {:induction false} LookupsSound(paths: seq<Option<string>>, nodeMap: map<string, SemanticNode>)
    ensures |Lookups(paths, nodeMap)| <= |paths|
    ensures forall i :: 0 <= i < |Lookups(paths, nodeMap)| ==> Resolves(paths, nodeMap, Lookups(paths, nodeMap)[i])
  {
    if paths != [] {
      var init := paths[..|paths| - 1];
      LookupsSound(init, nodeMap);
      var r := Lookups(paths, nodeMap);
      var r0 := Lookups(init, nodeMap);
      forall i | 0 <= i < |r|
        ensures Resolves(paths, nodeMap, r[i])
      {
        if i < |r0| {
          ResolvesWider(init, paths, nodeMap, r0[i]);
        } else {
          var j := |paths| - 1;
          assert paths[j].Some? && paths[j].value in nodeMap && r[i] == Info(nodeMap[paths[j].value]);
        }
      }
    }
  }

  lemma ResolvesWider(init: seq<Option<string>>, paths: seq<Option<string>>, nodeMap: map<string, SemanticNode>, info: CallInfo)
    requires init <= paths && Resolves(init, nodeMap, info)
    ensures Resolves(paths, nodeMap, info)
  {
    var j :| 0 <= j < |init| && init[j].Some? && init[j].value in nodeMap && info == Info(nodeMap[init[j].value]);
    assert paths[j] == init[j];
  }

  /** Every path found in node_map gives an entry. */
  lemma {:induction false} LookupsComplete(paths: seq<Option<string>>, nodeMap: map<string, SemanticNode>)
    ensures forall j :: 0 <= j < |paths| && paths[j].Some? && paths[j].value in nodeMap ==>
              Info(nodeMap[paths[j].value]) in Lookups(paths, nodeMap)
  {
    if paths != [] {
      var init := paths[..|paths| - 1];
      LookupsComplete(init, nodeMap);
      forall j | 0 <= j < |paths| && paths[j].Some? && paths[j].value in nodeMap
        ensures Info(nodeMap[paths[j].value]) in Lookups(paths, nodeMap)
      {
        if j < |init| {
          assert paths[j] == init[j];
        }
      }
    }
  }

  /** When every path is in node_map, nothing is dropped. */
  lemma {:induction false} LookupsAll(paths: seq<Option<string>>, nodeMap: map<string, SemanticNode>)
    requires forall j :: 0 <= j < |paths| ==> paths[j].Some? && paths[j].value in nodeMap
    ensures |Lookups(paths, nodeMap)| == |paths|
  {
    if paths != [] {
      LookupsAll(paths[..|paths| - 1], nodeMap);
    }
  }

  /** Some path of `paths` is found in node_map at a node of file `f`. */
  predicate FileReached(paths: seq<Option<string>>, nodeMap: map<string, SemanticNode>, f: string)
    reads nodeMap.Values
  {
    exists j :: 0 <= j < |paths| && paths[j].Some? && paths[j].value in nodeMap && nodeMap[paths[j].value].filepath == f
  }

  /** The files of the entries looked up are the files of the nodes the
      paths find. */
  lemma FilesOfLookups(paths: seq<Option<string>>, nodeMap: map<string, SemanticNode>, f: string)
    ensures f in Files(Lookups(paths, nodeMap)) <==> FileReached(paths, nodeMap, f)
  {
    var r := Lookups(paths, nodeMap);
    LookupsSound(paths, nodeMap);
    LookupsComplete(paths, nodeMap);
    if f in Files(r) {
      var i :| 0 <= i < |r| && r[i].filepath == f;
      assert Resolves(paths, nodeMap, r[i]);
    }
    if FileReached(paths, nodeMap, f) {
      var j :| 0 <= j < |paths| && paths[j].Some? && paths[j].value in nodeMap && nodeMap[paths[j].value].filepath == f;
      var i :| 0 <= i < |r| && r[i] == Info(nodeMap[paths[j].value]);
    }
  }

  /** A file is related exactly when some callee or some caller of the node
      is found in node_map at a node of that file. */
  lemma RelatedFiles(node: SemanticNode, nodeMap: map<string, SemanticNode>, f: string)
    ensures f in ContextOf(node, nodeMap).relatedFiles <==>
            (exists j :: 0 <= j < |node.calls| && node.calls[j] in nodeMap && nodeMap[node.calls[j]].filepath == f)
            || FileReached(node.calledBy, nodeMap, f)
  {
    var lifted := Lift(node.calls);
    FilesOfLookups(lifted, nodeMap, f);
    FilesOfLookups(node.calledBy, nodeMap, f);
    if FileReached(lifted, nodeMap, f) {
      var j :| 0 <= j < |lifted| && lifted[j].Some? && lifted[j].value in nodeMap && nodeMap[lifted[j].value].filepath == f;
      assert node.calls[j] == lifted[j].value;
    }
    if exists j :: 0 <= j < |node.calls| && node.calls[j] in nodeMap && nodeMap[node.calls[j]].filepath == f {
      var j :| 0 <= j < |node.calls| && node.calls[j] in nodeMap && nodeMap[node.calls[j]].filepath == f;
      assert lifted[j] == Some(node.calls[j]);
    }
  }

  // ----- _analyze_impact -----

  datatype Risk = High | Medium | Low
  {
    function Name(): string
    {
      match this
      case High => "HIGH"
      case Medium => "MEDIUM"
      case Low => "LOW"
    }
  }

  /** An entry of `high_impact_functions`. */
  datatype HighImpact = HighImpact(qualifiedName: Option<string>, callers: nat)

  /** The dictionary `_analyze_impact` returns. */
  datatype Impact = Impact(totalCallers: nat, totalCallees: nat, highImpactFunctions: seq<HighImpact>, riskLevel: Risk)

  function TotalCallers(contexts: seq<FunctionContext>): nat
  {
    if contexts == [] then 0 else TotalCallers(contexts[..|contexts| - 1]) + |contexts[|contexts| - 1].calledBy|
  }

  function TotalCallees(contexts: seq<FunctionContext>): nat
  {
    if contexts == [] then 0 else TotalCallees(contexts[..|contexts| - 1]) + |contexts[|contexts| - 1].calls|
  }

  /** A function is high-impact when more than five functions call it. */
  function HighImpacts(contexts: seq<FunctionContext>): seq<HighImpact>
  {
    if contexts == [] then []
    else
      var c := contexts[|contexts| - 1];
      HighImpacts(contexts[..|contexts| - 1]) + if |c.calledBy| > 5 then [HighImpact(c.qualifiedName, |c.calledBy|)] else []
  }

  function ImpactOf(contexts: seq<FunctionContext>): Impact
  {
    var high := HighImpacts(contexts);
    var total := TotalCallers(contexts);
    Impact(total, TotalCallees(contexts), high, if high != [] then High else if total > 3 then Medium else Low)
  }

  /** `_analyze_impact(contexts)`, the contexts in the dictionary's order. */
  method AnalyzeImpact(contexts: seq<FunctionContext>) returns (impact: Impact)
    ensures impact == ImpactOf(contexts)
  {
    var totalCallers := 0;
    var totalCallees := 0;
    var high: seq<HighImpact> := [];
    for i := 0 to |contexts|
      invariant totalCallers == TotalCallers(contexts[..i])
      invariant totalCallees == TotalCallees(contexts[..i])
      invariant high == HighImpacts(contexts[..i])
    {
      assert contexts[..i + 1][..i] == contexts[..i];
      var numCallers := |contexts[i].calledBy|;
      var numCallees := |contexts[i].calls|;
      totalCallers := totalCallers + numCallers;
      totalCallees := totalCallees + numCallees;
      if numCallers > 5 {
        high := high + [HighImpact(contexts[i].qualifiedName, numCallers)];
      }
    }
    assert contexts[..|contexts|] == contexts;
    var risk := if high != [] then High else if totalCallers > 3 then Medium else Low;
    impact := Impact(totalCallers, totalCallees, high, risk);
  }

  /** The high-impact entries are the contexts with more than five callers,
      in order. */
  lemma {:induction false} HighImpactsSpec(contexts: seq<FunctionContext>)
    ensures HighImpacts(contexts) != [] <==> exists k :: 0 <= k < |contexts| && |contexts[k].calledBy| > 5
    ensures forall i :: 0 <= i < |HighImpacts(contexts)| ==> HighImpacts(contexts)[i].callers > 5
  {
    if contexts != [] {
      var init := contexts[..|contexts| - 1];
      HighImpactsSpec(init);
      if exists k :: 0 <= k < |init| && |init[k].calledBy| > 5 {
        var k :| 0 <= k < |init| && |init[k].calledBy| > 5;
        assert contexts[k] == init[k];
      }
      if exists k :: 0 <= k < |contexts| && |contexts[k].calledBy| > 5 {
        var k :| 0 <= k < |contexts| && |contexts[k].calledBy| > 5;
        if k < |init| {
          assert contexts[k] == init[k];
        }
      }
    }
  }

  /** No context has more than five callers: the total is at most five per
      context. */
  lemma {:induction false} TotalCallersBound(contexts: seq<FunctionContext>)
    requires forall k :: 0 <= k < |contexts| ==> |contexts[k].calledBy| <= 5
    ensures TotalCallers(contexts) <= 5 * |contexts|
  {
    if contexts != [] {
      TotalCallersBound(contexts[..|contexts| - 1]);
    }
  }

  /** The risk is HIGH exactly when some changed function has more than five
      callers, LOW exactly when none does and there are at most three
      callers in all, and MEDIUM otherwise. */
  lemma RiskLevels(contexts: seq<FunctionContext>)
    ensures ImpactOf(contexts).riskLevel == High <==> exists k :: 0 <= k < |contexts| && |contexts[k].calledBy| > 5
    ensures ImpactOf(contexts).riskLevel == Low <==>
            (forall k :: 0 <= k < |contexts| ==> |contexts[k].calledBy| <= 5) && TotalCallers(contexts) <= 3
  {
    HighImpactsSpec(contexts);
  }
}
