/** DiffParser.get_changed_functions and _ranges_overlap
    (src/diff_parser/diff_parser.py): the semantic nodes of a changed file
    whose line range holds an added or removed line, one per full path. */
module ChangedFunctions {
  import opened Text
  import opened SemanticNodes
  import opened DiffParsing

  /** `_ranges_overlap(start1, end1, start2, end2)` */
  function RangesOverlap(start1: int, end1: int, start2: int, end2: int): bool
  {
    start1 <= end2 && start2 <= end1
  }

  /** Line `x` lies in the inclusive range from `start` to `end`. */
  predicate Within(x: int, start: int, end: int)
  {
    start <= x <= end
  }

  /** Two non-empty inclusive ranges overlap exactly when some line lies in
      both. */
  lemma OverlapMeansCommonLine(start1: int, end1: int, start2: int, end2: int)
    requires start1 <= end1 && start2 <= end2
    ensures RangesOverlap(start1, end1, start2, end2) <==>
            exists x :: Within(x, start1, end1) && Within(x, start2, end2)
  {
    if RangesOverlap(start1, end1, start2, end2) {
      var x := if start1 < start2 then start2 else start1;
      assert Within(x, start1, end1) && Within(x, start2, end2);
    }
  }

  /** An empty range (a hunk adding no lines has the range `(s, s - 1)`)
      still overlaps a range around it, though no line lies in both. */
  lemma OverlapOfEmptyRange()
    ensures RangesOverlap(5, 4, 1, 10)
    ensures !exists x :: Within(x, 5, 4) && Within(x, 1, 10)
  {
  }

  /** Overlap does not depend on the order of the two ranges. */
  lemma OverlapSymmetric(start1: int, end1: int, start2: int, end2: int)
    ensures RangesOverlap(start1, end1, start2, end2) == RangesOverlap(start2, end2, start1, end1)
  {
  }

  /** The numbers of the added and removed lines, as a set. */
  function ChangedLines(added: seq<(int, string)>, removed: seq<(int, string)>): set<int>
  {
    (set i | 0 <= i < |added| :: added[i].0) + (set i | 0 <= i < |removed| :: removed[i].0)
  }

  /** The two loops that fill `changed_line_numbers`. */
  method CollectChangedLines(fileChange: FileChange) returns (lines: set<int>)
    ensures lines == ChangedLines(fileChange.addedLines, fileChange.removedLines)
  {
    var added, removed := fileChange.addedLines, fileChange.removedLines;
    lines := {};
    for i := 0 to |added|
      invariant lines == set t | 0 <= t < i :: added[t].0
    {
      lines := lines + {added[i].0};
    }
    for i := 0 to |removed|
      invariant lines == (set t | 0 <= t < |added| :: added[t].0) + (set t | 0 <= t < i :: removed[t].0)
    {
      lines := lines + {removed[i].0};
    }
  }

  /** Some changed line lies within the node's lines:
      `any(node.start_line <= ln <= node.end_line for ln in lines)`. */
  predicate Touches(n: SemanticNode, lines: set<int>)
    reads n
  {
    exists ln :: ln in lines && n.startLine <= ln <= n.endLine
  }

  /** Some node of `r` has full path `p`. */
  predicate HasPath(r: seq<SemanticNode>, p: Option<string>)
    reads set n | n in r
  {
    exists j :: 0 <= j < |r| && r[j].fullPath == p
  }

  /** The node is in the file and holds a changed line. */
  predicate Hit(n: SemanticNode, filepath: string, lines: set<int>)
    reads n
  {
    n.filepath == filepath && Touches(n, lines)
  }

  /** Appending a node adds exactly its full path. */
  lemma AddPath(r: seq<SemanticNode>, n: SemanticNode)
    ensures forall p :: HasPath(r + [n], p) <==> HasPath(r, p) || p == n.fullPath
  {
    forall p
      ensures HasPath(r + [n], p) <==> HasPath(r, p) || p == n.fullPath
    {
      if HasPath(r, p) {
        var j :| 0 <= j < |r| && r[j].fullPath == p;
        assert (r + [n])[j] == r[j];
      }
      if p == n.fullPath {
        assert (r + [n])[|r|] == n;
      }
      if HasPath(r + [n], p) && p != n.fullPath {
        var j :| 0 <= j < |r + [n]| && (r + [n])[j].fullPath == p;
        assert j < |r| && (r + [n])[j] == r[j];
      }
    }
  }

  /** The dictionary's values in insertion order: each node of the file
      holding a changed line, unless one with its full path came before. */
  function Changed(nodes: seq<SemanticNode>, filepath: string, lines: set<int>): (r: seq<SemanticNode>)
    reads set n | n in nodes
    ensures forall j :: 0 <= j < |r| ==> r[j] in nodes
  {
    if nodes == [] then []
    else
      var r := Changed(nodes[..|nodes| - 1], filepath, lines);
      var n := nodes[|nodes| - 1];
      if Hit(n, filepath, lines) && !HasPath(r, n.fullPath) then r + [n] else r
  }

  /** The dictionary holds exactly the full paths of `result`, each mapped
      to the node of `result` with that path. */
  ghost predicate Keyed(dict: map<Option<string>, SemanticNode>, result: seq<SemanticNode>)
    reads set n | n in result
  {
    (forall p :: p in dict <==> HasPath(result, p)) &&
    (forall j :: 0 <= j < |result| ==> result[j].fullPath in dict && dict[result[j].fullPath] == result[j])
  }

  /** One pass of the loop of `get_changed_functions`: skip a node of another
      file or with a full path already seen, otherwise keep it if it holds a
      changed line. */
  method Visit(node: SemanticNode, filepath: string, lines: set<int>,
               dict: map<Option<string>, SemanticNode>, result: seq<SemanticNode>)
    returns (dict': map<Option<string>, SemanticNode>, result': seq<SemanticNode>)
    requires Keyed(dict, result)
    ensures Keyed(dict', result')
    ensures result' == if Hit(node, filepath, lines) && !HasPath(result, node.fullPath) then result + [node] else result
  {
    dict', result' := dict, result;
    if node.filepath != filepath {
      return;
    }
    if node.fullPath in dict {
      return;
    }
    var hasChanges := exists ln :: ln in lines && node.startLine <= ln <= node.endLine;
    if hasChanges {
      AddPath(result, node);
      dict' := dict[node.fullPath := node];
      result' := result + [node];
      forall j | 0 <= j < |result'|
        ensures result'[j].fullPath in dict' && dict'[result'[j].fullPath] == result'[j]
      {
        if j < |result| {
          assert result'[j] == result[j];
          assert result[j].fullPath != node.fullPath;
        }
      }
    }
  }

  /** `get_changed_functions(file_change, semantic_nodes)`: `list(dict.values())`
      of a dictionary keyed by full path. */
  method GetChangedFunctions(fileChange: FileChange, semanticNodes: seq<SemanticNode>) returns (result: seq<SemanticNode>)
    ensures result == Changed(semanticNodes, fileChange.filepath, ChangedLines(fileChange.addedLines, fileChange.removedLines))
  {
    var lines := CollectChangedLines(fileChange);
    var dict: map<Option<string>, SemanticNode> := map[];
    result := [];
    for i := 0 to |semanticNodes|
      invariant result == Changed(semanticNodes[..i], fileChange.filepath, lines)
      invariant Keyed(dict, result)
    {
      ChangedStep(semanticNodes, fileChange.filepath, lines, i);
      dict, result := Visit(semanticNodes[i], fileChange.filepath, lines, dict, result);
    }
    assert semanticNodes[..|semanticNodes|] == semanticNodes;
  }

  /** The results after node `i` are those before it, and node `i` if it
      is a hit with a new full path. */
  lemma ChangedStep(nodes: seq<SemanticNode>, filepath: string, lines: set<int>, i: nat)
    requires i < |nodes|
    ensures var r := Changed(nodes[..i], filepath, lines);
            Changed(nodes[..i + 1], filepath, lines)
            == if Hit(nodes[i], filepath, lines) && !HasPath(r, nodes[i].fullPath) then r + [nodes[i]] else r
  {
    assert nodes[..i + 1][..i] == nodes[..i];
  }

  /** Every node returned is one of the file's nodes holding a changed line. */
  lemma {:induction false} ChangedSound(nodes: seq<SemanticNode>, filepath: string, lines: set<int>)
    ensures forall j :: 0 <= j < |Changed(nodes, filepath, lines)| ==>
              Changed(nodes, filepath, lines)[j] in nodes && Hit(Changed(nodes, filepath, lines)[j], filepath, lines)
  {
    if nodes != [] {
      ChangedSound(nodes[..|nodes| - 1], filepath, lines);
      forall n | n in nodes[..|nodes| - 1]
        ensures n in nodes
      {
      }
    }
  }

  /** No two nodes of `r` share a full path. */
  predicate DistinctPaths(r: seq<SemanticNode>)
    reads set n | n in r
  {
    forall i, j :: 0 <= i < j < |r| ==> r[i].fullPath != r[j].fullPath
  }

  /** No two nodes returned share a full path. */
  lemma {:induction false} ChangedDistinct(nodes: seq<SemanticNode>, filepath: string, lines: set<int>)
    ensures DistinctPaths(Changed(nodes, filepath, lines))
  {
    if nodes != [] {
      var r, n := Changed(nodes[..|nodes| - 1], filepath, lines), nodes[|nodes| - 1];
      ChangedDistinct(nodes[..|nodes| - 1], filepath, lines);
      if Hit(n, filepath, lines) && !HasPath(r, n.fullPath) {
        var s := r + [n];
        assert Changed(nodes, filepath, lines) == s;
        forall i, j | 0 <= i < j < |s|
          ensures s[i].fullPath != s[j].fullPath
        {
          assert s[i] == r[i];
          if j == |r| {
            assert s[j] == n;
          } else {
            assert s[j] == r[j];
          }
        }
      } else {
        assert Changed(nodes, filepath, lines) == r;
      }
    }
  }

  /** A full path is among the results exactly when some node of the file
      with that path holds a changed line. */
  lemma {:induction false} ChangedPaths(nodes: seq<SemanticNode>, filepath: string, lines: set<int>, p: Option<string>)
    ensures HasPath(Changed(nodes, filepath, lines), p) <==>
            exists k :: 0 <= k < |nodes| && Hit(nodes[k], filepath, lines) && nodes[k].fullPath == p
  {
    if nodes != [] {
      var init, n := nodes[..|nodes| - 1], nodes[|nodes| - 1];
      ChangedPaths(init, filepath, lines, p);
      var r := Changed(init, filepath, lines);
      if HasPath(Changed(nodes, filepath, lines), p) {
        if HasPath(r, p) {
          var k :| 0 <= k < |init| && Hit(init[k], filepath, lines) && init[k].fullPath == p;
          assert nodes[k] == init[k];
        } else {
          assert Changed(nodes, filepath, lines) == r + [n];
          var j :| 0 <= j < |r + [n]| && (r + [n])[j].fullPath == p;
          assert j == |r|;
          assert nodes[|nodes| - 1] == n;
        }
      }
      if exists k :: 0 <= k < |nodes| && Hit(nodes[k], filepath, lines) && nodes[k].fullPath == p {
        var k :| 0 <= k < |nodes| && Hit(nodes[k], filepath, lines) && nodes[k].fullPath == p;
        if k < |init| {
          assert init[k] == nodes[k];
          var j :| 0 <= j < |r| && r[j].fullPath == p;
          if Changed(nodes, filepath, lines) == r + [n] {
            assert (r + [n])[j] == r[j];
          }
        } else if !HasPath(r, p) {
          assert Changed(nodes, filepath, lines) == r + [n];
          assert (r + [n])[|r|] == n;
        } else {
          var j :| 0 <= j < |r| && r[j].fullPath == p;
          assert Changed(nodes, filepath, lines) == r;
        }
      }
    }
  }

  /** The position in `nodes` of each node `Changed` returns. */
  function ChangedAt(nodes: seq<SemanticNode>, filepath: string, lines: set<int>): (idx: seq<nat>)
    reads set n | n in nodes
    ensures |idx| == |Changed(nodes, filepath, lines)|
  {
    if nodes == [] then []
    else
      var init := nodes[..|nodes| - 1];
      var n := nodes[|nodes| - 1];
      var idx := ChangedAt(init, filepath, lines);
      if Hit(n, filepath, lines) && !HasPath(Changed(init, filepath, lines), n.fullPath)
      then idx + [|nodes| - 1] else idx
  }

  /** `r` is taken from `nodes` at the strictly increasing positions `idx`
      (list order), each taken node holds a changed line, and no node
      before it holding a changed line has its full path (the first one per
      full path). */
  ghost predicate FirstInOrder(nodes: seq<SemanticNode>, filepath: string, lines: set<int>,
                               r: seq<SemanticNode>, idx: seq<nat>)
    reads set n | n in nodes
  {
    |idx| == |r| &&
    (forall j :: 0 <= j < |idx| ==> idx[j] < |nodes| && nodes[idx[j]] == r[j] && Hit(nodes[idx[j]], filepath, lines)) &&
    (forall i, j :: 0 <= i < j < |idx| ==> idx[i] < idx[j]) &&
    (forall j, k :: 0 <= j < |idx| && 0 <= k < |nodes| && k < idx[j] && Hit(nodes[k], filepath, lines) ==>
       nodes[k].fullPath != nodes[idx[j]].fullPath)
  }

  /** The results keep list order and each is the first node of the file
      with its full path that holds a changed line. */
  lemma {:induction false} ChangedInOrder(nodes: seq<SemanticNode>, filepath: string, lines: set<int>)
    ensures FirstInOrder(nodes, filepath, lines, Changed(nodes, filepath, lines), ChangedAt(nodes, filepath, lines))
  {
    if nodes != [] {
      var init, n, m := nodes[..|nodes| - 1], nodes[|nodes| - 1], |nodes| - 1;
      ChangedInOrder(init, filepath, lines);
      var r0, idx0 := Changed(init, filepath, lines), ChangedAt(init, filepath, lines);
      assert forall k :: 0 <= k < m ==> init[k] == nodes[k];
      if Hit(n, filepath, lines) && !HasPath(r0, n.fullPath) {
        var r, idx := r0 + [n], idx0 + [m];
        assert Changed(nodes, filepath, lines) == r && ChangedAt(nodes, filepath, lines) == idx;
        ChangedPaths(init, filepath, lines, n.fullPath);
        forall j | 0 <= j < |idx|
          ensures idx[j] < |nodes| && nodes[idx[j]] == r[j] && Hit(nodes[idx[j]], filepath, lines)
        {
          if j < |idx0| {
            assert idx[j] == idx0[j] && r[j] == r0[j];
          }
        }
        forall j, k | 0 <= j < |idx| && 0 <= k < |nodes| && k < idx[j] && Hit(nodes[k], filepath, lines)
          ensures nodes[k].fullPath != nodes[idx[j]].fullPath
        {
          if j < |idx0| {
            assert idx[j] == idx0[j];
            assert init[k] == nodes[k] && init[idx0[j]] == nodes[idx0[j]];
          } else {
            assert idx[j] == m && init[k] == nodes[k];
          }
        }
      } else {
        assert Changed(nodes, filepath, lines) == r0 && ChangedAt(nodes, filepath, lines) == idx0;
        forall j, k | 0 <= j < |idx0| && 0 <= k < |nodes| && k < idx0[j] && Hit(nodes[k], filepath, lines)
          ensures nodes[k].fullPath != nodes[idx0[j]].fullPath
        {
          assert init[k] == nodes[k] && init[idx0[j]] == nodes[idx0[j]];
        }
      }
    }
  }
}
