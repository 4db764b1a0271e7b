/** PRReviewer (src/pr_review/pr_reviewer.py): the diff section handed to
    the reviewer for one file, and the nodes each changed file is matched
    against. */
module PrReview {
  import opened Text
  import opened SemanticNodes
  import opened DiffParsing
  import opened ChangedFunctions

  // ----- _extract_file_diff -----

  /** A `diff --git` line naming the file somewhere (a substring test). */
  predicate Opens(line: string, filepath: string)
  {
    StartsWith(line, "diff --git") && Contains(line, filepath)
  }

  /** A `diff --git` line that does not name the file. */
  predicate Closes(line: string, filepath: string)
  {
    StartsWith(line, "diff --git") && !Contains(line, filepath)
  }

  /** The index of the first line that opens the file, or |lines|. */
  function FirstOpen(lines: seq<string>, filepath: string): (r: nat)
    ensures r <= |lines|
    ensures r < |lines| ==> Opens(lines[r], filepath)
    ensures forall k :: 0 <= k < r ==> !Opens(lines[k], filepath)
  {
    if lines == [] then 0
    else if Opens(lines[0], filepath) then 0
    else 1 + FirstOpen(lines[1..], filepath)
  }

  /** The index of the first line at or after `from` that closes the file,
      or |lines|. */
  function NextClose(lines: seq<string>, filepath: string, from: nat): (r: nat)
    requires from <= |lines|
    ensures from <= r <= |lines|
    ensures r < |lines| ==> Closes(lines[r], filepath)
    ensures forall k :: from <= k < r ==> !Closes(lines[k], filepath)
    decreases |lines| - from
  {
    if from == |lines| then from
    else if Closes(lines[from], filepath) then from
    else NextClose(lines, filepath, from + 1)
  }

  /** The lines `_extract_file_diff` collects: from the first line opening
      the file up to, not including, the next line closing it. */
  function Section(lines: seq<string>, filepath: string): seq<string>
  {
    var a := FirstOpen(lines, filepath);
    if a == |lines| then [] else lines[a..NextClose(lines, filepath, a + 1)]
  }

  function FileDiff(diffContent: string, filepath: string): string
  {
    Join(Section(Split(diffContent, '\n'), filepath), "\n")
  }

  /** `_extract_file_diff(diff_content, filepath)` */
  method ExtractFileDiff(diffContent: string, filepath: string) returns (fileDiff: string)
    ensures fileDiff == FileDiff(diffContent, filepath)
  {
    var lines := Split(diffContent, '\n');
    var collected: seq<string> := [];
    var inFile := false;
    ghost var a := FirstOpen(lines, filepath);
    var i := 0;
    while i < |lines|
      invariant 0 <= i <= |lines|
      invariant !inFile ==> collected == [] && i <= a
      invariant inFile ==> a < i && collected == lines[a..i] && NextClose(lines, filepath, a + 1) >= i
    {
      var line := lines[i];
      if StartsWith(line, "diff --git") && Contains(line, filepath) {
        inFile := true;
      } else if StartsWith(line, "diff --git") && inFile {
        break;
      }
      if inFile {
        collected := collected + [line];
      }
      i := i + 1;
    }
    fileDiff := Join(collected, "\n");
  }

  /** A diff with no `diff --git` line naming the file gives "". */
  lemma NoHeaderGivesEmpty(diffContent: string, filepath: string)
    requires forall k :: 0 <= k < |Split(diffContent, '\n')| ==> !Opens(Split(diffContent, '\n')[k], filepath)
    ensures FileDiff(diffContent, filepath) == ""
  {
  }

  /** Otherwise the section is a run of the diff's lines that starts at the
      first header naming the file and takes every line up to the first
      header after it that does not name the file; a later header that
      names it, even as part of a longer path, does not end the run. */
  lemma SectionSpec(lines: seq<string>, filepath: string)
    requires exists k :: 0 <= k < |lines| && Opens(lines[k], filepath)
    ensures var s := Section(lines, filepath);
            && s != [] && Opens(s[0], filepath)
            && (forall k :: 1 <= k < |s| ==> !Closes(s[k], filepath))
            && exists a, b :: 0 <= a < b <= |lines| && s == lines[a..b]
                 && (forall k :: 0 <= k < a ==> !Opens(lines[k], filepath))
                 && (b < |lines| ==> Closes(lines[b], filepath))
  {
    var a := FirstOpen(lines, filepath);
    var b := NextClose(lines, filepath, a + 1);
    var s := Section(lines, filepath);
    assert s == lines[a..b];
    forall k | 1 <= k < |s|
      ensures !Closes(s[k], filepath)
    {
      assert s[k] == lines[a + k];
    }
  }

  /** The header of a file whose path ends with the path of another (say
      `data.py` and `a.py`) names that other file too, so it neither closes
      that file's section nor fails to open it. */
  lemma LongerPathHeaderNamesFile(p: string, d: string)
    ensures Opens("diff --git a/" + d + p + " b/" + d + p, p)
  {
    var line := "diff --git a/" + d + p + " b/" + d + p;
    assert line[..10] == "diff --git";
    assert line[13 + |d|..13 + |d| + |p|] == p;
    ContainsAt(line, p, 13 + |d|);
  }

  // ----- the per-file node filter of review_pr -----

  /** `[n for n in self.nodes if n.filepath == file_change.filepath]` */
  function FileNodes(nodes: seq<SemanticNode>, filepath: string): (r: seq<SemanticNode>)
    reads set n | n in nodes
    ensures forall i :: 0 <= i < |r| ==> r[i] in nodes && r[i].filepath == filepath
  {
    if nodes == [] then []
    else
      var r := FileNodes(nodes[..|nodes| - 1], filepath);
      var n := nodes[|nodes| - 1];
      if n.filepath == filepath then r + [n] else r
  }

  /** Every node of the file is kept, in order: the filter drops only nodes
      of other files. */
  lemma {:induction false} FileNodesComplete(nodes: seq<SemanticNode>, filepath: string, k: nat)
    requires k < |nodes| && nodes[k].filepath == filepath
    ensures nodes[k] in FileNodes(nodes, filepath)
  {
    if k < |nodes| - 1 {
      FileNodesComplete(nodes[..|nodes| - 1], filepath, k);
    }
  }

  /** Filtering by file first changes nothing in the result, since
      `get_changed_functions` itself skips nodes of other files. */
  lemma {:induction false} FilterFirstSame(nodes: seq<SemanticNode>, filepath: string, lines: set<int>)
    ensures Changed(FileNodes(nodes, filepath), filepath, lines) == Changed(nodes, filepath, lines)
  {
    if nodes != [] {
      var init, n := nodes[..|nodes| - 1], nodes[|nodes| - 1];
      FilterFirstSame(init, filepath, lines);
      var f := FileNodes(init, filepath);
      if n.filepath == filepath {
        assert FileNodes(nodes, filepath) == f + [n];
        assert (f + [n])[..|f + [n]| - 1] == f;
      }
    }
  }

  /** The changed nodes of each file change, in the order of the changes:
      each is matched against exactly the scanned nodes of its own file. */
  method ChangedNodesPerFile(fileChanges: seq<FileChange>, nodes: seq<SemanticNode>)
    returns (changed: seq<seq<SemanticNode>>)
    ensures |changed| == |fileChanges|
    ensures forall i :: 0 <= i < |fileChanges| ==>
              changed[i] == Changed(FileNodes(nodes, fileChanges[i].filepath), fileChanges[i].filepath,
                                    ChangedLines(fileChanges[i].addedLines, fileChanges[i].removedLines))
  {
    changed := [];
    for i := 0 to |fileChanges|
      invariant |changed| == i
      invariant forall j :: 0 <= j < i ==>
                  changed[j] == Changed(FileNodes(nodes, fileChanges[j].filepath), fileChanges[j].filepath,
                                        ChangedLines(fileChanges[j].addedLines, fileChanges[j].removedLines))
    {
      var fileChange := fileChanges[i];
      var fileNodes := FileNodes(nodes, fileChange.filepath);
      var changedNodes := GetChangedFunctions(fileChange, fileNodes);
      changed := changed + [changedNodes];
    }
  }
}
