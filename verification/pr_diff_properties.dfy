/** What DiffParser.parse (pr_context_retrieval.py) does with each kind of
    line, and what holds of every parse. */
module PrDiffProperties {
  import opened Text
  import opened DiffSyntax
  import opened PrDiffParsing

  // ----- one line at a time -----

  /** A `diff --git` line saves the current file, with the open hunk
      attached, and opens a blank FileDiff with no current hunk. */
  lemma GitLineFlushes(a: State, rest: string)
    requires WF(a)
    ensures var b := Step(a, "diff --git" + rest);
            && b.store == a.store
            && b.cur == Some(FileRec(None, None, false, false, false, [], None))
            && b.hunk == None
            && b.files == if a.cur.None? then a.files
                          else a.files + [a.cur.value.(hunks := a.cur.value.hunks + if a.hunk.Some? then [a.hunk.value] else [])]
  {
    Prefix("diff --git", rest);
    if a.cur.Some? && a.hunk.None? {
      assert a.cur.value.hunks + [] == a.cur.value.hunks;
    }
  }

  /** A `--- ` line sets the old path, and marks a new file for `/dev/null`;
      it is a header line even inside a hunk, so it is never stored. */
  lemma OldPathLine(a: State, line: string)
    requires WF(a) && StartsWith(line, "--- ")
    ensures var b := Step(a, line);
            && b.store == a.store && b.files == a.files && b.hunk == a.hunk
            && (a.cur.None? ==> b.cur == None)
            && (a.cur.Some? ==>
                  var c := a.cur.value;
                  var p := HeaderPath(line, "a/");
                  b.cur == Some(c.(oldPath := p, isNewFile := c.isNewFile || p.None?)))
  {
    assert line[0] == '-';
    assert !StartsWith(line, "diff --git") by { assert "diff --git"[0] != line[0]; }
  }

  /** A `+++ ` line sets the new path, marks a deleted file for `/dev/null`
      and takes the language from a non-empty new path; it too is never
      stored. */
  lemma NewPathLine(a: State, line: string)
    requires WF(a) && StartsWith(line, "+++ ")
    ensures var b := Step(a, line);
            && b.store == a.store && b.files == a.files && b.hunk == a.hunk
            && (a.cur.None? ==> b.cur == None)
            && (a.cur.Some? ==>
                  var c := a.cur.value;
                  var p := HeaderPath(line, "b/");
                  b.cur == Some(c.(newPath := p, isDeletedFile := c.isDeletedFile || p.None?,
                                   language := if p.Some? && p.value != "" then LanguageDetection.Detect(p.value) else c.language)))
  {
    assert line[0] == '+';
    assert !StartsWith(line, "diff --git") by { assert "diff --git"[0] != line[0]; }
    assert !StartsWith(line, "--- ") by { assert "--- "[0] != line[0]; }
  }

  /** `--- a/p` (or `+++ b/p`) with trailing whitespace reads as `p`, and
      `/dev/null` as no path; exactly one prefix is dropped. */
  lemma PrefixedPath(tag: string, prefix: string, p: string, ws: string)
    requires |tag| == 4 && |prefix| == 2 && !IsSpace(prefix[0]) && !IsSpace(prefix[1])
    requires Clean(p) && AllSpace(ws)
    ensures HeaderPath(tag + (prefix + p + ws), prefix) == if p == "/dev/null" then None else Some(p)
  {
    var line := tag + (prefix + p + ws);
    Suffix(tag, prefix + p + ws);
    assert Clean(prefix + p);
    assert prefix + p + ws == (prefix + p) + ws;
    StripPadded(prefix + p, ws);
    Suffix(prefix, p);
  }

  /** A path written without the prefix reads as itself. */
  lemma UnprefixedPath(tag: string, prefix: string, p: string, ws: string)
    requires |tag| == 4 && Clean(p) && AllSpace(ws) && !StartsWith(p, prefix)
    ensures HeaderPath(tag + (p + ws), prefix) == if p == "/dev/null" then None else Some(p)
  {
    Suffix(tag, p + ws);
    StripPadded(p, ws);
  }

  /** An `@@` line that matches the header pattern attaches the open hunk
      to the current file and opens an empty hunk with the header's numbers. */
  lemma HunkLineOpens(a: State, line: string, h: HunkRange)
    requires WF(a) && LooseHunkHeader(line) == Some(h)
    ensures StartsWith(line, "@@")
    ensures Step(a, line) ==
            State(a.store + [DiffHunk(h.oldStart, h.oldCount, h.newStart, h.newCount, [])], a.files,
                  if a.cur.Some? && a.hunk.Some? then Some(a.cur.value.(hunks := a.cur.value.hunks + [a.hunk.value])) else a.cur,
                  Some(|a.store|))
  {
    LooseHeaderPrefix(line);
    StepOnHunkLine(a, line);
    OnHunkOpens(a, h);
  }

  lemma OnHunkOpens(a: State, h: HunkRange)
    requires WF(a)
    ensures OnHunk(a, Some(h)) ==
            State(a.store + [DiffHunk(h.oldStart, h.oldCount, h.newStart, h.newCount, [])], a.files,
                  if a.cur.Some? && a.hunk.Some? then Some(a.cur.value.(hunks := a.cur.value.hunks + [a.hunk.value])) else a.cur,
                  Some(|a.store|))
  {
  }

  lemma LooseHeaderPrefix(line: string)
    requires StartsWith(line, "@@ -")
    ensures StartsWith(line, "@@")
  {
    assert StartsWith(line, "@@ -");
    assert line[..2] == "@@ -"[..2];
  }

  lemma StepOnHunkLine(a: State, line: string)
    requires WF(a) && StartsWith(line, "@@")
    ensures Step(a, line) == OnHunk(a, LooseHunkHeader(line))
  {
    HunkLineDispatch(line);
  }

  /** An `@@` line that does not match attaches the open hunk but keeps it
      current, so the next save attaches it a second time: the file lists the
      same hunk twice, and both entries end with its final lines. */
  lemma BadHunkLineRepeats(a: State, line: string)
    requires WF(a) && StartsWith(line, "@@") && LooseHunkHeader(line).None?
    requires a.cur.Some? && a.hunk.Some?
    ensures var b := Step(a, line);
            var k := a.hunk.value;
            && b.hunk == a.hunk && b.store == a.store
            && b.cur == Some(a.cur.value.(hunks := a.cur.value.hunks + [k]))
            && Flush(b) == a.files + [a.cur.value.(hunks := a.cur.value.hunks + [k, k])]
  {
    HunkLineDispatch(line);
    assert a.cur.value.hunks + [a.hunk.value] + [a.hunk.value] == a.cur.value.hunks + [a.hunk.value, a.hunk.value];
  }

  lemma HunkLineDispatch(line: string)
    requires StartsWith(line, "@@")
    ensures !StartsWith(line, "diff --git") && !StartsWith(line, "--- ") && !StartsWith(line, "+++ ")
  {
    assert line[0] == '@';
    assert "diff --git"[0] != line[0] && "--- "[0] != line[0] && "+++ "[0] != line[0];
  }

  /** Inside a hunk, a '+', '-' or ' ' line that is not a path header joins
      the current hunk; any other line is dropped. */
  lemma ContentLine(a: State, line: string)
    requires WF(a) && a.hunk.Some?
    requires !StartsWith(line, "diff --git") && !StartsWith(line, "--- ") && !StartsWith(line, "+++ ") && !StartsWith(line, "@@")
    ensures var k := a.hunk.value;
            Step(a, line) == if IsHunkLine(line) then a.(store := a.store[k := a.store[k].(lines := a.store[k].lines + [line])]) else a
  {
  }

  /** Outside a hunk, such a line changes nothing. */
  lemma StrayLine(a: State, line: string)
    requires WF(a) && a.hunk.None?
    requires !StartsWith(line, "diff --git") && !StartsWith(line, "--- ") && !StartsWith(line, "+++ ") && !StartsWith(line, "@@")
    ensures Step(a, line) == a
  {
  }

  // ----- every parse -----

  /** What the parser keeps true: no file is ever marked renamed, and every
      stored hunk line starts with '+', '-' or ' '. */
  predicate Sound(a: State)
  {
    && (forall k :: 0 <= k < |a.files| ==> !a.files[k].isRenamed)
    && (a.cur.Some? ==> !a.cur.value.isRenamed)
    && (forall k :: 0 <= k < |a.store| ==> AllHunkLines(a.store[k].lines))
  }

  predicate AllHunkLines(ls: seq<string>)
  {
    forall t :: 0 <= t < |ls| ==> IsHunkLine(ls[t])
  }

  /** Every step keeps Sound. */
  lemma StepSound(a: State, line: string)
    requires WF(a) && Sound(a)
    ensures Sound(Step(a, line))
  {
    if StartsWith(line, "diff --git") {
      assert Step(a, line) == OnGitLine(a);
    } else if StartsWith(line, "--- ") {
      assert Step(a, line) == OnOldPath(a, line);
    } else if StartsWith(line, "+++ ") {
      assert Step(a, line) == OnNewPath(a, line);
    } else if StartsWith(line, "@@") {
      assert Step(a, line) == OnHunk(a, LooseHunkHeader(line));
      HunkSound(a, LooseHunkHeader(line));
    } else if a.hunk.Some? {
      assert Step(a, line) == OnContent(a, line);
      ContentSound(a, line);
    }
  }

  lemma HunkSound(a: State, m: Option<HunkRange>)
    requires WF(a) && Sound(a)
    ensures Sound(OnHunk(a, m))
  {
  }

  lemma ContentSound(a: State, line: string)
    requires WF(a) && Sound(a) && a.hunk.Some?
    ensures Sound(OnContent(a, line))
  {
    if IsHunkLine(line) {
      var k := a.hunk.value;
      assert AllHunkLines(a.store[k].lines + [line]);
    }
  }

  /** Only a `diff --git` line adds a file to those saved so far. */
  lemma StepCountsFiles(a: State, line: string)
    requires WF(a)
    ensures |Flush(Step(a, line))| == |Flush(a)| + if StartsWith(line, "diff --git") then 1 else 0
  {
    if StartsWith(line, "diff --git") {
      assert Step(a, line) == OnGitLine(a);
    } else if StartsWith(line, "--- ") {
      assert Step(a, line) == OnOldPath(a, line);
    } else if StartsWith(line, "+++ ") {
      assert Step(a, line) == OnNewPath(a, line);
    } else if StartsWith(line, "@@") {
      assert Step(a, line) == OnHunk(a, LooseHunkHeader(line));
    } else if a.hunk.Some? {
      assert Step(a, line) == OnContent(a, line);
    }
  }

  lemma {:induction false} RunSound(lines: seq<string>, n: nat)
    requires n <= |lines|
    ensures Sound(Run(lines, n))
  {
    if n > 0 {
      RunSound(lines, n - 1);
      StepSound(Run(lines, n - 1), lines[n - 1]);
    }
  }

  /** `is_renamed` is never set: no FileDiff of a parse is marked renamed. */
  lemma ParseNeverRenamed(diffText: string)
    ensures forall k :: 0 <= k < |Parse(diffText)| ==> !Parse(diffText)[k].isRenamed
  {
    var lines := Split(diffText, '\n');
    RunSound(lines, |lines|);
  }

  /** Every line of every hunk of a parse starts with '+', '-' or ' '. */
  lemma ParseKeepsHunkLines(diffText: string)
    ensures forall k, t :: 0 <= k < |Parse(diffText)| && 0 <= t < |Parse(diffText)[k].hunks| ==>
              AllHunkLines(Parse(diffText)[k].hunks[t].lines)
  {
    var lines := Split(diffText, '\n');
    var a := Run(lines, |lines|);
    RunSound(lines, |lines|);
    forall k, t | 0 <= k < |Parse(diffText)| && 0 <= t < |Parse(diffText)[k].hunks|
      ensures AllHunkLines(Parse(diffText)[k].hunks[t].lines)
    {
      assert Parse(diffText)[k] == Resolve(a.store, Flush(a)[k]);
      assert Parse(diffText)[k].hunks[t] == a.store[Flush(a)[k].hunks[t]];
    }
  }

  /** The number of lines starting with `diff --git`. */
  function GitCount(lines: seq<string>): nat
  {
    if lines == [] then 0
    else GitCount(lines[..|lines| - 1]) + if StartsWith(lines[|lines| - 1], "diff --git") then 1 else 0
  }

  /** One FileDiff per `diff --git` line so far, the current one included. */
  lemma {:induction false} RunCountsFiles(lines: seq<string>, n: nat)
    requires n <= |lines|
    ensures |Flush(Run(lines, n))| == GitCount(lines[..n])
  {
    if n > 0 {
      RunCountsFiles(lines, n - 1);
      StepCountsFiles(Run(lines, n - 1), lines[n - 1]);
      assert lines[..n][..n - 1] == lines[..n - 1];
    }
  }

  /** A parse has exactly one FileDiff per `diff --git` line: every file is
      saved once, the last one at the end. */
  lemma ParseCountsFiles(diffText: string)
    ensures |Parse(diffText)| == GitCount(Split(diffText, '\n'))
  {
    var lines := Split(diffText, '\n');
    RunCountsFiles(lines, |lines|);
    assert lines[..|lines|] == lines;
  }
}
