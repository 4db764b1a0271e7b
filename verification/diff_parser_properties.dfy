/** What parse_diff does with each kind of line, how it numbers added and
    removed lines, and the shape of the list it returns: properties of the
    state machine of DiffParsing. */
module DiffParserProperties {
  import opened Text
  import opened DiffSyntax
  import opened DiffParsing

  /** The passes of the loop from state `a` over the lines `ls`. */
  function Steps(a: State, ls: seq<string>): (r: State)
    requires WF(a)
    ensures WF(r)
  {
    if ls == [] then a else Step(Steps(a, ls[..|ls| - 1]), ls[|ls| - 1])
  }

  /** The loop over the first `n` lines is the passes over that prefix. */
  lemma {:induction false} RunIsSteps(lines: seq<string>, n: nat)
    requires n <= |lines|
    ensures Run(lines, n) == Steps(Init, lines[..n])
  {
    if n > 0 {
      RunIsSteps(lines, n - 1);
      assert lines[..n][..n - 1] == lines[..n - 1];
    }
  }

  /** Passes over two blocks of lines are the passes over the first block,
      then over the second. */
  lemma {:induction false} StepsAppend(a: State, xs: seq<string>, ys: seq<string>)
    requires WF(a)
    ensures Steps(a, xs + ys) == Steps(Steps(a, xs), ys)
    decreases |ys|
  {
    if ys == [] {
      assert xs + ys == xs;
    } else {
      assert (xs + ys)[..|xs + ys| - 1] == xs + ys[..|ys| - 1];
      StepsAppend(a, xs, ys[..|ys| - 1]);
    }
  }

  /** A line whose first character differs from the pattern's does not
      start with it. */
  lemma {:induction false} FirstCharDiffers(line: string, p: string)
    requires |line| >= 1 && |p| >= 1 && line[0] != p[0]
    ensures !StartsWith(line, p)
  {
    CharDiffers(line, p, 0);
  }

  /** A line that differs from the pattern at some place inside both does
      not start with it. */
  lemma {:induction false} CharDiffers(line: string, p: string, i: nat)
    requires i < |line| && i < |p| && line[i] != p[i]
    ensures !StartsWith(line, p)
  {
    if |p| <= |line| {
      assert line[..|p|][i] == line[i];
    }
  }

  /** A line opening with `c` is none of the five marker lines when `c` is
      none of their first characters. */
  lemma {:induction false} NoMarker(line: string)
    requires |line| >= 1 && line[0] != 'd' && line[0] != 'n' && line[0] != 'r' && line[0] != '@'
    ensures !StartsWith(line, "diff --git") && !StartsWith(line, "new file") && !StartsWith(line, "deleted file")
    ensures !StartsWith(line, "rename from") && !StartsWith(line, "@@")
  {
    FirstCharDiffers(line, "diff --git");
    FirstCharDiffers(line, "new file");
    FirstCharDiffers(line, "deleted file");
    FirstCharDiffers(line, "rename from");
    FirstCharDiffers(line, "@@");
  }

  // ----- counting the lines of a hunk -----

  /** The counts of '+'/' ' and of '-'/' ' lines add up over concatenation. */
  lemma {:induction false} CountAppend(xs: seq<string>, ys: seq<string>)
    ensures CountNew(xs + ys) == CountNew(xs) + CountNew(ys)
    ensures CountOld(xs + ys) == CountOld(xs) + CountOld(ys)
    decreases |ys|
  {
    if ys == [] {
      assert xs + ys == xs;
    } else {
      assert (xs + ys)[..|xs + ys| - 1] == xs + ys[..|ys| - 1];
      CountAppend(xs, ys[..|ys| - 1]);
    }
  }

  /** Neither count exceeds the number of lines. */
  lemma {:induction false} CountBounds(ls: seq<string>)
    ensures CountNew(ls) <= |ls| && CountOld(ls) <= |ls|
  {
    if ls != [] {
      CountBounds(ls[..|ls| - 1]);
    }
  }

  /** The new-side line number the next '+' line of the current hunk gets. */
  function NextNew(a: State): int
    requires WF(a) && a.hunk.Some?
  {
    a.hunks[a.hunk.value].newStart + CountNew(a.hunks[a.hunk.value].lines)
  }

  /** The old-side line number the next '-' line of the current hunk gets. */
  function NextOld(a: State): int
    requires WF(a) && a.hunk.Some?
  {
    a.hunks[a.hunk.value].oldStart + CountOld(a.hunks[a.hunk.value].lines)
  }

  // ----- content lines -----

  predicate IsContent(line: string)
  {
    IsAddedLine(line) || IsRemovedLine(line) || IsContextLine(line)
  }

  /** Every line of the block is a content line. */
  predicate AllContent(ls: seq<string>)
  {
    ls == [] || (AllContent(ls[..|ls| - 1]) && IsContent(ls[|ls| - 1]))
  }

  /** The added-line record of `l` when the next new-side number is `n`. */
  function NewRecord(n: int, l: string): seq<(int, string)>
  {
    if IsAddedLine(l) then [(n, l[1..])] else []
  }

  /** The removed-line record of `l` when the next old-side number is `n`. */
  function OldRecord(n: int, l: string): seq<(int, string)>
  {
    if IsRemovedLine(l) then [(n, l[1..])] else []
  }

  /** The added-line records of a block of content lines whose first
      new-side line is number `start`: each '+' line is numbered by `start`
      plus the new-side ('+' or ' ') lines before it. */
  function NewSide(start: int, ls: seq<string>): seq<(int, string)>
  {
    if ls == [] then []
    else NewSide(start, ls[..|ls| - 1]) + NewRecord(start + CountNew(ls[..|ls| - 1]), ls[|ls| - 1])
  }

  /** The removed-line records of a block of content lines whose first
      old-side line is number `start`. */
  function OldSide(start: int, ls: seq<string>): seq<(int, string)>
  {
    if ls == [] then []
    else OldSide(start, ls[..|ls| - 1]) + OldRecord(start + CountOld(ls[..|ls| - 1]), ls[|ls| - 1])
  }

  /** State `a` with the lines `ls` appended to the current hunk and the
      records `add` and `rem` to the current file's added and removed lines. */
  function Grow(a: State, ls: seq<string>, add: seq<(int, string)>, rem: seq<(int, string)>): (r: State)
    requires WF(a) && a.hunk.Some? && a.cur.Some?
    ensures WF(r) && r.cur == a.cur && r.hunk == a.hunk
  {
    var c, h := a.cur.value, a.hunk.value;
    var f := a.files[c];
    a.(hunks := a.hunks[h := a.hunks[h].(lines := a.hunks[h].lines + ls)],
       files := a.files[c := f.(added := f.added + add, removed := f.removed + rem)])
  }

  /** Growing twice is growing once by both parts, and the next numbers
      move on by the new-side and old-side lines appended. */
  lemma {:induction false} GrowTwice(a: State, l1: seq<string>, x1: seq<(int, string)>, y1: seq<(int, string)>,
                                     l2: seq<string>, x2: seq<(int, string)>, y2: seq<(int, string)>)
    requires WF(a) && a.hunk.Some? && a.cur.Some?
    ensures Grow(Grow(a, l1, x1, y1), l2, x2, y2) == Grow(a, l1 + l2, x1 + x2, y1 + y2)
    ensures NextNew(Grow(a, l1, x1, y1)) == NextNew(a) + CountNew(l1)
    ensures NextOld(Grow(a, l1, x1, y1)) == NextOld(a) + CountOld(l1)
  {
    var h := a.hunk.value;
    var f := a.files[a.cur.value];
    assert a.hunks[h].lines + l1 + l2 == a.hunks[h].lines + (l1 + l2);
    assert f.added + x1 + x2 == f.added + (x1 + x2);
    assert f.removed + y1 + y2 == f.removed + (y1 + y2);
    CountAppend(a.hunks[h].lines, l1);
  }

  /** Growing by nothing changes nothing. */
  lemma {:induction false} GrowNothing(a: State)
    requires WF(a) && a.hunk.Some? && a.cur.Some?
    ensures Grow(a, [], [], []) == a
  {
    var c, h := a.cur.value, a.hunk.value;
    var f := a.files[c];
    assert a.hunks[h].lines + [] == a.hunks[h].lines;
    assert f.added + [] == f.added && f.removed + [] == f.removed;
    assert a.files[c := f] == a.files;
    assert a.hunks[h := a.hunks[h]] == a.hunks;
  }

  /** One content line in a hunk of a current file: it joins the hunk, and
      a '+' line is recorded at the next new-side number, a '-' line at the
      next old-side number; nothing else changes. */
  lemma {:induction false} ContentLine(a: State, line: string)
    requires WF(a) && a.hunk.Some? && a.cur.Some? && IsContent(line)
    ensures Step(a, line) == Grow(a, [line], NewRecord(NextNew(a), line), OldRecord(NextOld(a), line))
  {
    NoMarker(line);
    CountAppend(a.hunks[a.hunk.value].lines, [line]);
    var c := a.cur.value;
    var f := a.files[c];
    if IsAddedLine(line) {
      assert !IsRemovedLine(line);
      assert f.removed + [] == f.removed;
    } else if IsRemovedLine(line) {
      assert f.added + [] == f.added;
    } else {
      assert f.added + [] == f.added && f.removed + [] == f.removed;
      assert a.files[c := f] == a.files;
    }
  }

  /** A block of content lines in a hunk of a current file: the hunk gains
      the block, the file gains the records NewSide and OldSide number from
      the hunk's next new-side and old-side numbers; nothing else changes. */
  lemma {:induction false} ContentBlock(a: State, ls: seq<string>)
    requires WF(a) && a.hunk.Some? && a.cur.Some? && AllContent(ls)
    ensures Steps(a, ls) == Grow(a, ls, NewSide(NextNew(a), ls), OldSide(NextOld(a), ls))
  {
    if ls == [] {
      GrowNothing(a);
    } else {
      var init, l := ls[..|ls| - 1], ls[|ls| - 1];
      ContentBlock(a, init);
      var b := Grow(a, init, NewSide(NextNew(a), init), OldSide(NextOld(a), init));
      ContentLine(b, l);
      GrowSnoc(a, ls);
    }
  }

  /** Growing by all but the last line of a block and then by the last
      line's records is growing by the whole block. */
  lemma {:induction false} GrowSnoc(a: State, ls: seq<string>)
    requires WF(a) && a.hunk.Some? && a.cur.Some? && ls != []
    ensures var init, l := ls[..|ls| - 1], ls[|ls| - 1];
            var b := Grow(a, init, NewSide(NextNew(a), init), OldSide(NextOld(a), init));
            Grow(b, [l], NewRecord(NextNew(b), l), OldRecord(NextOld(b), l))
            == Grow(a, ls, NewSide(NextNew(a), ls), OldSide(NextOld(a), ls))
  {
    var init, l := ls[..|ls| - 1], ls[|ls| - 1];
    var x, y := NewSide(NextNew(a), init), OldSide(NextOld(a), init);
    var b := Grow(a, init, x, y);
    var x1, y1 := NewRecord(NextNew(b), l), OldRecord(NextOld(b), l);
    GrowTwice(a, init, x, y, [l], x1, y1);
    Snoc(ls);
    SidesSnoc(NextNew(a), NextOld(a), ls);
  }

  /** The records of a block are those of all but its last line, then
      the last line's. */
  lemma {:induction false} SidesSnoc(s: int, t: int, ls: seq<string>)
    requires ls != []
    ensures NewSide(s, ls) == NewSide(s, ls[..|ls| - 1]) + NewRecord(s + CountNew(ls[..|ls| - 1]), ls[|ls| - 1])
    ensures OldSide(t, ls) == OldSide(t, ls[..|ls| - 1]) + OldRecord(t + CountOld(ls[..|ls| - 1]), ls[|ls| - 1])
  {
  }

  lemma {:induction false} Snoc(ls: seq<string>)
    requires ls != []
    ensures ls[..|ls| - 1] + [ls[|ls| - 1]] == ls
  {
  }

  /** The added-line records of a block are numbered in strictly
      increasing order from `start`, below `start` plus the block's
      new-side lines. */
  lemma {:induction false} NewSideIncreases(start: int, ls: seq<string>)
    ensures var r := NewSide(start, ls);
            (forall i :: 0 <= i < |r| ==> start <= r[i].0 < start + CountNew(ls))
            && (forall i, j :: 0 <= i < j < |r| ==> r[i].0 < r[j].0)
  {
    if ls != [] {
      var init, l := ls[..|ls| - 1], ls[|ls| - 1];
      NewSideIncreases(start, init);
      SidesSnoc(start, start, ls);
      assert CountNew(ls) == CountNew(init) + (if StartsWith(l, "+") || IsContextLine(l) then 1 else 0);
      if IsAddedLine(l) {
        assert NewSide(start, ls) == NewSide(start, init) + [(start + CountNew(init), l[1..])];
      } else {
        assert NewSide(start, ls) == NewSide(start, init);
      }
    }
  }

  /** The removed-line records likewise, on the old side. */
  lemma {:induction false} OldSideIncreases(start: int, ls: seq<string>)
    ensures var r := OldSide(start, ls);
            (forall i :: 0 <= i < |r| ==> start <= r[i].0 < start + CountOld(ls))
            && (forall i, j :: 0 <= i < j < |r| ==> r[i].0 < r[j].0)
  {
    if ls != [] {
      var init, l := ls[..|ls| - 1], ls[|ls| - 1];
      OldSideIncreases(start, init);
      SidesSnoc(start, start, ls);
      assert CountOld(ls) == CountOld(init) + (if StartsWith(l, "-") || IsContextLine(l) then 1 else 0);
      if IsRemovedLine(l) {
        assert OldSide(start, ls) == OldSide(start, init) + [(start + CountOld(init), l[1..])];
      } else {
        assert OldSide(start, ls) == OldSide(start, init);
      }
    }
  }

  /** `+++` and `---` lines (file headers met while a hunk is still
      current) and `\` lines (such as "\ No newline at end of file") change
      nothing, even inside a hunk. */
  lemma {:induction false} MarkerLinesIgnored(a: State, rest: string)
    requires WF(a)
    ensures Step(a, "+++" + rest) == a
    ensures Step(a, "---" + rest) == a
    ensures Step(a, "\\" + rest) == a
  {
    Prefix("+++", rest);
    Prefix("---", rest);
    NoMarker("+++" + rest);
    NoMarker("---" + rest);
    NoMarker("\\" + rest);
    FirstCharDiffers("\\" + rest, "+");
    FirstCharDiffers("\\" + rest, "-");
    FirstCharDiffers("\\" + rest, " ");
    FirstCharDiffers("+++" + rest, " ");
    FirstCharDiffers("---" + rest, " ");
  }

  // ----- header lines -----

  /** A `diff --git a/x b/y` line lists the current file (if any) and
      opens a new modified file from `x` to `y`, which becomes current; the
      current hunk stays current. */
  lemma {:induction false} GitLineOpens(a: State, x: string, y: string)
    requires WF(a)
    requires '\n' !in x && '\n' !in y && forall j :: !OccursAt(y, " b/", j)
    ensures var out := if a.cur.Some? then a.out + [a.cur.value] else a.out;
            Step(a, GitLine(x, y)) == State(a.files + [FileValue(y, x, Modified, [], [], [])], a.hunks, out, Some(|a.files|), a.hunk)
  {
    GitHeaderRender(x, y);
    var line := GitLine(x, y);
    Prefix("diff --git a/", x + (" b/" + y));
    assert line[..10] == line[..13][..10];
  }

  /** A `diff --git` line that does not match the header pattern lists the
      current file but leaves it current, so the end of the loop lists it
      a second time. */
  lemma {:induction false} BadGitLineRepeats(a: State, line: string)
    requires WF(a) && a.cur.Some?
    requires StartsWith(line, "diff --git") && GitHeader(line).None?
    ensures Step(a, line) == a.(out := a.out + [a.cur.value])
    ensures Finish(Step(a, line)).out == a.out + [a.cur.value, a.cur.value]
  {
  }

  /** `diff --git` followed by anything but ` a/` does not match. */
  lemma {:induction false} UnprefixedGitLine(rest: string)
    requires !StartsWith(rest, " a/")
    ensures StartsWith("diff --git" + rest, "diff --git") && GitHeader("diff --git" + rest).None?
  {
    Prefix("diff --git", rest);
    StripPrefix("diff --git", rest, " a/");
    assert "diff --git" + " a/" == "diff --git a/";
  }

  /** `x + y` starts with `x + z` only when `y` starts with `z`. */
  lemma {:induction false} StripPrefix(x: string, y: string, z: string)
    ensures StartsWith(x + y, x + z) ==> StartsWith(y, z)
  {
    if StartsWith(x + y, x + z) {
      assert y[..|z|] == (x + y)[..|x + z|][|x|..];
    }
  }

  /** The marker of each status line. */
  function Marker(s: Status): string
    requires s != Modified
  {
    match s
    case Added => "new file"
    case Deleted => "deleted file"
    case Renamed => "rename from"
  }

  /** A `new file` / `deleted file` / `rename from` line sets the status of
      the current file (if any) and changes nothing else. */
  lemma {:induction false} StatusLine(a: State, s: Status, rest: string)
    requires WF(a) && s != Modified
    ensures var r := Step(a, Marker(s) + rest);
            r.hunks == a.hunks && r.out == a.out && r.cur == a.cur && r.hunk == a.hunk
            && (a.cur.None? ==> r.files == a.files)
            && (a.cur.Some? ==> r.files == a.files[a.cur.value := a.files[a.cur.value].(status := s)])
  {
    var line := Marker(s) + rest;
    Prefix(Marker(s), rest);
    assert line[..|Marker(s)|] == Marker(s);
    FirstCharDiffers(line, "@@");
    if s == Deleted {
      CharDiffers(line, "diff --git", 1);
    } else {
      FirstCharDiffers(line, "diff --git");
    }
    if s != Added {
      FirstCharDiffers(line, "new file");
    }
    if s == Renamed {
      FirstCharDiffers(line, "deleted file");
    }
  }

  /** A matching `@@` line with numbers `h` opens a hunk with those
      numbers, attached to the current file (if any) and current from now
      on; its next numbers are its two starts. */
  lemma {:induction false} HunkOpens(a: State, h: HunkRange)
    requires WF(a)
    ensures var r := OnHunk(a, Some(h));
            var k := |a.hunks|;
            r.hunks == a.hunks + [HunkValue(h.oldStart, h.oldCount, h.newStart, h.newCount, [])]
            && r.hunk == Some(k) && r.cur == a.cur && r.out == a.out
            && (a.cur.None? ==> r.files == a.files)
            && (a.cur.Some? ==> r.files == a.files[a.cur.value := a.files[a.cur.value].(hunks := a.files[a.cur.value].hunks + [k])])
            && NextNew(r) == h.newStart && NextOld(r) == h.oldStart
  {
    var r := OnHunk(a, Some(h));
    assert r.hunks[|a.hunks|].lines == [];
  }

  /** An `@@ -a[,b] +c[,d] @@` line is read as a hunk of those numbers, an
      omitted count meaning 1 (HunkOpens says what that does). */
  lemma {:induction false} HunkLineOpens(a: State, a0: nat, b: Option<nat>, c0: nat, d: Option<nat>, tail: string)
    requires WF(a)
    ensures Step(a, HeaderLine(a0, b, c0, d, tail)) == OnHunk(a, Some(HunkRange(a0, CountOf(b), c0, CountOf(d))))
  {
    var line := HeaderLine(a0, b, c0, d, tail);
    HunkHeaderRender(a0, b, c0, d, tail);
    AtAtPrefix(RangeLine(a0, b, " +", RangeLine(c0, d, " @@", tail)));
    StepOnAtLine(a, line);
  }

  lemma AtAtPrefix(y: string)
    ensures StartsWith("@@ -" + y, "@@") && ("@@ -" + y)[0] == '@'
  {
    assert ("@@ -" + y)[..2] == "@@";
  }

  /** An `@@` line is handed to the hunk header. */
  lemma StepOnAtLine(a: State, line: string)
    requires WF(a) && StartsWith(line, "@@") && line[0] == '@'
    ensures Step(a, line) == OnHunk(a, HunkHeader(line))
  {
    NoMarkerButHunk(line);
  }

  /** A line opening with '@' is none of the other four marker lines. */
  lemma {:induction false} NoMarkerButHunk(line: string)
    requires |line| >= 1 && line[0] == '@'
    ensures !StartsWith(line, "diff --git") && !StartsWith(line, "new file") && !StartsWith(line, "deleted file")
    ensures !StartsWith(line, "rename from")
  {
    FirstCharDiffers(line, "diff --git");
    FirstCharDiffers(line, "new file");
    FirstCharDiffers(line, "deleted file");
    FirstCharDiffers(line, "rename from");
  }

  /** An `@@` line that does not match the hunk pattern changes nothing, so
      the lines after it go on into the previous hunk. */
  lemma {:induction false} BadHunkLineKeeps(a: State, line: string)
    requires WF(a) && StartsWith(line, "@@") && HunkHeader(line).None?
    ensures Step(a, line) == a
  {
    assert line[0] == line[..2][0];
    NoMarkerButHunk(line);
  }

  /** The hunk is not reset by `diff --git`: an added line right after a
      new file's header joins the previous file's last hunk and is recorded
      on the new file, numbered after that hunk's lines. */
  lemma {:induction false} CarriedHunk(a: State, x: string, y: string, line: string)
    requires WF(a) && a.hunk.Some? && IsAddedLine(line)
    requires '\n' !in x && '\n' !in y && forall j :: !OccursAt(y, " b/", j)
    ensures var b := Step(a, GitLine(x, y));
            b.hunk == a.hunk && b.cur == Some(|a.files|)
            && Step(b, line) == Grow(b, [line], [(NextNew(a), line[1..])], [])
  {
    GitLineOpens(a, x, y);
    var b := Step(a, GitLine(x, y));
    assert NextNew(b) == NextNew(a);
    assert IsContent(line);
    ContentLine(b, line);
  }

  // ----- the shape of the result -----

  /** Between two lines: the current file is the newest one, the list holds
      file indices in non-decreasing order, and every file but the current
      one is listed. */
  predicate Ordered(a: State)
  {
    (a.cur.None? ==> a.files == [] && a.out == [])
    && (a.cur.Some? ==> a.cur.value == |a.files| - 1)
    && (forall i, j :: 0 <= i < j < |a.out| ==> a.out[i] <= a.out[j])
    && (forall j :: 0 <= j < |a.out| ==> a.out[j] < |a.files|)
    && (forall k :: 0 <= k < |a.files| - 1 ==> k in a.out)
  }

  /** Only a `diff --git` line touches the list, the current file or the
      number of files. */
  lemma {:induction false} StepKeepsList(a: State, line: string)
    requires WF(a) && !StartsWith(line, "diff --git")
    ensures var r := Step(a, line);
            r.out == a.out && r.cur == a.cur && |r.files| == |a.files|
  {
  }

  lemma {:induction false} StepOrdered(a: State, line: string)
    requires WF(a) && Ordered(a)
    ensures Ordered(Step(a, line))
  {
    if StartsWith(line, "diff --git") {
      var r := Step(a, line);
      assert r == OnGit(a, GitHeader(line));
      if a.cur.Some? {
        assert r.out == a.out + [a.cur.value];
        forall k | 0 <= k < |r.files| - 1
          ensures k in r.out
        {
          if k < |a.files| - 1 {
            assert k in a.out;
          } else {
            assert r.out[|a.out|] == k;
          }
        }
      }
    } else {
      StepKeepsList(a, line);
    }
  }

  lemma {:induction false} RunOrdered(lines: seq<string>, n: nat)
    requires n <= |lines|
    ensures Ordered(Run(lines, n))
  {
    if n > 0 {
      RunOrdered(lines, n - 1);
      StepOrdered(Run(lines, n - 1), lines[n - 1]);
    }
  }

  /** The result of parse_diff lists every file it opened, in the order of
      their headers; a file listed twice is listed in adjacent places. */
  lemma {:induction false} ParseListsEveryFile(diffContent: string)
    ensures var r := Parse(diffContent);
            (forall k :: 0 <= k < |r.files| ==> k in r.out)
            && (forall i, j :: 0 <= i < j < |r.out| ==> r.out[i] <= r.out[j])
  {
    var lines := Split(diffContent, '\n');
    var a := Run(lines, |lines|);
    RunOrdered(lines, |lines|);
    var r := Finish(a);
    forall k | 0 <= k < |r.files|
      ensures k in r.out
    {
      if k < |a.files| - 1 {
        assert k in a.out;
      } else {
        assert r.out[|a.out|] == k;
      }
    }
  }
}
