/** DiffParser.parse_diff (src/diff_parser/diff_parser.py): a line-driven
    state machine over a unified diff with git's extended headers, keeping a
    current FileChange and a current HunkChange.

    The parser shares objects: a hunk stays current across a `diff --git`
    line, and a file whose header does not match stays current and is
    appended again. The specification therefore works on a store: every
    FileChange and HunkChange ever created is an entry of `files`/`hunks`,
    files refer to their hunks by index, and the result list, the current
    file and the current hunk are indices into the store. */
module DiffParsing {
  import opened Text
  import opened DiffSyntax

  datatype Status = Modified | Added | Deleted | Renamed
  {
    /** The status string the source stores. */
    function Name(): string
    {
      match this
      case Modified => "modified"
      case Added => "added"
      case Deleted => "deleted"
      case Renamed => "renamed"
    }
  }

  /** A HunkChange as a value. */
  datatype HunkValue = HunkValue(oldStart: nat, oldCount: nat, newStart: nat, newCount: nat, lines: seq<string>)

  /** A FileChange as a value, its hunks as store indices (modified_ranges is
      filled in after the loop, see RangesOf). */
  datatype FileValue = FileValue(filepath: string, oldFilepath: string, status: Status, hunks: seq<nat>,
                                 added: seq<(int, string)>, removed: seq<(int, string)>)

  /** The parser between two lines: the store, `file_changes` as indices, and
      `current_file`/`current_hunk`. */
  datatype State = State(files: seq<FileValue>, hunks: seq<HunkValue>, out: seq<nat>, cur: Option<nat>, hunk: Option<nat>)

  /** Every index refers to an entry of the store. */
  predicate WF(a: State)
  {
    (a.cur.Some? ==> a.cur.value < |a.files|)
    && (a.hunk.Some? ==> a.hunk.value < |a.hunks|)
    && (forall j :: 0 <= j < |a.out| ==> a.out[j] < |a.files|)
    && (forall k :: 0 <= k < |a.files| ==> HunksIn(a.files[k].hunks, |a.hunks|))
  }

  predicate HunksIn(ix: seq<nat>, n: nat)
  {
    forall t :: 0 <= t < |ix| ==> ix[t] < n
  }

  const Init: State := State([], [], [], None, None)

  predicate IsAddedLine(line: string) { StartsWith(line, "+") && !StartsWith(line, "+++") }
  predicate IsRemovedLine(line: string) { StartsWith(line, "-") && !StartsWith(line, "---") }
  predicate IsContextLine(line: string) { StartsWith(line, " ") }

  /** `len([l for l in lines if l.startswith('+') or l.startswith(' ')])` */
  function CountNew(lines: seq<string>): nat
  {
    if lines == [] then 0
    else CountNew(lines[..|lines| - 1]) + (if StartsWith(lines[|lines| - 1], "+") || IsContextLine(lines[|lines| - 1]) then 1 else 0)
  }

  /** `len([l for l in lines if l.startswith('-') or l.startswith(' ')])` */
  function CountOld(lines: seq<string>): nat
  {
    if lines == [] then 0
    else CountOld(lines[..|lines| - 1]) + (if StartsWith(lines[|lines| - 1], "-") || IsContextLine(lines[|lines| - 1]) then 1 else 0)
  }

  /** A `diff --git` line: the current file (if any) joins the result; a
      matching header opens a new modified file, otherwise the current file
      stays current. The current hunk is left alone. */
  function OnGitLine(a: State, line: string): (r: State)
    requires WF(a)
    ensures WF(r)
  {
    OnGit(a, GitHeader(line))
  }

  /** A `diff --git` line whose match is `m`. */
  function OnGit(a: State, m: Option<(string, string)>): (r: State)
    requires WF(a)
    ensures WF(r)
  {
    var out := if a.cur.Some? then a.out + [a.cur.value] else a.out;
    match m
    case None => a.(out := out)
    case Some((x, y)) =>
      State(a.files + [FileValue(y, x, Modified, [], [], [])], a.hunks, out, Some(|a.files|), a.hunk)
  }

  /** `if current_file: current_file.status = s` */
  function OnStatus(a: State, s: Status): (r: State)
    requires WF(a)
    ensures WF(r)
  {
    if a.cur.None? then a
    else
      var c := a.cur.value;
      a.(files := a.files[c := a.files[c].(status := s)])
  }

  /** An `@@` line: a matching header opens a hunk, current from now on and
      attached to the current file (if any); otherwise nothing changes. */
  function OnHunkLine(a: State, line: string): (r: State)
    requires WF(a)
    ensures WF(r)
  {
    OnHunk(a, HunkHeader(line))
  }

  /** An `@@` line whose match is `m`. */
  function OnHunk(a: State, m: Option<HunkRange>): (r: State)
    requires WF(a)
    ensures WF(r)
  {
    match m
    case None => a
    case Some(h) =>
      var k := |a.hunks|;
      var hunks := a.hunks + [HunkValue(h.oldStart, h.oldCount, h.newStart, h.newCount, [])];
      if a.cur.None? then State(a.files, hunks, a.out, a.cur, Some(k))
      else
        var c := a.cur.value;
        State(a.files[c := a.files[c].(hunks := a.files[c].hunks + [k])], hunks, a.out, a.cur, Some(k))
  }

  /** Any other line while a hunk is current: '+' (not '+++'), '-' (not
      '---') and ' ' lines join the hunk; an added line is recorded on the
      current file at the new-side number `new_start + (count of '+'/' '
      lines so far) - 1`, a removed one at the old-side number. */
  function OnContent(a: State, line: string): (r: State)
    requires WF(a) && a.hunk.Some?
    ensures WF(r)
  {
    if IsAddedLine(line) then OnAdded(a, line)
    else if IsRemovedLine(line) then OnRemoved(a, line)
    else if IsContextLine(line) then OnContext(a, line)
    else a
  }

  /** The current hunk with `line` appended to its lines. */
  function Extend(a: State, line: string): (r: seq<HunkValue>)
    requires a.hunk.Some? && a.hunk.value < |a.hunks|
    ensures |r| == |a.hunks|
  {
    var k := a.hunk.value;
    a.hunks[k := a.hunks[k].(lines := a.hunks[k].lines + [line])]
  }

  function OnAdded(a: State, line: string): (r: State)
    requires WF(a) && a.hunk.Some? && IsAddedLine(line)
    ensures WF(r)
  {
    var h := a.hunks[a.hunk.value];
    if a.cur.None? then a.(hunks := Extend(a, line))
    else
      var c := a.cur.value;
      var f := a.files[c];
      var n := h.newStart + CountNew(h.lines + [line]) - 1;
      a.(hunks := Extend(a, line), files := a.files[c := f.(added := f.added + [(n, line[1..])])])
  }

  function OnRemoved(a: State, line: string): (r: State)
    requires WF(a) && a.hunk.Some? && IsRemovedLine(line)
    ensures WF(r)
  {
    var h := a.hunks[a.hunk.value];
    if a.cur.None? then a.(hunks := Extend(a, line))
    else
      var c := a.cur.value;
      var f := a.files[c];
      var n := h.oldStart + CountOld(h.lines + [line]) - 1;
      a.(hunks := Extend(a, line), files := a.files[c := f.(removed := f.removed + [(n, line[1..])])])
  }

  function OnContext(a: State, line: string): (r: State)
    requires WF(a) && a.hunk.Some?
    ensures WF(r)
  {
    a.(hunks := Extend(a, line))
  }

  /** One pass of the `while` loop of parse_diff. */
  function Step(a: State, line: string): (r: State)
    requires WF(a)
    ensures WF(r)
  {
    if StartsWith(line, "diff --git") then OnGitLine(a, line)
    else if StartsWith(line, "new file") then OnStatus(a, Added)
    else if StartsWith(line, "deleted file") then OnStatus(a, Deleted)
    else if StartsWith(line, "rename from") then OnStatus(a, Renamed)
    else if StartsWith(line, "@@") then OnHunkLine(a, line)
    else if a.hunk.Some? then OnContent(a, line)
    else a
  }

  /** The state after the first `n` lines. */
  function Run(lines: seq<string>, n: nat): (r: State)
    requires n <= |lines|
    ensures WF(r)
  {
    if n == 0 then Init else Step(Run(lines, n - 1), lines[n - 1])
  }

  /** "Don't forget the last file". */
  function Finish(a: State): (r: State)
    requires WF(a)
    ensures WF(r)
  {
    if a.cur.Some? then a.(out := a.out + [a.cur.value]) else a
  }

  /** The store and result of `parse_diff(diff_content)`, before modified
      ranges are filled in. */
  function Parse(diffContent: string): (r: State)
    ensures WF(r)
  {
    var lines := Split(diffContent, '\n');
    Finish(Run(lines, |lines|))
  }

  /** `_calculate_modified_ranges`: `(new_start, new_start + new_count - 1)`
      per hunk of the file, in hunk order. */
  function RangesOf(a: State, v: FileValue): (r: seq<(int, int)>)
    requires HunksIn(v.hunks, |a.hunks|)
    ensures |r| == |v.hunks|
  {
    seq(|v.hunks|, t requires 0 <= t < |v.hunks| =>
      (a.hunks[v.hunks[t]].newStart, a.hunks[v.hunks[t]].newStart + a.hunks[v.hunks[t]].newCount - 1))
  }

  // ----- the objects -----

  /** `HunkChange`; its four numbers are never reassigned. */
  class HunkChange {
    const oldStart: nat
    const oldCount: nat
    const newStart: nat
    const newCount: nat
    var lines: seq<string>

    constructor (oldStart: nat, oldCount: nat, newStart: nat, newCount: nat)
      ensures this.oldStart == oldStart && this.oldCount == oldCount
      ensures this.newStart == newStart && this.newCount == newCount
      ensures lines == []
    {
      this.oldStart := oldStart;
      this.oldCount := oldCount;
      this.newStart := newStart;
      this.newCount := newCount;
      lines := [];
    }
  }

  /** `FileChange`; its two paths are never reassigned. */
  class FileChange {
    const filepath: string
    const oldFilepath: string
    var status: Status
    var hunks: seq<HunkChange>
    var addedLines: seq<(int, string)>
    var removedLines: seq<(int, string)>
    var modifiedRanges: seq<(int, int)>

    /** `FileChange(filepath, old_filepath, 'modified', [], [], [], [])` */
    constructor (filepath: string, oldFilepath: string)
      ensures this.filepath == filepath && this.oldFilepath == oldFilepath
      ensures status == Modified && hunks == [] && addedLines == [] && removedLines == [] && modifiedRanges == []
    {
      this.filepath := filepath;
      this.oldFilepath := oldFilepath;
      status := Modified;
      hunks := [];
      addedLines := [];
      removedLines := [];
      modifiedRanges := [];
    }
  }

  ghost predicate Distinct<T>(s: seq<T>)
  {
    forall i, j :: 0 <= i < j < |s| ==> s[i] != s[j]
  }

  ghost predicate HunkIs(h: HunkChange, v: HunkValue)
    reads h
  {
    h.oldStart == v.oldStart && h.oldCount == v.oldCount && h.newStart == v.newStart
    && h.newCount == v.newCount && h.lines == v.lines
  }

  /** The object `f` holds the value `v`, its hunks being the objects `hs`
      at `v`'s indices. */
  ghost predicate FileIs(f: FileChange, v: FileValue, hs: seq<HunkChange>)
    reads f
  {
    f.filepath == v.filepath && f.oldFilepath == v.oldFilepath && f.status == v.status
    && |f.hunks| == |v.hunks| && (forall t :: 0 <= t < |v.hunks| ==> v.hunks[t] < |hs| && f.hunks[t] == hs[v.hunks[t]])
    && f.addedLines == v.added && f.removedLines == v.removed
  }

  /** The objects created so far, `fs` and `hs`, hold the store of `a`, one
      distinct object per entry. */
  ghost predicate Abs(fs: seq<FileChange>, hs: seq<HunkChange>, a: State)
    reads fs, hs
  {
    |fs| == |a.files| && |hs| == |a.hunks| && Distinct(fs) && Distinct(hs)
    && (forall i :: 0 <= i < |hs| ==> HunkIs(hs[i], a.hunks[i]))
    && (forall k :: 0 <= k < |fs| ==> FileIs(fs[k], a.files[k], hs))
  }

  /** `file_changes`, `current_file` and `current_hunk` are the objects at
      the indices of `a`. */
  ghost predicate Points(out: seq<FileChange>, cf: FileChange?, ch: HunkChange?,
                         fs: seq<FileChange>, hs: seq<HunkChange>, a: State)
  {
    |out| == |a.out| && (forall j :: 0 <= j < |out| ==> a.out[j] < |fs| && out[j] == fs[a.out[j]])
    && (cf == null <==> a.cur.None?) && (a.cur.Some? ==> a.cur.value < |fs| && cf == fs[a.cur.value])
    && (ch == null <==> a.hunk.None?) && (a.hunk.Some? ==> a.hunk.value < |hs| && ch == hs[a.hunk.value])
  }

  /** The `diff --git` branch. */
  method GitLineStep(m: Option<(string, string)>, ghost a: State, ghost fs: seq<FileChange>, ghost hs: seq<HunkChange>,
                     out: seq<FileChange>, cf: FileChange?, ch: HunkChange?)
    returns (out': seq<FileChange>, cf': FileChange?, ghost fs': seq<FileChange>)
    requires WF(a) && Abs(fs, hs, a) && Points(out, cf, ch, fs, hs, a)
    ensures Abs(fs', hs, OnGit(a, m)) && Points(out', cf', ch, fs', hs, OnGit(a, m))
    ensures cf' == cf || (cf' != null && fresh(cf'))
    ensures out' == out || (cf != null && out' == out + [cf])
  {
    out' := out;
    if cf != null {
      out' := out + [cf];
    }
    match m
    case Some((x, y)) =>
      cf' := new FileChange(y, x);
      fs' := fs + [cf'];
    case None =>
      cf' := cf;
      fs' := fs;
  }

  /** The `new file` / `deleted file` / `rename from` branches. */
  method StatusStep(s: Status, ghost a: State, ghost fs: seq<FileChange>, ghost hs: seq<HunkChange>,
                    out: seq<FileChange>, cf: FileChange?, ch: HunkChange?)
    requires WF(a) && Abs(fs, hs, a) && Points(out, cf, ch, fs, hs, a)
    modifies cf
    ensures Abs(fs, hs, OnStatus(a, s)) && Points(out, cf, ch, fs, hs, OnStatus(a, s))
  {
    if cf != null {
      cf.status := s;
    }
  }

  /** The `@@` branch. */
  method HunkLineStep(m: Option<HunkRange>, ghost a: State, ghost fs: seq<FileChange>, ghost hs: seq<HunkChange>,
                      out: seq<FileChange>, cf: FileChange?, ch: HunkChange?)
    returns (ch': HunkChange?, ghost hs': seq<HunkChange>)
    requires WF(a) && Abs(fs, hs, a) && Points(out, cf, ch, fs, hs, a)
    modifies cf
    ensures Abs(fs, hs', OnHunk(a, m)) && Points(out, cf, ch', fs, hs', OnHunk(a, m))
    ensures ch' == ch || (ch' != null && fresh(ch'))
  {
    match m
    case Some(r) =>
      ch' := new HunkChange(r.oldStart, r.oldCount, r.newStart, r.newCount);
      hs' := hs + [ch'];
      if cf != null {
        cf.hunks := cf.hunks + [ch'];
      }
    case None =>
      ch' := ch;
      hs' := hs;
  }

  /** An added line while a hunk is current. */
  method AddedStep(line: string, ghost a: State, ghost fs: seq<FileChange>, ghost hs: seq<HunkChange>,
                   out: seq<FileChange>, cf: FileChange?, ch: HunkChange)
    requires WF(a) && a.hunk.Some? && Abs(fs, hs, a) && Points(out, cf, ch, fs, hs, a)
    requires IsAddedLine(line)
    modifies cf, ch
    ensures Abs(fs, hs, OnAdded(a, line)) && Points(out, cf, ch, fs, hs, OnAdded(a, line))
  {
    ch.lines := ch.lines + [line];
    if cf != null {
      cf.addedLines := cf.addedLines + [(ch.newStart + CountNew(ch.lines) - 1, line[1..])];
    }
  }

  /** A removed line while a hunk is current. */
  method RemovedStep(line: string, ghost a: State, ghost fs: seq<FileChange>, ghost hs: seq<HunkChange>,
                     out: seq<FileChange>, cf: FileChange?, ch: HunkChange)
    requires WF(a) && a.hunk.Some? && Abs(fs, hs, a) && Points(out, cf, ch, fs, hs, a)
    requires IsRemovedLine(line)
    modifies cf, ch
    ensures Abs(fs, hs, OnRemoved(a, line)) && Points(out, cf, ch, fs, hs, OnRemoved(a, line))
  {
    ch.lines := ch.lines + [line];
    if cf != null {
      cf.removedLines := cf.removedLines + [(ch.oldStart + CountOld(ch.lines) - 1, line[1..])];
    }
  }

  /** A context line while a hunk is current. */
  method ContextStep(line: string, ghost a: State, ghost fs: seq<FileChange>, ghost hs: seq<HunkChange>,
                     out: seq<FileChange>, cf: FileChange?, ch: HunkChange)
    requires WF(a) && a.hunk.Some? && Abs(fs, hs, a) && Points(out, cf, ch, fs, hs, a)
    modifies ch
    ensures Abs(fs, hs, OnContext(a, line)) && Points(out, cf, ch, fs, hs, OnContext(a, line))
  {
    ch.lines := ch.lines + [line];
  }

  /** A FileChange of the result as the specification has it: the value of
      store entry `k`, its hunks holding their values, and its modified
      ranges filled in. */
  ghost predicate FileOutIs(f: FileChange, a: State, k: nat)
    requires WF(a) && k < |a.files|
    reads f, set t | 0 <= t < |f.hunks| :: f.hunks[t]
  {
    var v := a.files[k];
    f.filepath == v.filepath && f.oldFilepath == v.oldFilepath && f.status == v.status
    && f.addedLines == v.added && f.removedLines == v.removed
    && |f.hunks| == |v.hunks| && (forall t :: 0 <= t < |v.hunks| ==> HunkIs(f.hunks[t], a.hunks[v.hunks[t]]))
    && f.modifiedRanges == RangesOf(a, v)
  }

  /** `_calculate_modified_ranges(file_change)` */
  method CalculateModifiedRanges(fileChange: FileChange) returns (ranges: seq<(int, int)>)
    ensures |ranges| == |fileChange.hunks|
    ensures forall t :: 0 <= t < |ranges| ==>
              ranges[t] == (fileChange.hunks[t].newStart, fileChange.hunks[t].newStart + fileChange.hunks[t].newCount - 1)
  {
    ranges := [];
    var t := 0;
    while t < |fileChange.hunks|
      invariant t <= |fileChange.hunks| && |ranges| == t
      invariant forall u :: 0 <= u < t ==>
                  ranges[u] == (fileChange.hunks[u].newStart, fileChange.hunks[u].newStart + fileChange.hunks[u].newCount - 1)
    {
      var hunk := fileChange.hunks[t];
      ranges := ranges + [(hunk.newStart, hunk.newStart + hunk.newCount - 1)];
      t := t + 1;
    }
  }

  /** `file_change.modified_ranges = _calculate_modified_ranges(file_change)`
      for the `j`-th file of the result. */
  method FillRanges(fileChanges: seq<FileChange>, j: nat, ghost fs: seq<FileChange>, ghost hs: seq<HunkChange>, ghost a: State)
    requires WF(a) && Abs(fs, hs, a) && Points(fileChanges, null, null, fs, hs, a.(cur := None, hunk := None))
    requires j < |fileChanges|
    requires forall t :: 0 <= t < j ==> fileChanges[t].modifiedRanges == RangesOf(a, a.files[a.out[t]])
    modifies fileChanges[j]
    ensures Abs(fs, hs, a)
    ensures forall t :: 0 <= t <= j ==> fileChanges[t].modifiedRanges == RangesOf(a, a.files[a.out[t]])
  {
    var ranges := CalculateModifiedRanges(fileChanges[j]);
    ghost var v := a.files[a.out[j]];
    assert ranges == RangesOf(a, v) by {
      forall t | 0 <= t < |v.hunks|
        ensures ranges[t] == RangesOf(a, v)[t]
      {
        assert HunkIs(hs[v.hunks[t]], a.hunks[v.hunks[t]]);
      }
    }
    fileChanges[j].modifiedRanges := ranges;
  }

  /** One pass of the `while` loop: the branch `line` selects. */
  method Feed(line: string, ghost a: State, ghost fs: seq<FileChange>, ghost hs: seq<HunkChange>,
              out: seq<FileChange>, cf: FileChange?, ch: HunkChange?)
    returns (out': seq<FileChange>, cf': FileChange?, ch': HunkChange?, ghost fs': seq<FileChange>, ghost hs': seq<HunkChange>)
    requires WF(a) && Abs(fs, hs, a) && Points(out, cf, ch, fs, hs, a)
    modifies cf, ch
    ensures Abs(fs', hs', Step(a, line)) && Points(out', cf', ch', fs', hs', Step(a, line))
    ensures cf' == cf || (cf' != null && fresh(cf'))
    ensures ch' == ch || (ch' != null && fresh(ch'))
    ensures out' == out || (cf != null && out' == out + [cf])
  {
    out', cf', ch', fs', hs' := out, cf, ch, fs, hs;
    if StartsWith(line, "diff --git") {
      var m := GitHeader(line);
      out', cf', fs' := GitLineStep(m, a, fs, hs, out, cf, ch);
    } else if StartsWith(line, "new file") {
      StatusStep(Added, a, fs, hs, out, cf, ch);
    } else if StartsWith(line, "deleted file") {
      StatusStep(Deleted, a, fs, hs, out, cf, ch);
    } else if StartsWith(line, "rename from") {
      StatusStep(Renamed, a, fs, hs, out, cf, ch);
    } else if StartsWith(line, "@@") {
      var m := HunkHeader(line);
      ch', hs' := HunkLineStep(m, a, fs, hs, out, cf, ch);
    } else if ch != null {
      if IsAddedLine(line) {
        AddedStep(line, a, fs, hs, out, cf, ch);
      } else if IsRemovedLine(line) {
        RemovedStep(line, a, fs, hs, out, cf, ch);
      } else if IsContextLine(line) {
        ContextStep(line, a, fs, hs, out, cf, ch);
      }
    }
  }

  /** The `while` loop of parse_diff and the final append. */
  method ParseLines(lines: seq<string>) returns (fileChanges: seq<FileChange>, ghost fs: seq<FileChange>, ghost hs: seq<HunkChange>)
    ensures Abs(fs, hs, Finish(Run(lines, |lines|)))
    ensures Points(fileChanges, null, null, fs, hs, Finish(Run(lines, |lines|)).(cur := None, hunk := None))
    ensures forall f :: f in fileChanges ==> fresh(f)
  {
    fileChanges := [];
    var currentFile: FileChange? := null;
    var currentHunk: HunkChange? := null;
    fs, hs := [], [];
    ghost var a := Init;
    var i := 0;
    while i < |lines|
      invariant i <= |lines| && a == Run(lines, i)
      invariant Abs(fs, hs, a) && Points(fileChanges, currentFile, currentHunk, fs, hs, a)
      invariant currentFile != null ==> fresh(currentFile)
      invariant currentHunk != null ==> fresh(currentHunk)
      invariant forall f :: f in fileChanges ==> fresh(f)
    {
      fileChanges, currentFile, currentHunk, fs, hs := Feed(lines[i], a, fs, hs, fileChanges, currentFile, currentHunk);
      a := Step(a, lines[i]);
      i := i + 1;
    }
    FinishPoints(fileChanges, currentFile, currentHunk, fs, hs, a);
    if currentFile != null {
      fileChanges := fileChanges + [currentFile];
    }
  }

  /** The append after the loop: the current file, if any, joins the result. */
  lemma FinishPoints(out: seq<FileChange>, cf: FileChange?, ch: HunkChange?,
                     fs: seq<FileChange>, hs: seq<HunkChange>, a: State)
    requires WF(a) && Abs(fs, hs, a) && Points(out, cf, ch, fs, hs, a)
    ensures Abs(fs, hs, Finish(a))
    ensures Points(if cf != null then out + [cf] else out, null, null, fs, hs, Finish(a).(cur := None, hunk := None))
  {
  }

  /** `for file_change in file_changes: file_change.modified_ranges = ...` */
  method FillAllRanges(fileChanges: seq<FileChange>, ghost fs: seq<FileChange>, ghost hs: seq<HunkChange>, ghost a: State)
    requires WF(a) && Abs(fs, hs, a) && Points(fileChanges, null, null, fs, hs, a.(cur := None, hunk := None))
    modifies set f | f in fileChanges
    ensures Abs(fs, hs, a)
    ensures forall t :: 0 <= t < |fileChanges| ==> fileChanges[t].modifiedRanges == RangesOf(a, a.files[a.out[t]])
  {
    var j := 0;
    while j < |fileChanges|
      invariant j <= |fileChanges|
      invariant Abs(fs, hs, a)
      invariant forall t :: 0 <= t < j ==> fileChanges[t].modifiedRanges == RangesOf(a, a.files[a.out[t]])
    {
      FillRanges(fileChanges, j, fs, hs, a);
      j := j + 1;
    }
  }

  /** `DiffParser.parse_diff(diff_content)`: the result lists the objects of
      Parse's result indices, the same object exactly where the index
      repeats, each holding its specified value. */
  method ParseDiff(diffContent: string) returns (fileChanges: seq<FileChange>)
    ensures var a := Parse(diffContent);
            |fileChanges| == |a.out|
            && (forall j :: 0 <= j < |fileChanges| ==> FileOutIs(fileChanges[j], a, a.out[j]))
            && (forall i, j :: 0 <= i < |fileChanges| && 0 <= j < |fileChanges| ==>
                  (fileChanges[i] == fileChanges[j] <==> a.out[i] == a.out[j]))
    ensures forall f :: f in fileChanges ==> fresh(f)
  {
    var lines := Split(diffContent, '\n');
    ghost var fs, hs;
    fileChanges, fs, hs := ParseLines(lines);
    FillAllRanges(fileChanges, fs, hs, Parse(diffContent));
    Conclude(fileChanges, fs, hs, Parse(diffContent));
  }

  /** From the abstraction to the result's contract. */
  lemma Conclude(fileChanges: seq<FileChange>, fs: seq<FileChange>, hs: seq<HunkChange>, a: State)
    requires WF(a) && Abs(fs, hs, a) && Points(fileChanges, null, null, fs, hs, a.(cur := None, hunk := None))
    requires forall t :: 0 <= t < |fileChanges| ==> fileChanges[t].modifiedRanges == RangesOf(a, a.files[a.out[t]])
    ensures |fileChanges| == |a.out|
    ensures forall j :: 0 <= j < |fileChanges| ==> FileOutIs(fileChanges[j], a, a.out[j])
    ensures forall i, j :: 0 <= i < |fileChanges| && 0 <= j < |fileChanges| ==>
              (fileChanges[i] == fileChanges[j] <==> a.out[i] == a.out[j])
  {
    forall j | 0 <= j < |fileChanges|
      ensures FileOutIs(fileChanges[j], a, a.out[j])
    {
      var v := a.files[a.out[j]];
      assert FileIs(fs[a.out[j]], v, hs);
      forall t | 0 <= t < |v.hunks|
        ensures HunkIs(fileChanges[j].hunks[t], a.hunks[v.hunks[t]])
      {
        assert HunkIs(hs[v.hunks[t]], a.hunks[v.hunks[t]]);
      }
    }
    forall i, j | 0 <= i < |fileChanges| && 0 <= j < |fileChanges| && a.out[i] != a.out[j]
      ensures fileChanges[i] != fileChanges[j]
    {
      if a.out[i] < a.out[j] {
        assert fs[a.out[i]] != fs[a.out[j]];
      } else {
        assert fs[a.out[j]] != fs[a.out[i]];
      }
    }
  }
}
