/** DiffParser.parse (pr_context_retrieval.py): the older, simpler diff
    parser, a state machine over the lines of a diff with a current FileDiff
    and a current DiffHunk.

    A DiffHunk can be appended to its file and still stay current (an `@@`
    line that does not match the header pattern appends the open hunk but
    keeps it), so later lines change an entry already in the list, and the
    same hunk can be listed twice. The specification therefore keeps every
    DiffHunk ever opened in a store and lets files refer to hunks by index;
    FileDiff values are never shared, so the current file is a value. */
module PrDiffParsing {
  import opened Text
  import opened DiffSyntax
  import opened SemanticNodes
  import opened LanguageDetection

  // ----- values -----

  /** A DiffHunk. */
  datatype DiffHunk = DiffHunk(oldStart: nat, oldCount: nat, newStart: nat, newCount: nat, lines: seq<string>)

  /** A FileDiff during parsing: its hunks as store indices. */
  datatype FileRec = FileRec(oldPath: Option<string>, newPath: Option<string>, isNewFile: bool, isDeletedFile: bool,
                             isRenamed: bool, hunks: seq<nat>, language: Option<Language>)

  /** A FileDiff of the result, with its hunks' final contents. */
  datatype FileDiff = FileDiff(oldPath: Option<string>, newPath: Option<string>, isNewFile: bool, isDeletedFile: bool,
                               isRenamed: bool, hunks: seq<DiffHunk>, language: Option<Language>)

  /** The parser between two lines: the hunk store, `files`, `current_file`
      and `current_hunk` (an index into the store). */
  datatype State = State(store: seq<DiffHunk>, files: seq<FileRec>, cur: Option<FileRec>, hunk: Option<nat>)

  predicate IndicesIn(ix: seq<nat>, n: nat)
  {
    forall t :: 0 <= t < |ix| ==> ix[t] < n
  }

  /** Every index refers to an entry of the store. */
  predicate WF(a: State)
  {
    && (a.hunk.Some? ==> a.hunk.value < |a.store|)
    && (a.cur.Some? ==> IndicesIn(a.cur.value.hunks, |a.store|))
    && (forall k :: 0 <= k < |a.files| ==> IndicesIn(a.files[k].hunks, |a.store|))
  }

  const Init: State := State([], [], None, None)

  /** The FileDiff that `diff --git` creates. */
  const Blank: FileRec := FileRec(None, None, false, false, false, [], None)

  /** `if current_file and current_hunk: current_file.hunks.append(current_hunk)` */
  function Attach(f: FileRec, h: Option<nat>): FileRec
  {
    if h.Some? then f.(hunks := f.hunks + [h.value]) else f
  }

  /** `files` after saving the current file with its open hunk. */
  function Flush(a: State): seq<FileRec>
  {
    if a.cur.Some? then a.files + [Attach(a.cur.value, a.hunk)] else a.files
  }

  /** The path of a `--- ` or `+++ ` line: `line[4:].strip()` less one
      leading `prefix`, and None for `/dev/null`. */
  function HeaderPath(line: string, prefix: string): Option<string>
    requires |line| >= 4
  {
    var p := Strip(line[4..]);
    var q := if StartsWith(p, prefix) then p[|prefix|..] else p;
    if q == "/dev/null" then None else Some(q)
  }

  /** A `diff --git` line: save the current file, open a blank one, close
      the hunk. */
  function OnGitLine(a: State): (r: State)
    requires WF(a)
    ensures WF(r)
  {
    State(a.store, Flush(a), Some(Blank), None)
  }

  /** A `--- ` line: the old path, and a new file for `/dev/null`. */
  function OnOldPath(a: State, line: string): (r: State)
    requires WF(a) && |line| >= 4
    ensures WF(r)
  {
    if a.cur.None? then a else a.(cur := Some(SetOldPath(a.cur.value, line)))
  }

  function SetOldPath(c: FileRec, line: string): (c': FileRec)
    requires |line| >= 4
    ensures c'.hunks == c.hunks
  {
    var p := HeaderPath(line, "a/");
    if p.None? then c.(isNewFile := true, oldPath := None) else c.(oldPath := p)
  }

  /** A `+++ ` line: the new path, a deleted file for `/dev/null`, and the
      language of a non-empty new path. */
  function OnNewPath(a: State, line: string): (r: State)
    requires WF(a) && |line| >= 4
    ensures WF(r)
  {
    if a.cur.None? then a else a.(cur := Some(SetNewPath(a.cur.value, line)))
  }

  function SetNewPath(c: FileRec, line: string): (c': FileRec)
    requires |line| >= 4
    ensures c'.hunks == c.hunks
  {
    var p := HeaderPath(line, "b/");
    if p.None? then c.(isDeletedFile := true, newPath := None)
    else c.(newPath := p, language := if p.value != "" then Detect(p.value) else c.language)
  }

  /** An `@@` line: the open hunk joins the current file; a matching header
      opens a new current hunk, otherwise the open one stays current. */
  function OnHunkLine(a: State, line: string): (r: State)
    requires WF(a)
    ensures WF(r)
  {
    OnHunk(a, LooseHunkHeader(line))
  }

  /** An `@@` line whose match is `m`. */
  function OnHunk(a: State, m: Option<HunkRange>): (r: State)
    requires WF(a)
    ensures WF(r)
  {
    var cur := if a.cur.Some? && a.hunk.Some? then Some(Attach(a.cur.value, a.hunk)) else a.cur;
    match m
    case None => a.(cur := cur)
    case Some(h) =>
      State(a.store + [DiffHunk(h.oldStart, h.oldCount, h.newStart, h.newCount, [])], a.files, cur, Some(|a.store|))
  }

  /** Whether a line inside a hunk is stored: it starts with '+', '-' or ' '. */
  predicate IsHunkLine(line: string)
  {
    StartsWith(line, "+") || StartsWith(line, "-") || StartsWith(line, " ")
  }

  /** Any other line while a hunk is current. */
  function OnContent(a: State, line: string): (r: State)
    requires WF(a) && a.hunk.Some?
    ensures WF(r)
  {
    if IsHunkLine(line) then
      var k := a.hunk.value;
      a.(store := a.store[k := a.store[k].(lines := a.store[k].lines + [line])])
    else a
  }

  /** One pass of the `while` loop of parse. */
  function Step(a: State, line: string): (r: State)
    requires WF(a)
    ensures WF(r)
  {
    if StartsWith(line, "diff --git") then OnGitLine(a)
    else if StartsWith(line, "--- ") then OnOldPath(a, line)
    else if StartsWith(line, "+++ ") then OnNewPath(a, line)
    else if StartsWith(line, "@@") then OnHunkLine(a, line)
    else if a.hunk.Some? then OnContent(a, line)
    else a
  }

  /** The state after the first `n` lines. */
  function Run(lines: seq<string>, n: nat): (r: State)
    requires n <= |lines|
    ensures WF(r)
  {
    if n == 0 then Init else Step(Run(lines, n - 1), lines[n - 1])
  }

  /** A FileDiff with the final contents of its hunks. */
  function Resolve(store: seq<DiffHunk>, f: FileRec): (r: FileDiff)
    requires IndicesIn(f.hunks, |store|)
    ensures |r.hunks| == |f.hunks| && forall t :: 0 <= t < |f.hunks| ==> r.hunks[t] == store[f.hunks[t]]
  {
    FileDiff(f.oldPath, f.newPath, f.isNewFile, f.isDeletedFile, f.isRenamed,
             seq(|f.hunks|, t requires 0 <= t < |f.hunks| => store[f.hunks[t]]), f.language)
  }

  /** The result: every saved file, the last one included, resolved. */
  function Finish(a: State): (r: seq<FileDiff>)
    requires WF(a)
    ensures |r| == |Flush(a)|
  {
    var fs := Flush(a);
    seq(|fs|, k requires 0 <= k < |fs| => Resolve(a.store, fs[k]))
  }

  /** `DiffParser.parse(diff_text).files` */
  function Parse(diffText: string): seq<FileDiff>
  {
    var lines := Split(diffText, '\n');
    Finish(Run(lines, |lines|))
  }

  /** `DiffParser.parse`: the loop over the lines, updating the current file
      and the current hunk in place. */
  method ParseDiff(diffText: string) returns (files: seq<FileDiff>)
    ensures files == Parse(diffText)
  {
    var lines := Split(diffText, '\n');
    var store, done, currentFile, currentHunk := FeedAll(lines);
    done := SaveFile(store, done, currentFile, currentHunk);
    files := seq(|done|, k requires 0 <= k < |done| => Resolve(store, done[k]));
  }

  /** The loop itself: the state after every line. */
  method FeedAll(lines: seq<string>)
    returns (store: seq<DiffHunk>, done: seq<FileRec>, currentFile: Option<FileRec>, currentHunk: Option<nat>)
    ensures State(store, done, currentFile, currentHunk) == Run(lines, |lines|)
  {
    store, done, currentFile, currentHunk := [], [], None, None;
    var i := 0;
    while i < |lines|
      invariant i <= |lines|
      invariant State(store, done, currentFile, currentHunk) == Run(lines, i)
    {
      store, done, currentFile, currentHunk := Feed(store, done, currentFile, currentHunk, lines[i]);
      i := i + 1;
    }
  }

  /** The body of the loop for one line. */
  method Feed(store: seq<DiffHunk>, done: seq<FileRec>, currentFile: Option<FileRec>, currentHunk: Option<nat>, line: string)
    returns (store': seq<DiffHunk>, done': seq<FileRec>, currentFile': Option<FileRec>, currentHunk': Option<nat>)
    requires WF(State(store, done, currentFile, currentHunk))
    ensures State(store', done', currentFile', currentHunk') == Step(State(store, done, currentFile, currentHunk), line)
  {
    store', done', currentFile', currentHunk' := store, done, currentFile, currentHunk;
    if StartsWith(line, "diff --git") {
      done' := SaveFile(store, done, currentFile, currentHunk);
      currentFile' := Some(Blank);
      currentHunk' := None;
    } else if StartsWith(line, "--- ") {
      if currentFile.Some? {
        var c := OldPathStep(currentFile.value, line);
        currentFile' := Some(c);
      }
    } else if StartsWith(line, "+++ ") {
      if currentFile.Some? {
        var c := NewPathStep(currentFile.value, line);
        currentFile' := Some(c);
      }
    } else if StartsWith(line, "@@") {
      store', currentFile', currentHunk' := HunkLineStep(store, done, currentFile, currentHunk, line);
    } else if currentHunk.Some? {
      if IsHunkLine(line) {
        var k := currentHunk.value;
        store' := store[k := store[k].(lines := store[k].lines + [line])];
      }
    }
  }

  /** Save the current file, with its open hunk, into `files`. */
  method SaveFile(store: seq<DiffHunk>, done: seq<FileRec>, currentFile: Option<FileRec>, currentHunk: Option<nat>)
    returns (done': seq<FileRec>)
    requires WF(State(store, done, currentFile, currentHunk))
    ensures done' == Flush(State(store, done, currentFile, currentHunk))
    ensures forall k :: 0 <= k < |done'| ==> IndicesIn(done'[k].hunks, |store|)
  {
    var file := currentFile;
    if file.Some? && currentHunk.Some? {
      file := Some(file.value.(hunks := file.value.hunks + [currentHunk.value]));
    }
    done' := done;
    if file.Some? {
      done' := done' + [file.value];
    }
  }

  /** The `--- ` branch on the current file. */
  method OldPathStep(c: FileRec, line: string) returns (c': FileRec)
    requires |line| >= 4
    ensures c' == SetOldPath(c, line)
  {
    c' := c;
    var path := HeaderPath(line, "a/");
    if path.None? {
      c' := c'.(isNewFile := true);
    }
    c' := c'.(oldPath := path);
  }

  /** The `+++ ` branch on the current file. */
  method NewPathStep(c: FileRec, line: string) returns (c': FileRec)
    requires |line| >= 4
    ensures c' == SetNewPath(c, line)
  {
    c' := c;
    var path := HeaderPath(line, "b/");
    if path.None? {
      c' := c'.(isDeletedFile := true);
    }
    c' := c'.(newPath := path);
    if path.Some? && path.value != "" {
      c' := c'.(language := Detect(path.value));
    }
  }

  /** The `@@` branch. */
  method HunkLineStep(store: seq<DiffHunk>, done: seq<FileRec>, currentFile: Option<FileRec>, currentHunk: Option<nat>, line: string)
    returns (store': seq<DiffHunk>, currentFile': Option<FileRec>, currentHunk': Option<nat>)
    requires WF(State(store, done, currentFile, currentHunk))
    ensures State(store', done, currentFile', currentHunk') == OnHunkLine(State(store, done, currentFile, currentHunk), line)
  {
    var m := LooseHunkHeader(line);
    store', currentFile', currentHunk' := HunkStep(store, done, currentFile, currentHunk, m);
  }

  /** The `@@` branch once the header is matched (or not) as `m`. */
  method HunkStep(store: seq<DiffHunk>, done: seq<FileRec>, currentFile: Option<FileRec>, currentHunk: Option<nat>, m: Option<HunkRange>)
    returns (store': seq<DiffHunk>, currentFile': Option<FileRec>, currentHunk': Option<nat>)
    requires WF(State(store, done, currentFile, currentHunk))
    ensures State(store', done, currentFile', currentHunk') == OnHunk(State(store, done, currentFile, currentHunk), m)
  {
    store', currentFile', currentHunk' := store, currentFile, currentHunk;
    if currentHunk.Some? && currentFile.Some? {
      currentFile' := Some(currentFile.value.(hunks := currentFile.value.hunks + [currentHunk.value]));
    }
    if m.Some? {
      var h := m.value;
      store' := store + [DiffHunk(h.oldStart, h.oldCount, h.newStart, h.newCount, [])];
      currentHunk' := Some(|store'| - 1);
    }
  }
}
