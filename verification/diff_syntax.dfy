/** The header lines of a unified diff as the two diff parsers recognise
    them with Python's `re.match`: git's `diff --git a/X b/Y` line and the
    `@@ -a,b +c,d @@` hunk header of the GNU unified format, in the strict
    form (`(\d+)(?:,(\d+))?`) and the loose form (`(\d+),?(\d*)`).
    `\d` is taken to be an ASCII digit. */
module DiffSyntax {
  import opened Text

  // ----- `diff --git a/(.*) b/(.*)` -----

  /** `p` occurs in `s` starting at `j`. */
  predicate OccursAt(s: string, p: string, j: int)
  {
    0 <= j && j + |p| <= |s| && s[j..j + |p|] == p
  }

  /** Start of the last occurrence of `p` in `s`, or -1. */
  function FindLast(s: string, p: string): (r: int)
    ensures -1 <= r
    ensures r >= 0 ==> OccursAt(s, p, r)
    ensures forall j :: r < j ==> !OccursAt(s, p, j)
    decreases |s|
  {
    if |s| < |p| then -1
    else if s[|s| - |p|..] == p then |s| - |p|
    else
      var r := FindLast(s[..|s| - 1], p);
      assert forall j :: r < j && OccursAt(s, p, j) ==> OccursAt(s[..|s| - 1], p, j) by {
        forall j | r < j && OccursAt(s, p, j)
          ensures OccursAt(s[..|s| - 1], p, j)
        {
          if j + |p| < |s| {
            assert s[..|s| - 1][j..j + |p|] == s[j..j + |p|];
          }
        }
      }
      assert r >= 0 ==> s[..|s| - 1][r..r + |p|] == s[r..r + |p|];
      r
  }

  /** What follows `diff --git a/`: `(.*) b/(.*)` with `.` stopping at a
      newline and the first group greedy, so the split is at the last " b/"
      of the first row. */
  function GitPaths(rest: string): Option<(string, string)>
  {
    var row := rest[..FindChar(rest, '\n')];
    var j := FindLast(row, " b/");
    if j < 0 then None else Some((row[..j], row[j + 3..]))
  }

  /** `re.match(r'diff --git a/(.*) b/(.*)', line)`, as (group 1, group 2). */
  function GitHeader(line: string): Option<(string, string)>
  {
    if StartsWith(line, "diff --git a/") then GitPaths(line[13..]) else None
  }

  lemma Suffix(x: string, y: string)
    ensures (x + y)[|x|..] == y
  {
  }

  /** A prefix followed by anything starts with that prefix. */
  lemma Prefix(x: string, y: string)
    ensures StartsWith(x + y, x) && (x + y)[|x|..] == y
  {
    assert (x + y)[..|x|] == x;
  }

  /** The header git writes for a change from `x` to `y`. */
  function GitLine(x: string, y: string): string
  {
    "diff --git a/" + (x + (" b/" + y))
  }

  /** After the separator that follows `x`, a " b/" can only lie inside `y`. */
  lemma NoLaterSeparator(x: string, y: string, j: int)
    requires forall k :: !OccursAt(y, " b/", k)
    requires |x| < j
    ensures !OccursAt(x + (" b/" + y), " b/", j)
  {
    var rest := x + (" b/" + y);
    if OccursAt(rest, " b/", j) {
      assert rest[j] == rest[j..j + 3][0] == ' ';
      if j >= |x| + 3 {
        assert rest[j..j + 3] == y[j - |x| - 3..j - |x|];
        assert OccursAt(y, " b/", j - |x| - 3);
      }
    }
  }

  /** Paths without a newline, the second holding no " b/", read back
      as written. */
  lemma GitPathsRender(x: string, y: string)
    requires '\n' !in x && '\n' !in y
    requires forall j :: !OccursAt(y, " b/", j)
    ensures GitPaths(x + (" b/" + y)) == Some((x, y))
  {
    var rest := x + (" b/" + y);
    assert '\n' !in rest;
    assert FindChar(rest, '\n') == |rest|;
    assert rest[..FindChar(rest, '\n')] == rest;
    var j := FindLast(rest, " b/");
    assert OccursAt(rest, " b/", |x|);
    if j > |x| {
      NoLaterSeparator(x, y, j);
    }
    assert j == |x|;
    assert rest[..|x|] == x;
    Suffix(x, " b/" + y);
    Suffix(" b/", y);
    assert rest[|x| + 3..] == rest[|x|..][3..] == y;
    assert GitPaths(rest) == Some((rest[..j], rest[j + 3..]));
  }

  /** A header written from two paths reads back as those paths when the
      new path holds no " b/" and neither holds a newline. */
  lemma GitHeaderRender(x: string, y: string)
    requires '\n' !in x && '\n' !in y
    requires forall j :: !OccursAt(y, " b/", j)
    ensures GitHeader(GitLine(x, y)) == Some((x, y))
  {
    Prefix("diff --git a/", x + (" b/" + y));
    GitPathsRender(x, y);
  }

  /** The first group is greedy: with " b/" in both paths the split falls
      at the last one. */
  lemma GitHeaderGreedy()
    ensures GitPaths("p b/q b/r") == Some(("p b/q", "r"))
  {
    assert "p b/q" + (" b/" + "r") == "p b/q b/r";
    GitPathsRender("p b/q", "r");
  }

  // ----- hunk header ranges -----

  /** `(\d+)` at the start of `s`, taken maximally: the number and what
      follows it. */
  function Number(s: string): (r: Option<(nat, string)>)
    ensures r.Some? ==> |r.value.1| < |s|
  {
    var n := DigitRun(s);
    if n == 0 then None else Some((ParseNat(s[..n]), s[n..]))
  }

  /** `(\d+)(?:,(\d+))?` followed by `sep` at the start of `s`: the first
      number, the second (if its group took part), and what follows `sep`.
      The digit runs are maximal: a shorter run would leave a digit where a
      comma or `sep` is required, so no backtracking can succeed where the
      greedy reading fails. */
  function StrictRange(s: string, sep: string): Option<(nat, Option<nat>, string)>
  {
    match Number(s)
    case None => None
    case Some((a, r)) =>
      if r != [] && r[0] == ',' && Number(r[1..]).Some? && StartsWith(Number(r[1..]).value.1, sep) then
        Some((a, Some(Number(r[1..]).value.0), Number(r[1..]).value.1[|sep|..]))
      else if StartsWith(r, sep) then Some((a, None, r[|sep|..]))
      else None
  }

  /** `(\d+),?(\d*)` followed by `sep` at the start of `s`: the first
      number, the second group's digits (possibly empty), and what follows
      `sep`. */
  function LooseRange(s: string, sep: string): (r: Option<(nat, string, string)>)
    ensures r.Some? ==> AllDigits(r.value.1)
  {
    match Number(s)
    case None => None
    case Some((a, r)) =>
      if r != [] && r[0] == ',' then
        var q := DigitRun(r[1..]);
        if StartsWith(r[1..][q..], sep) then Some((a, r[1..][..q], r[1..][q..][|sep|..])) else None
      else if StartsWith(r, sep) then Some((a, "", r[|sep|..]))
      else None
  }

  /** A hunk header's four numbers: old start, old count, new start, new
      count. */
  datatype HunkRange = HunkRange(oldStart: nat, oldCount: nat, newStart: nat, newCount: nat)

  /** `int(g) if g else 1` for an optional group read strictly. */
  function CountOf(g: Option<nat>): nat
  {
    if g.Some? then g.value else 1
  }

  /** `int(g) if g else 1` for a group that may match the empty string. */
  function LooseCountOf(g: string): nat
    requires AllDigits(g)
  {
    if g == "" then 1 else ParseNat(g)
  }

  /** `re.match(r'@@ -(\d+)(?:,(\d+))? \+(\d+)(?:,(\d+))? @@', line)` with
      the counts defaulted to 1 (diff_parser.py). */
  function HunkHeader(line: string): Option<HunkRange>
  {
    if !StartsWith(line, "@@ -") then None
    else
      match StrictRange(line[4..], " +")
      case None => None
      case Some((a, b, r)) =>
        match StrictRange(r, " @@")
        case None => None
        case Some((c, d, _)) => Some(HunkRange(a, CountOf(b), c, CountOf(d)))
  }

  /** `re.match(r'@@ -(\d+),?(\d*) \+(\d+),?(\d*) @@', line)` with empty
      counts defaulted to 1 (pr_context_retrieval.py). */
  function LooseHunkHeader(line: string): (r: Option<HunkRange>)
    ensures r.Some? ==> StartsWith(line, "@@ -")
  {
    if !StartsWith(line, "@@ -") then None
    else
      match LooseRange(line[4..], " +")
      case None => None
      case Some((a, b, r)) =>
        match LooseRange(r, " @@")
        case None => None
        case Some((c, d, _)) => Some(HunkRange(a, LooseCountOf(b), c, LooseCountOf(d)))
  }

  // ----- properties -----

  /** A number printed before a non-digit is read back whole, leaving what
      follows it. */
  lemma ReadsBack(n: nat, rest: string)
    requires rest == [] || !IsDigit(rest[0])
    ensures Number(NatToString(n) + rest) == Some((n, rest))
  {
    var s := NatToString(n);
    DigitRunAppend(s, rest);
    assert (s + rest)[..|s|] == s;
    assert (s + rest)[|s|..] == rest;
    ParseNatToString(n);
  }

  /** Every range the strict form reads, the loose form reads alike. */
  lemma StrictRangeIsLoose(s: string, sep: string)
    requires |sep| >= 1 && sep[0] == ' '
    requires StrictRange(s, sep).Some?
    ensures LooseRange(s, sep).Some?
    ensures var (a, b, r) := StrictRange(s, sep).value;
            var (a', b', r') := LooseRange(s, sep).value;
            a' == a && LooseCountOf(b') == CountOf(b) && r' == r
  {
    var (a, r) := Number(s).value;
    if r != [] && r[0] == ',' && Number(r[1..]).Some? && StartsWith(Number(r[1..]).value.1, sep) {
      var q := DigitRun(r[1..]);
      assert Number(r[1..]).value.1 == r[1..][q..];
    }
  }

  /** Every header diff_parser.py accepts, pr_context_retrieval.py accepts
      with the same four numbers. */
  lemma StrictHeaderIsLoose(line: string)
    requires HunkHeader(line).Some?
    ensures LooseHunkHeader(line) == HunkHeader(line)
  {
    StrictRangeIsLoose(line[4..], " +");
    StrictRangeIsLoose(StrictRange(line[4..], " +").value.2, " @@");
  }

  /** `n,` with no count before `sep`: the strict form refuses it, the loose
      form reads an empty count. */
  lemma EmptyCountRange(n: nat, sep: string, rest: string)
    requires |sep| >= 1 && sep[0] == ' '
    ensures StrictRange(NatToString(n) + ("," + (sep + rest)), sep) == None
    ensures LooseRange(NatToString(n) + ("," + (sep + rest)), sep) == Some((n, "", rest))
  {
    var r := "," + (sep + rest);
    ReadsBack(n, r);
    Suffix(",", sep + rest);
    assert DigitRun(r[1..]) == 0;
    assert r[1..][0..] == r[1..] && r[1..][..0] == "";
    Prefix(sep, rest);
  }

  /** The loose form also accepts a comma with no count after it, which the
      strict form refuses: `@@ -a, +c @@` is one line on each side. */
  lemma EmptyCountDiffers(a: nat, c: nat, tail: string)
    ensures var line := "@@ -" + (NatToString(a) + ("," + (" +" + (NatToString(c) + (" @@" + tail)))));
            HunkHeader(line) == None && LooseHunkHeader(line) == Some(HunkRange(a, 1, c, 1))
  {
    var s2 := NatToString(c) + (" @@" + tail);
    Prefix("@@ -", NatToString(a) + ("," + (" +" + s2)));
    EmptyCountRange(a, " +", s2);
    RangeRender(c, None, " @@", tail);
  }

  /** A range written as `n,m` (or `n` alone) followed by `sep` and `rest`. */
  function RangeLine(n: nat, m: Option<nat>, sep: string, rest: string): string
  {
    NatToString(n) + (if m.Some? then "," + (NatToString(m.value) + (sep + rest)) else sep + rest)
  }

  /** `@@ -a[,b] +c[,d] @@` followed by `tail`. */
  function HeaderLine(a: nat, b: Option<nat>, c: nat, d: Option<nat>, tail: string): string
  {
    "@@ -" + RangeLine(a, b, " +", RangeLine(c, d, " @@", tail))
  }

  /** A written range reads back as its numbers, leaving exactly `rest`. */
  lemma RangeRender(n: nat, m: Option<nat>, sep: string, rest: string)
    requires |sep| >= 1 && sep[0] == ' '
    ensures StrictRange(RangeLine(n, m, sep, rest), sep) == Some((n, m, rest))
  {
    Suffix(sep, rest);
    if m.Some? {
      var y := NatToString(m.value) + (sep + rest);
      ReadsBack(n, "," + y);
      assert ("," + y)[1..] == y;
      ReadsBack(m.value, sep + rest);
    } else {
      ReadsBack(n, sep + rest);
    }
  }

  /** A written hunk header reads back as its four numbers in both forms,
      an omitted count meaning one line. */
  lemma HunkHeaderRender(a: nat, b: Option<nat>, c: nat, d: Option<nat>, tail: string)
    ensures HunkHeader(HeaderLine(a, b, c, d, tail)) == Some(HunkRange(a, CountOf(b), c, CountOf(d)))
    ensures LooseHunkHeader(HeaderLine(a, b, c, d, tail)) == Some(HunkRange(a, CountOf(b), c, CountOf(d)))
  {
    var line := HeaderLine(a, b, c, d, tail);
    assert HunkHeader(line) == Some(HunkRange(a, CountOf(b), c, CountOf(d))) by {
      var s2 := RangeLine(c, d, " @@", tail);
      Suffix("@@ -", RangeLine(a, b, " +", s2));
      RangeRender(a, b, " +", s2);
      RangeRender(c, d, " @@", tail);
    }
    StrictHeaderIsLoose(line);
  }
}
