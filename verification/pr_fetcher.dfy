/** PRFetcher.parse_pr_url (src/github/pr_fetcher.py): the owner, repository
    and pull request number of a GitHub pull request URL, read by the
    leftmost match of `github\.com/([^/]+)/([^/]+)/pull/(\d+)`. */
module PrFetching {
  import opened Text

  /** The `owner`, `repo` and `pr_number` of the returned dictionary. */
  datatype PrRef = PrRef(owner: string, repo: string, prNumber: string)

  /** The dictionary, or the ValueError raised when nothing matches. */
  datatype Parsed = Parsed(ref: PrRef) | InvalidUrl(message: string)

  const Host: string := "github.com/"
  const Pull: string := "/pull/"

  /** Length of the longest prefix of `s` without '/': what a greedy
      `[^/]+` takes before a '/'. */
  function SegmentRun(s: string): (n: nat)
    ensures n <= |s| && '/' !in s[..n]
    ensures n < |s| ==> s[n] == '/'
    decreases |s|
  {
    if |s| > 0 && s[0] != '/' then
      var m := SegmentRun(s[1..]);
      assert s[..1 + m] == [s[0]] + s[1..][..m];
      1 + m
    else 0
  }

  /** The pattern matched at index `i` of `url`. `[^/]+` followed by '/'
      can only take a whole segment, and `\d+` at the end takes every
      digit, so no other split of the text can match. */
  function MatchAt(url: string, i: nat): Option<PrRef>
    requires i <= |url|
  {
    var s := url[i..];
    if StartsWith(s, Host) then OwnerPart(s[|Host|..]) else None
  }

  /** `([^/]+)/` and what follows it. */
  function OwnerPart(r: string): Option<PrRef>
  {
    var a := SegmentRun(r);
    if a == 0 || a == |r| then None else RepoPart(r[..a], r[a + 1..])
  }

  /** `([^/]+)/pull/` and what follows it. */
  function RepoPart(owner: string, r: string): Option<PrRef>
  {
    var b := SegmentRun(r);
    if b == 0 || !StartsWith(r[b..], Pull) then None else NumberPart(owner, r[..b], r[b + |Pull|..])
  }

  /** `(\d+)` */
  function NumberPart(owner: string, repo: string, r: string): Option<PrRef>
  {
    var d := DigitRun(r);
    if d == 0 then None else Some(PrRef(owner, repo, r[..d]))
  }

  /** `re.search`: the match at the first index from `i` on where there is
      one. */
  function Search(url: string, i: nat): Option<PrRef>
    requires i <= |url|
    decreases |url| - i
  {
    if MatchAt(url, i).Some? then MatchAt(url, i)
    else if i == |url| then None
    else Search(url, i + 1)
  }

  /** `parse_pr_url(pr_url)` */
  function ParsePrUrl(prUrl: string): Parsed
  {
    var m := Search(prUrl, 0);
    if m.None? then InvalidUrl("Invalid GitHub PR URL: " + prUrl) else Parsed(m.value)
  }

  // ----- properties -----

  /** The search fails exactly when no index from `i` on matches. */
  lemma {:induction false} SearchNone(url: string, i: nat)
    requires i <= |url|
    ensures Search(url, i).None? <==> forall j :: i <= j <= |url| ==> MatchAt(url, j).None?
    decreases |url| - i
  {
    if MatchAt(url, i).Some? {
      assert Search(url, i) == MatchAt(url, i);
    } else if i < |url| {
      SearchNone(url, i + 1);
      assert Search(url, i) == Search(url, i + 1);
      assert (forall j :: i <= j <= |url| ==> MatchAt(url, j).None?)
         <==> (forall j :: i + 1 <= j <= |url| ==> MatchAt(url, j).None?);
    }
  }

  /** A search that succeeds returns the match at the leftmost index that
      has one. */
  lemma {:induction false} SearchLeftmost(url: string, i: nat)
    requires i <= |url| && Search(url, i).Some?
    ensures exists j :: i <= j <= |url| && Search(url, i) == MatchAt(url, j)
              && forall k :: i <= k < j ==> MatchAt(url, k).None?
    decreases |url| - i
  {
    if MatchAt(url, i).None? {
      SearchLeftmost(url, i + 1);
      var j :| i + 1 <= j <= |url| && Search(url, i + 1) == MatchAt(url, j)
               && forall k :: i + 1 <= k < j ==> MatchAt(url, k).None?;
      assert forall k :: i <= k < j ==> MatchAt(url, k).None?;
    } else {
      assert Search(url, i) == MatchAt(url, i);
    }
  }

  /** A ValueError exactly when no index matches; the message names the
      URL. */
  lemma InvalidIffNoMatch(prUrl: string)
    ensures ParsePrUrl(prUrl).InvalidUrl? <==> forall j :: 0 <= j <= |prUrl| ==> MatchAt(prUrl, j).None?
    ensures ParsePrUrl(prUrl).InvalidUrl? ==> ParsePrUrl(prUrl).message == "Invalid GitHub PR URL: " + prUrl
  {
    SearchNone(prUrl, 0);
  }

  /** What the three groups of any match hold: a non-empty owner and
      repository without '/', and a non-empty run of digits. */
  predicate Fields(p: PrRef)
  {
    && p.owner != [] && '/' !in p.owner
    && p.repo != [] && '/' !in p.repo
    && p.prNumber != [] && AllDigits(p.prNumber)
  }

  /** The text a match spans. */
  function Written(p: PrRef): string
  {
    Host + (p.owner + ("/" + (p.repo + (Pull + p.prNumber))))
  }

  /** `s` starts with `t` and does not go on with a digit. */
  predicate Leads(s: string, t: string)
  {
    StartsWith(s, t) && (|t| < |s| ==> !IsDigit(s[|t|]))
  }

  lemma LeadsSplit(s: string, x: string, t: string)
    ensures Leads(s, x + t) <==> StartsWith(s, x) && Leads(s[|x|..], t)
  {
    if |x| + |t| <= |s| {
      assert s[..|x| + |t|] == s[..|x|] + s[|x|..][..|t|];
      if |x| + |t| < |s| {
        assert s[|x| + |t|] == s[|x|..][|t|];
      }
      if s[..|x| + |t|] == x + t {
        assert s[..|x|] == (x + t)[..|x|];
        assert s[|x|..][..|t|] == (x + t)[|x|..];
      }
    }
  }

  lemma NumberPartIff(owner: string, repo: string, r: string, p: PrRef)
    ensures NumberPart(owner, repo, r) == Some(p) <==>
              p.owner == owner && p.repo == repo && p.prNumber != [] && AllDigits(p.prNumber) && Leads(r, p.prNumber)
  {
    var n := p.prNumber;
    if p.owner == owner && p.repo == repo && n != [] && AllDigits(n) && Leads(r, n) {
      assert r == n + r[|n|..];
      DigitRunAppend(n, r[|n|..]);
    }
  }

  lemma RepoPartIff(owner: string, r: string, p: PrRef)
    ensures RepoPart(owner, r) == Some(p) <==>
              p.owner == owner && p.repo != [] && '/' !in p.repo && p.prNumber != [] && AllDigits(p.prNumber)
              && Leads(r, p.repo + (Pull + p.prNumber))
  {
    if RepoPart(owner, r) == Some(p) {
      RepoPartSound(owner, r, p);
    }
    if p.owner == owner && p.repo != [] && '/' !in p.repo && p.prNumber != [] && AllDigits(p.prNumber)
       && Leads(r, p.repo + (Pull + p.prNumber)) {
      RepoPartComplete(owner, r, p);
    }
  }

  lemma RepoPartSound(owner: string, r: string, p: PrRef)
    requires RepoPart(owner, r) == Some(p)
    ensures p.owner == owner && p.repo != [] && '/' !in p.repo && p.prNumber != [] && AllDigits(p.prNumber)
    ensures Leads(r, p.repo + (Pull + p.prNumber))
  {
    var b := SegmentRun(r);
    var r3 := r[b + |Pull|..];
    NumberPartIff(owner, r[..b], r3, p);
    assert r[b..][|Pull|..] == r3;
    LeadsSplit(r[b..], Pull, p.prNumber);
    assert StartsWith(r, r[..b]);
    LeadsSplit(r, p.repo, Pull + p.prNumber);
  }

  lemma RepoPartComplete(owner: string, r: string, p: PrRef)
    requires p.owner == owner && p.repo != [] && '/' !in p.repo && p.prNumber != [] && AllDigits(p.prNumber)
    requires Leads(r, p.repo + (Pull + p.prNumber))
    ensures RepoPart(owner, r) == Some(p)
  {
    LeadsSplit(r, p.repo, Pull + p.prNumber);
    var rest := r[|p.repo|..];
    assert r == p.repo + rest;
    SegmentOf(p.repo, rest);
    var b := SegmentRun(r);
    assert b == |p.repo| && r[b..] == rest;
    LeadsSplit(rest, Pull, p.prNumber);
    NumberPartIff(owner, r[..b], r[b + |Pull|..], p);
    assert rest[|Pull|..] == r[b + |Pull|..];
  }

  lemma OwnerPartIff(r: string, p: PrRef)
    ensures OwnerPart(r) == Some(p) <==>
              Fields(p) && Leads(r, p.owner + ("/" + (p.repo + (Pull + p.prNumber))))
  {
    if OwnerPart(r) == Some(p) {
      OwnerPartSound(r, p);
    }
    if Fields(p) && Leads(r, p.owner + ("/" + (p.repo + (Pull + p.prNumber)))) {
      OwnerPartComplete(r, p);
    }
  }

  lemma OwnerPartSound(r: string, p: PrRef)
    requires OwnerPart(r) == Some(p)
    ensures Fields(p) && Leads(r, p.owner + ("/" + (p.repo + (Pull + p.prNumber))))
  {
    var t := p.repo + (Pull + p.prNumber);
    var a := SegmentRun(r);
    RepoPartIff(r[..a], r[a + 1..], p);
    assert r[a..][1..] == r[a + 1..];
    LeadsSplit(r[a..], "/", t);
    assert StartsWith(r, r[..a]);
    LeadsSplit(r, p.owner, "/" + t);
  }

  lemma OwnerPartComplete(r: string, p: PrRef)
    requires Fields(p) && Leads(r, p.owner + ("/" + (p.repo + (Pull + p.prNumber))))
    ensures OwnerPart(r) == Some(p)
  {
    var t := p.repo + (Pull + p.prNumber);
    LeadsSplit(r, p.owner, "/" + t);
    var rest := r[|p.owner|..];
    assert r == p.owner + rest;
    SegmentOf(p.owner, rest);
    var a := SegmentRun(r);
    assert a == |p.owner| && r[a..] == rest;
    LeadsSplit(rest, "/", t);
    RepoPartIff(r[..a], r[a + 1..], p);
    assert rest[1..] == r[a + 1..];
  }

  /** The match at an index is exactly the groups of the text written
      there: `MatchAt` is the pattern, read back. */
  lemma MatchAtIff(url: string, i: nat, p: PrRef)
    requires i <= |url|
    ensures MatchAt(url, i) == Some(p) <==> Fields(p) && Leads(url[i..], Written(p))
  {
    var s := url[i..];
    LeadsSplit(s, Host, p.owner + ("/" + (p.repo + (Pull + p.prNumber))));
    if StartsWith(s, Host) {
      OwnerPartIff(s[|Host|..], p);
    }
  }

  /** Every parse that succeeds reads the groups written at the leftmost
      index where the pattern matches. */
  lemma ParsedLeftmost(prUrl: string)
    requires ParsePrUrl(prUrl).Parsed?
    ensures exists i :: 0 <= i <= |prUrl| && Fields(ParsePrUrl(prUrl).ref)
              && Leads(prUrl[i..], Written(ParsePrUrl(prUrl).ref))
              && forall k :: 0 <= k < i ==> MatchAt(prUrl, k).None?
  {
    SearchNone(prUrl, 0);
    SearchLeftmost(prUrl, 0);
    var i :| 0 <= i <= |prUrl| && Search(prUrl, 0) == MatchAt(prUrl, i)
             && forall k :: 0 <= k < i ==> MatchAt(prUrl, k).None?;
    MatchAtIff(prUrl, i, ParsePrUrl(prUrl).ref);
  }

  /** Text before `github.com` and after the digits is ignored: a URL
      written out from an owner, a repository and a number reads back as
      them, whatever comes before (if it holds no 'g') and after (if it does
      not start with a digit). */
  lemma ParseOfWritten(before: string, p: PrRef, after: string)
    requires 'g' !in before && Fields(p)
    requires after == [] || !IsDigit(after[0])
    ensures ParsePrUrl(before + Written(p) + after) == Parsed(p)
  {
    var url := before + Written(p) + after;
    forall k | 0 <= k < |before|
      ensures MatchAt(url, k).None?
    {
      assert url[k] == before[k];
      assert url[k..][0] != Host[0];
    }
    var i := |before|;
    assert url[i..] == Written(p) + after;
    assert url[i..][..|Written(p)|] == Written(p);
    MatchAtIff(url, i, p);
    SearchSkips(url, i);
  }

  lemma {:induction false} SegmentOf(x: string, y: string)
    requires '/' !in x && y != [] && y[0] == '/'
    ensures SegmentRun(x + y) == |x|
  {
    if x != [] {
      assert (x + y)[1..] == x[1..] + y;
      SegmentOf(x[1..], y);
    } else {
      assert x + y == y;
    }
  }

  /** When no index before `i` matches and `i` does, the search returns
      the match at `i`. */
  lemma SearchSkips(url: string, i: nat)
    requires i <= |url| && MatchAt(url, i).Some?
    requires forall k :: 0 <= k < i ==> MatchAt(url, k).None?
    ensures Search(url, 0) == MatchAt(url, i)
  {
    SearchNone(url, 0);
    if Search(url, 0).Some? {
      SearchLeftmost(url, 0);
      var j :| 0 <= j <= |url| && Search(url, 0) == MatchAt(url, j)
               && forall k :: 0 <= k < j ==> MatchAt(url, k).None?;
      assert j == i;
    }
  }
}
