/** The two POSIX path helpers the scanners use: os.path.basename and
    os.path.splitext, with '/' as the only separator. */
module Paths {
  import opened Text

  /** `os.path.basename(p)`: everything after the last '/'. */
  function Basename(p: string): string
  {
    p[RFind(p, '/') + 1..]
  }

  /** The basename is the longest suffix without a '/': it has none, and
      the character before it, if any, is one. */
  lemma BasenameSpec(p: string)
    ensures '/' !in Basename(p)
    ensures |Basename(p)| <= |p| && Basename(p) == p[|p| - |Basename(p)|..]
    ensures |Basename(p)| < |p| ==> p[|p| - |Basename(p)| - 1] == '/'
  {
    var r := Basename(p);
    var k := RFind(p, '/');
    forall c | c in r
      ensures c != '/'
    {
      var j :| 0 <= j < |r| && r[j] == c;
      assert r[j] == p[k + 1 + j];
    }
  }

  /** Some character of `p[lo..hi]` is not a dot. */
  predicate HasNonDot(p: string, lo: int, hi: int)
    requires 0 <= lo && hi <= |p|
  {
    exists k :: lo <= k < hi && p[k] != '.'
  }

  /** `os.path.splitext(p)`: the extension runs from the last '.' of the final
      path component, provided that component has a non-dot character before
      it (so leading dots, as in `.bashrc`, do not start an extension). */
  function SplitExt(p: string): (string, string)
  {
    var sep := RFind(p, '/');
    var dot := RFind(p, '.');
    if dot > sep && HasNonDot(p, sep + 1, dot) then (p[..dot], p[dot..])
    else (p, "")
  }

  /** The two parts make up the path, and an extension is a dot followed by
      neither a dot nor a '/'. */
  lemma SplitExtSpec(p: string)
    ensures SplitExt(p).0 + SplitExt(p).1 == p
    ensures SplitExt(p).1 == "" || (SplitExt(p).1[0] == '.' && '.' !in SplitExt(p).1[1..] && '/' !in SplitExt(p).1)
  {
    var sep := RFind(p, '/');
    var dot := RFind(p, '.');
    if dot > sep && HasNonDot(p, sep + 1, dot) {
      var e := p[dot..];
      assert SplitExt(p) == (p[..dot], e);
      assert p[..dot] + e == p;
      assert e[0] == '.';
      forall c | c in e
        ensures c != '/'
      {
        var j :| 0 <= j < |e| && e[j] == c;
        assert c == p[dot + j];
      }
      forall c | c in e[1..]
        ensures c != '.'
      {
        var j :| 0 <= j < |e[1..]| && e[1..][j] == c;
        assert c == p[dot + 1 + j];
      }
    }
  }

  /** A file named `stem + ext`, with a stem that has no dot and no slash and
      an extension that is one dot followed by neither, has exactly `ext` as
      its extension, whatever directory precedes it. */
  lemma ExtOfFileName(dir: string, stem: string, ext: string)
    requires stem != "" && '.' !in stem && '/' !in stem
    requires |ext| >= 1 && ext[0] == '.' && '.' !in ext[1..] && '/' !in ext
    ensures SplitExt(dir + stem + ext).1 == ext
  {
    var p := dir + stem + ext;
    var dot := |dir| + |stem|;
    assert p[dot] == '.';
    forall j | dot < j < |p|
      ensures p[j] != '.' && p[j] != '/'
    {
      assert p[j] == ext[j - dot];
      assert ext[j - dot] == ext[1..][j - dot - 1];
    }
    assert RFind(p, '.') == dot;
    forall j | |dir| <= j < dot
      ensures p[j] != '/'
    {
      assert p[j] == stem[j - |dir|];
    }
    assert RFind(p, '/') < |dir|;
    assert p[dot - 1] == stem[|stem| - 1] && p[dot - 1] != '.';
    assert HasNonDot(p, RFind(p, '/') + 1, dot);
    assert p[dot..] == ext;
  }

  /** A final component made of dots and then a dot-free name, like `.py`,
      has no extension. */
  lemma HiddenFileNoExt(dir: string, dots: nat, name: string)
    requires dots >= 1 && '.' !in name && '/' !in name
    ensures SplitExt(dir + "/" + seq(dots, _ => '.') + name).1 == ""
  {
    var lead := seq(dots, _ => '.');
    var p := dir + "/" + lead + name;
    var sep := |dir|;
    assert p[sep] == '/';
    forall j | sep < j < |p|
      ensures p[j] != '/'
    {
      if j < sep + 1 + dots {
        assert p[j] == lead[j - sep - 1];
      } else {
        assert p[j] == name[j - sep - 1 - dots];
      }
    }
    assert RFind(p, '/') == sep;
    var dot := RFind(p, '.');
    forall j | sep + 1 + dots <= j < |p|
      ensures p[j] != '.'
    {
      assert p[j] == name[j - sep - 1 - dots];
    }
    assert p[sep + dots] == '.';
    assert dot == sep + dots;
    forall k | sep + 1 <= k < dot
      ensures p[k] == '.'
    {
      assert p[k] == lead[k - sep - 1];
    }
    assert !HasNonDot(p, sep + 1, dot);
  }
}
