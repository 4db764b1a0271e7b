/** LanguageDetector.detect: the language of a file from its extension. The
    single-file scanner carries an identical copy of the table and of detect. */
module LanguageDetection {
  import opened Text
  import opened Paths
  import opened SemanticNodes

  /** LANGUAGE_MAP, as its entries in order; no key occurs twice. */
  const LanguageMap: seq<(string, Language)> := [
    (".py", Python),
    (".java", Java),
    (".c", C),
    (".h", C),
    (".cpp", Cpp),
    (".cc", Cpp),
    (".cxx", Cpp),
    (".hpp", Cpp),
    (".hxx", Cpp),
    (".hh", Cpp)
  ]

  /** `table.get(key)` */
  function Get(table: seq<(string, Language)>, key: string): Option<Language>
  {
    if table == [] then None
    else if table[0].0 == key then Some(table[0].1)
    else Get(table[1..], key)
  }

  /** `key in table` */
  predicate HasKey(table: seq<(string, Language)>, key: string)
  {
    exists i :: 0 <= i < |table| && table[i].0 == key
  }

  /** `get` finds a key exactly when the table has it, and returns the value
      of its first entry. */
  lemma {:induction false} GetSpec(table: seq<(string, Language)>, key: string)
    ensures Get(table, key).Some? <==> HasKey(table, key)
    ensures Get(table, key).Some? ==>
              exists i :: 0 <= i < |table| && table[i] == (key, Get(table, key).value)
                        && forall j :: 0 <= j < i ==> table[j].0 != key
  {
    if table != [] && table[0].0 != key {
      GetSpec(table[1..], key);
      if HasKey(table[1..], key) {
        var i :| 0 <= i < |table[1..]| && table[1..][i].0 == key;
        assert table[i + 1].0 == key;
      }
      if HasKey(table, key) {
        var i :| 0 <= i < |table| && table[i].0 == key;
        assert table[1..][i - 1].0 == key;
      }
      if Get(table, key).Some? {
        var i :| 0 <= i < |table[1..]| && table[1..][i] == (key, Get(table, key).value)
                 && forall j :: 0 <= j < i ==> table[1..][j].0 != key;
        assert table[i + 1] == (key, Get(table, key).value);
        forall j | 0 <= j < i + 1
          ensures table[j].0 != key
        {
          if j > 0 {
            assert table[j] == table[1..][j - 1];
          }
        }
      }
    } else if table != [] {
      assert table[0] == (key, Get(table, key).value);
    }
  }

  /** `detect(filepath)` against the table `table`: the entry for the
      lower-cased splitext suffix, if any. */
  function DetectWith(table: seq<(string, Language)>, filepath: string): Option<Language>
  {
    Get(table, Lower(SplitExt(filepath).1))
  }

  /** `LanguageDetector.detect(filepath)`, which reads LANGUAGE_MAP. */
  function Detect(filepath: string): Option<Language>
  {
    DetectWith(LanguageMap, filepath)
  }

  /** Every key is a dot and at least one more character. */
  lemma KeysAreSuffixes()
    ensures forall i :: 0 <= i < |LanguageMap| ==> |LanguageMap[i].0| >= 2 && LanguageMap[i].0[0] == '.'
  {
  }

  /** The table's ten entries: no key occurs twice, and `get` gives each
      key its language. */
  lemma LanguageMapEntries()
    ensures forall i, j :: 0 <= i < j < |LanguageMap| ==> LanguageMap[i].0 != LanguageMap[j].0
    ensures Get(LanguageMap, ".py") == Some(Python) && Get(LanguageMap, ".java") == Some(Java)
    ensures Get(LanguageMap, ".c") == Some(C) && Get(LanguageMap, ".h") == Some(C)
    ensures Get(LanguageMap, ".cpp") == Some(Cpp) && Get(LanguageMap, ".cc") == Some(Cpp)
    ensures Get(LanguageMap, ".cxx") == Some(Cpp) && Get(LanguageMap, ".hpp") == Some(Cpp)
    ensures Get(LanguageMap, ".hxx") == Some(Cpp) && Get(LanguageMap, ".hh") == Some(Cpp)
  {
  }

  /** A language is detected exactly when the lower-cased extension is a
      table key, and it is that key's language; a path without an extension
      has none. */
  lemma DetectSpec(filepath: string)
    ensures Detect(filepath).Some? <==> HasKey(LanguageMap, Lower(SplitExt(filepath).1))
    ensures Detect(filepath).Some? ==> (Lower(SplitExt(filepath).1), Detect(filepath).value) in LanguageMap
    ensures SplitExt(filepath).1 == "" ==> Detect(filepath).None?
  {
    var ext := Lower(SplitExt(filepath).1);
    GetSpec(LanguageMap, ext);
    if Detect(filepath).Some? {
      var i :| 0 <= i < |LanguageMap| && LanguageMap[i] == (ext, Detect(filepath).value);
      assert LanguageMap[i] in LanguageMap;
    }
    if SplitExt(filepath).1 == "" {
      KeysAreSuffixes();
      assert |ext| == 0;
    }
  }

  /** A detected language always comes from a suffix of the path that lower-
      cases to a table key. */
  lemma DetectFromSuffix(filepath: string)
    requires Detect(filepath).Some?
    ensures exists e :: (e, Detect(filepath).value) in LanguageMap && |e| <= |filepath|
                     && Lower(filepath[|filepath| - |e|..]) == e
  {
    DetectSpec(filepath);
    SplitExtSpec(filepath);
    var ext := SplitExt(filepath).1;
    assert filepath[|filepath| - |ext|..] == ext;
    assert |Lower(ext)| == |ext|;
  }

  /** `dir/stem.ext` is detected by the lower-cased extension alone, so the
      match ignores case. */
  lemma DetectFileName(dir: string, stem: string, ext: string)
    requires stem != "" && '.' !in stem && '/' !in stem
    requires |ext| >= 1 && ext[0] == '.' && '.' !in ext[1..] && '/' !in ext
    ensures Detect(dir + stem + ext) == Get(LanguageMap, Lower(ext))
  {
    ExtOfFileName(dir, stem, ext);
  }

  /** The match ignores case: two extensions that lower-case alike (such as
      `.JAVA` and `.java`) give the same answer. */
  lemma DetectIgnoresCase(dir: string, stem: string, ext: string, other: string)
    requires stem != "" && '.' !in stem && '/' !in stem
    requires |ext| >= 1 && ext[0] == '.' && '.' !in ext[1..] && '/' !in ext
    requires |other| >= 1 && other[0] == '.' && '.' !in other[1..] && '/' !in other
    requires Lower(ext) == Lower(other)
    ensures Detect(dir + stem + ext) == Detect(dir + stem + other)
  {
    DetectFileName(dir, stem, ext);
    DetectFileName(dir, stem, other);
  }

  /** A file named only by its extension is not a source file. */
  lemma DetectHidden()
    ensures Detect("a/.py") == None
  {
    HiddenFileNoExt("a", 1, "py");
    assert "a" + "/" + seq(1, _ => '.') + "py" == "a/.py";
    DetectSpec("a/.py");
  }

  lemma DetectNoExt()
    ensures Detect("Makefile") == None
  {
    assert RFind("Makefile", '.') == -1;
    assert SplitExt("Makefile").1 == "";
    DetectSpec("Makefile");
  }
}
