# source_code_rag: code-entity graph and diff mapping

This project models the core of source_code_rag, a tool that turns a
repository into a graph of code entities and uses it to review pull
requests. The model covers these parts:

- **Entity model.** `SemanticNode`, a mutable record, and the `nodes`
  list and `node_map` dictionary an extractor or scanner builds up.
- **Extractors.** The Python, Java, C and C++ extractors walk a
  tree-sitter parse tree and emit class, enum, interface, function and
  method nodes, with their qualified call targets. The copies of these
  walks inside `semantic_tree_builder.py` are modelled too, including
  its Java walk, which knows only classes.
- **Language detector.** The file extension table.
- **Scanners.** The ignore-path rule, the file and error counters, how
  extractor output is merged, and `get_statistics`, for both the modular
  `RepositoryScanner` and the single-file `MultiLanguageScanner`.
- **Call-graph linker.** Appends each caller's full path to the
  `called_by` list of every call target it can resolve.
- **Diff parsers and mappers.** Two unified-diff parsers
  (`DiffParser.parse_diff` and the older `DiffParser.parse` of
  `pr_context_retrieval.py`). They read the hunk format of the GNU
  diffutils manual, "Detailed Description of Unified Format", and git's
  extended header lines. Each has a mapper from changed lines to the
  changed functions.
- **Context selection.** The `ContextBuilder` helpers with the
  token-budgeted review text, the retriever's bounded expansion of
  vector results with callers and callees, and node search.
- **Pull request helpers.** The per-file diff slice and node filter of
  `PRReviewer`, and `PRFetcher.parse_pr_url`.

Objects the source updates in place are Dafny classes. These are
`SemanticNode`, the extractor registry, both scanners and the nodes the
linker updates. Their walks and loops are methods, each proved against a
pure specification function. The properties are stated as lemmas about
those functions.

Several inputs of the source are not computed by the model but given to
it:

- The directory walk, file reads and tree-sitter parsing. Each file
  arrives with its syntax tree and whether reading or parsing it raises.
- The text of a file, which the context builder reads. It is a map from
  each readable path to the file's lines.

The two diff parsers share objects. A hunk can stay current after it has
been attached to a file, and a file can be appended to the result twice.
The model therefore keeps every file and hunk ever created in a store,
and refers to them by index.

Some quirks of the source are proved as lemmas rather than corrected:

- `BadGitLineRepeats`: a `diff --git` line that does not match lists the
  current file twice.
- `OverlapOfEmptyRange`: an empty hunk range still overlaps a function.
- `CapitalizedPatternNeverMatches`: the capitalised test-name pattern can
  never match.
- `RelatedToLastResult`: every added retrieval entry is related to the
  last vector result.
- `LongerPathHeaderNamesFile`: the per-file diff slice matches file
  paths by substring.

## Model

| member | source | states |
|---|---|---|
| SemanticNodes.SemanticNode.constructor | src/models/semantic_node.py:10-23 | name, node_type, start_line, end_line, filepath and language are stored as passed; parent_class, qualified_name, full_path and return_type start None; calls, called_by and parameters start empty |
| SemanticNodes.SemanticNode.Display | src/models/semantic_node.py:25-26 | `__repr__` is `<full_path:start_line>`, printing None for an unset path, and is always bracketed |
| SemanticNodes.TypeRecord | src/extractors/java_extractor.py:22-33 | a type node is qualified by its bare name, has full_path `filepath::name`, and starts with no calls, parameters or return type |
| SemanticNodes.CallableRecord | src/extractors/python_extractor.py:46-61 | a callable is a method exactly when the enclosing class is set and non-empty, then owned by it and qualified `C.name`; otherwise a function qualified by its bare name |
| SemanticNodes.NewTypeNode | src/extractors/java_extractor.py:22-33 | builds a fresh node holding exactly TypeRecord |
| SemanticNodes.NewCallableNode | src/extractors/python_extractor.py:46-61 | builds a fresh node holding exactly CallableRecord |
| SemanticNodes.RegisterValues | src/extractors/python_extractor.py:33-34 | writing nodes into node_map only ever maps a key to a node of the old map or of the written ones |
| SemanticNodes.RegisterAppend | src/extractors/python_extractor.py:74-75 | writing two runs of nodes one after the other equals writing their concatenation (last write wins) |
| SemanticNodes.Grow | src/extractors/python_extractor.py:36-37 | appending one walk's nodes after another's is appending their concatenation, for the list, the records and node_map |
| SemanticNodes.Registry.constructor | src/extractors/base_extractor.py:12-14 | a new extractor has an empty nodes list and an empty node_map |
| SemanticNodes.Registry.Add | src/extractors/python_extractor.py:33-34 | appends the node to nodes, sets node_map[full_path] to it, and changes nothing else |
| Paths.Basename | src/parsers/repository_scanner.py:79 | `os.path.basename`: the text after the last `/` (see BasenameSpec) |
| Paths.BasenameSpec | src/parsers/repository_scanner.py:88 | `os.path.basename` is the longest '/'-free suffix of the path |
| Paths.SplitExt | src/utils/language_detector.py:34 | `os.path.splitext`: the extension starts at the last `.` of the final component, provided a non-dot character precedes it there; otherwise it is empty (see SplitExtSpec) |
| Paths.SplitExtSpec | src/utils/language_detector.py:34 | `os.path.splitext` splits the path into two parts that make it up again; the extension is empty or a dot followed by neither a dot nor a '/' |
| Paths.ExtOfFileName | src/utils/language_detector.py:34 | the extension of `dir + stem + ext` is exactly `ext` when the stem has no dot or slash |
| Paths.HiddenFileNoExt | src/utils/language_detector.py:34 | leading dots of the last path component do not start an extension: `.py` has none |
| LanguageDetection.Get | src/utils/language_detector.py:35 | `LANGUAGE_MAP.get(key)`: the value of the first entry with that key, or None (see GetSpec) |
| LanguageDetection.GetSpec | src/utils/language_detector.py:35 | `dict.get` finds a key exactly when the table has it, and returns its entry's value |
| LanguageDetection.KeysAreSuffixes | src/utils/language_detector.py:10-21 | every key of LANGUAGE_MAP is a dot followed by at least one character |
| LanguageDetection.LanguageMapEntries | src/utils/language_detector.py:10-21 | the table has ten distinct keys: `.py` is python, `.java` java, `.c` and `.h` c, and `.cpp`, `.cc`, `.cxx`, `.hpp`, `.hxx`, `.hh` cpp |
| LanguageDetection.DetectWith | src/utils/language_detector.py:34-35 | `detect` against a given table: the table entry for the lower-cased splitext extension (see DetectSpec) |
| LanguageDetection.Detect | src/utils/language_detector.py:24-35 | `LanguageDetector.detect`, which reads LANGUAGE_MAP (see DetectSpec and the lemmas after it) |
| LanguageDetection.DetectSpec | src/utils/language_detector.py:34-35 | a language is detected iff the lower-cased splitext suffix is a key, and it is that key's language; no extension gives None |
| LanguageDetection.DetectFromSuffix | src/utils/language_detector.py:34-35 | a detected language always comes from a table key no longer than the path |
| LanguageDetection.DetectFileName | src/utils/language_detector.py:34-35 | `dir/stem.ext` is detected from the lower-cased `.ext` alone |
| LanguageDetection.DetectIgnoresCase | src/utils/language_detector.py:35 | two extensions that lower-case alike (`.JAVA`, `.java`) are detected alike |
| LanguageDetection.DetectHidden | src/utils/language_detector.py:34 | a file named `.py` is not detected as Python |
| LanguageDetection.DetectNoExt | src/utils/language_detector.py:34-35 | a file without an extension (`Makefile`) has no language |
| SyntaxTree.Field | src/extractors/python_extractor.py:16 | `child_by_field_name` returns a child of the node, or nothing |
| PythonExtractor.EmitQualified | src/extractors/python_extractor.py:14-79 | every record the walk emits has full_path `filepath::qualified_name`, qualified `C.name` exactly for a method of C, is tagged python, is a class, function or method, and has no return type |
| PythonExtractor.CallsInFile | src/extractors/python_extractor.py:88-115 | every recorded call target starts with `filepath::` |
| PythonExtractor.CallTarget | src/extractors/python_extractor.py:89-112 | the target find_calls records for one `call` node: `filepath::f` for an identifier callee, `filepath::C.m` for `self.m()` inside C or `C.m()`, `filepath::o.m` for any other attribute callee, none otherwise (see CallTargetCases, CallsInFile) |
| PythonExtractor.CallTargetCases | src/extractors/python_extractor.py:89-112 | a bare call `f()` gives `filepath::f` even inside a class; `self.m()` inside C or `C.m()` gives `filepath::C.m`; any other `o.m()` gives `filepath::o.m`; other callee shapes record nothing |
| PythonExtractor.TopLevelFunction | src/extractors/python_extractor.py:39-61 | a module holding one function `f` yields exactly one record, the function `filepath::f` |
| PythonExtractor.ClassWithMethod | src/extractors/python_extractor.py:15-61 | a class C holding a method m yields the class `filepath::C`, then the method `filepath::C.m` owned by C |
| PythonExtractor.Calls | src/extractors/python_extractor.py:88-115 | the targets recorded over a whole subtree, the node itself first, then its children in order (see CallsWalk, CallsInFile) |
| PythonExtractor.CallsIn | src/extractors/python_extractor.py:114-115 | the targets recorded over the first k children, in order (see CallsWalk) |
| PythonExtractor.CallsWalk | src/extractors/python_extractor.py:88-115 | the recursive walk appends exactly the subtree's calls, in pre-order, to the list |
| PythonExtractor.FindCalls | src/extractors/python_extractor.py:84-118 | `find_calls` returns the pre-order list of recognised call targets of the whole function subtree |
| PythonExtractor.ClassView | src/extractors/python_extractor.py:22-31 | the record of a named class: kind class, lines start row+1 to end row+1, full_path `filepath::name` (see NewClass, EmitQualified) |
| PythonExtractor.NewClass | src/extractors/python_extractor.py:20-31 | a class node named from the name field, lines start row+1 to end row+1, full_path `filepath::name` |
| PythonExtractor.ParamsIn | src/extractors/python_extractor.py:66-69 | the texts of the identifier nodes among the given children, in order (see AddParams) |
| PythonExtractor.Params | src/extractors/python_extractor.py:64-69 | the parameters of a definition: those of its parameters field, none without one (see AddParams) |
| PythonExtractor.AddParams | src/extractors/python_extractor.py:64-69 | appends the texts of the parameters field's direct identifier children, in order, and changes nothing else |
| PythonExtractor.FunctionView | src/extractors/python_extractor.py:46-72 | the record of a named function: a method of its parent class or a plain function, with its parameters and calls (see NewFunction, EmitQualified) |
| PythonExtractor.NewFunction | src/extractors/python_extractor.py:44-72 | a function or method node with its parameters and its calls, and no return type |
| PythonExtractor.Emit | src/extractors/python_extractor.py:14-79 | the records `walk(node, parent_class)` appends: a named class and then its children walked under it, a named function alone, a nameless definition nothing, any other node its children (see Walk, EmitQualified, TopLevelFunction, ClassWithMethod) |
| PythonExtractor.EmitIn | src/extractors/python_extractor.py:77-79 | the records of the first k children walked in order under the same parent (see WalkChildren) |
| PythonExtractor.Walk | src/extractors/python_extractor.py:14-79 | appends exactly the records of Emit: a nameless def is skipped with its subtree, a class is followed by its children walked under it, a function is not descended into, anything else has its children walked with the same parent; node_map is written in that order, last write winning |
| PythonExtractor.WalkFunction | src/extractors/python_extractor.py:39-75 | a named function_definition appends one node and does not walk below it |
| PythonExtractor.WalkClass | src/extractors/python_extractor.py:20-37 | a named class appends its node, then walks every child with the class as parent |
| PythonExtractor.WalkChildren | src/extractors/python_extractor.py:77-79 | walks the children in order, appending their records one after the other |
| PythonExtractor.Extract | src/extractors/python_extractor.py:81-82 | returns the extractor's whole list: the nodes of earlier calls come first, unchanged, then this tree's records |
| JavaExtractor.TypeKind | src/extractors/java_extractor.py:16-72 | only class, enum and interface declarations make type records, and a class record comes from exactly a class_declaration; the single-file scanner recognises the class only |
| JavaExtractor.EmitQualified | src/extractors/java_extractor.py:14-148 | every record the walk emits has full_path `filepath::qualified_name`, is tagged java, and a type record carries no calls and no return type |
| JavaExtractor.CallsInFile | src/extractors/java_extractor.py:153-184 | every recorded call target starts with `filepath::` |
| JavaExtractor.MonolithIgnoresEnums | semantic_tree_builder.py:291-369 | in the single-file scanner an enum or interface declaration is walked as a plain node, while the extractor module records it as a type |
| JavaExtractor.MonolithEnumMethod | semantic_tree_builder.py:291-369 | in the single-file scanner a method inside a top-level enum is recorded as a plain function `filepath::m` |
| JavaExtractor.CallTarget | src/extractors/java_extractor.py:158-178 | the target find_calls records for one `method_invocation` with a name: `filepath::C.m` for `this.m()` or `C.m()` inside C and for a bare `m()` inside C, `filepath::o.m` for another object, `filepath::m` for a bare call outside a type (see FindCalls, CallsInFile) |
| JavaExtractor.Calls | src/extractors/java_extractor.py:157-181 | the targets recorded over a whole subtree, the node itself first, then its children in order (see CallsWalk, CallsInFile) |
| JavaExtractor.CallsIn | src/extractors/java_extractor.py:180-181 | the targets recorded over the first k children, in order (see CallsWalk) |
| JavaExtractor.CallsWalk | src/extractors/java_extractor.py:153-184 | the recursive walk appends exactly the subtree's calls, in pre-order, to the list |
| JavaExtractor.FindCalls | src/extractors/java_extractor.py:153-184 | `find_calls` returns the pre-order list of call targets: `this.m()` or `C.m()` inside C and a bare `m()` inside C give `filepath::C.m`, any other `o.m()` gives `filepath::o.m`, a bare `m()` outside a class gives `filepath::m` |
| JavaExtractor.TypeView | src/extractors/java_extractor.py:23-32 | the record of a named class, enum or interface: lines start row+1 to end row+1, full_path `filepath::name` (see NewType, TypeKind) |
| JavaExtractor.NewType | src/extractors/java_extractor.py:22-33 | a type node named from the name field, lines start row+1 to end row+1, full_path `filepath::name` |
| JavaExtractor.ParamsIn | src/extractors/java_extractor.py:127-132 | the names of the formal_parameter children that have a name field, in order (see AddParams) |
| JavaExtractor.Params | src/extractors/java_extractor.py:125-132 | the parameters of a method: those of its parameters field, none without one (see AddParams) |
| JavaExtractor.AddParams | src/extractors/java_extractor.py:125-132 | appends the names of the formal_parameter children of the parameters field, in order, and changes nothing else |
| JavaExtractor.MethodView | src/extractors/java_extractor.py:107-141 | the record of a named method: a method of its enclosing type or a plain function, with its parameters, its type field's text as return type, and its calls (see NewMethod, EmitQualified) |
| JavaExtractor.NewMethod | src/extractors/java_extractor.py:100-141 | a method (inside a type) or function node with its parameters, the text of its type field as return type, and its calls |
| JavaExtractor.Emit | src/extractors/java_extractor.py:14-148 | the records `walk(node, parent_class)` appends: a named type and then its body walked under it, a named method alone, a nameless declaration nothing, any other node its children (see Walk, EmitQualified, TypeKind, MonolithIgnoresEnums) |
| JavaExtractor.BodyEmit | src/extractors/java_extractor.py:37-41 | the records of a type's body field walked with the type as parent, nothing without a body (see WalkType) |
| JavaExtractor.EmitIn | src/extractors/java_extractor.py:146-148 | the records of the first k children walked in order under the same parent (see WalkChildren) |
| JavaExtractor.Walk | src/extractors/java_extractor.py:14-148 | appends exactly the records of Emit: a nameless declaration is skipped with its subtree, a type is followed by its body's children walked under it, a method is not descended into, anything else has its children walked with the same parent |
| JavaExtractor.WalkMethod | src/extractors/java_extractor.py:100-144 | a named method_declaration appends one node and does not walk below it |
| JavaExtractor.WalkType | src/extractors/java_extractor.py:16-41 | a named type declaration appends its node, then walks the children of its body field with the type as parent |
| JavaExtractor.WalkChildren | src/extractors/java_extractor.py:146-148 | walks the children in order, appending their records one after the other |
| JavaExtractor.Extract | src/extractors/java_extractor.py:150-151 | returns the extractor's whole list: earlier nodes first, unchanged, then this tree's records |
| CExtractor.FunctionName | src/extractors/c_extractor.py:55-63 | a name is found exactly for an identifier declarator, or a function_declarator whose inner declarator is an identifier; an identifier names itself, and a function_declarator is named by its inner declarator's text |
| CExtractor.ParamsInNames | src/extractors/c_extractor.py:65-77 | every recorded parameter is the identifier declarator of some parameter_declaration, and there are no more names than children |
| CExtractor.ParamsIn | src/extractors/c_extractor.py:71-76 | the identifier declarators of the parameter_declaration children, in order (see ParamsInNames, GetParameters) |
| CExtractor.DeclaratorParams | src/extractors/c_extractor.py:65-77 | `_get_parameters`: those of a function_declarator's parameters field, none for any other declarator (see GetParameters) |
| CExtractor.GetParameters | src/extractors/c_extractor.py:65-77 | `_get_parameters` collects, in order, the identifier declarators of the parameter_declaration children of a function declarator's parameters field; any other declarator gives [] |
| CExtractor.EmitQualified | src/extractors/c_extractor.py:14-50 | every C record is a function with a non-empty name, no owning class, tagged c, with full_path `filepath::name` |
| CExtractor.CallsInFile | src/extractors/c_extractor.py:79-95 | every recorded call target starts with `filepath::` |
| CExtractor.NestedDefinitions | src/extractors/c_extractor.py:14-50 | after recording a function the walk still descends into it, so a named definition nested inside another is recorded too, after the outer one |
| CExtractor.CallTarget | src/extractors/c_extractor.py:84-89 | the target find_calls records for one `call_expression`: `filepath::f` when the callee is an identifier f, none otherwise (see FindCalls, CallsInFile) |
| CExtractor.Calls | src/extractors/c_extractor.py:83-92 | the targets recorded over a whole subtree, the node itself first, then its children in order (see CallsWalk, CallsInFile) |
| CExtractor.CallsIn | src/extractors/c_extractor.py:91-92 | the targets recorded over the first k children, in order (see CallsWalk) |
| CExtractor.CallsWalk | src/extractors/c_extractor.py:83-92 | the recursive walk appends exactly the subtree's calls, in pre-order, to the list |
| CExtractor.FindCalls | src/extractors/c_extractor.py:79-95 | `find_calls` returns `filepath::f` for each call whose callee is an identifier `f`, in pre-order |
| CExtractor.FunctionView | src/extractors/c_extractor.py:24-44 | the record of a named function definition: a plain function with its declarator's parameters, its type field's text as return type, and its calls (see NewFunction, EmitQualified) |
| CExtractor.NewFunction | src/extractors/c_extractor.py:24-44 | a function node with its declarator's parameters, its type field's text as return type and its calls |
| CExtractor.Own | src/extractors/c_extractor.py:15-47 | the record a node itself contributes: one exactly for a function_definition whose declarator yields a non-empty name (see Walk, EmitQualified) |
| CExtractor.Stops | src/extractors/c_extractor.py:15-22 | a function_definition without a declarator or without a name, where the walk returns before visiting the children (see Walk) |
| CExtractor.Emit | src/extractors/c_extractor.py:14-50 | the records `walk(node)` appends: nothing below a node that stops, else the node's own record and then its children's, so nested definitions are recorded too (see Walk, EmitQualified, NestedDefinitions) |
| CExtractor.EmitIn | src/extractors/c_extractor.py:49-50 | the records of the first k children walked in order (see WalkChildren) |
| CExtractor.Walk | src/extractors/c_extractor.py:14-50 | appends exactly the records of Emit: a function definition without declarator or name ends the walk there, a named one is recorded and then its children are walked, anything else has its children walked |
| CExtractor.WalkChildren | src/extractors/c_extractor.py:49-50 | walks the children in order, appending their records one after the other |
| CExtractor.Extract | src/extractors/c_extractor.py:52-53 | returns the extractor's whole list: earlier nodes first, unchanged, then this tree's records |
| CppExtractor.FunctionName | src/extractors/cpp_extractor.py:87-98 | a name is found exactly for an identifier declarator, or a function_declarator whose inner declarator is an identifier or a field_identifier; an identifier names itself, and a function_declarator is named by its inner declarator's text; wherever the C helper finds a name, this one finds the same |
| CppExtractor.EmitQualified | src/extractors/cpp_extractor.py:14-82 | every record has full_path `filepath::qualified_name`, is tagged cpp, is a class or a callable, and a class carries no calls |
| CppExtractor.CallsInFile | src/extractors/cpp_extractor.py:115-147 | every recorded call target starts with `filepath::` |
| CppExtractor.CallTarget | src/extractors/cpp_extractor.py:120-141 | the target find_calls records for one `call_expression`: an identifier f gives `filepath::C.f` inside C and `filepath::f` outside; a field expression with field m and argument o gives `filepath::C.m` for `this` inside C and `filepath::o.m` otherwise; none else (see CallTargetCases, CallsInFile) |
| CppExtractor.CallTargetCases | src/extractors/cpp_extractor.py:120-141 | inside class C a bare `f()` gives `filepath::C.f`, outside it `filepath::f`; `this->m()` inside C gives `filepath::C.m` and `o.m()` gives `filepath::o.m`; other callee shapes record nothing |
| CppExtractor.Calls | src/extractors/cpp_extractor.py:119-144 | the targets recorded over a whole subtree, the node itself first, then its children in order (see CallsWalk, CallsInFile) |
| CppExtractor.CallsIn | src/extractors/cpp_extractor.py:143-144 | the targets recorded over the first k children, in order (see CallsWalk) |
| CppExtractor.CallsWalk | src/extractors/cpp_extractor.py:119-144 | the recursive walk appends exactly the subtree's calls, in pre-order, to the list |
| CppExtractor.FindCalls | src/extractors/cpp_extractor.py:115-147 | `find_calls` returns the pre-order list of call targets of the whole function subtree |
| CppExtractor.ClassView | src/extractors/cpp_extractor.py:22-31 | the record of a named class_specifier: kind class, lines start row+1 to end row+1, full_path `filepath::name` (see WalkClass, EmitQualified) |
| CppExtractor.FunctionView | src/extractors/cpp_extractor.py:50-75 | the record of a named function definition: a method of its enclosing class or a plain function, with its declarator's parameters, return type and calls (see NewFunction, EmitQualified) |
| CppExtractor.NewFunction | src/extractors/cpp_extractor.py:50-75 | a method (inside a class) or function node with its parameters, return type and calls |
| CppExtractor.Emit | src/extractors/cpp_extractor.py:14-82 | the records `walk(node, parent_class)` appends: a named class and then its body walked under it, a named function definition alone, a nameless one nothing, any other node its children (see Walk, EmitQualified) |
| CppExtractor.BodyEmit | src/extractors/cpp_extractor.py:36-39 | the records of a class's body field walked with the class as parent, nothing without a body (see WalkClass) |
| CppExtractor.EmitIn | src/extractors/cpp_extractor.py:80-82 | the records of the first k children walked in order under the same parent (see WalkChildren) |
| CppExtractor.Walk | src/extractors/cpp_extractor.py:14-82 | appends exactly the records of Emit: a nameless class or function is skipped with its subtree, a class is followed by its body's children walked under it, a function is not descended into, anything else has its children walked with the same parent |
| CppExtractor.WalkFunction | src/extractors/cpp_extractor.py:41-78 | a named function_definition appends one node and does not walk below it |
| CppExtractor.WalkClass | src/extractors/cpp_extractor.py:15-39 | a named class_specifier appends its node, then walks its body's children with the class as parent |
| CppExtractor.WalkChildren | src/extractors/cpp_extractor.py:80-82 | walks the children in order, appending their records one after the other |
| CppExtractor.Extract | src/extractors/cpp_extractor.py:84-85 | returns the extractor's whole list: earlier nodes first, unchanged, then this tree's records |
| RepositoryScanning.ShouldIgnore | src/parsers/repository_scanner.py:77-91 | `should_ignore`: the basename is a pattern, some pattern occurs in the path, or the basename starts with `.` and is not `.` (see ShouldIgnoreIff) |
| RepositoryScanning.ShouldIgnoreIff | src/parsers/repository_scanner.py:77-91 | a path is ignored iff some pattern occurs literally in it or its basename starts with '.' and is not '.'; the exact-basename test is subsumed by the substring test |
| RepositoryScanning.ShouldIgnoreMonotone | src/parsers/repository_scanner.py:37-39 | user patterns only add to the defaults: a path ignored under a set of patterns stays ignored under a larger set |
| RepositoryScanning.LiteralSubstring | src/parsers/repository_scanner.py:84-86 | the default pattern `test` ignores every file under a `latest` directory |
| RepositoryScanning.NotAGlob | src/parsers/repository_scanner.py:26 | `*.egg-info` is matched literally, so it ignores no path without a '*' (such as `pkg.egg-info`) unless the basename is hidden |
| RepositoryScanning.Pruned | src/parsers/repository_scanner.py:97-98 | os.walk never enters a directory below the root that should_ignore rejects, so a file with such a directory prefix is never reached |
| RepositoryScanning.Attempted | src/parsers/repository_scanner.py:97-108 | a file is attempted when it is not pruned, not ignored itself, and its detected language has a parser |
| RepositoryScanning.Outcomes | src/parsers/repository_scanner.py:100-118 | the attempted files that raise, or that do not, in walk order (see OutcomesPartition and OutcomesMembers) |
| RepositoryScanning.Attempts | src/parsers/repository_scanner.py:100-108 | the attempted files, in walk order |
| RepositoryScanning.OutcomesPartition | src/parsers/repository_scanner.py:112-118 | every attempted file is counted exactly once, as parsed or as an error |
| RepositoryScanning.OutcomesMembers | src/parsers/repository_scanner.py:97-118 | only attempted files with the given outcome are counted, in walk order |
| RepositoryScanning.OutcomesSnoc | src/parsers/repository_scanner.py:100-118 | one more walked file is added to the outcomes exactly when it is attempted with that outcome |
| RepositoryScanning.EmitFor | src/parsers/repository_scanner.py:129-132 | the records the extractor of a language emits for one tree |
| RepositoryScanning.Emitted | src/parsers/repository_scanner.py:128-136 | what each extractor has recorded after the successful files: each file goes to its detected language only (see EmittedOf) |
| RepositoryScanning.EmittedOf | src/parsers/repository_scanner.py:128-136 | each extractor's list is the concatenation, in walk order, of what the successful files of its language emit |
| RepositoryScanning.ScanEmit | src/parsers/repository_scanner.py:128-136 | the records one language's extractor has appended after the successful files, in walk order |
| RepositoryScanning.PerLanguage.Append | src/parsers/repository_scanner.py:129-132 | a file's nodes are appended to its own language's extractor only; the other three are unchanged |
| RepositoryScanning.PerLanguage.Concat | src/parsers/repository_scanner.py:128-136 | each language's records followed by the other value's records for the same language |
| RepositoryScanning.EmittedSnoc | src/parsers/repository_scanner.py:128-136 | one more successful file adds its records to its own language's list only |
| RepositoryScanning.NodeLists.With | src/parsers/repository_scanner.py:129-132 | one extractor's node list replaced; the other three are unchanged |
| RepositoryScanning.NodeMaps.With | src/parsers/repository_scanner.py:129-136 | one extractor's node_map replaced; the other three are unchanged |
| RepositoryScanning.Appended | src/parsers/repository_scanner.py:132-135 | what `nodes.extend(extracted_nodes)` adds over the successful files: for each file, its extractor's whole list as it stood right after that file |
| RepositoryScanning.Contribution | src/parsers/repository_scanner.py:132-135 | one file's part of that: the first nodes of its language's list, as many as the list held right after the file |
| RepositoryScanning.AppendedMap | src/parsers/repository_scanner.py:136 | what `node_map.update(extractor.node_map)` merges over the successful files, in order: for each file, its extractor's map as it stood right after that file |
| RepositoryScanning.Merged | src/parsers/repository_scanner.py:136 | one file's part of that: its extractor's starting map with the nodes added since registered over it |
| RepositoryScanning.Since | src/parsers/repository_scanner.py:136 | an extractor's map after the nodes from a given position on have been registered over its starting map |
| RepositoryScanning.AppendedFrame | src/parsers/repository_scanner.py:132-135 | lists that have grown after the files were scanned give the same appended nodes |
| RepositoryScanning.ContributionFrame | src/parsers/repository_scanner.py:132-135 | likewise for one file's contribution |
| RepositoryScanning.AppendedMapFrame | src/parsers/repository_scanner.py:136 | lists that have grown after the files were scanned give the same merged map |
| RepositoryScanning.MergedFrame | src/parsers/repository_scanner.py:136 | likewise for one file's merged map |
| RepositoryScanning.SinceFrame | src/parsers/repository_scanner.py:136 | registering from a list that has grown since gives the same map |
| RepositoryScanning.EmittedGrows | src/parsers/repository_scanner.py:128-136 | no language's records shrink when a successful file is added |
| RepositoryScanning.AppendedUnfold | src/parsers/repository_scanner.py:132-135 | one more successful file appends exactly its contribution |
| RepositoryScanning.AppendedMapUnfold | src/parsers/repository_scanner.py:136 | one more successful file merges exactly its extractor's map |
| RepositoryScanning.SinceAll | src/parsers/repository_scanner.py:136 | when the list ends right after the new records, all its nodes from the start position are registered |
| RepositoryScanning.AppendedSnoc | src/parsers/repository_scanner.py:132-136 | one more successful file of language L appends L's whole current list and merges L's map as registered since the start |
| RepositoryScanning.RegisterGrows | src/parsers/repository_scanner.py:132-136 | registering an extractor's new nodes file by file gives the same map as registering them all at once |
| RepositoryScanning.ScannedSoFar | src/parsers/repository_scanner.py:97-118 | the loop invariant of scan_repository: the extractors have only grown, by one node per record emitted; nodes and node_map hold what scan_file appended and merged for each successful file |
| RepositoryScanning.ScannedStep | src/parsers/repository_scanner.py:112-136 | one successful file keeps that invariant |
| RepositoryScanning.Extract | src/parsers/repository_scanner.py:129-132 | `extractor.extract(...)` dispatched on the language: the extractor's records grow by what it emits for the file, its list only grows and is returned whole, and the new nodes are registered in its node_map |
| RepositoryScanning.RepositoryScanner.constructor | src/parsers/repository_scanner.py:29-41 | the ignore set is the defaults plus the user's patterns; nodes, node_map and both counters start empty, and each language with a parser has a fresh, empty extractor |
| RepositoryScanning.RepositoryScanner.ScanFile | src/parsers/repository_scanner.py:123-136 | the language's extractor appends the file's records and grows its list by one node per record; the scanner's nodes are extended by that extractor's whole accumulated list, and node_map is updated with that extractor's whole map, its new nodes registered over its old map; the other extractors and the counters are unchanged |
| RepositoryScanning.RepositoryScanner.ScanOne | src/parsers/repository_scanner.py:100-118 | a file not pruned, not ignored, with a detected language that has a parser is attempted; if reading or parsing raises only error_count grows, otherwise it is scanned as ScanFile states and only file_count grows; any other file changes nothing |
| RepositoryScanning.RepositoryScanner.ScanRepository | src/parsers/repository_scanner.py:93-121 | file_count and error_count grow by the numbers of successful and failing attempts; each extractor ends with the records of its language's successful files in walk order, and its list only grows; nodes becomes the old nodes followed, for each successful file in walk order, by its extractor's whole list as it stood after that file (Appended); node_map is the old map updated, file by file, with that extractor's map as it stood then (AppendedMap); the nodes list is returned |
| RepositoryScanning.RepositoryScanner.GetStats | src/parsers/repository_scanner.py:156-177 | total_files is file_count; each total_* is the number of nodes of that kind; by_language and files are the per-language and per-file counters of all five kinds |
| Statistics.Counts.Inc | src/parsers/repository_scanner.py:174-175 | increments the counter of exactly one kind and leaves the others alone |
| Statistics.Tags | src/parsers/repository_scanner.py:169-171 | one tag per node, in order, holding its kind, language and file |
| Statistics.CountKind | src/parsers/repository_scanner.py:160-164 | `len([n for n in nodes if n.node_type == k])` over the tags (see KindsPartition) |
| Statistics.CountLanguage | src/parsers/repository_scanner.py:169-175 | the number of counted nodes of one kind and language |
| Statistics.CountFile | src/parsers/repository_scanner.py:169-175 | the number of counted nodes of one kind in one file |
| Statistics.ByLanguage | src/parsers/repository_scanner.py:169-175 | by_language after the loop: the counter of the node's language incremented for its kind, a new language starting at zero (see ByLanguageKeys, ByLanguageCount) |
| Statistics.ByFile | src/parsers/repository_scanner.py:169-175 | files after the loop, keyed by the node's file in the same way (see ByFileKeys, ByFileCount) |
| Statistics.ByLanguageKeys | src/parsers/repository_scanner.py:169-175 | a language is a by_language key exactly when some counted node has it |
| Statistics.ByLanguageCount | src/parsers/repository_scanner.py:169-175 | a language's counter of a kind is the number of its nodes of that kind, and 0 for a kind the scanner does not count |
| Statistics.ByFileKeys | src/parsers/repository_scanner.py:169-175 | a path is a files key exactly when some counted node lies in it |
| Statistics.ByFileCount | src/parsers/repository_scanner.py:169-175 | a file's counter of a kind is the number of its nodes of that kind, and 0 for a kind the scanner does not count |
| Statistics.GetStatistics | src/parsers/repository_scanner.py:156-177 | totals by comprehension and the by_language and files maps, as counted by the loop over the nodes |
| Statistics.LanguagesPartition | src/parsers/repository_scanner.py:169-175 | the four by_language counters of a kind add up to its total |
| Statistics.KindsPartition | src/parsers/repository_scanner.py:160-164 | the five totals add up to the number of nodes |
| Statistics.FileBounded | src/parsers/repository_scanner.py:169-175 | a file's counter never exceeds the kind's total, and a path with no node has all-zero counters |
| SingleFileScanning.MonoEmittedSnoc | semantic_tree_builder.py:159-174 | one more successful file appends its language walk's records to the one list |
| SingleFileScanning.OfLanguageAppend | semantic_tree_builder.py:159-174 | restricting a concatenation to one language is concatenating the restrictions |
| SingleFileScanning.OfLanguageUniform | semantic_tree_builder.py:159-174 | restricting a one-language list keeps all of it or none |
| SingleFileScanning.MonoEmitForLanguage | semantic_tree_builder.py:159-174 | every record a file contributes is tagged with the file's language |
| SingleFileScanning.SameAsPerLanguage | semantic_tree_builder.py:159-174 | for Python, C and C++ the single list restricted to the language equals what the extractor-based scanner's extractor for it accumulates |
| SingleFileScanning.MultiLanguageScanner.constructor | semantic_tree_builder.py:61-72 | defaults plus the user's patterns; empty nodes, node_map and counters |
| SingleFileScanning.MultiLanguageScanner.ScanFile | semantic_tree_builder.py:159-174 | the language's walk appends the file's records to the one nodes list and writes them into the one node_map |
| SingleFileScanning.MultiLanguageScanner.ScanOne | semantic_tree_builder.py:127-145 | the same attempt rules as RepositoryScanner; a successful file appends its records and bumps file_count, a failing one bumps error_count |
| SingleFileScanning.MultiLanguageScanner.WalkSnoc | semantic_tree_builder.py:124-145 | what the walk up to one more file adds to the counters and the list |
| SingleFileScanning.MultiLanguageScanner.WalkFiles | semantic_tree_builder.py:124-145 | the counters grow by the successful and failing attempts, and the list and map get the successful files' records in walk order |
| SingleFileScanning.MultiLanguageScanner.WalkStep | semantic_tree_builder.py:127-145 | one file of the walk keeps the walk's invariant |
| SingleFileScanning.MultiLanguageScanner.BuildCallGraph | semantic_tree_builder.py:650-656 | every node of node_map gains, at the end of its called_by, exactly the paths of the nodes whose calls name it; nothing else changes |
| SingleFileScanning.MultiLanguageScanner.ScanRepository | semantic_tree_builder.py:120-157 | the counters and the list as the walk leaves them, then the call graph: every node of the map ends its called_by with exactly its incoming edges |
| SingleFileScanning.MultiLanguageScanner.GetStats | semantic_tree_builder.py:658-681 | totals and counters of classes, functions and methods only; enums and interfaces are never counted |
| SingleFileScanning.MultiLanguageScanner.SearchFunction | semantic_tree_builder.py:711-717 | the nodes named so whose kind is function or method, in list order |
| SingleFileScanning.MultiLanguageScanner.SearchClass | semantic_tree_builder.py:719-725 | the nodes named so whose kind is class, in list order |
| CallGraph.EdgesFrom | src/utils/call_graph_builder.py:24-27 | what one caller appends to a target's called_by: its full path once per call entry that node_map resolves to the target (see EdgesFromMember) |
| CallGraph.Incoming | src/utils/call_graph_builder.py:23-27 | what the whole pass appends to a target's called_by, callers in node order (see IncomingSound, IncomingComplete) |
| CallGraph.Callers | src/utils/call_graph_builder.py:23-27 | one caller per node, in order, holding the node's calls and full path |
| CallGraph.EdgesFromMember | src/utils/call_graph_builder.py:24-27 | one caller adds an edge into a target iff one of its call entries is a node_map key mapped to that target, and every such edge is the caller's own full path |
| CallGraph.IncomingSound | src/utils/call_graph_builder.py:23-27 | every edge into a target is the path of a caller one of whose entries resolves to it |
| CallGraph.IncomingComplete | src/utils/call_graph_builder.py:23-27 | a caller with an entry resolving to a target leaves its path among the edges into it |
| CallGraph.IncomingMember | src/utils/call_graph_builder.py:23-27 | both directions together: a path is an edge into a target iff some caller with that path has an entry resolving to it |
| CallGraph.IncomingAppend | src/utils/call_graph_builder.py:23-27 | linking a concatenated list is linking each part in turn, so re-appended nodes append their edges again |
| CallGraph.DanglingIgnored | src/utils/call_graph_builder.py:25 | call entries that are not node_map keys are skipped: such a caller adds no edge anywhere |
| CallGraph.BuildCallGraph | src/utils/call_graph_builder.py:10-29 | returns the same list; every node of the map gets exactly its incoming edges, in caller then call order, appended to called_by; nothing else changes |
| CallGraph.LinkCaller | src/utils/call_graph_builder.py:24-27 | the inner loop appends the caller's path to each target once per call entry resolving to it |
| CallGraph.LinkedPrefix | src/utils/call_graph_builder.py:23-27 | after the first i callers each target holds its old list followed by the edges from them |
| CallGraph.FollowedPrefix | src/utils/call_graph_builder.py:24-27 | after the first k call entries each target holds its old list followed by the edges from them |
| NodeSearch.Found | src/utils/node_search.py:21-25 | the nodes with the name and a kind of the family, in list order (see FoundMember, FoundAppend) |
| NodeSearch.FoundMember | src/utils/node_search.py:21-25 | a node is found iff it is listed with that name and a kind of the family |
| NodeSearch.FoundAppend | src/utils/node_search.py:22-24 | searching a concatenation is searching each part in turn, so results keep list order |
| NodeSearch.FoundBounded | src/utils/node_search.py:21-25 | never more results than nodes, and every result is a hit |
| NodeSearch.CallablesAreNotTypes | src/utils/node_search.py:23-41 | a function search and a type search never share a result |
| NodeSearch.Search | src/utils/node_search.py:21-25 | the loop returns exactly the hits, in list order |
| NodeSearch.SearchFunction | src/utils/node_search.py:10-25 | the nodes with that name whose kind is function or method |
| NodeSearch.SearchType | src/utils/node_search.py:28-43 | the nodes with that name whose kind is class, enum or interface |
| DiffSyntax.FindLast | src/diff_parser/diff_parser.py:61 | the start of the last occurrence of a pattern, or -1 when there is none, which is where the greedy first group of the header pattern ends |
| DiffSyntax.GitPathsRender | src/diff_parser/diff_parser.py:61-64 | `x b/y`, with no newline in either path and no " b/" in y, reads back as the groups (x, y) |
| DiffSyntax.GitHeader | src/diff_parser/diff_parser.py:61-64 | `re.match(r'diff --git a/(.*) b/(.*)', line)`: the line must start with `diff --git a/`, and the greedy first group splits at the last ` b/` before the first newline (see GitHeaderRender, GitHeaderGreedy, UnprefixedGitLine) |
| DiffSyntax.GitHeaderRender | src/diff_parser/diff_parser.py:61-64 | the header git writes for a change from x to y is matched with groups x and y, under the same conditions |
| DiffSyntax.GitHeaderGreedy | src/diff_parser/diff_parser.py:61 | the first group is greedy: with " b/" in both paths the split falls at the last separator |
| DiffSyntax.Number | src/diff_parser/diff_parser.py:89 | a maximal `\d+` consumes at least one character |
| DiffSyntax.LooseRange | pr_context_retrieval.py:129 | the optional count group of the loose pattern holds only digits, possibly none |
| DiffSyntax.ReadsBack | src/diff_parser/diff_parser.py:89-94 | a number written before a non-digit is read back whole, leaving exactly what follows |
| DiffSyntax.StrictRangeIsLoose | pr_context_retrieval.py:129-134 | every range the strict pattern reads, the loose one reads with the same start, count and remainder |
| DiffSyntax.LooseHunkHeader | pr_context_retrieval.py:129-134 | the loose hunk pattern, whose commas and counts are optional apart, with an empty count read as 1: it accepts every header the strict one does with the same numbers, and `@@ -a, +c @@` besides (see StrictHeaderIsLoose, EmptyCountDiffers) |
| DiffSyntax.StrictHeaderIsLoose | pr_context_retrieval.py:129-134 | every hunk header diff_parser.py accepts, pr_context_retrieval.py accepts with the same four numbers |
| DiffSyntax.EmptyCountRange | pr_context_retrieval.py:129-132 | `n,` with no count before the separator: the strict pattern refuses it, the loose one reads count group "" |
| DiffSyntax.EmptyCountDiffers | pr_context_retrieval.py:129-134 | `@@ -a, +c @@` is refused by diff_parser.py and read by pr_context_retrieval.py as one line on each side |
| DiffSyntax.RangeRender | src/diff_parser/diff_parser.py:89-94 | a written range `n[,m]` reads back as its numbers, leaving exactly what follows the separator |
| DiffSyntax.HunkHeader | src/diff_parser/diff_parser.py:89-94 | the strict hunk pattern with an omitted count read as 1: the four numbers of a header `@@ -a[,b] +c[,d] @@` (see HunkHeaderRender, StrictHeaderIsLoose) |
| DiffSyntax.HunkHeaderRender | src/diff_parser/diff_parser.py:89-94 | a written `@@ -a[,b] +c[,d] @@` header reads back in both forms as those numbers, an omitted count meaning 1 |
| DiffParserProperties.RunIsSteps | src/diff_parser/diff_parser.py:52-128 | the state after the first n lines is the fold of Step over them |
| DiffParserProperties.StepsAppend | src/diff_parser/diff_parser.py:52-128 | folding over two runs of lines is folding over the first, then the second |
| DiffParserProperties.CountAppend | src/diff_parser/diff_parser.py:114-121 | the new-side and old-side line counts of a concatenation add up |
| DiffParserProperties.CountBounds | src/diff_parser/diff_parser.py:114-121 | neither count exceeds the number of lines |
| DiffParserProperties.ContentLine | src/diff_parser/diff_parser.py:108-126 | a '+', '-' or ' ' line inside a hunk joins the hunk and records an added line at the next new-side number or a removed line at the next old-side number |
| DiffParserProperties.ContentBlock | src/diff_parser/diff_parser.py:108-126 | a block of content lines inside a hunk numbers its added lines consecutively from new_start on the new side, and its removed lines from old_start on the old side |
| DiffParserProperties.GrowTwice | src/diff_parser/diff_parser.py:108-126 | growing a hunk by two blocks is growing it by their concatenation, and the next numbers advance by each block's counts |
| DiffParserProperties.NewSideIncreases | src/diff_parser/diff_parser.py:113-115 | the added-line numbers of a block are strictly increasing and lie in [start, start + new-side count) |
| DiffParserProperties.OldSideIncreases | src/diff_parser/diff_parser.py:120-122 | the removed-line numbers of a block are strictly increasing and lie in [start, start + old-side count) |
| DiffParserProperties.MarkerLinesIgnored | src/diff_parser/diff_parser.py:109-126 | `+++`, `---` and `\` lines change nothing |
| DiffParserProperties.GitLineOpens | src/diff_parser/diff_parser.py:56-74 | a `diff --git a/x b/y` line lists the current file (if any) and opens a new modified file from x to y, which becomes current; the current hunk stays current |
| DiffParserProperties.BadGitLineRepeats | src/diff_parser/diff_parser.py:56-74 | a `diff --git` line the pattern does not match lists the current file but leaves it current, so the end of the loop lists the same file a second time |
| DiffParserProperties.UnprefixedGitLine | src/diff_parser/diff_parser.py:56-62 | `diff --git` followed by anything but ` a/` does not match the pattern |
| DiffParserProperties.StatusLine | src/diff_parser/diff_parser.py:77-85 | a `new file`, `deleted file` or `rename from` line sets the current file's status to added, deleted or renamed and changes nothing else |
| DiffParserProperties.HunkOpens | src/diff_parser/diff_parser.py:90-105 | a matching `@@` line opens a hunk with its numbers, attached to the current file if any and current from then on |
| DiffParserProperties.HunkLineOpens | src/diff_parser/diff_parser.py:88-105 | a written `@@ -a[,b] +c[,d] @@` line opens a hunk of those numbers, an omitted count meaning 1 |
| DiffParserProperties.BadHunkLineKeeps | src/diff_parser/diff_parser.py:88-90 | an `@@` line the pattern does not match changes nothing, so the previous hunk stays current |
| DiffParserProperties.CarriedHunk | src/diff_parser/diff_parser.py:56-115 | the hunk is not reset by `diff --git`: an added line right after a new header joins the previous file's last hunk and is recorded on the new file, numbered after that hunk's lines |
| DiffParserProperties.StepKeepsList | src/diff_parser/diff_parser.py:76-126 | only a `diff --git` line touches the result list, the current file or the number of files |
| DiffParserProperties.StepOrdered | src/diff_parser/diff_parser.py:52-128 | each line keeps the invariant: the current file is the newest, the list is in creation order, and every older file is listed |
| DiffParserProperties.RunOrdered | src/diff_parser/diff_parser.py:52-128 | the invariant holds after every prefix of the lines |
| DiffParserProperties.ParseListsEveryFile | src/diff_parser/diff_parser.py:52-132 | parse_diff lists every file it opened, in header order (a file listed twice sits in adjacent places) |
| DiffParsing.HunkChange.constructor | src/diff_parser/diff_parser.py:96-102 | a hunk holds its four numbers and no lines |
| DiffParsing.FileChange.constructor | src/diff_parser/diff_parser.py:66-74 | a file change holds its two paths, status modified, and no hunks, lines or ranges |
| DiffParsing.OnGitLine | src/diff_parser/diff_parser.py:56-74 | a `diff --git` line: the current file joins the list, and a matching header opens a new current file; the store stays well formed (see GitLineOpens, BadGitLineRepeats) |
| DiffParsing.OnGit | src/diff_parser/diff_parser.py:57-74 | the same for a given match: the current file (if any) joins the list; a match (x, y) makes a fresh modified file with path y and old path x current; no match keeps the current file, and the hunk is never reset (see GitLineOpens, CarriedHunk) |
| DiffParsing.GitLineStep | src/diff_parser/diff_parser.py:56-74 | the objects follow OnGit: the current file joins the list, and a match creates a fresh current file |
| DiffParsing.OnStatus | src/diff_parser/diff_parser.py:77-85 | a status line sets only the current file's status, and nothing without a current file (see StatusLine) |
| DiffParsing.StatusStep | src/diff_parser/diff_parser.py:77-85 | the objects follow OnStatus: only the current file's status changes |
| DiffParsing.OnHunkLine | src/diff_parser/diff_parser.py:88-105 | an `@@` line read with the strict hunk pattern (see HunkLineOpens, BadHunkLineKeeps) |
| DiffParsing.OnHunk | src/diff_parser/diff_parser.py:90-105 | a match opens a fresh hunk with the header's numbers, current from then on and appended to the current file's hunks; no match changes nothing (see HunkOpens, BadHunkLineKeeps) |
| DiffParsing.HunkLineStep | src/diff_parser/diff_parser.py:88-105 | the objects follow OnHunk: a match creates a fresh current hunk appended to the current file's hunks |
| DiffParsing.OnContent | src/diff_parser/diff_parser.py:108-126 | a line inside a hunk: `+` but not `+++`, `-` but not `---`, and ` ` lines join the hunk, anything else changes nothing (see ContentLine, MarkerLinesIgnored) |
| DiffParsing.OnAdded | src/diff_parser/diff_parser.py:109-115 | an added line joins the hunk and, with a current file, is recorded at new_start plus the count of `+` and ` ` lines so far minus one, without its prefix (see ContentLine, ContentBlock, NewSideIncreases) |
| DiffParsing.AddedStep | src/diff_parser/diff_parser.py:109-115 | the objects follow OnAdded: the line joins the current hunk and its number and text join the current file's added lines |
| DiffParsing.OnRemoved | src/diff_parser/diff_parser.py:117-122 | a removed line joins the hunk and, with a current file, is recorded at old_start plus the count of `-` and ` ` lines so far minus one, without its prefix (see ContentLine, ContentBlock, OldSideIncreases) |
| DiffParsing.RemovedStep | src/diff_parser/diff_parser.py:117-122 | the objects follow OnRemoved: the line joins the current hunk and its number and text join the current file's removed lines |
| DiffParsing.OnContext | src/diff_parser/diff_parser.py:124-126 | a context line joins the hunk only (see ContentLine) |
| DiffParsing.ContextStep | src/diff_parser/diff_parser.py:124-126 | the objects follow OnContext: the line joins the current hunk only |
| DiffParsing.Step | src/diff_parser/diff_parser.py:53-128 | one pass of the loop: a `diff --git`, `new file`, `deleted file`, `rename from` or `@@` line is handled in that order of tests, any other line only inside a hunk; the store stays well formed |
| DiffParsing.Run | src/diff_parser/diff_parser.py:52-128 | the state after the first n lines, well formed (see RunIsSteps) |
| DiffParsing.Finish | src/diff_parser/diff_parser.py:130-132 | the current file, if any, joins the list at the end (see ParseListsEveryFile) |
| DiffParsing.Parse | src/diff_parser/diff_parser.py:45-132 | the lines split on newline and run through, then the last file appended; the store stays well formed (see ParseListsEveryFile) |
| DiffParsing.Feed | src/diff_parser/diff_parser.py:53-128 | one pass of the loop moves the objects exactly as Step moves the state |
| DiffParsing.ParseLines | src/diff_parser/diff_parser.py:45-132 | after the loop and the last file, the objects are those of the specified state, the list pointing at its entries |
| DiffParsing.RangesOf | src/diff_parser/diff_parser.py:141-158 | `_calculate_modified_ranges`: one (new_start, new_start + new_count - 1) per hunk of the file, in hunk order (see CalculateModifiedRanges) |
| DiffParsing.CalculateModifiedRanges | src/diff_parser/diff_parser.py:141-158 | one range per hunk, in hunk order: (new_start, new_start + new_count - 1) |
| DiffParsing.FillRanges | src/diff_parser/diff_parser.py:135-136 | one more listed file gets its modified ranges; the others keep theirs |
| DiffParsing.FillAllRanges | src/diff_parser/diff_parser.py:135-136 | every listed file gets the modified ranges of its hunks |
| DiffParsing.ParseDiff | src/diff_parser/diff_parser.py:35-138 | the result lists one object per index of Parse's list, the same object exactly where the index repeats, each holding its file's paths, status, hunks, added and removed lines, and modified ranges |
| DiffParsing.Conclude | src/diff_parser/diff_parser.py:131-138 | the listed objects hold the specified values, and two entries are the same object exactly when their indices agree |
| ChangedFunctions.RangesOverlap | src/diff_parser/diff_parser.py:202-205 | `_ranges_overlap`: the two inclusive ranges overlap, each starting no later than the other ends (see OverlapMeansCommonLine, OverlapOfEmptyRange, OverlapSymmetric) |
| ChangedFunctions.OverlapMeansCommonLine | src/diff_parser/diff_parser.py:202-205 | two non-empty inclusive ranges overlap iff some line lies in both |
| ChangedFunctions.OverlapOfEmptyRange | src/diff_parser/diff_parser.py:202-205 | an empty range `(5, 4)` still overlaps `(1, 10)` though no line lies in both |
| ChangedFunctions.OverlapSymmetric | src/diff_parser/diff_parser.py:202-205 | overlap does not depend on the order of the two ranges |
| ChangedFunctions.CollectChangedLines | src/diff_parser/diff_parser.py:173-177 | the set of line numbers of the added and removed lines |
| ChangedFunctions.AddPath | src/diff_parser/diff_parser.py:187-198 | appending a node adds exactly its full path to the keys seen |
| ChangedFunctions.Changed | src/diff_parser/diff_parser.py:180-200 | every result is one of the given nodes |
| ChangedFunctions.Visit | src/diff_parser/diff_parser.py:182-198 | a node of the file holding a changed line whose path is not yet a key is added; any other node changes nothing |
| ChangedFunctions.GetChangedFunctions | src/diff_parser/diff_parser.py:161-200 | the file's nodes holding an added or removed line, first node per full path, in list order |
| ChangedFunctions.ChangedSound | src/diff_parser/diff_parser.py:182-198 | every result is a node of the file whose inclusive range holds a changed line |
| ChangedFunctions.ChangedDistinct | src/diff_parser/diff_parser.py:179-200 | no two results share a full path |
| ChangedFunctions.ChangedPaths | src/diff_parser/diff_parser.py:179-200 | a full path is among the results iff some node of the file with that path holds a changed line |
| ChangedFunctions.ChangedAt | src/diff_parser/diff_parser.py:180-200 | for each reported node, its position in the node list |
| ChangedFunctions.FirstInOrder | src/diff_parser/diff_parser.py:179-200 | the result is taken from the nodes at strictly increasing positions, and no hitting node before a reported one has its full path |
| ChangedFunctions.ChangedInOrder | src/diff_parser/diff_parser.py:161-200 | the changed functions are, in node order, the first hitting node per full path, as `list(dict.values())` of an insertion-ordered dict gives |
| PrDiffParsing.Attach | pr_context_retrieval.py:80-81 | the open hunk, if any, appended to a file's hunks (see SaveFile) |
| PrDiffParsing.Flush | pr_context_retrieval.py:80-83 | the saved files after saving the current one with its open hunk attached; nothing is saved without a current file (see SaveFile, GitLineFlushes) |
| PrDiffParsing.OnGitLine | pr_context_retrieval.py:78-94 | a `diff --git` line saves the current file, opens a blank one and closes the hunk (see GitLineFlushes, StepCountsFiles) |
| PrDiffParsing.HeaderPath | pr_context_retrieval.py:99-105 | `line[4:].strip()` less one leading `a/` or `b/`, and None for `/dev/null` |
| PrDiffParsing.OnOldPath | pr_context_retrieval.py:97-105 | a `--- ` line sets the current file's old path, marking it new for `/dev/null`, and does nothing without a current file (see OldPathLine, PrefixedPath) |
| PrDiffParsing.SetOldPath | pr_context_retrieval.py:97-105 | the `--- ` branch changes only the old path and the new-file flag, never the hunks |
| PrDiffParsing.OnNewPath | pr_context_retrieval.py:108-120 | a `+++ ` line sets the current file's new path, marking it deleted for `/dev/null` and taking the language of a non-empty path (see NewPathLine, PrefixedPath) |
| PrDiffParsing.SetNewPath | pr_context_retrieval.py:108-120 | the `+++ ` branch changes only the new path, the deleted-file flag and the language, never the hunks |
| PrDiffParsing.OnHunkLine | pr_context_retrieval.py:123-142 | an `@@` line read with the loose hunk pattern (see HunkLineOpens, BadHunkLineRepeats) |
| PrDiffParsing.OnHunk | pr_context_retrieval.py:124-142 | the open hunk joins the current file; a match opens a fresh empty hunk with the header's numbers, no match leaves the old hunk open (see HunkLineOpens, BadHunkLineRepeats) |
| PrDiffParsing.OnContent | pr_context_retrieval.py:145-147 | inside a hunk a line starting with `+`, `-` or ` ` joins it, any other changes nothing (see ContentLine, StrayLine) |
| PrDiffParsing.Resolve | pr_context_retrieval.py:152-157 | a saved file's hunks are the final contents of the hunks it refers to, in order |
| PrDiffParsing.Finish | pr_context_retrieval.py:151-157 | one result per saved file, the last one included |
| PrDiffParsing.Step | pr_context_retrieval.py:75-147 | one pass of the loop: a `diff --git`, `--- `, `+++ ` or `@@` line is handled in that order of tests, any other line only inside a hunk; the store stays well formed |
| PrDiffParsing.Run | pr_context_retrieval.py:74-149 | the state after the first n lines, well formed (see RunSound) |
| PrDiffParsing.Parse | pr_context_retrieval.py:65-157 | the lines split on newline and run through, then every saved file and the last one resolved (see ParseCountsFiles) |
| PrDiffParsing.ParseDiff | pr_context_retrieval.py:65-157 | `DiffParser.parse` returns exactly the files of the line-by-line specification |
| PrDiffParsing.FeedAll | pr_context_retrieval.py:74-149 | the loop leaves the state of the specification after every line |
| PrDiffParsing.Feed | pr_context_retrieval.py:75-147 | one pass of the loop moves the state exactly as Step does |
| PrDiffParsing.SaveFile | pr_context_retrieval.py:80-83 | the current file, with its open hunk attached, is saved after the others |
| PrDiffParsing.OldPathStep | pr_context_retrieval.py:97-105 | the `--- ` branch on the current file |
| PrDiffParsing.NewPathStep | pr_context_retrieval.py:108-120 | the `+++ ` branch on the current file |
| PrDiffParsing.HunkLineStep | pr_context_retrieval.py:123-142 | the `@@` branch as OnHunkLine specifies |
| PrDiffParsing.HunkStep | pr_context_retrieval.py:124-142 | the `@@` branch once the header is matched or not |
| PrDiffProperties.GitLineFlushes | pr_context_retrieval.py:78-94 | a `diff --git` line saves the current file with its open hunk attached, then opens a blank file with no current hunk |
| PrDiffProperties.OldPathLine | pr_context_retrieval.py:97-105 | a `--- ` line sets the current file's old path and marks it new for `/dev/null`; it is never stored in a hunk |
| PrDiffProperties.NewPathLine | pr_context_retrieval.py:108-120 | a `+++ ` line sets the new path, marks the file deleted for `/dev/null`, and takes the language from a non-empty path; it is never stored in a hunk |
| PrDiffProperties.PrefixedPath | pr_context_retrieval.py:99-105 | `--- a/p` or `+++ b/p` with trailing whitespace reads as p, and `/dev/null` as no path; one prefix is dropped |
| PrDiffProperties.UnprefixedPath | pr_context_retrieval.py:99-105 | a path written without the prefix reads as itself |
| PrDiffProperties.HunkLineOpens | pr_context_retrieval.py:123-142 | a matching `@@` line attaches the open hunk to the current file and opens an empty hunk with the header's numbers |
| PrDiffProperties.BadHunkLineRepeats | pr_context_retrieval.py:123-153 | an `@@` line that does not match attaches the open hunk but keeps it current, so the next save attaches it again: the file lists the same hunk twice |
| PrDiffProperties.HunkLineDispatch | pr_context_retrieval.py:78-123 | an `@@` line is none of the earlier branches |
| PrDiffProperties.ContentLine | pr_context_retrieval.py:145-147 | inside a hunk, any other line starting with '+', '-' or ' ' joins the hunk, and nothing else changes |
| PrDiffProperties.StrayLine | pr_context_retrieval.py:145 | outside a hunk such a line changes nothing |
| PrDiffProperties.StepSound | pr_context_retrieval.py:74-149 | every step keeps the invariant: no file marked renamed, every stored hunk line starts with '+', '-' or ' ' |
| PrDiffProperties.StepCountsFiles | pr_context_retrieval.py:78-94 | only a `diff --git` line adds a file to those saved so far |
| PrDiffProperties.RunSound | pr_context_retrieval.py:74-149 | the invariant holds after every prefix of the lines |
| PrDiffProperties.ParseNeverRenamed | pr_context_retrieval.py:49 | `is_renamed` is never set: no parsed file is marked renamed |
| PrDiffProperties.ParseKeepsHunkLines | pr_context_retrieval.py:145-147 | every line of every parsed hunk starts with '+', '-' or ' ' |
| PrDiffProperties.RunCountsFiles | pr_context_retrieval.py:78-94 | one file per `diff --git` line so far, the current one included |
| PrDiffProperties.ParseCountsFiles | pr_context_retrieval.py:65-157 | a parse has exactly one FileDiff per `diff --git` line |
| PrContext.NewChangedFunction | pr_context_retrieval.py:164-169 | the fields are stored as given, and full_path is `filepath::qualified_name`, qualified by a non-empty parent class |
| PrContext.SameKeyAsExtractor | pr_context_retrieval.py:164-169 | the ChangedFunction of a callable record an extractor made has that record's full path and qualified name, so build_context finds it |
| PrContext.FileNodes | pr_context_retrieval.py:197-198 | every kept node is one of the scanner's nodes |
| PrContext.FileNodesMember | pr_context_retrieval.py:197-198 | a node is kept iff it is a listed function or method of that file |
| PrContext.Meets | pr_context_retrieval.py:203-210 | `affected_lines & function_lines` is not empty: some line is in both the hunk's new-side range and the node's inclusive range (see MeetsIff) |
| PrContext.MeetsIff | pr_context_retrieval.py:203-210 | the hunk's new-side lines and the node's lines share a line iff both are non-empty and each starts before the other ends |
| PrContext.Found | pr_context_retrieval.py:186-221 | the three loops over files, hunks and the file's nodes, deleted files skipped, the first meeting per full path kept (see FoundInOrder) |
| PrContext.FindChangedFunctions | pr_context_retrieval.py:186-221 | the three nested loops produce exactly the specified list |
| PrContext.Offer | pr_context_retrieval.py:217-219 | a ChangedFunction is appended unless one with its full path is already listed (see OfferListed, OfferDistinct) |
| PrContext.OfferDistinct | pr_context_retrieval.py:217-219 | offering a ChangedFunction keeps full paths distinct |
| PrContext.OfferListed | pr_context_retrieval.py:217-219 | offering adds exactly the offered path |
| PrContext.FoundDistinct | pr_context_retrieval.py:186-221 | each full path is reported once |
| PrContext.FoundPaths | pr_context_retrieval.py:186-221 | a full path is reported iff some hunk of a file that is not deleted meets a function or method of that file with that key |
| PrContext.HunkHits | pr_context_retrieval.py:206-215 | the ChangedFunctions of the nodes one hunk meets, in node order |
| PrContext.FileHits | pr_context_retrieval.py:201-215 | those of every hunk of a file, in hunk order |
| PrContext.Discoveries | pr_context_retrieval.py:190-215 | those of every file not deleted, in file order: all meetings in the order the loops reach them |
| PrContext.OfferAll | pr_context_retrieval.py:217-219 | offering each meeting in turn, a full path not yet listed being appended |
| PrContext.OfferAllAppend | pr_context_retrieval.py:217-219 | offering two runs in turn is offering their concatenation |
| PrContext.OverNodes | pr_context_retrieval.py:206-219 | the node loop for one hunk: each node the hunk meets is offered, in node order (see OverNodesOffers) |
| PrContext.OverNodesOffers | pr_context_retrieval.py:206-219 | the node loop offers exactly the hunk's meetings |
| PrContext.OverHunks | pr_context_retrieval.py:201-219 | the hunk loop for one file: each hunk's node loop in turn (see OverHunksOffers) |
| PrContext.OverHunksOffers | pr_context_retrieval.py:201-219 | the hunk loop offers exactly the file's meetings |
| PrContext.OverFiles | pr_context_retrieval.py:190-219 | the file loop: each file not deleted runs its hunk loop over its own function and method nodes (see OverFilesOffers, FoundInOrder) |
| PrContext.OverFilesOffers | pr_context_retrieval.py:190-219 | the file loop offers exactly all meetings in discovery order |
| PrContext.OfferAllListed | pr_context_retrieval.py:217-219 | a full path is listed after offering exactly when it was listed before or some offered entry has it |
| PrContext.OfferedAt | pr_context_retrieval.py:217-219 | for each kept entry, its position among the meetings |
| PrContext.FirstInOrder | pr_context_retrieval.py:186-221 | the result is taken from the meetings at strictly increasing positions, and no meeting before a kept one has its full path |
| PrContext.OfferAllInOrder | pr_context_retrieval.py:217-219 | offering keeps the first meeting per full path, in order |
| PrContext.FoundInOrder | pr_context_retrieval.py:186-221 | find_changed_functions reports, of all (file, hunk, node) meetings in the order the loops reach them, the first per full path, in that order |
| PrContext.Lift | pr_context_retrieval.py:292 | calls as possibly-unset paths, one for one |
| PrContext.FilesSnoc | pr_context_retrieval.py:303-317 | one more entry adds its file to the related files |
| PrContext.Lookups | pr_context_retrieval.py:292-317 | the entries for the keys found in node_map, in list order (see LookupsSound, LookupsComplete) |
| PrContext.ContextOf | pr_context_retrieval.py:262-319 | the context of a node: its fields, its callees and callers found in node_map, and the files of both (see RelatedFiles) |
| PrContext.BuildContext | pr_context_retrieval.py:262-319 | None iff the full path is not in node_map; otherwise the node's fields with its callees and callers found in node_map |
| PrContext.AddCallees | pr_context_retrieval.py:292-303 | the entries of the callees found in node_map, in order, and their files |
| PrContext.AddCallers | pr_context_retrieval.py:306-317 | the entries of the callers found in node_map, in order, and their files |
| PrContext.LookupsSound | pr_context_retrieval.py:292-317 | every entry comes from a path found in node_map, and never more entries than paths |
| PrContext.LookupsComplete | pr_context_retrieval.py:292-317 | every path found in node_map gives an entry |
| PrContext.LookupsAll | pr_context_retrieval.py:292-317 | when every path is in node_map, nothing is dropped |
| PrContext.FileReached | pr_context_retrieval.py:303-317 | some key of the list is in node_map with a node of the given file |
| PrContext.FilesOfLookups | pr_context_retrieval.py:303-317 | a file is among the looked-up entries' files exactly when some key of the list reaches a node of that file |
| PrContext.RelatedFiles | pr_context_retrieval.py:292-317 | a file is related exactly when some call target, or some set called_by entry, is a node_map key whose node lies in that file |
| PrContext.ImpactOf | pr_context_retrieval.py:477-503 | the totals of callers and callees, the functions with more than five callers, and the risk: high when there is one, medium when more than three callers in all, else low (see HighImpactsSpec, RiskLevels) |
| PrContext.AnalyzeImpact | pr_context_retrieval.py:477-503 | the loop produces the specified totals, high-impact list and risk level |
| PrContext.HighImpactsSpec | pr_context_retrieval.py:491-496 | there is a high-impact entry iff some context has more than five callers, and every entry has more than five |
| PrContext.TotalCallersBound | pr_context_retrieval.py:480-489 | with at most five callers each, the total is at most five per context |
| PrContext.RiskLevels | pr_context_retrieval.py:502 | HIGH iff some function has more than five callers; LOW iff none has and the total is at most three |
| ContextBuilding.Slice | src/context_retrieval/context_builder.py:219 | Python slicing `lines[i:j]`: never longer than the list, and the plain slice when the bounds are in range |
| ContextBuilding.StartLineZero | src/context_retrieval/context_builder.py:219 | a node with `start_line` 0 slices from -1, which gives the file's last line or nothing |
| ContextBuilding.JoinEmptyIsConcat | src/context_retrieval/context_builder.py:220 | `''.join(lines)` is the plain concatenation of the lines |
| ContextBuilding.Code | src/context_retrieval/context_builder.py:212-222 | `_get_node_code`: lines start_line to end_line of the file joined, or the could-not-read text for an unreadable file (see CodeOfLines) |
| ContextBuilding.CodeOfLines | src/context_retrieval/context_builder.py:212-222 | for a readable file and in-range lines, a node's code is exactly its lines `start_line..end_line`, newlines kept |
| ContextBuilding.Tokens | src/context_retrieval/context_builder.py:324-329 | the token estimate `len(text) // 4`, as the bound `4r <= len < 4r + 4` |
| ContextBuilding.Lookup | src/context_retrieval/context_builder.py:224-242 | the looked-up entries are no more than the keys and every one is a node of node_map |
| ContextBuilding.LookupAppend | src/context_retrieval/context_builder.py:224-242 | the lookup of two key lists one after the other is the two lookups one after the other |
| ContextBuilding.LookupSingle | src/context_retrieval/context_builder.py:228-231 | one key gives its node and code when it is in node_map, else nothing |
| ContextBuilding.Callers | src/context_retrieval/context_builder.py:224-232 | `_get_immediate_callers`: the node_map entries, with code, of the first ten `called_by` paths (see ImmediateBound, GetImmediateCallers) |
| ContextBuilding.Callees | src/context_retrieval/context_builder.py:234-242 | `_get_immediate_callees`: the node_map entries, with code, of the first ten `calls` paths (see ImmediateBound, GetImmediateCallees) |
| ContextBuilding.ImmediateBound | src/context_retrieval/context_builder.py:224-242 | at most ten callers and ten callees, looked up from the first ten `called_by` and `calls` entries, all of them when there are ten or fewer |
| ContextBuilding.LookupAll | src/context_retrieval/context_builder.py:226-232 | the lookup loop yields exactly the entries of the keys found in node_map, in key order |
| ContextBuilding.GetImmediateCallers | src/context_retrieval/context_builder.py:224-232 | the callers are the lookup of the first ten `called_by` keys |
| ContextBuilding.GetImmediateCallees | src/context_retrieval/context_builder.py:234-242 | the callees are the lookup of the first ten `calls` keys |
| ContextBuilding.ParentClass | src/context_retrieval/context_builder.py:244-253 | `_get_parent_class`: the class node `filepath::parent_class` with its code, when parent_class is set and that key is in node_map (see ParentClassSpec) |
| ContextBuilding.ParentClassSpec | src/context_retrieval/context_builder.py:244-253 | a parent class is returned iff `parent_class` is non-empty and `filepath::parent_class` is in node_map, and it is that node |
| ContextBuilding.Without | src/context_retrieval/context_builder.py:263 | `replace('_', '')` leaves no underscore |
| ContextBuilding.Patterns | src/context_retrieval/context_builder.py:260-264 | the three name patterns: `test_` + name, `test` + the capitalized name, and the name without underscores, lower-cased (see CapitalizedPatternNeverMatches, UnderscoreNameMatchesAll) |
| ContextBuilding.IsTestFor | src/context_retrieval/context_builder.py:267-272 | a function or method in a file whose lower-cased path contains `test` and whose lower-cased name contains some pattern (see MatchesSingle, MatchesPass, MatchesComplete) |
| ContextBuilding.Matches | src/context_retrieval/context_builder.py:266-275 | the matching loop yields at most one entry per node, each a node of the list |
| ContextBuilding.VisitTest | src/context_retrieval/context_builder.py:267-275 | one node is appended with its code exactly when it is a function or method of a test file whose lowercase name contains a pattern |
| ContextBuilding.RelatedTests | src/context_retrieval/context_builder.py:255-277 | the first five test functions or methods that match a pattern, in node order (see RelatedTestsSound) |
| ContextBuilding.GetRelatedTests | src/context_retrieval/context_builder.py:255-277 | the tests are the first five matches over all nodes |
| ContextBuilding.MatchesAppend | src/context_retrieval/context_builder.py:266-275 | matching two node lists one after the other is the two matchings one after the other |
| ContextBuilding.MatchesSingle | src/context_retrieval/context_builder.py:267-275 | one node matches with its code when it passes the test, else not at all |
| ContextBuilding.RelatedTestsSound | src/context_retrieval/context_builder.py:255-277 | at most five tests, each a scanned node that passes the test |
| ContextBuilding.MatchesPass | src/context_retrieval/context_builder.py:266-275 | every match passes the test and carries its node's code |
| ContextBuilding.MatchesComplete | src/context_retrieval/context_builder.py:266-275 | every node that passes the test is among the matches |
| ContextBuilding.CapitalizedPatternNeverMatches | src/context_retrieval/context_builder.py:262-272 | the pattern `test` + capitalized name is searched for in a lower-cased name, so for a name that starts with a letter it never matches |
| ContextBuilding.UnderscoreNameMatchesAll | src/context_retrieval/context_builder.py:263-272 | a name made only of underscores gives the empty pattern, which every function or method of a test file matches |
| ContextBuilding.NoneLeft | src/context_retrieval/context_builder.py:263 | removing underscores from a run of underscores leaves nothing |
| ContextBuilding.Imports | src/context_retrieval/context_builder.py:287-290 | the kept lines are stripped lines that start with `import ` or `from ` |
| ContextBuilding.FileImports | src/context_retrieval/context_builder.py:279-294 | `_get_file_imports`: the stripped import lines among the first fifty lines of the file, none when it cannot be read (see FileImportsSpec, GetFileImports) |
| ContextBuilding.FileImportsSpec | src/context_retrieval/context_builder.py:279-294 | at most fifty imports, none when the file cannot be read, each a stripped import line |
| ContextBuilding.ImportLineKept | src/context_retrieval/context_builder.py:287-290 | an indented import line is kept without its indent and newline |
| ContextBuilding.LeadingSpace | src/context_retrieval/context_builder.py:288 | stripping drops a run of leading whitespace and nothing after it |
| ContextBuilding.ImportsSnoc | src/context_retrieval/context_builder.py:287-290 | one more line adds its stripped form exactly when that is an import line |
| ContextBuilding.GetFileImports | src/context_retrieval/context_builder.py:279-294 | the loop over the first fifty lines yields the file's imports |
| ContextBuilding.MetadataLines | src/context_retrieval/context_builder.py:296-322 | the six fixed lines, then the parameters, return type and parent class lines when present (see MetadataShape) |
| ContextBuilding.MetadataShape | src/context_retrieval/context_builder.py:296-322 | six lines always, one more each for parameters, a return type and a parent class; the file line first and the parent class last |
| ContextBuilding.Greedy | src/context_retrieval/context_builder.py:158-163 | one section loop: each entry is added while the tokens used are below the section's fraction of the budget (see GreedyPrefix, GreedyGrows) |
| ContextBuilding.GreedyPrefix | src/context_retrieval/context_builder.py:156-163 | a section loop includes a prefix of its entries, each one added while the tokens used before it are below the limit, and it stops short only once the limit is reached |
| ContextBuilding.GreedyGrows | src/context_retrieval/context_builder.py:158-163 | a section loop never takes tokens back |
| ContextBuilding.GreedyOvershoots | src/context_retrieval/context_builder.py:158-163 | an entry whose code alone passes the limit is still included when the loop starts below it, so the budget can be overrun |
| ContextBuilding.Texts | src/context_retrieval/context_builder.py:161 | one text per included entry |
| ContextBuilding.Section | src/context_retrieval/context_builder.py:153-194 | a section: its heading and the texts of the budget-checked entries, or nothing when the check fails at its start or there are no entries (see SectionSpec) |
| ContextBuilding.SectionSpec | src/context_retrieval/context_builder.py:153-194 | a section is present iff the tokens are below its limit at its start and it has entries; it is its heading and the texts of a budget-checked prefix of the entries |
| ContextBuilding.RelatedInNodes | src/context_retrieval/context_builder.py:266-277 | every related test is a scanned node |
| ContextBuilding.Review | src/context_retrieval/context_builder.py:142-210 | the review parts: changed code, callers below 0.4 of the budget, callees below 0.6, tests below 0.8, then the metadata (see ReviewFrame) |
| ContextBuilding.Assemble | src/context_retrieval/context_builder.py:142-202 | the same parts, given the code, entries and metadata that go in them |
| ContextBuilding.ReviewFrame | src/context_retrieval/context_builder.py:142-210 | whatever the budget, the review opens with the changed code and ends with the metadata, and the tokens used are at least the changed code's |
| ContextBuilding.NoBudget | src/context_retrieval/context_builder.py:153-194 | a budget of zero or less leaves out every caller, callee and test |
| ContextBuilding.GreedyStep | src/context_retrieval/context_builder.py:158-163 | one pass of a section loop adds the next entry exactly when the tokens used are below the limit |
| ContextBuilding.TextsSnoc | src/context_retrieval/context_builder.py:158-161 | one more entry adds its text at the end |
| ContextBuilding.AddSection | src/context_retrieval/context_builder.py:153-194 | one section loop yields the section's parts and tokens |
| ContextBuilding.Compose | src/context_retrieval/context_builder.py:142-202 | the parts are the changed code, the three sections at 0.4, 0.6 and 0.8 of the budget, then the metadata |
| ContextBuilding.BuildReviewContext | src/context_retrieval/context_builder.py:119-210 | the review text is the review's parts joined with newlines |
| ContextBuilding.SingleContext | src/context_retrieval/context_builder.py:81-117 | the single context of a node: its code, callers, callees, parent class, tests when asked for, imports, and the caller count (see SingleContextSpec) |
| ContextBuilding.SingleContextSpec | src/context_retrieval/context_builder.py:81-117 | tests only when asked for; the caller count is that of all `called_by` entries, not only the ten looked up; no constants and no coverage |
| ContextBuilding.BuildSingleContext | src/context_retrieval/context_builder.py:81-117 | the context gathers the node's code, callers, callees, parent class, tests and imports |
| ContextBuilding.BuildContextForChanges | src/context_retrieval/context_builder.py:56-79 | one context per changed node, in order |
| Retrieval.Keep | src/vector_store/retriever.py:191-198 | one pass of the first loop: a full list stops it; otherwise the result becomes the last one, and is added when its id is new (see KeepAllSpec) |
| Retrieval.KeepAll | src/vector_store/retriever.py:187-198 | the first loop over all vector results (see KeepAllSpec, KeepAllGood) |
| Retrieval.Add | src/vector_store/retriever.py:216-235 | one caller or callee: a node_map key not seen yet is added with the node's metadata, related to the last result (see AddAllShape) |
| Retrieval.AddAll | src/vector_store/retriever.py:216-257 | one caller or callee loop over its keys (see AddKeys, AddAllGood, AddAllShape) |
| Retrieval.Expand | src/vector_store/retriever.py:201-257 | one pass of the second loop: nothing for a result not in node_map, else its first two callers then its first two callees (see ExpandShape) |
| Retrieval.ExpandAll | src/vector_store/retriever.py:201-257 | the second loop over the given results (see ExpandAllGood, ExpandAllShape) |
| Retrieval.Expanded | src/vector_store/retriever.py:167-259 | `_expand_with_semantic_tree`: the first loop over all results, then the second over the first three (see ExpandedShape, ExpandedBoundedDistinct) |
| Retrieval.KeepVectorResults | src/vector_store/retriever.py:187-198 | the first loop, with its `break` on a full list, keeps each result whose id is not yet seen |
| Retrieval.AddKeys | src/vector_store/retriever.py:216-257 | one caller or callee loop, with its `break`, appends each key that is in node_map and not yet seen |
| Retrieval.ExpandResult | src/vector_store/retriever.py:201-257 | one pass of the second loop skips a result missing from node_map, else adds its first two callers and then its first two callees |
| Retrieval.ExpandWithSemanticTree | src/vector_store/retriever.py:167-259 | the method returns the expansion of the vector results |
| Retrieval.KeepStops | src/vector_store/retriever.py:191-193 | once the list is full, the rest of the first loop changes nothing |
| Retrieval.AddStops | src/vector_store/retriever.py:216-218 | once the list is full, the rest of a caller or callee loop changes nothing |
| Retrieval.ExpandStops | src/vector_store/retriever.py:201-203 | once the list is full, the rest of the second loop changes nothing |
| Retrieval.Append | src/vector_store/retriever.py:196-198 | appending an entry with an unseen id to a list below `max_items` keeps the bound, `seen_ids` exactly the ids, and no id twice |
| Retrieval.KeepAllGood | src/vector_store/retriever.py:187-198 | the first loop keeps the bound, `seen_ids` exactly the ids, and no id twice |
| Retrieval.AddAllGood | src/vector_store/retriever.py:216-257 | a caller or callee loop keeps the bound, `seen_ids` exactly the ids, and no id twice |
| Retrieval.ExpandAllGood | src/vector_store/retriever.py:201-257 | the second loop keeps the bound, `seen_ids` exactly the ids, and no id twice |
| Retrieval.ExpandedBoundedDistinct | src/vector_store/retriever.py:167-259 | the expanded list has at most `max_items` entries and no id twice |
| Retrieval.Dedup | src/vector_store/retriever.py:195-198 | dropping results whose id came before leaves no more results |
| Retrieval.Founds | src/vector_store/retriever.py:197 | each kept vector result is appended as it came |
| Retrieval.ResultIdsSnoc | src/vector_store/retriever.py:198 | one more result adds its id to the ids seen |
| Retrieval.KeepAllSpec | src/vector_store/retriever.py:187-198 | the first loop keeps the first `max_items` results of distinct ids, in order, and has seen exactly their ids |
| Retrieval.AddAllShape | src/vector_store/retriever.py:216-257 | a caller or callee loop only appends, at most one entry per key, each of its kind, for a key of the list in node_map, related to the last id bound |
| Retrieval.ExpandShape | src/vector_store/retriever.py:201-257 | one pass of the second loop appends at most four entries, from the result's first two callers and first two callees, callers first |
| Retrieval.ExpandAllShape | src/vector_store/retriever.py:201-257 | every entry the second loop appends comes from the callers or callees of one of the results it expanded |
| Retrieval.ExpandedShape | src/vector_store/retriever.py:167-259 | the list opens with the first `max_items` vector results of distinct ids, then at most twelve callers and callees of the first three results, all related to the last id the first loop bound |
| Retrieval.RelatedToLastResult | src/vector_store/retriever.py:195-255 | when the first loop reaches the last result before the list is full, every added entry is related to the id of that last vector result, whichever result it came from |
| PrReview.Opens | src/pr_review/pr_reviewer.py:212-213 | a `diff --git` line that contains the path somewhere, which starts the file's section (see SectionSpec, LongerPathHeaderNamesFile) |
| PrReview.Closes | src/pr_review/pr_reviewer.py:214-215 | a `diff --git` line that does not contain the path, which ends the section once it has started (see SectionSpec) |
| PrReview.FirstOpen | src/pr_review/pr_reviewer.py:211-213 | the first line that starts with `diff --git` and contains the path, or the end |
| PrReview.NextClose | src/pr_review/pr_reviewer.py:214-215 | the first later `diff --git` line that does not contain the path, or the end |
| PrReview.Section | src/pr_review/pr_reviewer.py:205-220 | the lines from the first one opening the file up to, not including, the next one closing it; none when no line opens it (see SectionSpec) |
| PrReview.FileDiff | src/pr_review/pr_reviewer.py:205-220 | those lines joined with newlines |
| PrReview.ExtractFileDiff | src/pr_review/pr_reviewer.py:205-220 | the loop collects the file's section of the diff and joins it with newlines |
| PrReview.NoHeaderGivesEmpty | src/pr_review/pr_reviewer.py:205-220 | a diff with no `diff --git` line naming the file gives the empty string |
| PrReview.SectionSpec | src/pr_review/pr_reviewer.py:205-220 | the section is a run of lines from the first header naming the file up to the first later header not naming it; a later header naming it does not end it |
| PrReview.LongerPathHeaderNamesFile | src/pr_review/pr_reviewer.py:212 | the header of a file whose path ends with another's (`data.py`, `a.py`) names that other file too, since the test is a substring test |
| PrReview.FileNodes | src/pr_review/pr_reviewer.py:113 | the filter keeps only scanned nodes of the file |
| PrReview.FileNodesComplete | src/pr_review/pr_reviewer.py:113 | every scanned node of the file is kept |
| PrReview.FilterFirstSame | src/pr_review/pr_reviewer.py:113-116 | filtering by file first gives the same changed nodes as matching all nodes |
| PrReview.ChangedNodesPerFile | src/pr_review/pr_reviewer.py:109-116 | one list per file change, in order, each the changed nodes among that file's scanned nodes |
| PrFetching.SegmentRun | src/github/pr_fetcher.py:35 | a greedy `[^/]+` takes the longest prefix without `/` and stops at a `/` or the end |
| PrFetching.MatchAt | src/github/pr_fetcher.py:35 | the pattern tried at one index: `github.com/`, a non-empty segment and `/`, another non-empty segment and `/pull/`, then the longest non-empty digit run (see MatchAtIff) |
| PrFetching.Search | src/github/pr_fetcher.py:36 | `re.search`: the match at the first index from the given one where there is one (see SearchNone, SearchLeftmost) |
| PrFetching.ParsePrUrl | src/github/pr_fetcher.py:25-45 | the owner, repository and number of the leftmost match, or `Invalid GitHub PR URL: ` and the URL when there is none (see InvalidIffNoMatch, ParseOfWritten) |
| PrFetching.SearchNone | src/github/pr_fetcher.py:36 | the search finds nothing iff the pattern matches at no index |
| PrFetching.SearchLeftmost | src/github/pr_fetcher.py:36 | a search that succeeds returns the match at some index from its start |
| PrFetching.InvalidIffNoMatch | src/github/pr_fetcher.py:35-39 | a `ValueError` with the message `Invalid GitHub PR URL: <url>` is raised iff the pattern matches nowhere |
| PrFetching.LeadsSplit | src/github/pr_fetcher.py:35 | a text leads with `x + t` iff it starts with `x` and the rest leads with `t` |
| PrFetching.OwnerPart | src/github/pr_fetcher.py:35 | `([^/]+)/` for the owner and what follows it (see OwnerPartIff, OwnerPartSound, OwnerPartComplete) |
| PrFetching.RepoPart | src/github/pr_fetcher.py:35 | `([^/]+)/pull/` for the repository and what follows it (see RepoPartIff, RepoPartSound, RepoPartComplete) |
| PrFetching.NumberPart | src/github/pr_fetcher.py:35 | `(\d+)`: the maximal digit run, refused when empty (see NumberPartIff) |
| PrFetching.NumberPartIff | src/github/pr_fetcher.py:35 | `(\d+)` reads exactly a non-empty maximal run of digits |
| PrFetching.RepoPartIff | src/github/pr_fetcher.py:35 | `([^/]+)/pull/(\d+)` reads a repository iff it is a non-empty segment without `/` followed by `/pull/` and a digit run |
| PrFetching.RepoPartSound | src/github/pr_fetcher.py:35 | a repository read is a non-empty segment without `/`, followed by `/pull/` and the digits read |
| PrFetching.RepoPartComplete | src/github/pr_fetcher.py:35 | a segment written before `/pull/` and a digit run is read back |
| PrFetching.OwnerPartIff | src/github/pr_fetcher.py:35 | `([^/]+)/([^/]+)/pull/(\d+)` reads the three groups iff the text leads with them written out |
| PrFetching.OwnerPartSound | src/github/pr_fetcher.py:35 | the groups read are well formed and the text leads with them written out |
| PrFetching.OwnerPartComplete | src/github/pr_fetcher.py:35 | well-formed groups written out are read back |
| PrFetching.MatchAtIff | src/github/pr_fetcher.py:35 | the pattern matches at an index with given groups iff the text there leads with `github.com/owner/repo/pull/number` |
| PrFetching.ParsedLeftmost | src/github/pr_fetcher.py:36-45 | a successful parse reads the groups written at the leftmost index where the pattern matches |
| PrFetching.ParseOfWritten | src/github/pr_fetcher.py:25-45 | a URL written from owner, repository and number reads back as them, whatever comes before (with no `g`) and after (not starting with a digit) |
| PrFetching.SegmentOf | src/github/pr_fetcher.py:35 | a segment without `/` followed by `/` is taken whole |
| PrFetching.SearchSkips | src/github/pr_fetcher.py:36 | the search from the start returns the first index where the pattern matches |
| Text.Split | src/diff_parser/diff_parser.py:49 | `s.split(sep)` for one character: never an empty list (see JoinSplit) |
| Text.JoinSplit | src/diff_parser/diff_parser.py:49 | splitting on a character and joining with it gives back the text |
| Text.Strip | pr_context_retrieval.py:99 | `s.strip()`: whitespace removed from both ends (see StripPadded, StripClean) |
| Text.StripPadded | pr_context_retrieval.py:99 | a text with no whitespace at either end, followed by whitespace, strips to itself |
| Text.StripClean | pr_context_retrieval.py:99 | a stripped text has no whitespace at either end |
| Text.Lower | src/utils/language_detector.py:35 | `s.lower()` on ASCII: same length, each character lower-cased |
| Text.Take | src/vector_store/retriever.py:201 | `s[:k]`: exactly k items when there are more, a prefix, and all of s when it is no longer |
| Text.Keys | src/vector_store/retriever.py:238 | a calls list as node_map keys: same length, each call target as a set key |

## Left out

- The directory walk (`os.walk`), file reads, `Parser.parse` and the parser setup are not modelled. They are I/O and a foreign library; each file's syntax tree, its text and whether scanning it raises are inputs instead.
- An exception raised part-way through an extractor's walk is not modelled. A file either scans completely or counts as an error, with none of its nodes added.
- The `.decode()` of node byte ranges is not modelled: a syntax-tree node carries its text as a string.
- `\d`, `str.lower()` and `str.capitalize()` are modelled on ASCII only. Python's versions also act on other Unicode digits and letters. No file extension in the table is affected.
- The thresholds `max_tokens * 0.4`, `0.6` and `0.8` of `build_review_context` are floating point. They are modelled as the integer comparisons `10 * t < 4 * m`, `10 * t < 6 * m` and `10 * t < 8 * m`, which agree with them on integers.
- ContextBuilding.NoBudget: a `max_tokens` of 0 with `verbose=True` (the default) does not return a review in the source. The percentage printout `int(tokens_used/max_tokens*100)` at src/context_retrieval/context_builder.py:208 divides by zero and raises ZeroDivisionError. The model has no `verbose` flag and leaves console output out, so it returns the review in that case too, as the source does with `verbose=False`.
- `_get_node_code`: when the file cannot be read it returns a text that embeds the exception message. The model returns a fixed text, since the message comes from the operating system.
- Console output is not modelled: every `print`, the verbose branches and `report_printer.py`.
- The vector store, indexing, embeddings, `HybridRetriever.retrieve`, `_vector_search` and `format_for_llm` are not modelled. They wrap chromadb, an embedding model and floating-point similarities.
- The vector search results reach `_expand_with_semantic_tree` as values carrying only the fields it reads.
- Not modelled: the LLM client, `generate_review_prompt`, `format_context_for_llm` and `save_context`. They are network calls and free-form prompt text.
- The orchestration in `review_pr` and `analyze_pr`, and `build_pr_context`, is not modelled beyond the per-file node filter and the helpers it calls.
- GitHub HTTP fetching is not modelled (`fetch_pr_metadata`, `fetch_pr_diff`, `fetch_pr_files`), since it is network I/O.
- The CLI and script entry points (`repo_rag.py`, `review_pr.py`, `main.py`, the debug scripts, `test_pr_review.py`) and the package `__init__.py` files are not modelled. They only parse arguments, orchestrate calls or re-export names.
- `SemanticNodes.SemanticNode.constructor`: every caller passes `filepath` and `language`, so the constructor always takes them; their `None` defaults are not modelled.
- `_build_single_context` takes `max_tokens` and never uses it; the model keeps the parameter and ignores it too.
- ContextBuilding.MetadataShape: states only the shape of `_build_metadata_summary` (the number of lines, the file line, the parameters line and the parent class line). MetadataLines builds the remaining lines, but no lemma is stated about their text.
- Iteration over Python sets and dictionaries is modelled as a set or map, with no order. This affects `related_files` and the statistics dictionaries; the source's own order there is hash or insertion order and is not promised anywhere.
- `PrContext.BuildContext`: the `function_code` field, and the `code` of each caller and callee, are not modelled, since `_get_function_code` reads files. The result carries the node's fields and the resolved callers and callees.
- `ChangedFunctions.OverlapMeansCommonLine`: stated only for non-empty ranges. For an empty hunk range, `_ranges_overlap` can hold with no common line, which `OverlapOfEmptyRange` shows.
