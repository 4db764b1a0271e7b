/** The code-entity record shared by every component (SemanticNode), and the
    nodes list / node_map pair an extractor or a scanner accumulates. */
module SemanticNodes {
  import opened Text

  /** The five values extractors give `node_type`. */
  datatype Kind = Class | Enum | Interface | Function | Method
  {
    /** The string stored in `node_type`. */
    function Name(): string
    {
      match this
      case Class => "class"
      case Enum => "enum"
      case Interface => "interface"
      case Function => "function"
      case Method => "method"
    }

    predicate IsCallable() { this == Function || this == Method }
    predicate IsType() { this == Class || this == Enum || this == Interface }
  }

  /** The language tags of the extension table. */
  datatype Language = Python | Java | C | Cpp
  {
    function Name(): string
    {
      match this
      case Python => "python"
      case Java => "java"
      case C => "c"
      case Cpp => "cpp"
    }
  }

  /** The value of every field of a SemanticNode at one moment. */
  datatype NodeView = NodeView(
    name: string,
    kind: Kind,
    startLine: int,
    endLine: int,
    filepath: string,
    language: Language,
    parentClass: Option<string>,
    qualifiedName: Option<string>,
    fullPath: Option<string>,
    calls: seq<string>,
    calledBy: seq<Option<string>>,
    parameters: seq<string>,
    returnType: Option<string>)

  /** `f"{filepath}::{qualified}"`, the join key of all components. */
  function PathKey(filepath: string, qualified: string): string
  {
    filepath + "::" + qualified
  }

  /** `f"{owner}.{name}"` */
  function Dotted(owner: string, name: string): string
  {
    owner + "." + name
  }

  /** Python truthiness of an optional string: set and non-empty. */
  predicate Truthy(s: Option<string>)
  {
    s.Some? && s.value != ""
  }

  /** The path-key discipline every extractor follows: the record carries
      qualified_name Q and full_path `filepath::Q`, where Q is `C.name` for a
      method of C and the bare name otherwise; a method is exactly a record
      with a (non-empty) owning class, and nothing has been linked yet. */
  predicate Qualified(v: NodeView, fp: string)
  {
    && v.filepath == fp
    && v.qualifiedName.Some?
    && v.fullPath == Some(PathKey(fp, v.qualifiedName.value))
    && v.calledBy == []
    && (v.kind == Method <==> Truthy(v.parentClass))
    && (v.kind != Method ==> v.parentClass.None?)
    && v.qualifiedName.value == (if v.kind == Method then Dotted(v.parentClass.value, v.name) else v.name)
  }

  class SemanticNode {
    var name: string
    var kind: Kind
    var startLine: int
    var endLine: int
    var filepath: string
    var language: Language
    var parentClass: Option<string>
    var qualifiedName: Option<string>
    var fullPath: Option<string>
    var calls: seq<string>
    var calledBy: seq<Option<string>>
    var parameters: seq<string>
    var returnType: Option<string>

    /** `SemanticNode(name, node_type, start_line, end_line, filepath, language)`:
        the six arguments are stored as given, the lists start empty and the
        four optional attributes start unset. */
    constructor (name: string, kind: Kind, startLine: int, endLine: int, filepath: string, language: Language)
      ensures View() == NodeView(name, kind, startLine, endLine, filepath, language,
                                 None, None, None, [], [], [], None)
    {
      this.name := name;
      this.kind := kind;
      this.startLine := startLine;
      this.endLine := endLine;
      this.filepath := filepath;
      this.language := language;
      parentClass := None;
      qualifiedName := None;
      fullPath := None;
      calls := [];
      calledBy := [];
      parameters := [];
      returnType := None;
    }

    /** The node's fields as one value. */
    function View(): NodeView
      reads this
    {
      NodeView(name, kind, startLine, endLine, filepath, language,
               parentClass, qualifiedName, fullPath, calls, calledBy, parameters, returnType)
    }

    /** Every field but `called_by`, which only the call-graph linker touches. */
    function Core(): NodeView
      reads this
    {
      NodeView(name, kind, startLine, endLine, filepath, language,
               parentClass, qualifiedName, fullPath, calls, [], parameters, returnType)
    }

    /** `__repr__`: `<full_path:start_line>`, where an unset path prints as None. */
    function Display(): (r: string)
      reads this
      ensures |r| >= 2 && r[0] == '<' && r[|r| - 1] == '>'
      ensures fullPath.Some? ==> r == "<" + fullPath.value + ":" + IntToString(startLine) + ">"
      ensures fullPath.None? ==> r == "<None:" + IntToString(startLine) + ">"
    {
      "<" + (if fullPath.Some? then fullPath.value else "None") + ":" + IntToString(startLine) + ">"
    }
  }

  /** What a type node (class, enum, interface) holds once `walk` has named
      it: qualified by its bare name. */
  function TypeRecord(name: string, kind: Kind, startLine: int, endLine: int, fp: string, language: Language): (v: NodeView)
    ensures kind != Method ==> Qualified(v, fp)
    ensures v.kind == kind && v.name == name && v.language == language && v.fullPath == Some(PathKey(fp, name))
    ensures v.calls == [] && v.parameters == [] && v.returnType.None?
  {
    NodeView(name, kind, startLine, endLine, fp, language,
             None, Some(name), Some(PathKey(fp, name)), [], [], [], None)
  }

  /** What a callable node holds once `walk` has named it inside `parent`
      (before its parameters, return type and calls are filled in): a method
      of `parent` when that is truthy, a plain function otherwise. */
  function CallableRecord(name: string, parent: Option<string>, startLine: int, endLine: int, fp: string, language: Language): (v: NodeView)
    ensures Qualified(v, fp) && v.kind.IsCallable() && v.name == name && v.language == language
    ensures v.kind == Method <==> Truthy(parent)
    ensures v.kind == Method ==> v.parentClass == parent
    ensures v.calls == [] && v.parameters == [] && v.returnType.None?
  {
    var qualified := if Truthy(parent) then Dotted(parent.value, name) else name;
    NodeView(name, if Truthy(parent) then Method else Function, startLine, endLine, fp, language,
             if Truthy(parent) then parent else None, Some(qualified), Some(PathKey(fp, qualified)),
             [], [], [], None)
  }

  /** `SemanticNode(...)` for a type, then its qualified name and full path. */
  method NewTypeNode(name: string, kind: Kind, startLine: int, endLine: int, fp: string, language: Language) returns (node: SemanticNode)
    ensures fresh(node) && node.View() == TypeRecord(name, kind, startLine, endLine, fp, language)
  {
    node := new SemanticNode(name, kind, startLine, endLine, fp, language);
    node.qualifiedName := Some(name);
    node.fullPath := Some(PathKey(fp, name));
  }

  /** `SemanticNode(...)` for a function or method, then its owner, qualified
      name and full path. */
  method NewCallableNode(name: string, parent: Option<string>, startLine: int, endLine: int, fp: string, language: Language) returns (node: SemanticNode)
    ensures fresh(node) && node.View() == CallableRecord(name, parent, startLine, endLine, fp, language)
  {
    node := new SemanticNode(name, if Truthy(parent) then Method else Function, startLine, endLine, fp, language);
    if Truthy(parent) {
      node.parentClass := parent;
      node.qualifiedName := Some(Dotted(parent.value, name));
      node.fullPath := Some(PathKey(fp, Dotted(parent.value, name)));
    } else {
      node.qualifiedName := Some(name);
      node.fullPath := Some(PathKey(fp, name));
    }
  }

  /** `node_map[n.full_path] = n` for each node in turn, where `vs` holds the
      nodes' views: the last write wins, and a node without a path writes nothing. */
  function Register(m: map<string, SemanticNode>, ns: seq<SemanticNode>, vs: seq<NodeView>): (r: map<string, SemanticNode>)
    requires |ns| == |vs|
  {
    if ns == [] then m
    else
      var r := Register(m, ns[..|ns| - 1], vs[..|vs| - 1]);
      if vs[|vs| - 1].fullPath.Some? then r[vs[|vs| - 1].fullPath.value := ns[|ns| - 1]] else r
  }

  /** Registering only ever maps to nodes of the old map or of `ns`. */
  lemma {:induction false} RegisterValues(m: map<string, SemanticNode>, ns: seq<SemanticNode>, vs: seq<NodeView>)
    requires |ns| == |vs|
    ensures forall n :: n in Register(m, ns, vs).Values ==> n in m.Values || n in ns
  {
    if ns != [] {
      RegisterValues(m, ns[..|ns| - 1], vs[..|vs| - 1]);
      assert forall n :: n in ns[..|ns| - 1] ==> n in ns;
    }
  }

  lemma {:induction false} RegisterAppend(m: map<string, SemanticNode>, a: seq<SemanticNode>, b: seq<SemanticNode>,
                                          va: seq<NodeView>, vb: seq<NodeView>)
    requires |a| == |va| && |b| == |vb|
    ensures Register(m, a + b, va + vb) == Register(Register(m, a, va), b, vb)
    decreases |b|
  {
    if b != [] {
      assert (a + b)[..|a + b| - 1] == a + b[..|b| - 1];
      assert (va + vb)[..|va + vb| - 1] == va + vb[..|vb| - 1];
      RegisterAppend(m, a, b[..|b| - 1], va, vb[..|vb| - 1]);
    } else {
      assert a + b == a && va + vb == va;
    }
  }

  /** Appending `more` (holding `e`) after `added` (holding `emitted`) is
      appending their concatenation, for the list, the views and the map. */
  lemma Grow(n0: seq<SemanticNode>, v0: seq<NodeView>, m0: map<string, SemanticNode>,
             added: seq<SemanticNode>, emitted: seq<NodeView>, more: seq<SemanticNode>, e: seq<NodeView>)
    requires |added| == |emitted| && |more| == |e|
    ensures (n0 + added) + more == n0 + (added + more)
    ensures (v0 + emitted) + e == v0 + (emitted + e)
    ensures |added + more| == |emitted + e|
    ensures Register(Register(m0, added, emitted), more, e) == Register(m0, added + more, emitted + e)
  {
    AppendAssoc(n0, added, more);
    AppendAssoc(v0, emitted, e);
    RegisterAppend(m0, added, more, emitted, e);
  }

  lemma AppendAssoc<T>(a: seq<T>, b: seq<T>, c: seq<T>)
    ensures (a + b) + c == a + (b + c)
  {
  }

  /** The nodes list and node_map that BaseExtractor owns (and that the
      single-file MultiLanguageScanner owns directly). `views` records what
      each listed node held when it was added (its `Core`). */
  class Registry {
    var nodes: seq<SemanticNode>
    var nodeMap: map<string, SemanticNode>
    ghost var views: seq<NodeView>

    /** Every listed node still holds what it held when it was added, apart
        from its `called_by` list. */
    ghost predicate Valid()
      reads this, set n | n in nodes
    {
      |views| == |nodes| && forall j :: 0 <= j < |nodes| ==> nodes[j].Core() == views[j]
    }

    /** `BaseExtractor.__init__`: both collections start empty. */
    constructor ()
      ensures Valid() && nodes == [] && nodeMap == map[] && views == []
    {
      nodes := [];
      nodeMap := map[];
      views := [];
    }

    /** `self.nodes.append(node)` followed by `self.node_map[node.full_path] = node`. */
    method Add(node: SemanticNode)
      requires Valid() && node.fullPath.Some?
      modifies this
      ensures Valid()
      ensures nodes == old(nodes) + [node] && views == old(views) + [node.Core()]
      ensures nodeMap == old(nodeMap)[node.fullPath.value := node]
    {
      nodes := nodes + [node];
      nodeMap := nodeMap[node.fullPath.value := node];
      views := views + [node.Core()];
    }
  }
}
