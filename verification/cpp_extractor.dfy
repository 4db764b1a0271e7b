/** CppExtractor: class specifiers and function definitions of a C++ parse
    tree. A function defined in a class body is a method of that class; the
    walk does not descend into function definitions. */
module CppExtractor {
  import opened Text
  import opened SyntaxTree
  import opened SemanticNodes
  import CExtractor

  /** `_get_function_name`: like the C helper, but a function declarator's
      inner declarator may also be a field_identifier. */
  function FunctionName(dcl: Tree): (r: Option<string>)
    ensures r.Some? <==>
              dcl.kind == "identifier"
              || (dcl.kind == "function_declarator" && Field(dcl, "declarator").Some?
                  && Field(dcl, "declarator").value.kind in {"identifier", "field_identifier"})
    ensures r.Some? && dcl.kind == "identifier" ==> r.value == dcl.text
    ensures r.Some? && dcl.kind == "function_declarator" ==> r.value == Field(dcl, "declarator").value.text
    ensures CExtractor.FunctionName(dcl).Some? ==> r == CExtractor.FunctionName(dcl)
  {
    if dcl.kind == "function_declarator" then
      match Field(dcl, "declarator")
      case Some(inner) =>
        if inner.kind == "identifier" then Some(inner.text)
        else if inner.kind == "field_identifier" then Some(inner.text)
        else None
      case None => None
    else if dcl.kind == "identifier" then Some(dcl.text)
    else None
  }

  // ----- specification: what the walk emits and what find_calls records -----

  /** The path find_calls records for one node, if it is a call whose callee
      is an identifier or a field expression with a field and an argument. */
  function CallTarget(t: Tree, parent: Option<string>, fp: string): Option<string>
  {
    if t.kind != "call_expression" then None
    else
      match Field(t, "function")
      case None => None
      case Some(f) =>
        if f.kind == "identifier" then
          if Truthy(parent) then Some(PathKey(fp, Dotted(parent.value, f.text))) else Some(PathKey(fp, f.text))
        else if f.kind == "field_expression" then
          match Field(f, "field")
          case None => None
          case Some(field) =>
            match Field(f, "argument")
            case None => None
            case Some(obj) =>
              if obj.text == "this" && Truthy(parent) then Some(PathKey(fp, Dotted(parent.value, field.text)))
              else Some(PathKey(fp, Dotted(obj.text, field.text)))
        else None
  }

  function Calls(t: Tree, parent: Option<string>, fp: string): seq<string>
    decreases t, 1
  {
    (if CallTarget(t, parent, fp).Some? then [CallTarget(t, parent, fp).value] else [])
    + CallsIn(t, |t.children|, parent, fp)
  }

  function CallsIn(t: Tree, k: nat, parent: Option<string>, fp: string): seq<string>
    requires k <= |t.children|
    decreases t, 0, k
  {
    if k == 0 then [] else CallsIn(t, k - 1, parent, fp) + Calls(t.children[k - 1], parent, fp)
  }

  function ClassView(t: Tree, name: string, fp: string): NodeView
  {
    TypeRecord(name, Class, StartLine(t), EndLine(t), fp, Cpp)
  }

  /** The record a function_definition `t` with declarator `dcl` named `name`
      produces inside `parent`. */
  function FunctionView(t: Tree, dcl: Tree, name: string, parent: Option<string>, fp: string): NodeView
  {
    CallableRecord(name, parent, StartLine(t), EndLine(t), fp, Cpp)
      .(calls := Calls(t, parent, fp), parameters := CExtractor.DeclaratorParams(dcl),
        returnType := TextOf(Field(t, "type")))
  }

  /** The records `walk(t, parent)` appends, in order. */
  function Emit(t: Tree, parent: Option<string>, fp: string): seq<NodeView>
    decreases t, 2
  {
    if t.kind == "class_specifier" then
      match Field(t, "name")
      case None => []
      case Some(n) => [ClassView(t, n.text, fp)] + BodyEmit(t, n.text, fp)
    else if t.kind == "function_definition" then
      match Field(t, "declarator")
      case None => []
      case Some(dcl) =>
        if Truthy(FunctionName(dcl)) then [FunctionView(t, dcl, FunctionName(dcl).value, parent, fp)] else []
    else EmitIn(t, |t.children|, parent, fp)
  }

  /** The records of a class body: its children walked with the class as
      parent; nothing when there is no body field. */
  function BodyEmit(t: Tree, name: string, fp: string): seq<NodeView>
    decreases t, 1
  {
    match Field(t, "body")
    case None => []
    case Some(b) => EmitIn(b, |b.children|, Some(name), fp)
  }

  function EmitIn(t: Tree, k: nat, parent: Option<string>, fp: string): seq<NodeView>
    requires k <= |t.children|
    decreases t, 0, k
  {
    if k == 0 then [] else EmitIn(t, k - 1, parent, fp) + Emit(t.children[k - 1], parent, fp)
  }

  // ----- properties of the specification -----

  /** Every record follows the path-key discipline and is tagged C++; a
      record is a class or a callable, and classes carry no calls. */
  lemma {:induction false} EmitQualified(t: Tree, parent: Option<string>, fp: string)
    ensures forall v :: v in Emit(t, parent, fp) ==>
              Qualified(v, fp) && v.language == Cpp && (v.kind == Class || v.kind.IsCallable())
              && (v.kind == Class ==> v.calls == [] && v.returnType.None?)
    decreases t, 2
  {
    if t.kind == "class_specifier" {
      match Field(t, "name")
      case None =>
      case Some(n) => BodyQualified(t, n.text, fp);
    } else if t.kind != "function_definition" {
      EmitInQualified(t, |t.children|, parent, fp);
    }
  }

  lemma {:induction false} BodyQualified(t: Tree, name: string, fp: string)
    ensures forall v :: v in BodyEmit(t, name, fp) ==>
              Qualified(v, fp) && v.language == Cpp && (v.kind == Class || v.kind.IsCallable())
              && (v.kind == Class ==> v.calls == [] && v.returnType.None?)
    decreases t, 1
  {
    match Field(t, "body")
    case None =>
    case Some(b) => EmitInQualified(b, |b.children|, Some(name), fp);
  }

  lemma {:induction false} EmitInQualified(t: Tree, k: nat, parent: Option<string>, fp: string)
    requires k <= |t.children|
    ensures forall v :: v in EmitIn(t, k, parent, fp) ==>
              Qualified(v, fp) && v.language == Cpp && (v.kind == Class || v.kind.IsCallable())
              && (v.kind == Class ==> v.calls == [] && v.returnType.None?)
    decreases t, 0, k
  {
    if k > 0 {
      EmitInQualified(t, k - 1, parent, fp);
      EmitQualified(t.children[k - 1], parent, fp);
    }
  }

  /** Every recorded call target lies in the calling file. */
  lemma {:induction false} CallsInFile(t: Tree, parent: Option<string>, fp: string)
    ensures forall c :: c in Calls(t, parent, fp) ==> StartsWith(c, fp + "::")
    decreases t, 1
  {
    CallsInInFile(t, |t.children|, parent, fp);
  }

  lemma {:induction false} CallsInInFile(t: Tree, k: nat, parent: Option<string>, fp: string)
    requires k <= |t.children|
    ensures forall c :: c in CallsIn(t, k, parent, fp) ==> StartsWith(c, fp + "::")
    decreases t, 0, k
  {
    if k > 0 {
      CallsInInFile(t, k - 1, parent, fp);
      CallsInFile(t.children[k - 1], parent, fp);
    }
  }

  /** Inside a class, an unqualified call `f()` is recorded as the class's
      own method `C.f`, and `this->m()` as `C.m`; any other receiver `o` gives
      `o.m`. */
  lemma CallTargetCases(t: Tree, c: string, fp: string)
    requires c != "" && t.kind == "call_expression" && Field(t, "function").Some?
    ensures var f := Field(t, "function").value;
      && (f.kind == "identifier" ==> CallTarget(t, Some(c), fp) == Some(PathKey(fp, Dotted(c, f.text))))
      && (f.kind == "identifier" ==> CallTarget(t, None, fp) == Some(PathKey(fp, f.text)))
      && (f.kind == "field_expression" && Field(f, "field").Some? && Field(f, "argument").Some? ==>
            var m := Field(f, "field").value.text;
            var o := Field(f, "argument").value.text;
            CallTarget(t, Some(c), fp) == Some(PathKey(fp, Dotted(if o == "this" then c else o, m))))
      && (f.kind !in {"identifier", "field_expression"} ==> CallTarget(t, Some(c), fp).None?)
  {
  }

  // ----- the extractor -----

  method CallsWalk(t: Tree, parent: Option<string>, fp: string, acc: seq<string>) returns (calls: seq<string>)
    ensures calls == acc + Calls(t, parent, fp)
    decreases t
  {
    calls := acc;
    var target := CallTarget(t, parent, fp);
    if target.Some? {
      calls := calls + [target.value];
    }
    var i := 0;
    while i < |t.children|
      invariant 0 <= i <= |t.children|
      invariant calls == acc + (if target.Some? then [target.value] else []) + CallsIn(t, i, parent, fp)
    {
      calls := CallsWalk(t.children[i], parent, fp, calls);
      i := i + 1;
    }
  }

  /** `CppExtractor.find_calls` (and `_find_calls_cpp`). */
  method FindCalls(t: Tree, parent: Option<string>, fp: string) returns (calls: seq<string>)
    ensures calls == Calls(t, parent, fp)
  {
    calls := CallsWalk(t, parent, fp, []);
  }

  /** The node `walk` builds for a named function_definition inside `parent`. */
  method NewFunction(t: Tree, dcl: Tree, name: string, parent: Option<string>, fp: string) returns (node: SemanticNode)
    ensures fresh(node) && node.View() == FunctionView(t, dcl, name, parent, fp)
  {
    node := NewCallableNode(name, parent, StartLine(t), EndLine(t), fp, Cpp);
    node.parameters := CExtractor.GetParameters(dcl);
    var typeNode := Field(t, "type");
    if typeNode.Some? {
      node.returnType := Some(typeNode.value.text);
    }
    node.calls := FindCalls(t, parent, fp);
  }

  /** `walk(node, parent_class, namespace)` inside `CppExtractor.extract`
      (and `_extract_cpp`); the namespace argument is passed along unused. */
  method Walk(reg: Registry, t: Tree, parent: Option<string>, fp: string) returns (ghost added: seq<SemanticNode>)
    requires reg.Valid()
    modifies reg
    ensures forall n :: n in added ==> fresh(n)
    ensures reg.Valid()
    ensures reg.nodes == old(reg.nodes) + added && |added| == |Emit(t, parent, fp)|
    ensures reg.views == old(reg.views) + Emit(t, parent, fp)
    ensures reg.nodeMap == Register(old(reg.nodeMap), added, Emit(t, parent, fp))
    decreases t, 3
  {
    added := [];
    if t.kind == "class_specifier" {
      var nameNode := Field(t, "name");
      if nameNode.None? {
        return;
      }
      assert Emit(t, parent, fp) == [ClassView(t, nameNode.value.text, fp)] + BodyEmit(t, nameNode.value.text, fp);
      added := WalkClass(reg, t, nameNode.value.text, fp);
    } else if t.kind == "function_definition" {
      var declarator := Field(t, "declarator");
      if declarator.None? {
        return;
      }
      var funcName := FunctionName(declarator.value);
      if !Truthy(funcName) {
        return;
      }
      assert Emit(t, parent, fp) == [FunctionView(t, declarator.value, funcName.value, parent, fp)];
      added := WalkFunction(reg, t, declarator.value, funcName.value, parent, fp);
    } else {
      added := WalkChildren(reg, t, parent, fp);
    }
  }

  /** `walk` on a named function_definition: one node, not descended into. */
  method WalkFunction(reg: Registry, t: Tree, dcl: Tree, name: string, parent: Option<string>, fp: string)
    returns (ghost added: seq<SemanticNode>)
    requires reg.Valid()
    modifies reg
    ensures forall n :: n in added ==> fresh(n)
    ensures reg.Valid()
    ensures reg.nodes == old(reg.nodes) + added && |added| == 1
    ensures reg.views == old(reg.views) + [FunctionView(t, dcl, name, parent, fp)]
    ensures reg.nodeMap == Register(old(reg.nodeMap), added, [FunctionView(t, dcl, name, parent, fp)])
  {
    var node := NewFunction(t, dcl, name, parent, fp);
    reg.Add(node);
    added := [node];
  }

  /** `walk` on a named class_specifier: the class node, then the children of
      its body walked with the class as parent. */
  method WalkClass(reg: Registry, t: Tree, name: string, fp: string) returns (ghost added: seq<SemanticNode>)
    requires reg.Valid()
    modifies reg
    ensures forall n :: n in added ==> fresh(n)
    ensures reg.Valid()
    ensures reg.nodes == old(reg.nodes) + added
    ensures reg.views == old(reg.views) + [ClassView(t, name, fp)] + BodyEmit(t, name, fp)
    ensures reg.nodeMap == Register(old(reg.nodeMap), added, [ClassView(t, name, fp)] + BodyEmit(t, name, fp))
    decreases t, 2
  {
    var node := NewTypeNode(name, Class, StartLine(t), EndLine(t), fp, Cpp);
    reg.Add(node);
    ghost var more: seq<SemanticNode> := [];
    var body := Field(t, "body");
    if body.Some? {
      more := WalkChildren(reg, body.value, Some(name), fp);
    }
    Grow(old(reg.nodes), old(reg.views), old(reg.nodeMap), [node], [ClassView(t, name, fp)],
         more, BodyEmit(t, name, fp));
    added := [node] + more;
  }

  /** The `for child in node.children: walk(child, ...)` loop. */
  method WalkChildren(reg: Registry, t: Tree, parent: Option<string>, fp: string) returns (ghost added: seq<SemanticNode>)
    requires reg.Valid()
    modifies reg
    ensures forall n :: n in added ==> fresh(n)
    ensures reg.Valid()
    ensures reg.nodes == old(reg.nodes) + added && |added| == |EmitIn(t, |t.children|, parent, fp)|
    ensures reg.views == old(reg.views) + EmitIn(t, |t.children|, parent, fp)
    ensures reg.nodeMap == Register(old(reg.nodeMap), added, EmitIn(t, |t.children|, parent, fp))
    decreases t, 0
  {
    added := [];
    ghost var emitted := [];
    var i := 0;
    while i < |t.children|
      invariant 0 <= i <= |t.children|
      invariant emitted == EmitIn(t, i, parent, fp)
      invariant reg.Valid()
      invariant |added| == |emitted|
      invariant forall n :: n in added ==> fresh(n)
      invariant reg.nodes == old(reg.nodes) + added
      invariant reg.views == old(reg.views) + emitted
      invariant reg.nodeMap == Register(old(reg.nodeMap), added, emitted)
    {
      ghost var e := Emit(t.children[i], parent, fp);
      var more := Walk(reg, t.children[i], parent, fp);
      Grow(old(reg.nodes), old(reg.views), old(reg.nodeMap), added, emitted, more, e);
      added, emitted := added + more, emitted + e;
      i := i + 1;
    }
  }

  /** `CppExtractor.extract(tree, filepath)`: walks from the root with no
      enclosing class and returns the extractor's whole accumulated list. */
  method Extract(reg: Registry, root: Tree, fp: string) returns (nodes: seq<SemanticNode>)
    requires reg.Valid()
    modifies reg
    ensures reg.Valid() && nodes == reg.nodes
    ensures |old(reg.nodes)| <= |nodes| && nodes[..|old(reg.nodes)|] == old(reg.nodes)
    ensures reg.views == old(reg.views) + Emit(root, None, fp)
    ensures reg.nodeMap == Register(old(reg.nodeMap), nodes[|old(reg.nodes)|..], Emit(root, None, fp))
  {
    ghost var added := Walk(reg, root, None, fp);
    nodes := reg.nodes;
    assert nodes[|old(reg.nodes)|..] == added;
  }
}
