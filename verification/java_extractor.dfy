/** JavaExtractor: type and method declarations of a Java parse tree. Two
    dialects exist: the extractor module recognises class, enum and interface
    declarations, while the single-file scanner's own Java walk recognises
    class declarations only. */
module JavaExtractor {
  import opened Text
  import opened SyntaxTree
  import opened SemanticNodes

  datatype Dialect = Modular | Monolith

  /** The record kind a type-declaration node type produces, if the dialect
      recognises it. */
  function TypeKind(d: Dialect, kind: string): (r: Option<Kind>)
    ensures r.Some? ==> r.value.IsType()
    ensures r == Some(Class) <==> kind == "class_declaration"
  {
    if kind == "class_declaration" then Some(Class)
    else if d == Modular && kind == "enum_declaration" then Some(Enum)
    else if d == Modular && kind == "interface_declaration" then Some(Interface)
    else None
  }

  // ----- specification: what the walk emits and what find_calls records -----

  /** The path find_calls records for one node, if it is a method invocation
      with a name. */
  function CallTarget(t: Tree, parent: Option<string>, fp: string): Option<string>
  {
    if t.kind != "method_invocation" then None
    else
      match Field(t, "name")
      case None => None
      case Some(n) =>
        match Field(t, "object")
        case Some(obj) =>
          if obj.text == "this" && Truthy(parent) then Some(PathKey(fp, Dotted(parent.value, n.text)))
          else if parent == Some(obj.text) then Some(PathKey(fp, Dotted(parent.value, n.text)))
          else Some(PathKey(fp, Dotted(obj.text, n.text)))
        case None =>
          if Truthy(parent) then Some(PathKey(fp, Dotted(parent.value, n.text)))
          else Some(PathKey(fp, n.text))
  }

  /** The calls recorded over `t`'s whole subtree, in pre-order. */
  function Calls(t: Tree, parent: Option<string>, fp: string): seq<string>
    decreases t, 1
  {
    (if CallTarget(t, parent, fp).Some? then [CallTarget(t, parent, fp).value] else [])
    + CallsIn(t, |t.children|, parent, fp)
  }

  function CallsIn(t: Tree, k: nat, parent: Option<string>, fp: string): seq<string>
    requires k <= |t.children|
    decreases t, 0, k
  {
    if k == 0 then [] else CallsIn(t, k - 1, parent, fp) + Calls(t.children[k - 1], parent, fp)
  }

  /** Names of the formal_parameter children (that have a name), in order. */
  function ParamsIn(ps: seq<Tree>): seq<string>
  {
    if ps == [] then []
    else
      var last := ps[|ps| - 1];
      ParamsIn(ps[..|ps| - 1])
      + (if last.kind == "formal_parameter" && Field(last, "name").Some? then [Field(last, "name").value.text] else [])
  }

  function Params(t: Tree): seq<string>
  {
    match Field(t, "parameters")
    case None => []
    case Some(p) => ParamsIn(p.children)
  }

  /** The record a named type declaration produces. */
  function TypeView(t: Tree, kind: Kind, name: string, fp: string): NodeView
  {
    TypeRecord(name, kind, StartLine(t), EndLine(t), fp, Java)
  }

  /** The record a named method_declaration produces inside `parent`. */
  function MethodView(t: Tree, name: string, parent: Option<string>, fp: string): NodeView
  {
    CallableRecord(name, parent, StartLine(t), EndLine(t), fp, Java)
      .(calls := Calls(t, parent, fp), parameters := Params(t), returnType := TextOf(Field(t, "type")))
  }

  /** The records `walk(t, parent)` appends, in order. */
  function Emit(d: Dialect, t: Tree, parent: Option<string>, fp: string): seq<NodeView>
    decreases t, 2
  {
    if TypeKind(d, t.kind).Some? then
      match Field(t, "name")
      case None => []
      case Some(n) => [TypeView(t, TypeKind(d, t.kind).value, n.text, fp)] + BodyEmit(d, t, n.text, fp)
    else if t.kind == "method_declaration" then
      match Field(t, "name")
      case None => []
      case Some(n) => [MethodView(t, n.text, parent, fp)]
    else EmitIn(d, t, |t.children|, parent, fp)
  }

  /** The records of a type declaration's body: its children walked with the
      type as parent; nothing when there is no body field. */
  function BodyEmit(d: Dialect, t: Tree, name: string, fp: string): seq<NodeView>
    decreases t, 1
  {
    match Field(t, "body")
    case None => []
    case Some(b) => EmitIn(d, b, |b.children|, Some(name), fp)
  }

  function EmitIn(d: Dialect, t: Tree, k: nat, parent: Option<string>, fp: string): seq<NodeView>
    requires k <= |t.children|
    decreases t, 0, k
  {
    if k == 0 then [] else EmitIn(d, t, k - 1, parent, fp) + Emit(d, t.children[k - 1], parent, fp)
  }

  // ----- properties of the specification -----

  /** Every record follows the path-key discipline and is tagged Java; only
      methods and functions carry calls. */
  lemma {:induction false} EmitQualified(d: Dialect, t: Tree, parent: Option<string>, fp: string)
    ensures forall v :: v in Emit(d, t, parent, fp) ==>
              Qualified(v, fp) && v.language == Java && (v.kind.IsType() ==> v.calls == [] && v.returnType.None?)
    decreases t, 2
  {
    if TypeKind(d, t.kind).Some? {
      match Field(t, "name")
      case None =>
      case Some(n) => BodyQualified(d, t, n.text, fp);
    } else if t.kind != "method_declaration" {
      EmitInQualified(d, t, |t.children|, parent, fp);
    }
  }

  lemma {:induction false} BodyQualified(d: Dialect, t: Tree, name: string, fp: string)
    ensures forall v :: v in BodyEmit(d, t, name, fp) ==>
              Qualified(v, fp) && v.language == Java && (v.kind.IsType() ==> v.calls == [] && v.returnType.None?)
    decreases t, 1
  {
    match Field(t, "body")
    case None =>
    case Some(b) => EmitInQualified(d, b, |b.children|, Some(name), fp);
  }

  lemma {:induction false} EmitInQualified(d: Dialect, t: Tree, k: nat, parent: Option<string>, fp: string)
    requires k <= |t.children|
    ensures forall v :: v in EmitIn(d, t, k, parent, fp) ==>
              Qualified(v, fp) && v.language == Java && (v.kind.IsType() ==> v.calls == [] && v.returnType.None?)
    decreases t, 0, k
  {
    if k > 0 {
      EmitInQualified(d, t, k - 1, parent, fp);
      EmitQualified(d, t.children[k - 1], parent, fp);
    }
  }

  /** Every recorded call target lies in the calling file. */
  lemma {:induction false} CallsInFile(t: Tree, parent: Option<string>, fp: string)
    ensures forall c :: c in Calls(t, parent, fp) ==> StartsWith(c, fp + "::")
    decreases t, 1
  {
    CallsInInFile(t, |t.children|, parent, fp);
  }

  lemma {:induction false} CallsInInFile(t: Tree, k: nat, parent: Option<string>, fp: string)
    requires k <= |t.children|
    ensures forall c :: c in CallsIn(t, k, parent, fp) ==> StartsWith(c, fp + "::")
    decreases t, 0, k
  {
    if k > 0 {
      CallsInInFile(t, k - 1, parent, fp);
      CallsInFile(t.children[k - 1], parent, fp);
    }
  }

  /** A record is produced for a type declaration only in the dialect that
      recognises its node type: the single-file scanner's walk treats an enum
      or interface declaration as a plain node and walks its children with the
      enclosing class unchanged. */
  lemma MonolithIgnoresEnums(t: Tree, parent: Option<string>, fp: string)
    requires t.kind == "enum_declaration" || t.kind == "interface_declaration"
    ensures Emit(Monolith, t, parent, fp) == EmitIn(Monolith, t, |t.children|, parent, fp)
    ensures Field(t, "name").Some? ==> |Emit(Modular, t, parent, fp)| >= 1 && Emit(Modular, t, parent, fp)[0].kind.IsType()
  {
  }

  /** In the single-file scanner's dialect, a top-level enum holding a method
      m (in its body's declarations) yields just the function `filepath::m`. */
  lemma MonolithEnumMethod(root: Tree, fp: string)
    requires root.kind == "program" && |root.children| == 1
    requires var e := root.children[0];
      && e.kind == "enum_declaration" && |e.children| == 1
      && e.children[0].kind == "enum_body" && |e.children[0].children| == 1
      && e.children[0].children[0].kind == "enum_body_declarations" && |e.children[0].children[0].children| == 1
      && e.children[0].children[0].children[0].kind == "method_declaration"
      && Field(e.children[0].children[0].children[0], "name").Some?
    ensures var m := root.children[0].children[0].children[0].children[0];
      && |Emit(Monolith, root, None, fp)| == 1
      && Emit(Monolith, root, None, fp)[0].kind == Function
      && Emit(Monolith, root, None, fp)[0].fullPath == Some(PathKey(fp, Field(m, "name").value.text))
  {
    var e := root.children[0];
    var body := e.children[0];
    var decls := body.children[0];
    var m := decls.children[0];
    var v := MethodView(m, Field(m, "name").value.text, None, fp);
    assert EmitIn(Monolith, decls, 1, None, fp) == [v];
    assert Emit(Monolith, decls, None, fp) == [v];
    assert EmitIn(Monolith, body, 1, None, fp) == [v];
    assert Emit(Monolith, body, None, fp) == [v];
    assert EmitIn(Monolith, e, 1, None, fp) == [v];
    assert Emit(Monolith, e, None, fp) == [v];
    assert EmitIn(Monolith, root, 1, None, fp) == [v];
  }

  // ----- the extractor -----

  /** `find_calls`'s inner walk: appends what the subtree records to `acc`. */
  method CallsWalk(t: Tree, parent: Option<string>, fp: string, acc: seq<string>) returns (calls: seq<string>)
    ensures calls == acc + Calls(t, parent, fp)
    decreases t
  {
    calls := acc;
    var target := CallTarget(t, parent, fp);
    if target.Some? {
      calls := calls + [target.value];
    }
    var i := 0;
    while i < |t.children|
      invariant 0 <= i <= |t.children|
      invariant calls == acc + (if target.Some? then [target.value] else []) + CallsIn(t, i, parent, fp)
    {
      calls := CallsWalk(t.children[i], parent, fp, calls);
      i := i + 1;
    }
  }

  /** `JavaExtractor.find_calls` (and `_find_calls_java`). */
  method FindCalls(t: Tree, parent: Option<string>, fp: string) returns (calls: seq<string>)
    ensures calls == Calls(t, parent, fp)
  {
    calls := CallsWalk(t, parent, fp, []);
  }

  /** The node `walk` builds for a type declaration named `name`. */
  method NewType(t: Tree, kind: Kind, name: string, fp: string) returns (node: SemanticNode)
    ensures fresh(node) && node.View() == TypeView(t, kind, name, fp)
  {
    node := NewTypeNode(name, kind, StartLine(t), EndLine(t), fp, Java);
  }

  /** The parameter loop: appends the parameter names of `t` to the node's list. */
  method AddParams(node: SemanticNode, t: Tree)
    modifies node
    ensures node.View() == old(node.View()).(parameters := old(node.parameters) + Params(t))
  {
    var paramsNode := Field(t, "parameters");
    if paramsNode.Some? {
      var ps := paramsNode.value.children;
      ghost var v := node.View();
      var i := 0;
      while i < |ps|
        invariant 0 <= i <= |ps|
        invariant node.View() == v.(parameters := v.parameters + ParamsIn(ps[..i]))
      {
        assert ps[..i + 1][..i] == ps[..i];
        if ps[i].kind == "formal_parameter" {
          var paramName := Field(ps[i], "name");
          if paramName.Some? {
            node.parameters := node.parameters + [paramName.value.text];
          }
        }
        i := i + 1;
      }
      assert ps[..|ps|] == ps;
    } else {
      assert node.parameters + [] == node.parameters;
    }
  }

  /** The node `walk` builds for a method_declaration named `name`. */
  method NewMethod(t: Tree, name: string, parent: Option<string>, fp: string) returns (node: SemanticNode)
    ensures fresh(node) && node.View() == MethodView(t, name, parent, fp)
  {
    node := NewCallableNode(name, parent, StartLine(t), EndLine(t), fp, Java);
    AddParams(node, t);
    var typeNode := Field(t, "type");
    if typeNode.Some? {
      node.returnType := Some(typeNode.value.text);
    }
    node.calls := FindCalls(t, parent, fp);
  }

  /** `walk(node, parent_class)` inside `JavaExtractor.extract` (and `_extract_java`). */
  method Walk(reg: Registry, d: Dialect, t: Tree, parent: Option<string>, fp: string) returns (ghost added: seq<SemanticNode>)
    requires reg.Valid()
    modifies reg
    ensures forall n :: n in added ==> fresh(n)
    ensures reg.Valid()
    ensures reg.nodes == old(reg.nodes) + added && |added| == |Emit(d, t, parent, fp)|
    ensures reg.views == old(reg.views) + Emit(d, t, parent, fp)
    ensures reg.nodeMap == Register(old(reg.nodeMap), added, Emit(d, t, parent, fp))
    decreases t, 3
  {
    added := [];
    var typeKind := TypeKind(d, t.kind);
    if typeKind.Some? {
      var nameNode := Field(t, "name");
      if nameNode.None? {
        return;
      }
      assert Emit(d, t, parent, fp) == [TypeView(t, typeKind.value, nameNode.value.text, fp)] + BodyEmit(d, t, nameNode.value.text, fp);
      added := WalkType(reg, d, t, typeKind.value, nameNode.value.text, fp);
    } else if t.kind == "method_declaration" {
      var nameNode := Field(t, "name");
      if nameNode.None? {
        return;
      }
      assert Emit(d, t, parent, fp) == [MethodView(t, nameNode.value.text, parent, fp)];
      added := WalkMethod(reg, t, nameNode.value.text, parent, fp);
    } else {
      added := WalkChildren(reg, d, t, parent, fp);
    }
  }

  /** `walk` on a named method_declaration: one node, not descended into. */
  method WalkMethod(reg: Registry, t: Tree, name: string, parent: Option<string>, fp: string) returns (ghost added: seq<SemanticNode>)
    requires reg.Valid()
    modifies reg
    ensures forall n :: n in added ==> fresh(n)
    ensures reg.Valid()
    ensures reg.nodes == old(reg.nodes) + added && |added| == 1
    ensures reg.views == old(reg.views) + [MethodView(t, name, parent, fp)]
    ensures reg.nodeMap == Register(old(reg.nodeMap), added, [MethodView(t, name, parent, fp)])
  {
    var node := NewMethod(t, name, parent, fp);
    reg.Add(node);
    added := [node];
  }

  /** `walk` on a named type declaration: the type node, then the children of
      its body walked with the type as parent. */
  method WalkType(reg: Registry, d: Dialect, t: Tree, kind: Kind, name: string, fp: string) returns (ghost added: seq<SemanticNode>)
    requires reg.Valid()
    modifies reg
    ensures forall n :: n in added ==> fresh(n)
    ensures reg.Valid()
    ensures reg.nodes == old(reg.nodes) + added
    ensures reg.views == old(reg.views) + [TypeView(t, kind, name, fp)] + BodyEmit(d, t, name, fp)
    ensures reg.nodeMap == Register(old(reg.nodeMap), added, [TypeView(t, kind, name, fp)] + BodyEmit(d, t, name, fp))
    decreases t, 2
  {
    var node := NewType(t, kind, name, fp);
    reg.Add(node);
    ghost var more: seq<SemanticNode> := [];
    var body := Field(t, "body");
    if body.Some? {
      more := WalkChildren(reg, d, body.value, Some(name), fp);
    }
    Grow(old(reg.nodes), old(reg.views), old(reg.nodeMap), [node], [TypeView(t, kind, name, fp)],
         more, BodyEmit(d, t, name, fp));
    added := [node] + more;
  }

  /** The `for child in node.children: walk(child, parent_class)` loop. */
  method WalkChildren(reg: Registry, d: Dialect, t: Tree, parent: Option<string>, fp: string) returns (ghost added: seq<SemanticNode>)
    requires reg.Valid()
    modifies reg
    ensures forall n :: n in added ==> fresh(n)
    ensures reg.Valid()
    ensures reg.nodes == old(reg.nodes) + added && |added| == |EmitIn(d, t, |t.children|, parent, fp)|
    ensures reg.views == old(reg.views) + EmitIn(d, t, |t.children|, parent, fp)
    ensures reg.nodeMap == Register(old(reg.nodeMap), added, EmitIn(d, t, |t.children|, parent, fp))
    decreases t, 0
  {
    added := [];
    ghost var emitted := [];
    var i := 0;
    while i < |t.children|
      invariant 0 <= i <= |t.children|
      invariant emitted == EmitIn(d, t, i, parent, fp)
      invariant reg.Valid()
      invariant |added| == |emitted|
      invariant forall n :: n in added ==> fresh(n)
      invariant reg.nodes == old(reg.nodes) + added
      invariant reg.views == old(reg.views) + emitted
      invariant reg.nodeMap == Register(old(reg.nodeMap), added, emitted)
    {
      ghost var e := Emit(d, t.children[i], parent, fp);
      var more := Walk(reg, d, t.children[i], parent, fp);
      Grow(old(reg.nodes), old(reg.views), old(reg.nodeMap), added, emitted, more, e);
      added, emitted := added + more, emitted + e;
      i := i + 1;
    }
  }

  /** `JavaExtractor.extract(tree, filepath)`: walks from the root with no
      enclosing type and returns the extractor's whole accumulated list. */
  method Extract(reg: Registry, root: Tree, fp: string) returns (nodes: seq<SemanticNode>)
    requires reg.Valid()
    modifies reg
    ensures reg.Valid() && nodes == reg.nodes
    ensures |old(reg.nodes)| <= |nodes| && nodes[..|old(reg.nodes)|] == old(reg.nodes)
    ensures reg.views == old(reg.views) + Emit(Modular, root, None, fp)
    ensures reg.nodeMap == Register(old(reg.nodeMap), nodes[|old(reg.nodes)|..], Emit(Modular, root, None, fp))
  {
    ghost var added := Walk(reg, Modular, root, None, fp);
    nodes := reg.nodes;
    assert nodes[|old(reg.nodes)|..] == added;
  }
}
