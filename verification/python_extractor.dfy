/** PythonExtractor: class and function definitions of a Python parse tree. */
module PythonExtractor {
  import opened Text
  import opened SyntaxTree
  import opened SemanticNodes

  // ----- specification: what the walk emits and what find_calls records -----

  /** The path find_calls records for one node, if it is a call it recognises. */
  function CallTarget(t: Tree, parent: Option<string>, fp: string): Option<string>
  {
    if t.kind != "call" then None
    else
      match Field(t, "function")
      case None => None
      case Some(f) =>
        if f.kind == "identifier" then Some(PathKey(fp, f.text))
        else if f.kind == "attribute" then
          match (Field(f, "object"), Field(f, "attribute"))
          case (Some(obj), Some(attr)) =>
            if obj.text == "self" && Truthy(parent) then Some(PathKey(fp, Dotted(parent.value, attr.text)))
            else if parent == Some(obj.text) then Some(PathKey(fp, Dotted(parent.value, attr.text)))
            else Some(PathKey(fp, Dotted(obj.text, attr.text)))
          case _ => None
        else None
  }

  /** The calls recorded over `t`'s whole subtree, in pre-order. */
  function Calls(t: Tree, parent: Option<string>, fp: string): seq<string>
    decreases t, 1
  {
    (if CallTarget(t, parent, fp).Some? then [CallTarget(t, parent, fp).value] else [])
    + CallsIn(t, |t.children|, parent, fp)
  }

  /** The calls recorded over the first `k` children of `t`. */
  function CallsIn(t: Tree, k: nat, parent: Option<string>, fp: string): seq<string>
    requires k <= |t.children|
    decreases t, 0, k
  {
    if k == 0 then [] else CallsIn(t, k - 1, parent, fp) + Calls(t.children[k - 1], parent, fp)
  }

  /** Texts of the direct `identifier` children of the parameters node, in order. */
  function ParamsIn(ps: seq<Tree>): seq<string>
  {
    if ps == [] then []
    else ParamsIn(ps[..|ps| - 1]) + (if ps[|ps| - 1].kind == "identifier" then [ps[|ps| - 1].text] else [])
  }

  function Params(t: Tree): seq<string>
  {
    match Field(t, "parameters")
    case None => []
    case Some(p) => ParamsIn(p.children)
  }

  /** The record a named class_definition produces. */
  function ClassView(t: Tree, name: string, fp: string): NodeView
  {
    TypeRecord(name, Class, StartLine(t), EndLine(t), fp, Python)
  }

  /** The record a named function_definition produces inside `parent`. */
  function FunctionView(t: Tree, name: string, parent: Option<string>, fp: string): NodeView
  {
    CallableRecord(name, parent, StartLine(t), EndLine(t), fp, Python).(calls := Calls(t, parent, fp), parameters := Params(t))
  }

  /** The records `walk(t, parent)` appends, in order. */
  function Emit(t: Tree, parent: Option<string>, fp: string): seq<NodeView>
    decreases t, 1
  {
    if t.kind == "class_definition" then
      match Field(t, "name")
      case None => []
      case Some(n) => [ClassView(t, n.text, fp)] + EmitIn(t, |t.children|, Some(n.text), fp)
    else if t.kind == "function_definition" then
      match Field(t, "name")
      case None => []
      case Some(n) => [FunctionView(t, n.text, parent, fp)]
    else EmitIn(t, |t.children|, parent, fp)
  }

  /** The records the walk appends over the first `k` children of `t`. */
  function EmitIn(t: Tree, k: nat, parent: Option<string>, fp: string): seq<NodeView>
    requires k <= |t.children|
    decreases t, 0, k
  {
    if k == 0 then [] else EmitIn(t, k - 1, parent, fp) + Emit(t.children[k - 1], parent, fp)
  }

  // ----- properties of the specification -----

  /** Every record the walk emits follows the path-key discipline, is tagged
      Python, is a class, function or method, and has no return type. */
  lemma {:induction false} EmitQualified(t: Tree, parent: Option<string>, fp: string)
    ensures forall v :: v in Emit(t, parent, fp) ==>
              Qualified(v, fp) && v.language == Python && v.kind in {Class, Function, Method} && v.returnType.None?
    decreases t, 1
  {
    if t.kind == "class_definition" {
      match Field(t, "name")
      case None =>
      case Some(n) => EmitInQualified(t, |t.children|, Some(n.text), fp);
    } else if t.kind != "function_definition" {
      EmitInQualified(t, |t.children|, parent, fp);
    }
  }

  lemma {:induction false} EmitInQualified(t: Tree, k: nat, parent: Option<string>, fp: string)
    requires k <= |t.children|
    ensures forall v :: v in EmitIn(t, k, parent, fp) ==>
              Qualified(v, fp) && v.language == Python && v.kind in {Class, Function, Method} && v.returnType.None?
    decreases t, 0, k
  {
    if k > 0 {
      EmitInQualified(t, k - 1, parent, fp);
      EmitQualified(t.children[k - 1], parent, fp);
    }
  }

  /** Every recorded call target lies in the calling file: it starts with `filepath::`. */
  lemma {:induction false} CallsInFile(t: Tree, parent: Option<string>, fp: string)
    ensures forall c :: c in Calls(t, parent, fp) ==> StartsWith(c, fp + "::")
    decreases t, 1
  {
    CallsInInFile(t, |t.children|, parent, fp);
  }

  lemma {:induction false} CallsInInFile(t: Tree, k: nat, parent: Option<string>, fp: string)
    requires k <= |t.children|
    ensures forall c :: c in CallsIn(t, k, parent, fp) ==> StartsWith(c, fp + "::")
    decreases t, 0, k
  {
    if k > 0 {
      CallsInInFile(t, k - 1, parent, fp);
      CallsInFile(t.children[k - 1], parent, fp);
    }
  }

  /** A bare call `f(...)` is recorded as `filepath::f` whatever the enclosing
      class; `self.m(...)` inside class C, or `C.m(...)`, as `filepath::C.m`;
      any other `o.m(...)` as `filepath::o.m`. */
  lemma CallTargetCases(t: Tree, parent: Option<string>, fp: string)
    requires t.kind == "call" && Field(t, "function").Some?
    ensures var f := Field(t, "function").value;
      && (f.kind == "identifier" ==> CallTarget(t, parent, fp) == Some(PathKey(fp, f.text)))
      && (f.kind == "attribute" && Field(f, "object").Some? && Field(f, "attribute").Some? ==>
            var o, m := Field(f, "object").value.text, Field(f, "attribute").value.text;
            CallTarget(t, parent, fp) ==
              Some(PathKey(fp, Dotted(if (o == "self" && Truthy(parent)) || parent == Some(o) then parent.value else o, m))))
      && (f.kind != "identifier" && f.kind != "attribute" ==> CallTarget(t, parent, fp).None?)
  {
  }

  /** A module holding just one function_definition `f` yields exactly one
      record: the function `filepath::f`. */
  lemma TopLevelFunction(root: Tree, fp: string)
    requires root.kind != "class_definition" && root.kind != "function_definition"
    requires |root.children| == 1 && root.children[0].kind == "function_definition"
    requires Field(root.children[0], "name").Some?
    ensures var name := Field(root.children[0], "name").value.text;
      && |Emit(root, None, fp)| == 1
      && Emit(root, None, fp)[0].kind == Function
      && Emit(root, None, fp)[0].fullPath == Some(PathKey(fp, name))
  {
    assert EmitIn(root, 1, None, fp) == EmitIn(root, 0, None, fp) + Emit(root.children[0], None, fp);
  }

  /** A module holding just a class C whose body holds just a method m yields
      the class `filepath::C`, then the method `filepath::C.m` owned by C. */
  lemma ClassWithMethod(root: Tree, fp: string)
    requires root.kind != "class_definition" && root.kind != "function_definition"
    requires |root.children| == 1
    requires var c := root.children[0];
      && c.kind == "class_definition" && Field(c, "name").Some? && Field(c, "name").value.text != ""
      && |c.children| == 2 && c.children[0].kind == "identifier" && c.children[0].children == []
      && c.children[1].kind == "block" && |c.children[1].children| == 1
      && c.children[1].children[0].kind == "function_definition"
      && Field(c.children[1].children[0], "name").Some?
    ensures var c := root.children[0];
      var cn, mn := Field(c, "name").value.text, Field(c.children[1].children[0], "name").value.text;
      && |Emit(root, None, fp)| == 2
      && Emit(root, None, fp)[0].kind == Class && Emit(root, None, fp)[0].fullPath == Some(PathKey(fp, cn))
      && Emit(root, None, fp)[1].kind == Method && Emit(root, None, fp)[1].parentClass == Some(cn)
      && Emit(root, None, fp)[1].fullPath == Some(PathKey(fp, Dotted(cn, mn)))
  {
    var c := root.children[0];
    var cn := Field(c, "name").value.text;
    var body := c.children[1];
    var m := body.children[0];
    var mn := Field(m, "name").value.text;
    assert Emit(c.children[0], Some(cn), fp) == EmitIn(c.children[0], 0, Some(cn), fp) == [];
    assert EmitIn(body, 1, Some(cn), fp) == Emit(m, Some(cn), fp) == [FunctionView(m, mn, Some(cn), fp)];
    assert Emit(body, Some(cn), fp) == [FunctionView(m, mn, Some(cn), fp)];
    assert EmitIn(c, 2, Some(cn), fp) == EmitIn(c, 1, Some(cn), fp) + Emit(body, Some(cn), fp);
    assert EmitIn(c, 1, Some(cn), fp) == [];
    assert Emit(c, None, fp) == [ClassView(c, cn, fp), FunctionView(m, mn, Some(cn), fp)];
    assert EmitIn(root, 1, None, fp) == Emit(c, None, fp);
  }

  // ----- the extractor -----

  /** `find_calls`'s inner walk: appends what the subtree records to `acc`. */
  method CallsWalk(t: Tree, parent: Option<string>, fp: string, acc: seq<string>) returns (calls: seq<string>)
    ensures calls == acc + Calls(t, parent, fp)
    decreases t
  {
    calls := acc;
    var target := CallTarget(t, parent, fp);
    if target.Some? {
      calls := calls + [target.value];
    }
    var i := 0;
    while i < |t.children|
      invariant 0 <= i <= |t.children|
      invariant calls == acc + (if target.Some? then [target.value] else []) + CallsIn(t, i, parent, fp)
    {
      calls := CallsWalk(t.children[i], parent, fp, calls);
      i := i + 1;
    }
  }

  /** `PythonExtractor.find_calls` */
  method FindCalls(t: Tree, parent: Option<string>, fp: string) returns (calls: seq<string>)
    ensures calls == Calls(t, parent, fp)
  {
    calls := CallsWalk(t, parent, fp, []);
  }

  /** The node `walk` builds for a class_definition named `name`. */
  method NewClass(t: Tree, name: string, fp: string) returns (node: SemanticNode)
    ensures fresh(node) && node.View() == ClassView(t, name, fp)
  {
    node := NewTypeNode(name, Class, StartLine(t), EndLine(t), fp, Python);
  }

  /** The parameter loop: appends the parameter names of `t` to the node's list. */
  method AddParams(node: SemanticNode, t: Tree)
    modifies node
    ensures node.View() == old(node.View()).(parameters := old(node.parameters) + Params(t))
  {
    var paramsNode := Field(t, "parameters");
    if paramsNode.Some? {
      var ps := paramsNode.value.children;
      ghost var v := node.View();
      var i := 0;
      while i < |ps|
        invariant 0 <= i <= |ps|
        invariant node.View() == v.(parameters := v.parameters + ParamsIn(ps[..i]))
      {
        assert ps[..i + 1][..i] == ps[..i];
        if ps[i].kind == "identifier" {
          node.parameters := node.parameters + [ps[i].text];
        }
        i := i + 1;
      }
      assert ps[..|ps|] == ps;
    } else {
      assert node.parameters + [] == node.parameters;
    }
  }

  /** The node `walk` builds for a function_definition named `name`. */
  method NewFunction(t: Tree, name: string, parent: Option<string>, fp: string) returns (node: SemanticNode)
    ensures fresh(node) && node.View() == FunctionView(t, name, parent, fp)
  {
    node := NewCallableNode(name, parent, StartLine(t), EndLine(t), fp, Python);
    AddParams(node, t);
    node.calls := FindCalls(t, parent, fp);
  }

  /** `walk(node, parent_class)` inside `PythonExtractor.extract`: appends
      nodes holding `Emit(t, parent, fp)` to the nodes list, and writes each of
      them into the node map under its full path. */
  method Walk(reg: Registry, t: Tree, parent: Option<string>, fp: string) returns (ghost added: seq<SemanticNode>)
    requires reg.Valid()
    modifies reg
    ensures forall n :: n in added ==> fresh(n)
    ensures reg.Valid()
    ensures reg.nodes == old(reg.nodes) + added && |added| == |Emit(t, parent, fp)|
    ensures reg.views == old(reg.views) + Emit(t, parent, fp)
    ensures reg.nodeMap == Register(old(reg.nodeMap), added, Emit(t, parent, fp))
    decreases t, 2
  {
    added := [];
    if t.kind == "class_definition" {
      var nameNode := Field(t, "name");
      if nameNode.None? {
        assert Emit(t, parent, fp) == [];
        return;
      }
      assert Emit(t, parent, fp) == [ClassView(t, nameNode.value.text, fp)] + EmitIn(t, |t.children|, Some(nameNode.value.text), fp);
      added := WalkClass(reg, t, nameNode.value.text, fp);
    } else if t.kind == "function_definition" {
      var nameNode := Field(t, "name");
      if nameNode.None? {
        assert Emit(t, parent, fp) == [];
        return;
      }
      assert Emit(t, parent, fp) == [FunctionView(t, nameNode.value.text, parent, fp)];
      added := WalkFunction(reg, t, nameNode.value.text, parent, fp);
    } else {
      assert Emit(t, parent, fp) == EmitIn(t, |t.children|, parent, fp);
      added := WalkChildren(reg, t, parent, fp);
    }
  }

  /** `walk` on a function_definition named `name`: one node, and no
      walk below it. */
  method WalkFunction(reg: Registry, t: Tree, name: string, parent: Option<string>, fp: string)
    returns (ghost added: seq<SemanticNode>)
    requires reg.Valid()
    modifies reg
    ensures forall n :: n in added ==> fresh(n)
    ensures reg.Valid()
    ensures reg.nodes == old(reg.nodes) + added && |added| == 1
    ensures reg.views == old(reg.views) + [FunctionView(t, name, parent, fp)]
    ensures reg.nodeMap == Register(old(reg.nodeMap), added, [FunctionView(t, name, parent, fp)])
  {
    var node := NewFunction(t, name, parent, fp);
    reg.Add(node);
    added := [node];
  }

  /** `walk` on a class_definition named `className`: the class node, then
      its children walked with the class as parent. */
  method WalkClass(reg: Registry, t: Tree, className: string, fp: string) returns (ghost added: seq<SemanticNode>)
    requires reg.Valid()
    modifies reg
    ensures forall n :: n in added ==> fresh(n)
    ensures reg.Valid()
    ensures reg.nodes == old(reg.nodes) + added
    ensures reg.views == old(reg.views) + [ClassView(t, className, fp)] + EmitIn(t, |t.children|, Some(className), fp)
    ensures reg.nodeMap == Register(old(reg.nodeMap), added, [ClassView(t, className, fp)] + EmitIn(t, |t.children|, Some(className), fp))
    decreases t, 1
  {
    var node := NewClass(t, className, fp);
    reg.Add(node);
    var more := WalkChildren(reg, t, Some(className), fp);
    RegisterAppend(old(reg.nodeMap), [node], more, [ClassView(t, className, fp)], EmitIn(t, |t.children|, Some(className), fp));
    added := [node] + more;
  }

  /** The `for child in node.children: walk(child, parent_class)` loop. */
  method WalkChildren(reg: Registry, t: Tree, parent: Option<string>, fp: string) returns (ghost added: seq<SemanticNode>)
    requires reg.Valid()
    modifies reg
    ensures forall n :: n in added ==> fresh(n)
    ensures reg.Valid()
    ensures reg.nodes == old(reg.nodes) + added
    ensures reg.views == old(reg.views) + EmitIn(t, |t.children|, parent, fp)
    ensures reg.nodeMap == Register(old(reg.nodeMap), added, EmitIn(t, |t.children|, parent, fp))
    decreases t, 0
  {
    added := [];
    ghost var emitted := [];
    var i := 0;
    while i < |t.children|
      invariant 0 <= i <= |t.children|
      invariant emitted == EmitIn(t, i, parent, fp)
      invariant reg.Valid()
      invariant |added| == |emitted|
      invariant forall n :: n in added ==> fresh(n)
      invariant reg.nodes == old(reg.nodes) + added
      invariant reg.views == old(reg.views) + emitted
      invariant reg.nodeMap == Register(old(reg.nodeMap), added, emitted)
    {
      ghost var e := Emit(t.children[i], parent, fp);
      var more := Walk(reg, t.children[i], parent, fp);
      Grow(old(reg.nodes), old(reg.views), old(reg.nodeMap), added, emitted, more, e);
      added, emitted := added + more, emitted + e;
      i := i + 1;
    }
  }

  /** `PythonExtractor.extract(tree, filepath)`: walks from the root with no
      enclosing class, and returns the extractor's whole accumulated list, so
      that a second call on the same extractor returns the first file's nodes too. */
  method Extract(reg: Registry, root: Tree, fp: string) returns (nodes: seq<SemanticNode>)
    requires reg.Valid()
    modifies reg
    ensures reg.Valid() && nodes == reg.nodes
    ensures |old(reg.nodes)| <= |nodes| && nodes[..|old(reg.nodes)|] == old(reg.nodes)
    ensures reg.views == old(reg.views) + Emit(root, None, fp)
    ensures reg.nodeMap == Register(old(reg.nodeMap), nodes[|old(reg.nodes)|..], Emit(root, None, fp))
  {
    ghost var added := Walk(reg, root, None, fp);
    nodes := reg.nodes;
    assert nodes[|old(reg.nodes)|..] == added;
  }
}
