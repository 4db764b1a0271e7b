/** CExtractor: function definitions of a C parse tree. Every record is a
    plain function keyed by its bare name, and the walk descends into a
    function's own subtree after recording it. */
module CExtractor {
  import opened Text
  import opened SyntaxTree
  import opened SemanticNodes

  // ----- declarator helpers -----

  /** `_get_function_name`: the identifier of a function declarator, or the
      declarator itself when it is an identifier. */
  function FunctionName(dcl: Tree): (r: Option<string>)
    ensures r.Some? <==>
              dcl.kind == "identifier"
              || (dcl.kind == "function_declarator" && Field(dcl, "declarator").Some?
                  && Field(dcl, "declarator").value.kind == "identifier")
    ensures r.Some? && dcl.kind == "identifier" ==> r.value == dcl.text
    ensures r.Some? && dcl.kind == "function_declarator" ==> r.value == Field(dcl, "declarator").value.text
  {
    if dcl.kind == "function_declarator" then
      match Field(dcl, "declarator")
      case Some(inner) => if inner.kind == "identifier" then Some(inner.text) else None
      case None => None
    else if dcl.kind == "identifier" then Some(dcl.text)
    else None
  }

  /** The name a parameter_declaration contributes: its declarator, when
      that is a plain identifier. */
  function ParamName(p: Tree): Option<string>
  {
    if p.kind != "parameter_declaration" then None
    else
      match Field(p, "declarator")
      case Some(decl) => if decl.kind == "identifier" then Some(decl.text) else None
      case None => None
  }

  function ParamsIn(ps: seq<Tree>): seq<string>
  {
    if ps == [] then []
    else
      ParamsIn(ps[..|ps| - 1])
      + (if ParamName(ps[|ps| - 1]).Some? then [ParamName(ps[|ps| - 1]).value] else [])
  }

  /** `_get_parameters`' result for a declarator. */
  function DeclaratorParams(dcl: Tree): seq<string>
  {
    if dcl.kind != "function_declarator" then []
    else
      match Field(dcl, "parameters")
      case None => []
      case Some(pl) => ParamsIn(pl.children)
  }

  /** Every recorded parameter name is the text of some parameter
      declaration's identifier declarator, and there are no more names than
      children. */
  lemma {:induction false} ParamsInNames(ps: seq<Tree>)
    ensures |ParamsIn(ps)| <= |ps|
    ensures forall x :: x in ParamsIn(ps) ==> exists p :: p in ps && ParamName(p) == Some(x)
  {
    if ps != [] {
      ParamsInNames(ps[..|ps| - 1]);
      var last := ps[|ps| - 1];
      forall x | x in ParamsIn(ps)
        ensures exists p :: p in ps && ParamName(p) == Some(x)
      {
        if x in ParamsIn(ps[..|ps| - 1]) {
          var p :| p in ps[..|ps| - 1] && ParamName(p) == Some(x);
          assert p in ps;
        } else {
          assert ParamName(last) == Some(x);
          assert last in ps;
        }
      }
    }
  }

  /** `_get_parameters(declarator)`. */
  method GetParameters(dcl: Tree) returns (params: seq<string>)
    ensures params == DeclaratorParams(dcl)
  {
    params := [];
    if dcl.kind == "function_declarator" {
      var paramList := Field(dcl, "parameters");
      if paramList.Some? {
        var ps := paramList.value.children;
        var i := 0;
        while i < |ps|
          invariant 0 <= i <= |ps|
          invariant params == ParamsIn(ps[..i])
        {
          assert ps[..i + 1][..i] == ps[..i];
          if ps[i].kind == "parameter_declaration" {
            var decl := Field(ps[i], "declarator");
            if decl.Some? && decl.value.kind == "identifier" {
              params := params + [decl.value.text];
            }
          }
          i := i + 1;
        }
        assert ps[..|ps|] == ps;
      }
    }
  }

  // ----- specification: what the walk emits and what find_calls records -----

  /** The path find_calls records for one node: a call whose callee is a
      plain identifier resolves in the calling file. */
  function CallTarget(t: Tree, fp: string): Option<string>
  {
    if t.kind != "call_expression" then None
    else
      match Field(t, "function")
      case Some(f) => if f.kind == "identifier" then Some(PathKey(fp, f.text)) else None
      case None => None
  }

  function Calls(t: Tree, fp: string): seq<string>
    decreases t, 1
  {
    (if CallTarget(t, fp).Some? then [CallTarget(t, fp).value] else []) + CallsIn(t, |t.children|, fp)
  }

  function CallsIn(t: Tree, k: nat, fp: string): seq<string>
    requires k <= |t.children|
    decreases t, 0, k
  {
    if k == 0 then [] else CallsIn(t, k - 1, fp) + Calls(t.children[k - 1], fp)
  }

  /** The record a function_definition `t` with declarator `dcl` named `name`
      produces. */
  function FunctionView(t: Tree, dcl: Tree, name: string, fp: string): NodeView
  {
    CallableRecord(name, None, StartLine(t), EndLine(t), fp, C)
      .(calls := Calls(t, fp), parameters := DeclaratorParams(dcl), returnType := TextOf(Field(t, "type")))
  }

  /** The record `t` itself contributes, if `walk` records one there. */
  function Own(t: Tree, fp: string): Option<NodeView>
  {
    if t.kind != "function_definition" then None
    else
      match Field(t, "declarator")
      case None => None
      case Some(dcl) =>
        if Truthy(FunctionName(dcl)) then Some(FunctionView(t, dcl, FunctionName(dcl).value, fp)) else None
  }

  /** A function_definition without a declarator or a name ends the walk
      there: its subtree is not visited. */
  predicate Stops(t: Tree)
  {
    t.kind == "function_definition"
    && (Field(t, "declarator").None? || !Truthy(FunctionName(Field(t, "declarator").value)))
  }

  /** The records `walk(t)` appends, in order. */
  function Emit(t: Tree, fp: string): seq<NodeView>
    decreases t, 1
  {
    if Stops(t) then []
    else (if Own(t, fp).Some? then [Own(t, fp).value] else []) + EmitIn(t, |t.children|, fp)
  }

  function EmitIn(t: Tree, k: nat, fp: string): seq<NodeView>
    requires k <= |t.children|
    decreases t, 0, k
  {
    if k == 0 then [] else EmitIn(t, k - 1, fp) + Emit(t.children[k - 1], fp)
  }

  // ----- properties of the specification -----

  /** Every C record is a plain function named by its path key, with no
      owning class. */
  lemma {:induction false} EmitQualified(t: Tree, fp: string)
    ensures forall v :: v in Emit(t, fp) ==>
              Qualified(v, fp) && v.kind == Function && v.parentClass.None? && v.language == C
              && v.fullPath == Some(PathKey(fp, v.name)) && v.name != ""
    decreases t, 1
  {
    if !Stops(t) {
      EmitInQualified(t, |t.children|, fp);
    }
  }

  lemma {:induction false} EmitInQualified(t: Tree, k: nat, fp: string)
    requires k <= |t.children|
    ensures forall v :: v in EmitIn(t, k, fp) ==>
              Qualified(v, fp) && v.kind == Function && v.parentClass.None? && v.language == C
              && v.fullPath == Some(PathKey(fp, v.name)) && v.name != ""
    decreases t, 0, k
  {
    if k > 0 {
      EmitInQualified(t, k - 1, fp);
      EmitQualified(t.children[k - 1], fp);
    }
  }

  /** Every recorded call target lies in the calling file. */
  lemma {:induction false} CallsInFile(t: Tree, fp: string)
    ensures forall c :: c in Calls(t, fp) ==> StartsWith(c, fp + "::")
    decreases t, 1
  {
    CallsInInFile(t, |t.children|, fp);
  }

  lemma {:induction false} CallsInInFile(t: Tree, k: nat, fp: string)
    requires k <= |t.children|
    ensures forall c :: c in CallsIn(t, k, fp) ==> StartsWith(c, fp + "::")
    decreases t, 0, k
  {
    if k > 0 {
      CallsInInFile(t, k - 1, fp);
      CallsInFile(t.children[k - 1], fp);
    }
  }

  /** Whatever a child's walk records, the walk over the first `k` children
      records too. */
  lemma {:induction false} EmitInHasChild(t: Tree, k: nat, i: nat, fp: string)
    requires i < k <= |t.children|
    ensures forall v :: v in Emit(t.children[i], fp) ==> v in EmitIn(t, k, fp)
    decreases k
  {
    if i < k - 1 {
      EmitInHasChild(t, k - 1, i, fp);
    }
  }

  /** The C walk keeps descending after recording a function: a named
      function definition nested directly inside another is recorded too,
      after the outer one. */
  lemma NestedDefinitions(outer: Tree, i: nat, fp: string)
    requires Own(outer, fp).Some? && i < |outer.children| && Own(outer.children[i], fp).Some?
    ensures Emit(outer, fp)[0] == Own(outer, fp).value
    ensures Own(outer.children[i], fp).value in Emit(outer, fp)[1..]
  {
    var inner := outer.children[i];
    assert Emit(inner, fp)[0] == Own(inner, fp).value;
    EmitInHasChild(outer, |outer.children|, i, fp);
    assert Emit(outer, fp)[1..] == EmitIn(outer, |outer.children|, fp);
  }

  // ----- the extractor -----

  method CallsWalk(t: Tree, fp: string, acc: seq<string>) returns (calls: seq<string>)
    ensures calls == acc + Calls(t, fp)
    decreases t
  {
    calls := acc;
    var target := CallTarget(t, fp);
    if target.Some? {
      calls := calls + [target.value];
    }
    var i := 0;
    while i < |t.children|
      invariant 0 <= i <= |t.children|
      invariant calls == acc + (if target.Some? then [target.value] else []) + CallsIn(t, i, fp)
    {
      calls := CallsWalk(t.children[i], fp, calls);
      i := i + 1;
    }
  }

  /** `CExtractor.find_calls` (and `_find_calls_c`); the context argument is
      always None and unused. */
  method FindCalls(t: Tree, fp: string) returns (calls: seq<string>)
    ensures calls == Calls(t, fp)
  {
    calls := CallsWalk(t, fp, []);
  }

  /** The node `walk` builds for a named function_definition. */
  method NewFunction(t: Tree, dcl: Tree, name: string, fp: string) returns (node: SemanticNode)
    ensures fresh(node) && node.View() == FunctionView(t, dcl, name, fp)
  {
    node := NewCallableNode(name, None, StartLine(t), EndLine(t), fp, C);
    node.parameters := GetParameters(dcl);
    var typeNode := Field(t, "type");
    if typeNode.Some? {
      node.returnType := Some(typeNode.value.text);
    }
    node.calls := FindCalls(t, fp);
  }

  /** `walk(node)` inside `CExtractor.extract` (and `_extract_c`). */
  method Walk(reg: Registry, t: Tree, fp: string) returns (ghost added: seq<SemanticNode>)
    requires reg.Valid()
    modifies reg
    ensures forall n :: n in added ==> fresh(n)
    ensures reg.Valid()
    ensures reg.nodes == old(reg.nodes) + added && |added| == |Emit(t, fp)|
    ensures reg.views == old(reg.views) + Emit(t, fp)
    ensures reg.nodeMap == Register(old(reg.nodeMap), added, Emit(t, fp))
    decreases t, 1
  {
    added := [];
    ghost var own: seq<NodeView> := [];
    if t.kind == "function_definition" {
      var declarator := Field(t, "declarator");
      if declarator.None? {
        return;
      }
      var funcName := FunctionName(declarator.value);
      if !Truthy(funcName) {
        return;
      }
      var node := NewFunction(t, declarator.value, funcName.value, fp);
      reg.Add(node);
      added, own := [node], [node.Core()];
    }
    assert !Stops(t) && own == (if Own(t, fp).Some? then [Own(t, fp).value] else []);
    ghost var more := WalkChildren(reg, t, fp);
    Grow(old(reg.nodes), old(reg.views), old(reg.nodeMap), added, own, more, EmitIn(t, |t.children|, fp));
    added := added + more;
  }

  /** The `for child in node.children: walk(child)` loop. */
  method WalkChildren(reg: Registry, t: Tree, fp: string) returns (ghost added: seq<SemanticNode>)
    requires reg.Valid()
    modifies reg
    ensures forall n :: n in added ==> fresh(n)
    ensures reg.Valid()
    ensures reg.nodes == old(reg.nodes) + added && |added| == |EmitIn(t, |t.children|, fp)|
    ensures reg.views == old(reg.views) + EmitIn(t, |t.children|, fp)
    ensures reg.nodeMap == Register(old(reg.nodeMap), added, EmitIn(t, |t.children|, fp))
    decreases t, 0
  {
    added := [];
    ghost var emitted := [];
    var i := 0;
    while i < |t.children|
      invariant 0 <= i <= |t.children|
      invariant emitted == EmitIn(t, i, fp)
      invariant reg.Valid()
      invariant |added| == |emitted|
      invariant forall n :: n in added ==> fresh(n)
      invariant reg.nodes == old(reg.nodes) + added
      invariant reg.views == old(reg.views) + emitted
      invariant reg.nodeMap == Register(old(reg.nodeMap), added, emitted)
    {
      ghost var e := Emit(t.children[i], fp);
      var more := Walk(reg, t.children[i], fp);
      Grow(old(reg.nodes), old(reg.views), old(reg.nodeMap), added, emitted, more, e);
      added, emitted := added + more, emitted + e;
      i := i + 1;
    }
  }

  /** `CExtractor.extract(tree, filepath)`: walks from the root and returns
      the extractor's whole accumulated list. */
  method Extract(reg: Registry, root: Tree, fp: string) returns (nodes: seq<SemanticNode>)
    requires reg.Valid()
    modifies reg
    ensures reg.Valid() && nodes == reg.nodes
    ensures |old(reg.nodes)| <= |nodes| && nodes[..|old(reg.nodes)|] == old(reg.nodes)
    ensures reg.views == old(reg.views) + Emit(root, fp)
    ensures reg.nodeMap == Register(old(reg.nodeMap), nodes[|old(reg.nodes)|..], Emit(root, fp))
  {
    ghost var added := Walk(reg, root, fp);
    nodes := reg.nodes;
    assert nodes[|old(reg.nodes)|..] == added;
  }
}
