/** NodeSearch: look nodes up by name among those of a family of kinds. The
    single-file scanner's search_function and search_class are the same
    loop over its own nodes list. */
module NodeSearch {
  import opened SemanticNodes

  /** `node_type in ['function', 'method']` */
  const CallableKinds: set<Kind> := {Function, Method}
  /** `node_type in ['class', 'enum', 'interface']` */
  const TypeKinds: set<Kind> := {Class, Enum, Interface}
  /** `node_type == 'class'` */
  const ClassKinds: set<Kind> := {Class}

  predicate Hit(n: SemanticNode, name: string, kinds: set<Kind>)
    reads n
  {
    n.name == name && n.kind in kinds
  }

  /** The nodes of `nodes` named `name` with a kind in `kinds`, in list order
      (a node listed twice is found twice). */
  function Found(nodes: seq<SemanticNode>, name: string, kinds: set<Kind>): seq<SemanticNode>
    reads set n | n in nodes
  {
    if nodes == [] then []
    else
      var last := nodes[|nodes| - 1];
      Found(nodes[..|nodes| - 1], name, kinds) + (if Hit(last, name, kinds) then [last] else [])
  }

  /** A node is found exactly when it is listed with that name and a kind of
      the family. */
  lemma {:induction false} FoundMember(nodes: seq<SemanticNode>, name: string, kinds: set<Kind>, x: SemanticNode)
    ensures x in Found(nodes, name, kinds) <==> x in nodes && Hit(x, name, kinds)
  {
    if nodes != [] {
      var init := nodes[..|nodes| - 1];
      FoundMember(init, name, kinds, x);
      assert nodes == init + [nodes[|nodes| - 1]];
    }
  }

  /** Searching a concatenation is searching each part in turn, so results
      keep list order. */
  lemma {:induction false} FoundAppend(a: seq<SemanticNode>, b: seq<SemanticNode>, name: string, kinds: set<Kind>)
    ensures Found(a + b, name, kinds) == Found(a, name, kinds) + Found(b, name, kinds)
    decreases |b|
  {
    if b == [] {
      assert a + b == a;
    } else {
      assert (a + b)[..|a + b| - 1] == a + b[..|b| - 1];
      FoundAppend(a, b[..|b| - 1], name, kinds);
    }
  }

  /** Never more results than nodes; every result is a hit. */
  lemma {:induction false} FoundBounded(nodes: seq<SemanticNode>, name: string, kinds: set<Kind>)
    ensures |Found(nodes, name, kinds)| <= |nodes|
    ensures forall j :: 0 <= j < |Found(nodes, name, kinds)| ==> Hit(Found(nodes, name, kinds)[j], name, kinds)
  {
    if nodes != [] {
      FoundBounded(nodes[..|nodes| - 1], name, kinds);
    }
  }

  /** A function search and a type search never share a result. */
  lemma CallablesAreNotTypes(nodes: seq<SemanticNode>, name: string, x: SemanticNode)
    ensures !(x in Found(nodes, name, CallableKinds) && x in Found(nodes, name, TypeKinds))
  {
    FoundMember(nodes, name, CallableKinds, x);
    FoundMember(nodes, name, TypeKinds, x);
  }

  /** The shared loop: `for node in nodes: if <hit>: results.append(node)`. */
  method Search(nodes: seq<SemanticNode>, name: string, kinds: set<Kind>) returns (results: seq<SemanticNode>)
    ensures results == Found(nodes, name, kinds)
  {
    results := [];
    var i := 0;
    while i < |nodes|
      invariant 0 <= i <= |nodes|
      invariant results == Found(nodes[..i], name, kinds)
    {
      assert nodes[..i + 1][..i] == nodes[..i];
      if nodes[i].name == name && nodes[i].kind in kinds {
        results := results + [nodes[i]];
      }
      i := i + 1;
    }
    assert nodes[..|nodes|] == nodes;
  }

  /** `NodeSearch.search_function(nodes, func_name)` */
  method SearchFunction(nodes: seq<SemanticNode>, funcName: string) returns (results: seq<SemanticNode>)
    ensures results == Found(nodes, funcName, CallableKinds)
  {
    results := Search(nodes, funcName, CallableKinds);
  }

  /** `NodeSearch.search_type(nodes, type_name)` */
  method SearchType(nodes: seq<SemanticNode>, typeName: string) returns (results: seq<SemanticNode>)
    ensures results == Found(nodes, typeName, TypeKinds)
  {
    results := Search(nodes, typeName, TypeKinds);
  }
}
