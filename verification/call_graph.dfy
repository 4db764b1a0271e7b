/** CallGraphBuilder.build_call_graph (and MultiLanguageScanner.build_call_graph):
    for every node in list order and every entry of its calls in order, a
    call entry that is a node_map key appends the caller's full path to the
    target's called_by list. */
module CallGraph {
  import opened Text
  import opened SemanticNodes

  /** What the linker reads from a caller: its calls and its full path. */
  datatype Caller = Caller(calls: seq<string>, path: Option<string>)

  function CallerOf(n: SemanticNode): Caller
    reads n
  {
    Caller(n.calls, n.fullPath)
  }

  function Callers(nodes: seq<SemanticNode>): (r: seq<Caller>)
    reads set n | n in nodes
    ensures |r| == |nodes| && forall i :: 0 <= i < |nodes| ==> r[i] == CallerOf(nodes[i])
  {
    seq(|nodes|, i reads set n | n in nodes requires 0 <= i < |nodes| => CallerOf(nodes[i]))
  }

  /** The caller a recorded view describes. */
  function ViewCaller(v: NodeView): Caller
  {
    Caller(v.calls, v.fullPath)
  }

  function ViewCallers(vs: seq<NodeView>): (r: seq<Caller>)
    ensures |r| == |vs| && forall i :: 0 <= i < |vs| ==> r[i] == ViewCaller(vs[i])
  {
    seq(|vs|, i requires 0 <= i < |vs| => ViewCaller(vs[i]))
  }

  /** What one caller appends to `target.called_by`: its path once per call
      entry that `m` resolves to `target`. */
  function EdgesFrom(calls: seq<string>, path: Option<string>, m: map<string, SemanticNode>, target: SemanticNode): seq<Option<string>>
  {
    if calls == [] then []
    else
      var c := calls[|calls| - 1];
      EdgesFrom(calls[..|calls| - 1], path, m, target) + (if c in m && m[c] == target then [path] else [])
  }

  /** What the whole pass appends to `target.called_by`. */
  function Incoming(cs: seq<Caller>, m: map<string, SemanticNode>, target: SemanticNode): seq<Option<string>>
  {
    if cs == [] then []
    else
      Incoming(cs[..|cs| - 1], m, target) + EdgesFrom(cs[|cs| - 1].calls, cs[|cs| - 1].path, m, target)
  }

  /** A call entry resolves to `target` through `m`. */
  predicate Resolves(m: map<string, SemanticNode>, c: string, target: SemanticNode)
  {
    c in m && m[c] == target
  }

  // ----- properties of the linking specification -----

  lemma {:induction false} EdgesFromMember(calls: seq<string>, path: Option<string>, m: map<string, SemanticNode>, target: SemanticNode)
    ensures EdgesFrom(calls, path, m, target) != [] <==> exists k :: 0 <= k < |calls| && Resolves(m, calls[k], target)
    ensures forall p :: p in EdgesFrom(calls, path, m, target) ==> p == path
  {
    if calls != [] {
      var init := calls[..|calls| - 1];
      EdgesFromMember(init, path, m, target);
      if exists k :: 0 <= k < |init| && Resolves(m, init[k], target) {
        var k :| 0 <= k < |init| && Resolves(m, init[k], target);
        assert calls[k] == init[k];
      }
      if exists k :: 0 <= k < |calls| && Resolves(m, calls[k], target) {
        var k :| 0 <= k < |calls| && Resolves(m, calls[k], target);
        if k < |init| {
          assert init[k] == calls[k];
        }
      }
    }
  }

  /** Every edge into `target` is the path of a caller one of whose call
      entries resolves to `target`. */
  lemma {:induction false} IncomingSound(cs: seq<Caller>, m: map<string, SemanticNode>, target: SemanticNode, p: Option<string>)
    requires p in Incoming(cs, m, target)
    ensures exists i, k :: 0 <= i < |cs| && 0 <= k < |cs[i].calls| && cs[i].path == p && Resolves(m, cs[i].calls[k], target)
  {
    var init := cs[..|cs| - 1];
    var last := cs[|cs| - 1];
    if p in Incoming(init, m, target) {
      IncomingSound(init, m, target, p);
      var i, k :| 0 <= i < |init| && 0 <= k < |init[i].calls| && init[i].path == p && Resolves(m, init[i].calls[k], target);
      assert cs[i] == init[i];
    } else {
      EdgesFromMember(last.calls, last.path, m, target);
      var k :| 0 <= k < |last.calls| && Resolves(m, last.calls[k], target);
      assert cs[|cs| - 1] == last;
    }
  }

  /** A caller with a call entry resolving to `target` leaves its path among
      the edges into `target`. */
  lemma {:induction false} IncomingComplete(cs: seq<Caller>, m: map<string, SemanticNode>, target: SemanticNode, i: nat, k: nat)
    requires i < |cs| && k < |cs[i].calls| && Resolves(m, cs[i].calls[k], target)
    ensures cs[i].path in Incoming(cs, m, target)
  {
    var init := cs[..|cs| - 1];
    if i < |init| {
      assert init[i] == cs[i];
      IncomingComplete(init, m, target, i, k);
    } else {
      var last := cs[i];
      EdgesFromMember(last.calls, last.path, m, target);
      var e := EdgesFrom(last.calls, last.path, m, target);
      assert e[0] in e;
    }
  }

  /** The caller path `p` is among the edges into `target` exactly when some
      caller with that path has a call entry resolving to `target`. */
  lemma IncomingMember(cs: seq<Caller>, m: map<string, SemanticNode>, target: SemanticNode, p: Option<string>)
    ensures p in Incoming(cs, m, target) <==>
              exists i, k :: 0 <= i < |cs| && 0 <= k < |cs[i].calls| && cs[i].path == p && Resolves(m, cs[i].calls[k], target)
  {
    if p in Incoming(cs, m, target) {
      IncomingSound(cs, m, target, p);
    }
    if exists i, k :: 0 <= i < |cs| && 0 <= k < |cs[i].calls| && cs[i].path == p && Resolves(m, cs[i].calls[k], target) {
      var i, k :| 0 <= i < |cs| && 0 <= k < |cs[i].calls| && cs[i].path == p && Resolves(m, cs[i].calls[k], target);
      IncomingComplete(cs, m, target, i, k);
    }
  }

  /** Linking a concatenated list is linking each part in turn: when a
      scanner re-appends the same nodes, every edge is appended again. */
  lemma {:induction false} IncomingAppend(a: seq<Caller>, b: seq<Caller>, m: map<string, SemanticNode>, target: SemanticNode)
    ensures Incoming(a + b, m, target) == Incoming(a, m, target) + Incoming(b, m, target)
    decreases |b|
  {
    if b == [] {
      assert a + b == a;
    } else {
      assert (a + b)[..|a + b| - 1] == a + b[..|b| - 1];
      IncomingAppend(a, b[..|b| - 1], m, target);
    }
  }

  /** Call entries that are not node_map keys are ignored: a caller none of
      whose entries is a key adds no edge anywhere, wherever it sits in the
      list. */
  lemma DanglingIgnored(a: seq<Caller>, x: Caller, b: seq<Caller>, m: map<string, SemanticNode>, target: SemanticNode)
    requires forall k :: 0 <= k < |x.calls| ==> x.calls[k] !in m
    ensures Incoming(a + [x] + b, m, target) == Incoming(a + b, m, target)
  {
    EdgesFromMember(x.calls, x.path, m, target);
    assert Incoming([x], m, target) == [];
    IncomingAppend(a, [x], m, target);
    IncomingAppend(a + [x], b, m, target);
    IncomingAppend(a, b, m, target);
  }

  // ----- the linker -----

  /** `build_call_graph(nodes, node_map)`: only the targets' called_by lists
      change, each by exactly the edges into it; the same list is returned. */
  method BuildCallGraph(nodes: seq<SemanticNode>, nodeMap: map<string, SemanticNode>) returns (r: seq<SemanticNode>)
    modifies set n | n in nodeMap.Values
    ensures r == nodes
    ensures forall n :: n in nodeMap.Values ==>
              n.calledBy == old(n.calledBy) + Incoming(old(Callers(nodes)), nodeMap, n) && n.Core() == old(n.Core())
  {
    ghost var cs := Callers(nodes);
    var i := 0;
    while i < |nodes|
      invariant 0 <= i <= |nodes|
      invariant forall j :: 0 <= j < |nodes| ==> CallerOf(nodes[j]) == cs[j]
      invariant forall n :: n in nodeMap.Values ==>
                  n.calledBy == Linked(old(n.calledBy), cs, i, nodeMap, n) && n.Core() == old(n.Core())
    {
      LinkCaller(nodes, nodeMap, i, cs);
      i := i + 1;
    }
    forall n | n in nodeMap.Values
      ensures Linked(old(n.calledBy), cs, |cs|, nodeMap, n) == old(n.calledBy) + Incoming(cs, nodeMap, n)
    {
      LinkedAll(old(n.calledBy), cs, nodeMap, n);
    }
    r := nodes;
  }

  /** `target.called_by` once it held `start` and the first `i` callers
      have been linked. */
  function Linked(start: seq<Option<string>>, cs: seq<Caller>, i: nat, m: map<string, SemanticNode>, target: SemanticNode): seq<Option<string>>
    requires i <= |cs|
  {
    if i == 0 then start
    else Linked(start, cs, i - 1, m, target) + EdgesFrom(cs[i - 1].calls, cs[i - 1].path, m, target)
  }

  lemma {:induction false} LinkedPrefix(start: seq<Option<string>>, cs: seq<Caller>, i: nat, m: map<string, SemanticNode>, target: SemanticNode)
    requires i <= |cs|
    ensures Linked(start, cs, i, m, target) == start + Incoming(cs[..i], m, target)
  {
    if i > 0 {
      LinkedPrefix(start, cs, i - 1, m, target);
      assert cs[..i][..i - 1] == cs[..i - 1];
      AppendAssoc(start, Incoming(cs[..i - 1], m, target), EdgesFrom(cs[i - 1].calls, cs[i - 1].path, m, target));
    }
  }

  lemma LinkedAll(start: seq<Option<string>>, cs: seq<Caller>, m: map<string, SemanticNode>, target: SemanticNode)
    ensures Linked(start, cs, |cs|, m, target) == start + Incoming(cs, m, target)
  {
    LinkedPrefix(start, cs, |cs|, m, target);
    assert cs[..|cs|] == cs;
  }

  /** The inner `for called_path in node.calls` loop for `nodes[i]`. */
  method LinkCaller(nodes: seq<SemanticNode>, nodeMap: map<string, SemanticNode>, i: nat, ghost cs: seq<Caller>)
    requires i < |nodes| == |cs|
    requires forall j :: 0 <= j < |nodes| ==> CallerOf(nodes[j]) == cs[j]
    modifies set n | n in nodeMap.Values
    ensures forall j :: 0 <= j < |nodes| ==> CallerOf(nodes[j]) == cs[j]
    ensures forall n :: n in nodeMap.Values ==>
              n.calledBy == old(n.calledBy) + EdgesFrom(cs[i].calls, cs[i].path, nodeMap, n) && n.Core() == old(n.Core())
  {
    var node := nodes[i];
    var calls := node.calls;
    var path := node.fullPath;
    var k := 0;
    while k < |calls|
      invariant 0 <= k <= |calls|
      invariant forall j :: 0 <= j < |nodes| ==> CallerOf(nodes[j]) == cs[j]
      invariant forall n :: n in nodeMap.Values ==>
                  n.calledBy == Followed(old(n.calledBy), calls, k, path, nodeMap, n) && n.Core() == old(n.Core())
    {
      if calls[k] in nodeMap {
        var target := nodeMap[calls[k]];
        target.calledBy := target.calledBy + [path];
      }
      k := k + 1;
    }
    forall n | n in nodeMap.Values
      ensures Followed(old(n.calledBy), calls, |calls|, path, nodeMap, n) == old(n.calledBy) + EdgesFrom(calls, path, nodeMap, n)
    {
      FollowedAll(old(n.calledBy), calls, path, nodeMap, n);
    }
  }

  /** `target.called_by` once it held `start` and the first `k` call entries
      of a caller with path `path` have been followed. */
  function Followed(start: seq<Option<string>>, calls: seq<string>, k: nat, path: Option<string>, m: map<string, SemanticNode>, target: SemanticNode): seq<Option<string>>
    requires k <= |calls|
  {
    if k == 0 then start
    else Followed(start, calls, k - 1, path, m, target) + (if calls[k - 1] in m && m[calls[k - 1]] == target then [path] else [])
  }

  lemma {:induction false} FollowedPrefix(start: seq<Option<string>>, calls: seq<string>, k: nat, path: Option<string>, m: map<string, SemanticNode>, target: SemanticNode)
    requires k <= |calls|
    ensures Followed(start, calls, k, path, m, target) == start + EdgesFrom(calls[..k], path, m, target)
  {
    if k > 0 {
      FollowedPrefix(start, calls, k - 1, path, m, target);
      assert calls[..k][..k - 1] == calls[..k - 1];
      AppendAssoc(start, EdgesFrom(calls[..k - 1], path, m, target),
                  if calls[k - 1] in m && m[calls[k - 1]] == target then [path] else []);
    }
  }

  lemma FollowedAll(start: seq<Option<string>>, calls: seq<string>, path: Option<string>, m: map<string, SemanticNode>, target: SemanticNode)
    ensures Followed(start, calls, |calls|, path, m, target) == start + EdgesFrom(calls, path, m, target)
  {
    FollowedPrefix(start, calls, |calls|, path, m, target);
    assert calls[..|calls|] == calls;
  }
}
