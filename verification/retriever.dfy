/** HybridRetriever._expand_with_semantic_tree (src/vector_store/retriever.py):
    the vector search results, deduplicated, followed by the callers and
    callees of the first three of them, up to `max_items` entries. */
module Retrieval {
  import opened Text
  import opened SemanticNodes

  /** The fields of a vector search result that the expansion reads:
      `id`, `metadata['qualified_name']` and `metadata['filepath']`. */
  datatype VectorResult = VectorResult(id: string, qualifiedName: string, filepath: string)

  /** The `metadata` dictionary of an added entry. */
  datatype Meta = Meta(qualifiedName: Option<string>, filepath: string, startLine: int, endLine: int,
                       kind: Kind, language: Language)

  /** `semantic_caller` or `semantic_callee`. */
  datatype Relation = Caller | Callee

  /** An entry of the expanded list: a vector result as it came, or an added
      caller or callee with its `related_to`. */
  datatype Item =
    | Found(result: VectorResult)
    | Related(key: string, meta: Meta, source: Relation, relatedTo: Option<string>)
  {
    function Id(): string
    {
      match this
      case Found(r) => r.id
      case Related(k, _, _, _) => k
    }
  }

  /** `expanded`, `seen_ids` and the last `result_id` bound. */
  datatype Expansion = Expansion(items: seq<Item>, seen: set<string>, last: Option<string>)

  const Start := Expansion([], {}, None)

  predicate Full(st: Expansion, maxItems: int)
  {
    |st.items| >= maxItems
  }

  function MetaOf(n: SemanticNode): Meta
    reads n
  {
    Meta(n.qualifiedName, n.filepath, n.startLine, n.endLine, n.kind, n.language)
  }

  // ----- first loop: the vector results -----

  /** One pass of the first loop; a full list stops it, so every later pass
      changes nothing. */
  function Keep(st: Expansion, r: VectorResult, maxItems: int): Expansion
  {
    if Full(st, maxItems) then st
    else
      var st' := st.(last := Some(r.id));
      if r.id !in st.seen then st'.(items := st.items + [Found(r)], seen := st.seen + {r.id}) else st'
  }

  function KeepAll(vs: seq<VectorResult>, maxItems: int): Expansion
  {
    if vs == [] then Start else Keep(KeepAll(vs[..|vs| - 1], maxItems), vs[|vs| - 1], maxItems)
  }

  // ----- second loop: callers and callees -----

  /** One pass of a caller or callee loop: a key in node_map not yet seen is
      added with the node's metadata. */
  function Add(st: Expansion, nodeMap: map<string, SemanticNode>, p: Option<string>, source: Relation, maxItems: int): Expansion
    reads nodeMap.Values
  {
    if Full(st, maxItems) then st
    else if p.Some? && p.value in nodeMap && p.value !in st.seen then
      st.(items := st.items + [Related(p.value, MetaOf(nodeMap[p.value]), source, st.last)], seen := st.seen + {p.value})
    else st
  }

  function AddAll(st: Expansion, nodeMap: map<string, SemanticNode>, ps: seq<Option<string>>, source: Relation, maxItems: int): Expansion
    reads nodeMap.Values
  {
    if ps == [] then st
    else Add(AddAll(st, nodeMap, ps[..|ps| - 1], source, maxItems), nodeMap, ps[|ps| - 1], source, maxItems)
  }

  /** The node_map key of a vector result. */
  function KeyOf(r: VectorResult): string
  {
    PathKey(r.filepath, r.qualifiedName)
  }

  /** One pass of the second loop: a result not in node_map adds nothing;
      otherwise its first two callers, then its first two callees. */
  function Expand(st: Expansion, nodeMap: map<string, SemanticNode>, r: VectorResult, maxItems: int): Expansion
    reads nodeMap.Values
  {
    if Full(st, maxItems) || KeyOf(r) !in nodeMap then st
    else
      var n := nodeMap[KeyOf(r)];
      AddAll(AddAll(st, nodeMap, Take(n.calledBy, 2), Caller, maxItems), nodeMap, Keys(Take(n.calls, 2)), Callee, maxItems)
  }

  function ExpandAll(st: Expansion, nodeMap: map<string, SemanticNode>, vs: seq<VectorResult>, maxItems: int): Expansion
    reads nodeMap.Values
  {
    if vs == [] then st
    else Expand(ExpandAll(st, nodeMap, vs[..|vs| - 1], maxItems), nodeMap, vs[|vs| - 1], maxItems)
  }

  /** `_expand_with_semantic_tree(vector_results, max_items)` */
  function Expanded(vs: seq<VectorResult>, nodeMap: map<string, SemanticNode>, maxItems: int): seq<Item>
    reads nodeMap.Values
  {
    ExpandAll(KeepAll(vs, maxItems), nodeMap, Take(vs, 3), maxItems).items
  }

  // ----- the method -----

  /** The first loop, with its `break`. */
  method KeepVectorResults(vs: seq<VectorResult>, maxItems: int) returns (st: Expansion)
    ensures st == KeepAll(vs, maxItems)
  {
    st := Start;
    var i := 0;
    while i < |vs|
      invariant 0 <= i <= |vs| && st == KeepAll(vs[..i], maxItems)
    {
      if |st.items| >= maxItems {
        KeepStops(vs, maxItems, i);
        return;
      }
      assert vs[..i + 1][..i] == vs[..i];
      var resultId := vs[i].id;
      st := st.(last := Some(resultId));
      if resultId !in st.seen {
        st := st.(items := st.items + [Found(vs[i])], seen := st.seen + {resultId});
      }
      i := i + 1;
    }
    assert vs[..i] == vs;
  }

  /** One caller or callee loop, with its `break`. */
  method AddKeys(st: Expansion, nodeMap: map<string, SemanticNode>, ps: seq<Option<string>>, source: Relation, maxItems: int)
    returns (st': Expansion)
    ensures st' == AddAll(st, nodeMap, ps, source, maxItems)
  {
    st' := st;
    for i := 0 to |ps|
      invariant st' == AddAll(st, nodeMap, ps[..i], source, maxItems)
    {
      if |st'.items| >= maxItems {
        AddStops(st, nodeMap, ps, source, maxItems, i);
        return;
      }
      assert ps[..i + 1][..i] == ps[..i];
      var p := ps[i];
      if p.Some? && p.value in nodeMap && p.value !in st'.seen {
        var node := nodeMap[p.value];
        st' := st'.(items := st'.items + [Related(p.value, MetaOf(node), source, st'.last)], seen := st'.seen + {p.value});
      }
    }
    assert ps[..|ps|] == ps;
  }

  /** One pass of the second loop after its `break` check. */
  method ExpandResult(st: Expansion, nodeMap: map<string, SemanticNode>, r: VectorResult, maxItems: int)
    returns (st': Expansion)
    requires !Full(st, maxItems)
    ensures st' == Expand(st, nodeMap, r, maxItems)
  {
    var fullPath := r.filepath + "::" + r.qualifiedName;
    if fullPath !in nodeMap {
      return st;
    }
    var node := nodeMap[fullPath];
    st' := AddKeys(st, nodeMap, Take(node.calledBy, 2), Caller, maxItems);
    st' := AddKeys(st', nodeMap, Keys(Take(node.calls, 2)), Callee, maxItems);
  }

  method ExpandWithSemanticTree(vectorResults: seq<VectorResult>, nodeMap: map<string, SemanticNode>, maxItems: int)
    returns (expanded: seq<Item>)
    ensures expanded == Expanded(vectorResults, nodeMap, maxItems)
  {
    var st := KeepVectorResults(vectorResults, maxItems);
    ghost var kept := st;
    var top := Take(vectorResults, 3);
    for i := 0 to |top|
      invariant st == ExpandAll(kept, nodeMap, top[..i], maxItems)
    {
      if |st.items| >= maxItems {
        ExpandStops(kept, nodeMap, top, maxItems, i);
        break;
      }
      assert top[..i + 1][..i] == top[..i];
      st := ExpandResult(st, nodeMap, top[i], maxItems);
    }
    assert top[..|top|] == top;
    expanded := st.items;
  }

  // ----- a full list stops every loop -----

  /** Once the list is full, no later pass of a loop changes anything, so
      each `break` leaves the same state as running to the end. */
  lemma {:induction false} KeepStops(vs: seq<VectorResult>, maxItems: int, i: nat)
    requires i <= |vs| && Full(KeepAll(vs[..i], maxItems), maxItems)
    ensures KeepAll(vs, maxItems) == KeepAll(vs[..i], maxItems)
    decreases |vs| - i
  {
    if i < |vs| {
      assert vs[..|vs| - 1][..i] == vs[..i];
      KeepStops(vs[..|vs| - 1], maxItems, i);
    } else {
      assert vs[..i] == vs;
    }
  }

  lemma {:induction false} AddStops(st: Expansion, nodeMap: map<string, SemanticNode>, ps: seq<Option<string>>, source: Relation, maxItems: int, i: nat)
    requires i <= |ps| && Full(AddAll(st, nodeMap, ps[..i], source, maxItems), maxItems)
    ensures AddAll(st, nodeMap, ps, source, maxItems) == AddAll(st, nodeMap, ps[..i], source, maxItems)
    decreases |ps| - i
  {
    if i < |ps| {
      assert ps[..|ps| - 1][..i] == ps[..i];
      AddStops(st, nodeMap, ps[..|ps| - 1], source, maxItems, i);
    } else {
      assert ps[..i] == ps;
    }
  }

  lemma {:induction false} ExpandStops(st: Expansion, nodeMap: map<string, SemanticNode>, vs: seq<VectorResult>, maxItems: int, i: nat)
    requires i <= |vs| && Full(ExpandAll(st, nodeMap, vs[..i], maxItems), maxItems)
    ensures ExpandAll(st, nodeMap, vs, maxItems) == ExpandAll(st, nodeMap, vs[..i], maxItems)
    decreases |vs| - i
  {
    if i < |vs| {
      assert vs[..|vs| - 1][..i] == vs[..i];
      ExpandStops(st, nodeMap, vs[..|vs| - 1], maxItems, i);
    } else {
      assert vs[..i] == vs;
    }
  }

  // ----- what the expansion promises -----

  /** `max_items` as a count. */
  function Cap(maxItems: int): nat
  {
    if maxItems < 0 then 0 else maxItems
  }

  function IdsOf(items: seq<Item>): set<string>
  {
    set i | 0 <= i < |items| :: items[i].Id()
  }

  predicate DistinctIds(items: seq<Item>)
  {
    forall i, j :: 0 <= i < j < |items| ==> items[i].Id() != items[j].Id()
  }

  /** What every loop keeps: at most `max_items` entries, `seen_ids` holding
      exactly their ids, and no id twice. */
  predicate Good(st: Expansion, maxItems: int)
  {
    |st.items| <= Cap(maxItems) && st.seen == IdsOf(st.items) && DistinctIds(st.items)
  }

  /** Appending an entry whose id is not yet seen keeps Good. */
  lemma Append(st: Expansion, x: Item, maxItems: int)
    requires Good(st, maxItems) && !Full(st, maxItems) && x.Id() !in st.seen
    ensures Good(st.(items := st.items + [x], seen := st.seen + {x.Id()}), maxItems)
  {
    var items := st.items + [x];
    assert IdsOf(items) == IdsOf(st.items) + {x.Id()} by {
      forall y | y in IdsOf(items)
        ensures y in IdsOf(st.items) + {x.Id()}
      {
        var i :| 0 <= i < |items| && items[i].Id() == y;
        if i < |st.items| {
          assert items[i] == st.items[i];
        }
      }
      forall y | y in IdsOf(st.items)
        ensures y in IdsOf(items)
      {
        var i :| 0 <= i < |st.items| && st.items[i].Id() == y;
        assert items[i] == st.items[i];
      }
      assert items[|st.items|] == x;
    }
    forall i, j | 0 <= i < j < |items|
      ensures items[i].Id() != items[j].Id()
    {
      assert items[i] == st.items[i];
      if j < |st.items| {
        assert items[j] == st.items[j];
      } else {
        assert st.items[i].Id() in IdsOf(st.items);
      }
    }
  }

  lemma {:induction false} KeepAllGood(vs: seq<VectorResult>, maxItems: int)
    ensures Good(KeepAll(vs, maxItems), maxItems)
  {
    if vs != [] {
      var st := KeepAll(vs[..|vs| - 1], maxItems);
      KeepAllGood(vs[..|vs| - 1], maxItems);
      var r := vs[|vs| - 1];
      if !Full(st, maxItems) && r.id !in st.seen {
        Append(st.(last := Some(r.id)), Found(r), maxItems);
      }
    }
  }

  lemma {:induction false} AddAllGood(st: Expansion, nodeMap: map<string, SemanticNode>, ps: seq<Option<string>>, source: Relation, maxItems: int)
    requires Good(st, maxItems)
    ensures Good(AddAll(st, nodeMap, ps, source, maxItems), maxItems)
  {
    if ps != [] {
      var s := AddAll(st, nodeMap, ps[..|ps| - 1], source, maxItems);
      AddAllGood(st, nodeMap, ps[..|ps| - 1], source, maxItems);
      var p := ps[|ps| - 1];
      if !Full(s, maxItems) && p.Some? && p.value in nodeMap && p.value !in s.seen {
        Append(s, Related(p.value, MetaOf(nodeMap[p.value]), source, s.last), maxItems);
      }
    }
  }

  lemma {:induction false} ExpandAllGood(st: Expansion, nodeMap: map<string, SemanticNode>, vs: seq<VectorResult>, maxItems: int)
    requires Good(st, maxItems)
    ensures Good(ExpandAll(st, nodeMap, vs, maxItems), maxItems)
  {
    if vs != [] {
      var s := ExpandAll(st, nodeMap, vs[..|vs| - 1], maxItems);
      ExpandAllGood(st, nodeMap, vs[..|vs| - 1], maxItems);
      var r := vs[|vs| - 1];
      if !Full(s, maxItems) && KeyOf(r) in nodeMap {
        var n := nodeMap[KeyOf(r)];
        AddAllGood(s, nodeMap, Take(n.calledBy, 2), Caller, maxItems);
        AddAllGood(AddAll(s, nodeMap, Take(n.calledBy, 2), Caller, maxItems), nodeMap, Keys(Take(n.calls, 2)), Callee, maxItems);
      }
    }
  }

  /** The expanded list never has more than `max_items` entries, and no id
      occurs in it twice. */
  lemma ExpandedBoundedDistinct(vs: seq<VectorResult>, nodeMap: map<string, SemanticNode>, maxItems: int)
    ensures |Expanded(vs, nodeMap, maxItems)| <= Cap(maxItems)
    ensures DistinctIds(Expanded(vs, nodeMap, maxItems))
  {
    KeepAllGood(vs, maxItems);
    ExpandAllGood(KeepAll(vs, maxItems), nodeMap, Take(vs, 3), maxItems);
  }

  // ----- the vector results come first -----

  function ResultIds(rs: seq<VectorResult>): set<string>
  {
    set i | 0 <= i < |rs| :: rs[i].id
  }

  /** The results in order, without any whose id came before. */
  function Dedup(vs: seq<VectorResult>): (d: seq<VectorResult>)
    ensures |d| <= |vs|
  {
    if vs == [] then []
    else
      var d := Dedup(vs[..|vs| - 1]);
      if vs[|vs| - 1].id in ResultIds(d) then d else d + [vs[|vs| - 1]]
  }

  function Founds(rs: seq<VectorResult>): (r: seq<Item>)
    ensures |r| == |rs| && forall i :: 0 <= i < |rs| ==> r[i] == Found(rs[i])
  {
    seq(|rs|, i requires 0 <= i < |rs| => Found(rs[i]))
  }

  lemma ResultIdsSnoc(d: seq<VectorResult>, r: VectorResult)
    ensures ResultIds(d + [r]) == ResultIds(d) + {r.id}
  {
    var e := d + [r];
    forall y | y in ResultIds(e)
      ensures y in ResultIds(d) + {r.id}
    {
      var i :| 0 <= i < |e| && e[i].id == y;
      if i < |d| {
        assert e[i] == d[i];
      }
    }
    forall y | y in ResultIds(d)
      ensures y in ResultIds(e)
    {
      var i :| 0 <= i < |d| && d[i].id == y;
      assert e[i] == d[i];
    }
    assert e[|d|] == r;
  }

  /** The first loop keeps the first `max_items` results with distinct ids,
      in their order. */
  lemma {:induction false} KeepAllSpec(vs: seq<VectorResult>, maxItems: int)
    ensures KeepAll(vs, maxItems).items == Founds(Take(Dedup(vs), Cap(maxItems)))
    ensures KeepAll(vs, maxItems).seen == ResultIds(Take(Dedup(vs), Cap(maxItems)))
  {
    if vs != [] {
      var init, r := vs[..|vs| - 1], vs[|vs| - 1];
      KeepAllSpec(init, maxItems);
      var st, d0, d, c := KeepAll(init, maxItems), Dedup(init), Dedup(vs), Cap(maxItems);
      assert d == if r.id in ResultIds(d0) then d0 else d0 + [r];
      if Full(st, maxItems) {
        assert |d0| >= c;
        assert d[..c] == d0[..c];
      } else {
        assert Take(d0, c) == d0;
        if r.id !in ResultIds(d0) {
          ResultIdsSnoc(d0, r);
          assert Founds(d0) + [Found(r)] == Founds(d0 + [r]);
        }
      }
    }
  }

  /** Each pass of the second loop only appends added callers and callees,
      all related to the last id of the first loop, which it leaves as it
      is. */
  predicate Appended(st: Expansion, st': Expansion)
  {
    && |st.items| <= |st'.items| && st'.items[..|st.items|] == st.items
    && st'.last == st.last
    && forall k :: |st.items| <= k < |st'.items| ==> st'.items[k].Related? && st'.items[k].relatedTo == st.last
  }

  /** A caller or callee loop appends at most one entry per key, each of
      the given kind, for a key of the list that is in node_map. */
  predicate AddedFrom(st: Expansion, st': Expansion, nodeMap: map<string, SemanticNode>, ps: seq<Option<string>>, source: Relation)
  {
    && Appended(st, st')
    && |st'.items| <= |st.items| + |ps|
    && forall k :: |st.items| <= k < |st'.items| ==>
         st'.items[k].source == source && st'.items[k].key in nodeMap && Some(st'.items[k].key) in ps
  }

  lemma {:induction false} AddAllShape(st: Expansion, nodeMap: map<string, SemanticNode>, ps: seq<Option<string>>, source: Relation, maxItems: int)
    ensures AddedFrom(st, AddAll(st, nodeMap, ps, source, maxItems), nodeMap, ps, source)
  {
    if ps != [] {
      var init := ps[..|ps| - 1];
      var s := AddAll(st, nodeMap, init, source, maxItems);
      AddAllShape(st, nodeMap, init, source, maxItems);
      var s' := AddAll(st, nodeMap, ps, source, maxItems);
      assert s' == Add(s, nodeMap, ps[|ps| - 1], source, maxItems);
      assert |s.items| <= |s'.items| <= |s.items| + 1;
      assert s'.items[..|s.items|] == s.items;
      assert s'.items[..|st.items|] == s.items[..|st.items|];
      forall k | |st.items| <= k < |s'.items|
        ensures s'.items[k].Related? && s'.items[k].relatedTo == st.last
        ensures s'.items[k].source == source && s'.items[k].key in nodeMap && Some(s'.items[k].key) in ps
      {
        if k < |s.items| {
          assert s'.items[k] == s.items[k];
          assert Some(s.items[k].key) in init;
        } else {
          assert s'.items[k] == Related(ps[|ps| - 1].value, MetaOf(nodeMap[ps[|ps| - 1].value]), source, s.last);
        }
      }
    }
  }

  /** The entry comes from the callers or callees of result `r`. */
  predicate FromResult(x: Item, nodeMap: map<string, SemanticNode>, r: VectorResult)
    reads nodeMap.Values
  {
    && x.Related? && x.key in nodeMap && KeyOf(r) in nodeMap
    && (x.source == Caller ==> Some(x.key) in Take(nodeMap[KeyOf(r)].calledBy, 2))
    && (x.source == Callee ==> x.key in Take(nodeMap[KeyOf(r)].calls, 2))
  }

  /** One pass of the second loop: a result whose key is not in node_map
      adds nothing; otherwise at most four entries are appended, from its
      first two callers and first two callees, callers first. */
  lemma ExpandShape(st: Expansion, nodeMap: map<string, SemanticNode>, r: VectorResult, maxItems: int)
    ensures var st' := Expand(st, nodeMap, r, maxItems);
            && Appended(st, st')
            && |st'.items| <= |st.items| + 4
            && (KeyOf(r) !in nodeMap ==> st' == st)
            && (forall k :: |st.items| <= k < |st'.items| ==> FromResult(st'.items[k], nodeMap, r))
            && (forall i, j :: |st.items| <= i < j < |st'.items| && st'.items[i].source == Callee ==> st'.items[j].source == Callee)
  {
    var st' := Expand(st, nodeMap, r, maxItems);
    if !Full(st, maxItems) && KeyOf(r) in nodeMap {
      var n := nodeMap[KeyOf(r)];
      var callers, callees := Take(n.calledBy, 2), Keys(Take(n.calls, 2));
      var mid := AddAll(st, nodeMap, callers, Caller, maxItems);
      AddAllShape(st, nodeMap, callers, Caller, maxItems);
      AddAllShape(mid, nodeMap, callees, Callee, maxItems);
      assert st'.items[..|mid.items|] == mid.items;
      assert st'.items[..|st.items|] == mid.items[..|st.items|];
      forall k | |st.items| <= k < |st'.items|
        ensures st'.items[k].Related? && st'.items[k].relatedTo == st.last
        ensures FromResult(st'.items[k], nodeMap, r)
        ensures st'.items[k].source == if k < |mid.items| then Caller else Callee
      {
        if k < |mid.items| {
          assert st'.items[k] == mid.items[k];
        } else {
          var c :| c in callees && c == Some(st'.items[k].key);
          var t :| 0 <= t < |callees| && callees[t] == c;
          assert Take(n.calls, 2)[t] == st'.items[k].key;
        }
      }
    }
  }

  /** The entries the second loop appends each come from one of the results
      it expanded. */
  predicate GrownFrom(st: Expansion, st': Expansion, nodeMap: map<string, SemanticNode>, vs: seq<VectorResult>)
    reads nodeMap.Values
  {
    && Appended(st, st')
    && |st'.items| <= |st.items| + 4 * |vs|
    && forall k :: |st.items| <= k < |st'.items| ==>
         exists j :: 0 <= j < |vs| && FromResult(st'.items[k], nodeMap, vs[j])
  }

  lemma {:induction false} ExpandAllShape(st: Expansion, nodeMap: map<string, SemanticNode>, vs: seq<VectorResult>, maxItems: int)
    ensures GrownFrom(st, ExpandAll(st, nodeMap, vs, maxItems), nodeMap, vs)
  {
    if vs != [] {
      var init, r := vs[..|vs| - 1], vs[|vs| - 1];
      var s := ExpandAll(st, nodeMap, init, maxItems);
      ExpandAllShape(st, nodeMap, init, maxItems);
      ExpandShape(s, nodeMap, r, maxItems);
      var s' := ExpandAll(st, nodeMap, vs, maxItems);
      assert s' == Expand(s, nodeMap, r, maxItems);
      assert s'.items[..|st.items|] == s.items[..|st.items|];
      forall k | |st.items| <= k < |s'.items|
        ensures exists j :: 0 <= j < |vs| && FromResult(s'.items[k], nodeMap, vs[j])
      {
        if k < |s.items| {
          assert s'.items[k] == s.items[k];
          var j :| 0 <= j < |init| && FromResult(s.items[k], nodeMap, init[j]);
          assert vs[j] == init[j];
        } else {
          assert FromResult(s'.items[k], nodeMap, vs[|vs| - 1]);
        }
      }
    }
  }

  /** The expanded list opens with the first `max_items` vector results of
      distinct ids, in order; every entry after them is a caller or callee
      of one of the first three results, at most twelve in all, and all of
      them are related to the last id the first loop bound. */
  lemma ExpandedShape(vs: seq<VectorResult>, nodeMap: map<string, SemanticNode>, maxItems: int)
    ensures var kept := Founds(Take(Dedup(vs), Cap(maxItems)));
            var out := Expanded(vs, nodeMap, maxItems);
            && |kept| <= |out| <= |kept| + 12
            && out[..|kept|] == kept
            && forall k :: |kept| <= k < |out| ==>
                 && out[k].Related? && out[k].relatedTo == KeepAll(vs, maxItems).last
                 && exists j :: 0 <= j < |Take(vs, 3)| && FromResult(out[k], nodeMap, Take(vs, 3)[j])
  {
    KeepAllSpec(vs, maxItems);
    ExpandAllShape(KeepAll(vs, maxItems), nodeMap, Take(vs, 3), maxItems);
  }

  /** When the first loop reaches the last result (the list is not yet full
      before it), the id every added entry is related to is that of the LAST
      vector result, whichever result it was found from. */
  lemma RelatedToLastResult(vs: seq<VectorResult>, nodeMap: map<string, SemanticNode>, maxItems: int)
    requires |vs| > 0 && !Full(KeepAll(vs[..|vs| - 1], maxItems), maxItems)
    ensures KeepAll(vs, maxItems).last == Some(vs[|vs| - 1].id)
    ensures forall k :: 0 <= k < |Expanded(vs, nodeMap, maxItems)| && Expanded(vs, nodeMap, maxItems)[k].Related? ==>
              Expanded(vs, nodeMap, maxItems)[k].relatedTo == Some(vs[|vs| - 1].id)
  {
    KeepAllSpec(vs, maxItems);
    ExpandedShape(vs, nodeMap, maxItems);
    var kept := Founds(Take(Dedup(vs), Cap(maxItems)));
    var out := Expanded(vs, nodeMap, maxItems);
    forall k | 0 <= k < |kept|
      ensures out[k].Found?
    {
      assert out[k] == out[..|kept|][k];
    }
  }
}
