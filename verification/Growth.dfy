/** Growing a graph batch by batch against building it in one go. */
module Growth {
  import opened Sparse
  import opened Graph

  // ----- shape: what ingest does to nodes, index and edge ends -----

  ghost predicate SameNodes(g: Graph, h: Graph) {
    && g.nodeToIdx == h.nodeToIdx && g.idxToNode == h.idxToNode
    && g.kind == h.kind && g.labels == h.labels && g.index == h.index
  }

  ghost predicate SameEnds(es: seq<Edge>, fs: seq<Edge>) {
    |es| == |fs| && forall p :: 0 <= p < |es| ==> es[p].src == fs[p].src && es[p].dst == fs[p].dst
  }

  // Starting from g and h, r and t gained the same nodes and parallel edges.
  ghost predicate Alike(g: Graph, r: Graph, h: Graph, t: Graph) {
    && SameNodes(r, t)
    && g.edges <= r.edges && h.edges <= t.edges
    && SameEnds(r.edges[|g.edges|..], t.edges[|h.edges|..])
  }

  lemma AlikeTransitive(g: Graph, r: Graph, r': Graph, h: Graph, t: Graph, t': Graph)
    requires Alike(g, r, h, t) && Alike(r, r', t, t')
    ensures Alike(g, r', h, t')
  {
    assert r'.edges[|g.edges|..] == r.edges[|g.edges|..] + r'.edges[|r.edges|..];
    assert t'.edges[|h.edges|..] == t.edges[|h.edges|..] + t'.edges[|t.edges|..];
  }

  lemma IngestNodeAlike(cfg: Config, g: Graph, h: Graph, id: NodeId)
    requires g.Valid() && h.Valid() && id.EntityId? && SameNodes(g, h)
    ensures SameNodes(IngestNode(cfg, g, id), IngestNode(cfg, h, id))
  {
    hide Graph.Valid;
  }

  lemma IngestEntityAlike(cfg: Config, g: Graph, h: Graph, ans: nat, id: NodeId, fast: bool, fast': bool)
    requires g.Valid() && h.Valid() && id.EntityId? && SameNodes(g, h)
    requires ans < g.Size() && g.idxToNode[ans].ValueId?
    ensures Alike(g, IngestEntity(cfg, g, ans, id, fast), h, IngestEntity(cfg, h, ans, id, fast'))
  {
    hide Graph.Valid, IngestNode;
    IngestNodeAlike(cfg, g, h, id);
  }

  lemma {:induction false} IngestEntitiesAlike(cfg: Config, g: Graph, h: Graph, ans: nat, es: seq<Entity>,
                                               seen: set<NodeId>, fast: bool, fast': bool)
    requires g.Valid() && h.Valid() && SameNodes(g, h)
    requires ans < g.Size() && g.idxToNode[ans].ValueId?
    ensures Alike(g, IngestEntities(cfg, g, ans, es, seen, fast), h, IngestEntities(cfg, h, ans, es, seen, fast'))
    decreases |es|
  {
    if es == [] {
    } else {
      var id := EntityId(es[0].etype, es[0].term);
      if |id.term| < 2 || id in seen {
        IngestEntitiesAlike(cfg, g, h, ans, es[1..], seen, fast, fast');
      } else {
        var r, t := IngestEntity(cfg, g, ans, id, fast), IngestEntity(cfg, h, ans, id, fast');
        IngestEntityAlike(cfg, g, h, ans, id, fast, fast');
        IngestEntitiesAlike(cfg, r, t, ans, es[1..], seen + {id}, fast, fast');
        AlikeTransitive(g, r, IngestEntities(cfg, r, ans, es[1..], seen + {id}, fast),
                        h, t, IngestEntities(cfg, t, ans, es[1..], seen + {id}, fast'));
      }
    }
  }

  lemma IngestDocumentAlike(cfg: Config, g: Graph, h: Graph, d: Document, fast: bool, fast': bool)
    requires g.Valid() && h.Valid() && SameNodes(g, h)
    ensures Alike(g, IngestDocument(cfg, g, d, fast), h, IngestDocument(cfg, h, d, fast'))
  {
    ValueNodeAlike(g, h, d);
    var r := GetOrAddNode(g, ValueId(d.id), ValueKind, d.value, 0.0);
    var t := GetOrAddNode(h, ValueId(d.id), ValueKind, d.value, 0.0);
    IngestEntitiesAlike(cfg, r, t, r.nodeToIdx[ValueId(d.id)], d.entities, {}, fast, fast');
  }

  lemma ValueNodeAlike(g: Graph, h: Graph, d: Document)
    requires g.Valid() && h.Valid() && SameNodes(g, h)
    ensures SameNodes(GetOrAddNode(g, ValueId(d.id), ValueKind, d.value, 0.0),
                      GetOrAddNode(h, ValueId(d.id), ValueKind, d.value, 0.0))
  {
    hide Graph.Valid;
  }

  // Ingest changes nodes, index and edge ends in a way that frequencies,
  // weights and recorded positions do not influence.
  lemma {:induction false} IngestAlike(cfg: Config, g: Graph, h: Graph, docs: seq<Document>, fast: bool, fast': bool)
    requires g.Valid() && h.Valid() && SameNodes(g, h)
    ensures Alike(g, Ingest(cfg, g, docs, fast), h, Ingest(cfg, h, docs, fast'))
    decreases |docs|
  {
    if docs == [] {
    } else {
      var r, t := IngestDocument(cfg, g, docs[0], fast), IngestDocument(cfg, h, docs[0], fast');
      IngestDocumentAlike(cfg, g, h, docs[0], fast, fast');
      IngestAlike(cfg, r, t, docs[1..], fast, fast');
      AlikeTransitive(g, r, Ingest(cfg, r, docs[1..], fast), h, t, Ingest(cfg, t, docs[1..], fast'));
    }
  }

  lemma {:induction false} IngestAppend(cfg: Config, g: Graph, docs: seq<Document>, more: seq<Document>, fast: bool)
    requires g.Valid()
    ensures Ingest(cfg, g, docs + more, fast) == Ingest(cfg, Ingest(cfg, g, docs, fast), more, fast)
    decreases |docs|
  {
    if docs == [] {
      assert docs + more == more;
    } else {
      assert (docs + more)[1..] == docs[1..] + more;
      IngestAppend(cfg, IngestDocument(cfg, g, docs[0], fast), docs[1..], more, fast);
    }
  }

  // ----- weights -----

  ghost predicate EdgeWeighted(cfg: Config, g: Graph, e: Edge, stale: set<string>)
    requires g.Valid()
  {
    && g.Fits(e)
    && (g.labels[e.src] !in stale ==> e.weight == WeightOf(cfg, Specificity(cfg, g, g.labels[e.src])))
  }

  ghost predicate EdgesWeighted(cfg: Config, g: Graph, es: seq<Edge>, stale: set<string>)
    requires g.Valid()
  {
    forall e :: e in es ==> EdgeWeighted(cfg, g, e, stale)
  }

  ghost predicate NodesWeighted(cfg: Config, g: Graph, stale: set<string>)
    requires g.Valid()
  {
    forall i: nat :: i < g.Size() ==> NodeWeighted(cfg, g, i, stale)
  }

  ghost predicate NodeWeighted(cfg: Config, g: Graph, i: nat, stale: set<string>)
    requires g.Valid() && i < g.Size()
  {
    if g.idxToNode[i].ValueId? then g.spec[i] == 0.0
    else g.labels[i] in stale || g.spec[i] == Specificity(cfg, g, g.labels[i])
  }

  // Every node and edge outside the stale labels carries the specificity of
  // its label's current frequency.
  ghost predicate Weighted(cfg: Config, g: Graph, stale: set<string>)
    requires g.Valid()
  {
    EdgesWeighted(cfg, g, g.edges, stale) && NodesWeighted(cfg, g, stale)
  }

  ghost predicate Under(index: Index, k: string, id: NodeId) {
    k in index && id in index[k]
  }

  // A node is indexed under its label and the words of its label, and nothing
  // else is indexed.
  ghost predicate Indexed(cfg: Config, g: Graph) {
    forall k, id :: Under(g.index, k, id) <==>
      id in g.nodeToIdx && id.EntityId? && (k == id.term || k in cfg.words(id.term))
  }

  ghost predicate Positioned(g: Graph) {
    forall p: nat :: p < |g.edges| ==> p in Lookup(g.positions, g.edges[p].src)
  }

  ghost predicate Within(g: Graph, vocabulary: set<string>) {
    forall id :: id in g.nodeToIdx && id.EntityId? ==> id.term in vocabulary
  }

  lemma {:induction false} IndexUnderMembers(index: Index, keys: seq<string>, id: NodeId)
    ensures forall k, x :: Under(IndexUnder(index, keys, id), k, x) <==> Under(index, k, x) || (k in keys && x == id)
    decreases |keys|
  {
    if keys == [] {
    } else {
      var pushed := Push(index, keys[0], id);
      assert keys == [keys[0]] + keys[1..];
      assert forall k, x :: Under(pushed, k, x) <==> Under(index, k, x) || (k == keys[0] && x == id);
      IndexUnderMembers(pushed, keys[1..], id);
    }
  }

  lemma IngestNodeIndexed(cfg: Config, g: Graph, id: NodeId)
    requires g.Valid() && id.EntityId? && Indexed(cfg, g)
    ensures Indexed(cfg, IngestNode(cfg, g, id))
  {
    if id !in g.nodeToIdx {
      IndexUnderMembers(g.index, [id.term] + cfg.words(id.term), id);
      assert IngestNode(cfg, g, id).index == IndexUnder(g.index, [id.term] + cfg.words(id.term), id);
      assert IngestNode(cfg, g, id).nodeToIdx.Keys == g.nodeToIdx.Keys + {id};
    }
  }

  // Adding a node, or renewing the specificity of an old one.
  lemma NodeStepAt(cfg: Config, g: Graph, id: NodeId, kind: NodeKind, term: string, spec: real, i: nat)
    requires g.Valid() && kind == (if id.EntityId? then EntityKind else ValueKind)
    requires id.EntityId? ==> term == id.term && spec == Specificity(cfg, g, term)
    requires id.ValueId? ==> spec == 0.0
    requires i < g.Size() ==> NodeWeighted(cfg, g, i, {})
    requires i < GetOrAddNode(g, id, kind, term, spec).Size()
    ensures NodeWeighted(cfg, GetOrAddNode(g, id, kind, term, spec), i, {})
  {
  }

  lemma NodeStepWeighted(cfg: Config, g: Graph, id: NodeId, kind: NodeKind, term: string, spec: real)
    requires g.Valid() && kind == (if id.EntityId? then EntityKind else ValueKind)
    requires id.EntityId? ==> term == id.term && spec == Specificity(cfg, g, term)
    requires id.ValueId? ==> spec == 0.0
    requires NodesWeighted(cfg, g, {})
    ensures NodesWeighted(cfg, GetOrAddNode(g, id, kind, term, spec), {})
  {
    forall i: nat | i < GetOrAddNode(g, id, kind, term, spec).Size()
      ensures NodeWeighted(cfg, GetOrAddNode(g, id, kind, term, spec), i, {})
    {
      NodeStepAt(cfg, g, id, kind, term, spec, i);
    }
  }

  lemma LargerWeighted(cfg: Config, g: Graph, r: Graph, es: seq<Edge>)
    requires g.Valid() && r.Valid() && EdgesWeighted(cfg, g, es, {})
    requires g.idxToNode <= r.idxToNode && r.freq == g.freq
    ensures EdgesWeighted(cfg, r, es, {})
  {
    forall e | e in es
      ensures EdgeWeighted(cfg, r, e, {})
    {
      assert EdgeWeighted(cfg, g, e, {});
      assert r.idxToNode[e.src] == g.idxToNode[e.src];
    }
  }

  // Weights look only at the node lists, the frequencies and the edges.
  lemma SameWeighted(cfg: Config, g: Graph, r: Graph)
    requires g.Valid() && r.Valid() && Weighted(cfg, g, {})
    requires r == g.(dirty := r.dirty, built := r.built, positions := r.positions, adj := r.adj,
                     generation := r.generation)
    ensures Weighted(cfg, r, {})
  {
    LargerWeighted(cfg, g, r, g.edges);
    forall i: nat | i < r.Size()
      ensures NodeWeighted(cfg, r, i, {})
    {
      assert NodeWeighted(cfg, g, i, {});
    }
  }

  lemma IngestNodeWeighted(cfg: Config, g: Graph, id: NodeId)
    requires g.Valid() && id.EntityId? && Weighted(cfg, g, {})
    ensures Weighted(cfg, IngestNode(cfg, g, id), {})
  {
    var r := GetOrAddNode(g, id, EntityKind, id.term, Specificity(cfg, g, id.term));
    var s := IngestNode(cfg, g, id);
    NodeStepWeighted(cfg, g, id, EntityKind, id.term, Specificity(cfg, g, id.term));
    LargerWeighted(cfg, g, s, g.edges);
    forall i: nat | i < s.Size()
      ensures NodeWeighted(cfg, s, i, {})
    {
      assert NodeWeighted(cfg, r, i, {});
    }
  }

  // Everything ingest keeps. Fast inserts record no positions.
  ghost predicate Sound(cfg: Config, g: Graph, vocabulary: set<string>, fast: bool)
    requires g.Valid()
  {
    Weighted(cfg, g, {}) && Indexed(cfg, g) && Within(g, vocabulary) && (!fast ==> Positioned(g))
  }

  lemma AddEdgePositioned(g: Graph, e: Edge)
    requires g.Valid() && g.Fits(e) && Positioned(g)
    ensures Positioned(AddEdge(g, e, false))
  {
    var r := AddEdge(g, e, false);
    var before, after := Lookup(g.positions, e.src), Lookup(r.positions, e.src);
    assert after == before + [|g.edges|];
    forall p: nat | p < |r.edges|
      ensures p in Lookup(r.positions, r.edges[p].src)
    {
      if p < |g.edges| {
        assert p in Lookup(g.positions, g.edges[p].src);
        assert r.edges[p] == g.edges[p];
      } else {
        assert after[|before|] == p;
      }
    }
  }

  lemma AddEdgeWeighted(cfg: Config, g: Graph, e: Edge, fast: bool)
    requires g.Valid() && g.Fits(e) && Weighted(cfg, g, {})
    requires EdgeWeighted(cfg, g, e, {})
    ensures Weighted(cfg, AddEdge(g, e, fast), {})
  {
    var r := AddEdge(g, e, fast);
    LargerWeighted(cfg, g, r, g.edges);
    forall i: nat | i < r.Size()
      ensures NodeWeighted(cfg, r, i, {})
    {
      assert NodeWeighted(cfg, g, i, {});
    }
  }

  lemma NewEdgeWeighted(cfg: Config, g: Graph, ans: nat, id: NodeId)
    requires g.Valid() && id.EntityId? && ans < g.Size() && g.idxToNode[ans].ValueId?
    ensures EdgeWeighted(cfg, IngestNode(cfg, g, id), NewEdge(cfg, g, ans, id), {})
  {
  }

  lemma IngestEntitySound(cfg: Config, g: Graph, ans: nat, id: NodeId, vocabulary: set<string>, fast: bool)
    requires g.Valid() && id.EntityId? && ans < g.Size() && g.idxToNode[ans].ValueId?
    requires Sound(cfg, g, vocabulary, fast) && id.term in vocabulary
    ensures Sound(cfg, IngestEntity(cfg, g, ans, id, fast), vocabulary, fast)
  {
    IngestNodeWeighted(cfg, g, id);
    IngestNodeIndexed(cfg, g, id);
    NewEdgeWeighted(cfg, g, ans, id);
    var r, e := IngestNode(cfg, g, id), NewEdge(cfg, g, ans, id);
    AddEdgeWeighted(cfg, r, e, fast);
    if !fast { AddEdgePositioned(r, e); }
  }

  lemma {:induction false} IngestEntitiesSound(cfg: Config, g: Graph, ans: nat, es: seq<Entity>, seen: set<NodeId>,
                                               vocabulary: set<string>, fast: bool)
    requires g.Valid() && ans < g.Size() && g.idxToNode[ans].ValueId?
    requires Sound(cfg, g, vocabulary, fast)
    requires forall e :: e in es && |e.term| >= 2 ==> e.term in vocabulary
    ensures Sound(cfg, IngestEntities(cfg, g, ans, es, seen, fast), vocabulary, fast)
    decreases |es|
  {
    if es == [] {
    } else {
      var id := EntityId(es[0].etype, es[0].term);
      if |id.term| < 2 || id in seen {
        IngestEntitiesSound(cfg, g, ans, es[1..], seen, vocabulary, fast);
      } else {
        assert es[0] in es;
        IngestEntitySound(cfg, g, ans, id, vocabulary, fast);
        IngestEntitiesSound(cfg, IngestEntity(cfg, g, ans, id, fast), ans, es[1..], seen + {id}, vocabulary, fast);
      }
    }
  }

  lemma IngestDocumentSound(cfg: Config, g: Graph, d: Document, vocabulary: set<string>, fast: bool)
    requires g.Valid() && Sound(cfg, g, vocabulary, fast)
    requires forall e :: e in d.entities && |e.term| >= 2 ==> e.term in vocabulary
    ensures Sound(cfg, IngestDocument(cfg, g, d, fast), vocabulary, fast)
  {
    var r := GetOrAddNode(g, ValueId(d.id), ValueKind, d.value, 0.0);
    ValueNodeSound(cfg, g, d, vocabulary, fast);
    IngestEntitiesSound(cfg, r, r.nodeToIdx[ValueId(d.id)], d.entities, {}, vocabulary, fast);
  }

  lemma ValueNodeSound(cfg: Config, g: Graph, d: Document, vocabulary: set<string>, fast: bool)
    requires g.Valid() && Sound(cfg, g, vocabulary, fast)
    ensures Sound(cfg, GetOrAddNode(g, ValueId(d.id), ValueKind, d.value, 0.0), vocabulary, fast)
  {
    NodeStepWeighted(cfg, g, ValueId(d.id), ValueKind, d.value, 0.0);
    LargerWeighted(cfg, g, GetOrAddNode(g, ValueId(d.id), ValueKind, d.value, 0.0), g.edges);
  }

  lemma {:induction false} IngestSound(cfg: Config, g: Graph, docs: seq<Document>, vocabulary: set<string>, fast: bool)
    requires g.Valid() && Sound(cfg, g, vocabulary, fast)
    requires Labels(docs, 2) <= vocabulary
    ensures Sound(cfg, Ingest(cfg, g, docs, fast), vocabulary, fast)
    decreases |docs|
  {
    if docs == [] {
    } else {
      forall e | e in docs[0].entities && |e.term| >= 2
        ensures e.term in vocabulary
      {
        assert docs[0] in docs;
        assert e.term in Labels(docs, 2);
      }
      forall x | x in Labels(docs[1..], 2)
        ensures x in Labels(docs, 2)
      {
        var d, e :| d in docs[1..] && e in d.entities && |e.term| >= 2 && x == e.term;
        assert d in docs;
      }
      IngestDocumentSound(cfg, g, docs[0], vocabulary, fast);
      IngestSound(cfg, IngestDocument(cfg, g, docs[0], fast), docs[1..], vocabulary, fast);
    }
  }

  // ----- refresh -----

  ghost predicate NodeFresh(cfg: Config, g: Graph, id: NodeId)
    requires g.Valid() && id in g.nodeToIdx
  {
    && NodeWeighted(cfg, g, g.nodeToIdx[id], {})
    && forall p: nat :: p < |g.edges| && g.edges[p].src == g.nodeToIdx[id] ==> EdgeWeighted(cfg, g, g.edges[p], {})
  }

  lemma RefreshNodeFresh(cfg: Config, g: Graph, id: NodeId)
    requires g.Valid() && Positioned(g) && id in g.nodeToIdx && id.EntityId? && g.Freq(id.term) > 0
    ensures var s := cfg.spec(g.Freq(id.term));
            var r := RefreshNode(g, id, s, WeightOf(cfg, s));
            Positioned(r) && NodeFresh(cfg, r, id)
  {
    var s := cfg.spec(g.Freq(id.term));
    var r := RefreshNode(g, id, s, WeightOf(cfg, s));
    forall p: nat | p < |r.edges|
      ensures p in Lookup(r.positions, r.edges[p].src)
      ensures r.edges[p].src == r.nodeToIdx[id] ==> EdgeWeighted(cfg, r, r.edges[p], {})
    {
      assert p in Lookup(g.positions, g.edges[p].src);
    }
  }

  lemma RefreshNodeOther(cfg: Config, g: Graph, id: NodeId, x: NodeId, spec: real, w: real)
    requires g.Valid() && id in g.nodeToIdx && id.EntityId? && x in g.nodeToIdx && x != id
    requires NodeFresh(cfg, g, x)
    ensures NodeFresh(cfg, RefreshNode(g, id, spec, w), x)
  {
    var r := RefreshNode(g, id, spec, w);
    forall p: nat | p < |r.edges| && r.edges[p].src == r.nodeToIdx[x]
      ensures EdgeWeighted(cfg, r, r.edges[p], {})
    {
      assert g.edges[p].src != g.nodeToIdx[id];
      assert EdgeWeighted(cfg, g, g.edges[p], {});
    }
  }

  lemma RefreshNodeKeeps(cfg: Config, g: Graph, id: NodeId, x: NodeId)
    requires g.Valid() && Positioned(g) && id in g.nodeToIdx && id.EntityId? && g.Freq(id.term) > 0
    requires x in g.nodeToIdx && (x == id || NodeFresh(cfg, g, x))
    ensures var s := cfg.spec(g.Freq(id.term));
            NodeFresh(cfg, RefreshNode(g, id, s, WeightOf(cfg, s)), x)
  {
    var s := cfg.spec(g.Freq(id.term));
    if x == id { RefreshNodeFresh(cfg, g, id); } else { RefreshNodeOther(cfg, g, id, x, s, WeightOf(cfg, s)); }
  }

  // Refreshing nodes that all carry the label x makes each of them fresh and
  // leaves the others as fresh as they were.
  lemma {:induction false} RefreshNodesFresh(cfg: Config, g: Graph, ids: seq<NodeId>, x: string, id: NodeId, s: real)
    requires g.Valid() && Positioned(g) && g.Freq(x) > 0 && s == cfg.spec(g.Freq(x))
    requires forall y :: y in ids ==> y in g.nodeToIdx && y.EntityId? && y.term == x
    requires id in g.nodeToIdx && (id in ids || NodeFresh(cfg, g, id))
    ensures NodeFresh(cfg, RefreshNodes(g, ids, s, WeightOf(cfg, s)), id)
    decreases |ids|
  {
    if ids == [] {
    } else {
      var m := RefreshNode(g, ids[0], s, WeightOf(cfg, s));
      RefreshNodeFresh(cfg, g, ids[0]);
      if id == ids[0] || NodeFresh(cfg, g, id) { RefreshNodeKeeps(cfg, g, ids[0], id); }
      RefreshNodesFresh(cfg, m, ids[1..], x, id, s);
    }
  }

  // Fresh but for the nodes whose label is stale.
  ghost predicate FreshBut(cfg: Config, g: Graph, stale: set<string>)
    requires g.Valid()
  {
    && (forall id :: id in g.nodeToIdx && !(id.EntityId? && id.term in stale) ==> NodeFresh(cfg, g, id))
    && Positioned(g) && Indexed(cfg, g)
  }

  ghost predicate NoClash(cfg: Config, vocabulary: set<string>) {
    forall x, y :: x in vocabulary && y in vocabulary && x in cfg.words(y) ==> x == y
  }

  lemma UnderLabel(cfg: Config, g: Graph, x: string, vocabulary: set<string>)
    requires g.Valid() && Indexed(cfg, g)
    requires Within(g, vocabulary) && x in vocabulary && NoClash(cfg, vocabulary)
    ensures forall id :: id in Lookup(g.index, x) <==> id in g.nodeToIdx && id.EntityId? && id.term == x
  {
    forall id
      ensures id in Lookup(g.index, x) <==> id in g.nodeToIdx && id.EntityId? && id.term == x
    {
      assert id in Lookup(g.index, x) <==> Under(g.index, x, id);
    }
  }

  lemma RefreshLabelFresh(cfg: Config, g: Graph, x: string, stale: set<string>, vocabulary: set<string>)
    requires g.Valid() && FreshBut(cfg, g, stale) && g.Freq(x) > 0
    requires Within(g, vocabulary) && x in vocabulary && NoClash(cfg, vocabulary)
    ensures FreshBut(cfg, RefreshLabel(cfg, g, x), stale - {x})
  {
    UnderLabel(cfg, g, x, vocabulary);
    var ids, s, r := Lookup(g.index, x), cfg.spec(g.Freq(x)), RefreshLabel(cfg, g, x);
    forall id | id in g.nodeToIdx && !(id.EntityId? && id.term in stale - {x})
      ensures NodeFresh(cfg, r, id)
    {
      RefreshNodesFresh(cfg, g, ids, x, id, s);
    }
    RefreshNodesPositioned(g, ids, cfg.spec(g.Freq(x)), WeightOf(cfg, cfg.spec(g.Freq(x))));
  }

  lemma {:induction false} RefreshNodesPositioned(g: Graph, ids: seq<NodeId>, spec: real, w: real)
    requires g.Valid() && Positioned(g)
    ensures Positioned(RefreshNodes(g, ids, spec, w))
    decreases |ids|
  {
    var r := RefreshNodes(g, ids, spec, w);
    forall p: nat | p < |r.edges|
      ensures p in Lookup(r.positions, r.edges[p].src)
    {
      assert p in Lookup(g.positions, g.edges[p].src);
    }
  }

  lemma {:induction false} RefreshLabelsFresh(cfg: Config, g: Graph, order: seq<string>, stale: set<string>,
                                              vocabulary: set<string>)
    requires g.Valid() && FreshBut(cfg, g, stale)
    requires Within(g, vocabulary) && NoClash(cfg, vocabulary)
    requires forall x :: x in order ==> x in vocabulary && g.Freq(x) > 0
    requires forall x :: x in stale ==> x in order
    ensures FreshBut(cfg, RefreshLabels(cfg, g, order), {})
    decreases |order|
  {
    if order == [] {
      assert stale == {};
    } else {
      assert order == [order[0]] + order[1..];
      RefreshLabelFresh(cfg, g, order[0], stale, vocabulary);
      RefreshLabelsFresh(cfg, RefreshLabel(cfg, g, order[0]), order[1..], stale - {order[0]}, vocabulary);
    }
  }

  lemma FreshIsWeighted(cfg: Config, g: Graph)
    requires g.Valid() && FreshBut(cfg, g, {})
    ensures Weighted(cfg, g, {})
  {
    forall i: nat | i < g.Size()
      ensures NodeWeighted(cfg, g, i, {})
    {
      assert NodeFresh(cfg, g, g.idxToNode[i]);
    }
    forall e | e in g.edges
      ensures EdgeWeighted(cfg, g, e, {})
    {
      var p :| 0 <= p < |g.edges| && g.edges[p] == e;
      assert NodeFresh(cfg, g, g.idxToNode[e.src]);
    }
  }

  lemma CountedIsFreshBut(cfg: Config, g: Graph, docs: seq<Document>)
    requires g.Valid() && Weighted(cfg, g, {}) && Positioned(g) && Indexed(cfg, g)
    ensures FreshBut(cfg, CountBatch(g, docs), Labels(docs, 2))
  {
    var c := CountBatch(g, docs);
    forall id | id in c.nodeToIdx && !(id.EntityId? && id.term in Labels(docs, 2))
      ensures NodeFresh(cfg, c, id)
    {
      assert id.EntityId? ==> c.Freq(id.term) == g.Freq(id.term);
      assert NodeWeighted(cfg, g, g.nodeToIdx[id], {});
      forall p: nat | p < |c.edges| && c.edges[p].src == c.nodeToIdx[id]
        ensures EdgeWeighted(cfg, c, c.edges[p], {})
      {
        assert EdgeWeighted(cfg, g, g.edges[p], {});
      }
    }
  }
}
