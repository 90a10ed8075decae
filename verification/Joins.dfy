/** Which nodes ingest makes and which it joins, said of the documents alone:
    one edge from an entity to a document's value for every document of that id
    that lists the entity, over batches, builds and whole scripts. */
module Joins {
  import opened Sparse
  import opened Graph
  import opened Growth
  import opened GrowthTheorems
  import opened Compaction
  import opened CompactExact

  // The entity is listed with a label long enough to name a node.
  predicate Lists(es: seq<Entity>, id: NodeId) {
    id.EntityId? && |id.term| >= 2 && Entity(id.term, id.etype) in es
  }

  predicate Mentions(d: Document, x: NodeId, v: NodeId) {
    v == ValueId(d.id) && Lists(d.entities, x)
  }

  // How many of the documents, with v for their value node, list x.
  function Listings(docs: seq<Document>, x: NodeId, v: NodeId): nat {
    if docs == [] then 0 else (if Mentions(docs[0], x, v) then 1 else 0) + Listings(docs[1..], x, v)
  }

  predicate Runs(ids: seq<NodeId>, e: Edge, x: NodeId, v: NodeId) {
    e.src < |ids| && e.dst < |ids| && ids[e.src] == x && ids[e.dst] == v
  }

  // How many of the edges run from x to v.
  function Times(ids: seq<NodeId>, es: seq<Edge>, x: NodeId, v: NodeId): nat {
    if es == [] then 0
    else Times(ids, es[..|es| - 1], x, v) + if Runs(ids, es[|es| - 1], x, v) then 1 else 0
  }

  predicate Names(d: Document, id: NodeId) {
    id == ValueId(d.id) || Lists(d.entities, id)
  }

  // ----- counting edges -----

  lemma {:induction false} TimesOverEnds(ids: seq<NodeId>, es: seq<Edge>, more: seq<NodeId>, fs: seq<Edge>,
                                         x: NodeId, v: NodeId)
    requires ids <= more && SameEnds(es, fs)
    requires forall p :: 0 <= p < |es| ==> es[p].src < |ids| && es[p].dst < |ids|
    ensures Times(more, fs, x, v) == Times(ids, es, x, v)
  {
    if es == [] {
    } else {
      TimesOverEnds(ids, es[..|es| - 1], more, fs[..|fs| - 1], x, v);
    }
  }

  lemma {:induction false} SomeTime(ids: seq<NodeId>, es: seq<Edge>, x: NodeId, v: NodeId)
    ensures Times(ids, es, x, v) > 0 <==> exists p :: 0 <= p < |es| && Runs(ids, es[p], x, v)
  {
    if es == [] {
    } else {
      var init := es[..|es| - 1];
      SomeTime(ids, init, x, v);
      assert forall p :: 0 <= p < |init| ==> es[p] == init[p];
      if Runs(ids, es[|es| - 1], x, v) { assert Runs(ids, es[|es| - 1], x, v) && 0 <= |es| - 1 < |es|; }
    }
  }

  lemma {:induction false} SomeListing(docs: seq<Document>, x: NodeId, v: NodeId)
    ensures Listings(docs, x, v) > 0 <==> exists d :: d in docs && Mentions(d, x, v)
  {
    if docs == [] {
    } else {
      SomeListing(docs[1..], x, v);
      assert docs == [docs[0]] + docs[1..];
    }
  }

  lemma {:induction false} OneListing(docs: seq<Document>, x: NodeId, v: NodeId)
    requires DistinctIds(docs)
    ensures Listings(docs, x, v) <= 1
  {
    if docs == [] {
    } else {
      var rest := docs[1..];
      OneListing(rest, x, v);
      SomeListing(rest, x, v);
      assert forall k :: 0 <= k < |rest| ==> rest[k].id != docs[0].id;
    }
  }

  // ----- ingest -----

  lemma NewEdgeRuns(cfg: Config, g: Graph, ans: nat, id: NodeId)
    requires g.Valid() && id.EntityId? && ans < g.Size() && g.idxToNode[ans].ValueId?
    ensures var m, e := IngestNode(cfg, g, id), NewEdge(cfg, g, ans, id);
            && e.src < |m.idxToNode| && e.dst < |m.idxToNode|
            && m.idxToNode[e.src] == id && m.idxToNode[e.dst] == g.idxToNode[ans]
  {
  }

  lemma EdgesInRange(g: Graph)
    requires g.Valid()
    ensures forall p :: 0 <= p < |g.edges| ==> g.edges[p].src < g.Size() && g.edges[p].dst < g.Size()
  {
    assert forall p :: 0 <= p < |g.edges| ==> g.Fits(g.edges[p]);
  }

  lemma EntityTimes(cfg: Config, g: Graph, ans: nat, id: NodeId, fast: bool, x: NodeId, v: NodeId)
    requires g.Valid() && id.EntityId? && ans < g.Size() && g.idxToNode[ans].ValueId?
    ensures var r := IngestEntity(cfg, g, ans, id, fast);
            Times(r.idxToNode, r.edges, x, v) ==
            Times(g.idxToNode, g.edges, x, v) + if x == id && v == g.idxToNode[ans] then 1 else 0
  {
    hide Graph.Valid, IngestNode, NewEdge;
    var m, e, r := IngestNode(cfg, g, id), NewEdge(cfg, g, ans, id), IngestEntity(cfg, g, ans, id, fast);
    EdgesInRange(g);
    TimesOverEnds(g.idxToNode, g.edges, m.idxToNode, g.edges, x, v);
    assert r.edges == g.edges + [e] && r.idxToNode == m.idxToNode && r.edges[..|r.edges| - 1] == g.edges;
    NewEdgeRuns(cfg, g, ans, id);
  }

  lemma {:induction false} EntitiesTimes(cfg: Config, g: Graph, ans: nat, es: seq<Entity>, seen: set<NodeId>,
                                         fast: bool, x: NodeId, v: NodeId)
    requires g.Valid() && ans < g.Size() && g.idxToNode[ans].ValueId?
    ensures var r := IngestEntities(cfg, g, ans, es, seen, fast);
            Times(r.idxToNode, r.edges, x, v) ==
            Times(g.idxToNode, g.edges, x, v) + if v == g.idxToNode[ans] && x !in seen && Lists(es, x) then 1 else 0
    decreases |es|
  {
    hide Graph.Valid, IngestEntity, Times;
    if es == [] {
    } else {
      var id := EntityId(es[0].etype, es[0].term);
      assert es == [es[0]] + es[1..];
      if |id.term| < 2 || id in seen {
        EntitiesTimes(cfg, g, ans, es[1..], seen, fast, x, v);
      } else {
        EntityTimes(cfg, g, ans, id, fast, x, v);
        EntitiesTimes(cfg, IngestEntity(cfg, g, ans, id, fast), ans, es[1..], seen + {id}, fast, x, v);
      }
    }
  }

  lemma DocumentTimes(cfg: Config, g: Graph, d: Document, fast: bool, x: NodeId, v: NodeId)
    requires g.Valid()
    ensures var r := IngestDocument(cfg, g, d, fast);
            Times(r.idxToNode, r.edges, x, v) ==
            Times(g.idxToNode, g.edges, x, v) + if Mentions(d, x, v) then 1 else 0
  {
    hide Times;
    var r := GetOrAddNode(g, ValueId(d.id), ValueKind, d.value, 0.0);
    var ans := r.nodeToIdx[ValueId(d.id)];
    assert r.idxToNode[ans] == ValueId(d.id);
    EdgesInRange(g);
    TimesOverEnds(g.idxToNode, g.edges, r.idxToNode, r.edges, x, v);
    EntitiesTimes(cfg, r, ans, d.entities, {}, fast, x, v);
  }

  // A batch adds, between an entity and a value, an edge for each of its
  // documents with that value node that lists the entity.
  lemma {:induction false} IngestTimes(cfg: Config, g: Graph, docs: seq<Document>, fast: bool, x: NodeId, v: NodeId)
    requires g.Valid()
    ensures var r := Ingest(cfg, g, docs, fast);
            Times(r.idxToNode, r.edges, x, v) == Times(g.idxToNode, g.edges, x, v) + Listings(docs, x, v)
    decreases |docs|
  {
    hide Graph.Valid, IngestDocument, Times;
    if docs == [] {
    } else {
      DocumentTimes(cfg, g, docs[0], fast, x, v);
      IngestTimes(cfg, IngestDocument(cfg, g, docs[0], fast), docs[1..], fast, x, v);
    }
  }

  // ----- the nodes ingest makes -----

  // A node the documents ask for: the value node of one, or an entity one lists.
  predicate Wanted(docs: seq<Document>, id: NodeId) {
    exists k :: 0 <= k < |docs| && Names(docs[k], id)
  }

  lemma {:induction false} EntitiesWanted(cfg: Config, g: Graph, ans: nat, es: seq<Entity>, seen: set<NodeId>,
                                          fast: bool, id: NodeId)
    requires g.Valid() && ans < g.Size() && g.idxToNode[ans].ValueId?
    requires forall s :: s in seen ==> s in g.nodeToIdx
    ensures id in IngestEntities(cfg, g, ans, es, seen, fast).nodeToIdx <==> id in g.nodeToIdx || Lists(es, id)
    decreases |es|
  {
    hide Graph.Valid, IngestEntity;
    if es == [] {
    } else {
      var one := EntityId(es[0].etype, es[0].term);
      assert es == [es[0]] + es[1..];
      if |one.term| < 2 || one in seen {
        EntitiesWanted(cfg, g, ans, es[1..], seen, fast, id);
      } else {
        var m := IngestEntity(cfg, g, ans, one, fast);
        assert m.nodeToIdx.Keys == g.nodeToIdx.Keys + {one} by { EntityKeys(cfg, g, ans, one, fast); }
        EntitiesWanted(cfg, m, ans, es[1..], seen + {one}, fast, id);
      }
    }
  }

  lemma EntityKeys(cfg: Config, g: Graph, ans: nat, id: NodeId, fast: bool)
    requires g.Valid() && id.EntityId? && ans < g.Size() && g.idxToNode[ans].ValueId?
    ensures IngestEntity(cfg, g, ans, id, fast).nodeToIdx.Keys == g.nodeToIdx.Keys + {id}
  {
    hide Graph.Valid;
  }

  lemma ValueKeys(g: Graph, d: Document)
    requires g.Valid()
    ensures GetOrAddNode(g, ValueId(d.id), ValueKind, d.value, 0.0).nodeToIdx.Keys ==
            g.nodeToIdx.Keys + {ValueId(d.id)}
  {
    hide Graph.Valid;
  }

  lemma DocumentWanted(cfg: Config, g: Graph, d: Document, fast: bool, id: NodeId)
    requires g.Valid()
    ensures id in IngestDocument(cfg, g, d, fast).nodeToIdx <==> id in g.nodeToIdx || Names(d, id)
  {
    hide Graph.Valid, IngestEntities, GetOrAddNode;
    var r := GetOrAddNode(g, ValueId(d.id), ValueKind, d.value, 0.0);
    ValueKeys(g, d);
    NodeListed(r, ValueId(d.id));
    EntitiesWanted(cfg, r, r.nodeToIdx[ValueId(d.id)], d.entities, {}, fast, id);
  }

  // Ingest makes the nodes its documents ask for, and no others.
  lemma {:induction false} IngestWanted(cfg: Config, g: Graph, docs: seq<Document>, fast: bool, id: NodeId)
    requires g.Valid()
    ensures id in Ingest(cfg, g, docs, fast).nodeToIdx <==> id in g.nodeToIdx || Wanted(docs, id)
    decreases |docs|
  {
    hide Graph.Valid, IngestDocument, Names;
    if docs == [] {
    } else {
      var rest := docs[1..];
      DocumentWanted(cfg, g, docs[0], fast, id);
      IngestWanted(cfg, IngestDocument(cfg, g, docs[0], fast), rest, fast, id);
      assert forall k :: 0 <= k < |rest| ==> rest[k] == docs[k + 1];
      if Wanted(docs, id) {
        var k :| 0 <= k < |docs| && Names(docs[k], id);
        if k > 0 { assert rest[k - 1] == docs[k]; }
      }
      if Wanted(rest, id) {
        var k :| 0 <= k < |rest| && Names(rest[k], id);
        var j := k + 1;
        assert Names(docs[j], id);
      }
    }
  }

  lemma {:induction false} EntitiesLabels(cfg: Config, g: Graph, ans: nat, es: seq<Entity>, seen: set<NodeId>,
                                          fast: bool)
    requires g.Valid() && ans < g.Size() && g.idxToNode[ans].ValueId?
    ensures g.labels <= IngestEntities(cfg, g, ans, es, seen, fast).labels
    decreases |es|
  {
    hide Graph.Valid;
    if es == [] {
    } else {
      var id := EntityId(es[0].etype, es[0].term);
      if |id.term| < 2 || id in seen {
        EntitiesLabels(cfg, g, ans, es[1..], seen, fast);
      } else {
        EntitiesLabels(cfg, IngestEntity(cfg, g, ans, id, fast), ans, es[1..], seen + {id}, fast);
      }
    }
  }

  lemma {:induction false} IngestLabels(cfg: Config, g: Graph, docs: seq<Document>, fast: bool)
    requires g.Valid()
    ensures var r := Ingest(cfg, g, docs, fast); g.labels <= r.labels && g.idxToNode <= r.idxToNode
    decreases |docs|
  {
    hide Graph.Valid, IngestEntities;
    if docs == [] {
    } else {
      var v := GetOrAddNode(g, ValueId(docs[0].id), ValueKind, docs[0].value, 0.0);
      var ans := v.nodeToIdx[ValueId(docs[0].id)];
      assert ans < v.Size() && v.idxToNode[ans].ValueId? by { NodeListed(v, ValueId(docs[0].id)); }
      EntitiesLabels(cfg, v, ans, docs[0].entities, {}, fast);
      IngestLabels(cfg, IngestDocument(cfg, g, docs[0], fast), docs[1..], fast);
    }
  }

  lemma NodeListed(g: Graph, id: NodeId)
    requires g.Valid() && id in g.nodeToIdx
    ensures g.nodeToIdx[id] < |g.labels| && g.nodeToIdx[id] < |g.idxToNode| && g.idxToNode[g.nodeToIdx[id]] == id
  {
  }

  // A new value node carries the value of the first document of its id.
  lemma {:induction false} IngestValue(cfg: Config, g: Graph, docs: seq<Document>, fast: bool, k: nat)
    requires g.Valid() && k < |docs| && ValueId(docs[k].id) !in g.nodeToIdx
    requires forall j :: 0 <= j < k ==> docs[j].id != docs[k].id
    ensures var r, v := Ingest(cfg, g, docs, fast), ValueId(docs[k].id);
            v in r.nodeToIdx && r.nodeToIdx[v] < |r.labels| && r.labels[r.nodeToIdx[v]] == docs[k].value
    decreases |docs|
  {
    hide Graph.Valid, IngestEntities;
    var r, v, m := Ingest(cfg, g, docs, fast), ValueId(docs[k].id), IngestDocument(cfg, g, docs[0], fast);
    DocumentWanted(cfg, g, docs[0], fast, v);
    if k == 0 {
      var o := GetOrAddNode(g, v, ValueKind, docs[0].value, 0.0);
      NodeListed(o, v);
      EntitiesLabels(cfg, o, o.nodeToIdx[v], docs[0].entities, {}, fast);
      IngestLabels(cfg, m, docs[1..], fast);
      assert o.idxToNode <= r.idxToNode && o.labels <= r.labels;
      SameNumber(o, r, v);
      assert o.labels[o.nodeToIdx[v]] == docs[0].value by { NewLabel(g, v, docs[0].value); }
    } else {
      assert forall j :: 0 <= j < k - 1 ==> docs[1..][j] == docs[j + 1];
      IngestValue(cfg, m, docs[1..], fast, k - 1);
    }
  }

  lemma NewLabel(g: Graph, v: NodeId, value: string)
    requires g.Valid() && v.ValueId? && v !in g.nodeToIdx
    ensures var o := GetOrAddNode(g, v, ValueKind, value, 0.0);
            o.nodeToIdx[v] == |g.labels| < |o.labels| && o.labels[|g.labels|] == value
  {
  }

  // ----- batches and builds -----

  lemma BuildTimes(cfg: Config, generation: nat, docs: seq<Document>, x: NodeId, v: NodeId)
    ensures var r := Build(cfg, generation, docs); Times(r.idxToNode, r.edges, x, v) == Listings(docs, x, v)
  {
    hide Ingest, BuildFreq;
    IngestTimes(cfg, Reset(generation, docs), docs, true, x, v);
  }

  lemma BatchTimes(cfg: Config, m: Graph, docs: seq<Document>, order: seq<string>, x: NodeId, v: NodeId)
    requires m.Valid()
    ensures var r := AddBatch(cfg, m, docs, order);
            Times(r.idxToNode, r.edges, x, v) == Times(m.idxToNode, m.edges, x, v) + Listings(docs, x, v)
  {
    hide Ingest, RefreshLabels, Times;
    var f := Refresh(cfg, CountBatch(m, docs), order);
    RefreshLabelsKeepNodes(cfg, CountBatch(m, docs), order);
    EdgesInRange(m);
    TimesOverEnds(m.idxToNode, m.edges, f.idxToNode, f.edges, x, v);
    IngestTimes(cfg, f, docs, false, x, v);
  }

  // A graph joins an entity to a document's value.
  ghost predicate Linked(g: Graph, x: NodeId, v: NodeId)
    requires g.Valid() && g.Shaped()
  {
    exists p :: 0 <= p < |Current(g)| && Runs(g.idxToNode, Current(g)[p], x, v)
  }

  // After a build, exactly the pairs that some document lists are joined; with
  // distinct ids, by one edge each.
  lemma BuildLinksIff(cfg: Config, generation: nat, docs: seq<Document>, x: NodeId, v: NodeId)
    ensures var r := Build(cfg, generation, docs);
            && r.Shaped()
            && (Linked(r, x, v) <==> exists d :: d in docs && Mentions(d, x, v))
            && (DistinctIds(docs) ==> Times(r.idxToNode, r.edges, x, v) == if Linked(r, x, v) then 1 else 0)
  {
    hide Ingest, Times, Listings, BuildFreq;
    var r := Build(cfg, generation, docs);
    assert r.dirty && Current(r) == r.edges;
    BuildTimes(cfg, generation, docs, x, v);
    SomeTime(r.idxToNode, r.edges, x, v);
    SomeListing(docs, x, v);
    if DistinctIds(docs) { OneListing(docs, x, v); }
  }

  lemma BuildNodesIff(cfg: Config, generation: nat, docs: seq<Document>, id: NodeId)
    ensures id in Build(cfg, generation, docs).nodeToIdx <==> Wanted(docs, id)
  {
    hide Ingest, BuildFreq, Wanted;
    IngestWanted(cfg, Reset(generation, docs), docs, true, id);
  }

  lemma BatchNodesIff(cfg: Config, g: Graph, docs: seq<Document>, order: seq<string>, id: NodeId)
    requires Loadable(g)
    ensures id in AddDocuments(cfg, g, docs, order).nodeToIdx <==> id in g.nodeToIdx || Wanted(docs, id)
  {
    hide Ingest, RefreshLabels, Graph.Valid;
    var c := CountBatch(EnsureMutable(g), docs);
    RefreshLabelsKeepNodes(cfg, c, order);
    IngestWanted(cfg, Refresh(cfg, c, order), docs, false, id);
  }

  // After a batch: those joined before, and those its documents list.
  lemma BatchLinksIff(cfg: Config, g: Graph, docs: seq<Document>, order: seq<string>, x: NodeId, v: NodeId)
    requires g.Valid() && g.Shaped() && Compiled(g) && g.Bipartite(Current(g))
    ensures Loadable(g)
    ensures var r := AddDocuments(cfg, g, docs, order);
            && r.Shaped()
            && Times(r.idxToNode, Current(r), x, v) == Times(g.idxToNode, Current(g), x, v) + Listings(docs, x, v)
            && (Linked(r, x, v) <==> Linked(g, x, v) || exists d :: d in docs && Mentions(d, x, v))
  {
    hide Graph.Valid, AddBatch, Times, Listings, BuildCsr, EnsureMutable, Compiled;
    MaterializedEdges(g);
    var r, m := AddDocuments(cfg, g, docs, order), EnsureMutable(g);
    SomeListing(docs, x, v);
    if docs == [] {
      NoListing(docs, x, v);
    } else {
      BatchTimes(cfg, m, docs, order, x, v);
      AddBatchTracked(cfg, m, docs, order);
      CompiledBuffers(r);
    }
    SomeTime(g.idxToNode, Current(g), x, v);
    SomeTime(r.idxToNode, Current(r), x, v);
  }

  lemma NoListing(docs: seq<Document>, x: NodeId, v: NodeId)
    requires docs == []
    ensures Listings(docs, x, v) == 0
  {
  }

  // ----- scripts -----

  lemma CompileLinks(cfg: Config, g: Graph, docs: seq<Document>, vocabulary: set<string>, x: NodeId, v: NodeId)
    requires Settled(cfg, g, docs, vocabulary)
    ensures Compile(g).Shaped() && (Linked(Compile(g), x, v) <==> Linked(g, x, v))
  {
    if g.dirty { CompiledBuffers(Compile(g)); }
  }

  lemma CompactLinks(g: Graph, x: NodeId, v: NodeId)
    requires g.Valid() && g.Shaped() && Compiled(g) && g.Bipartite(Current(g)) && g.built
    ensures Compact(g).Shaped() && (Linked(Compact(g), x, v) <==> Linked(g, x, v))
  {
    hide Graph.Valid, Graph.Bipartite, BuildCsr, ToCoo;
    var n, es := g.Size(), Current(g);
    BipartiteInRange(g, es);
    CooRoundTrip(n, es);
    var coo := ToCoo(BuildCsr(n, es), n, n);
    assert Compact(g).Shaped() && Current(Compact(g)) == coo by { CompactCurrent(g); }
    JoinsLink(g.idxToNode, es, coo, x, v);
    JoinsLink(g.idxToNode, coo, es, x, v);
  }

  lemma JoinsLink(ids: seq<NodeId>, es: seq<Edge>, fs: seq<Edge>, x: NodeId, v: NodeId)
    requires forall i: nat, j: nat :: Joined(es, i, j) ==> Joined(fs, i, j)
    ensures (exists p :: 0 <= p < |es| && Runs(ids, es[p], x, v)) ==>
              exists p :: 0 <= p < |fs| && Runs(ids, fs[p], x, v)
  {
    forall p | 0 <= p < |es| && Runs(ids, es[p], x, v)
      ensures exists q :: 0 <= q < |fs| && Runs(ids, fs[q], x, v)
    {
      assert Joined(es, es[p].src, es[p].dst);
      var q :| 0 <= q < |fs| && fs[q].src == es[p].src && fs[q].dst == es[p].dst;
      assert Runs(ids, fs[q], x, v);
    }
  }

  // After batches, compilations and compactions in any order, whatever ids
  // repeat: an entity is joined to a value exactly when one of the documents
  // taken in lists it under that id.
  lemma {:induction false} ScriptLinksIff(cfg: Config, steps: seq<Step>, x: NodeId, v: NodeId)
    ensures var g := RunScript(cfg, Empty(0), steps);
            && g.Valid() && g.Shaped()
            && (Linked(g, x, v) <==> exists d :: d in Taken(steps) && Mentions(d, x, v))
  {
    hide AddDocuments, Compile, Compact, Linked, Mentions, Settled;
    var g := RunScript(cfg, Empty(0), steps);
    ScriptSettled(cfg, steps, Labels(Taken(steps), 2));
    SettledShape(cfg, g, Taken(steps), Labels(Taken(steps), 2));
    if steps == [] {
      assert !Linked(g, x, v) by { EmptyUnlinked(x, v); }
    } else {
      var init, last := steps[..|steps| - 1], steps[|steps| - 1];
      var h, vocabulary := RunScript(cfg, Empty(0), init), Labels(Taken(init), 2);
      ScriptLinksIff(cfg, init, x, v);
      ScriptSettled(cfg, init, vocabulary);
      SettledShape(cfg, h, Taken(init), vocabulary);
      match last
      case Add(docs, order) => BatchLinksIff(cfg, h, docs, order, x, v);
      case Recompile => CompileLinks(cfg, h, Taken(init), vocabulary, x, v);
      case Compaction => if h.built { CompactLinks(h, x, v); }
    }
  }

  lemma SettledShape(cfg: Config, g: Graph, docs: seq<Document>, vocabulary: set<string>)
    requires Settled(cfg, g, docs, vocabulary)
    ensures g.Valid() && g.Shaped() && Compiled(g) && g.Bipartite(Current(g))
  {
  }

  lemma EmptyUnlinked(x: NodeId, v: NodeId)
    ensures Empty(0).Shaped() && !Linked(Empty(0), x, v)
  {
  }

  // ----- counts -----

  // A frequency counts mentions, so a document that lists a label twice counts
  // twice; a mention is a document's number and a place in its list.
  function MentionsOf(docs: seq<Document>, x: string): set<(nat, nat)> {
    set k: nat, j: nat | k < |docs| && j < |docs[k].entities| && docs[k].entities[j].term == x :: (k, j)
  }

  function PlacesOf(es: seq<Entity>, x: string): set<nat> {
    set j: nat | j < |es| && es[j].term == x
  }

  lemma {:induction false} CountInIsPlaces(es: seq<Entity>, x: string)
    ensures CountIn(es, x) == |PlacesOf(es, x)|
  {
    if es == [] {
    } else {
      var n := |es| - 1;
      CountInIsPlaces(es[..n], x);
      assert PlacesOf(es, x) == PlacesOf(es[..n], x) + if es[n].term == x then {n} else {};
    }
  }

  function Paired(n: nat, s: set<nat>): set<(nat, nat)> {
    set j | j in s :: (n, j)
  }

  lemma {:induction false} PairedSize(n: nat, s: set<nat>)
    ensures |Paired(n, s)| == |s|
  {
    if s == {} {
    } else {
      var i :| i in s;
      PairedSize(n, s - {i});
      assert Paired(n, s) == Paired(n, s - {i}) + {(n, i)};
    }
  }

  lemma LastMentions(docs: seq<Document>, x: string)
    requires docs != []
    ensures var n := |docs| - 1;
            var last := Paired(n, PlacesOf(docs[n].entities, x));
            MentionsOf(docs, x) == MentionsOf(docs[..n], x) + last && MentionsOf(docs[..n], x) !! last
  {
  }

  lemma {:induction false} CountIsMentions(docs: seq<Document>, x: string)
    ensures Count(docs, x) == |MentionsOf(docs, x)|
  {
    if docs == [] {
    } else {
      hide PlacesOf, MentionsOf, Paired;
      var n := |docs| - 1;
      CountIsMentions(docs[..n], x);
      CountInIsPlaces(docs[n].entities, x);
      PairedSize(n, PlacesOf(docs[n].entities, x));
      LastMentions(docs, x);
    }
  }

  // A build counts every mention, a batch adds those of the labels that can
  // name a node.
  lemma BuildCounts(generation: nat, docs: seq<Document>, x: string)
    ensures Reset(generation, docs).Freq(x) == |MentionsOf(docs, x)|
  {
    hide MentionsOf, Count, Labels;
    CountIsMentions(docs, x);
    CountZero(docs, x);
  }

  lemma BatchCounts(g: Graph, docs: seq<Document>, x: string)
    requires g.Valid()
    ensures CountBatch(g, docs).Freq(x) == g.Freq(x) + if |x| >= 2 then |MentionsOf(docs, x)| else 0
  {
    hide MentionsOf, Count, Labels, Graph.Valid;
    CountIsMentions(docs, x);
    CountZero(docs, x);
    LabelsLong(docs, x);
  }
}
