/** What compaction leaves of the spread over the compiled matrix, and which
    labels name nodes. */
module Queries {
  import opened Sparse
  import opened Graph
  import opened GrowthTheorems
  import Saved = SavedGraph
  import Seeding
  import S = Spread

  // ----- spreading -----

  // For every seed map both spreads answer alike over the two matrices.
  ghost predicate SpreadAlike(scfg: S.Config, g: Graph, h: Graph, seeds: S.Dict, hops: nat, fast: S.Dict)
    requires g.Valid() && g.Shaped() && h.Valid() && h.Shaped()
  {
    var m, k, n := Compile(g).adj.value, Compile(h).adj.value, g.Size();
    && h.Size() == n
    && (S.Usable(m, n, seeds) ==>
          && S.Usable(k, n, seeds)
          && S.Hops(scfg, k, n, seeds, hops) == S.Hops(scfg, m, n, seeds, hops)
          && (S.FastAnswer(scfg, k, n, seeds, fast) <==> S.FastAnswer(scfg, m, n, seeds, fast)))
  }

  // The graph loaded from saved data, and a graph compacted in place, spread
  // every seed map as the graph did before.
  lemma CompactKeepsSpread(scfg: S.Config, g: Graph, seeds: S.Dict, hops: nat, fast: S.Dict)
    requires g.Valid() && g.Shaped() && g.built
    ensures Saved.Load(Saved.Save(g)).Ok?
    ensures var l := Saved.Load(Saved.Save(g)).value;
            l.Valid() && l.Shaped() && SpreadAlike(scfg, g, l, seeds, hops, fast)
    ensures SpreadAlike(scfg, g, Compact(g), seeds, hops, fast)
  {
    hide Graph.Valid, BuildCsr, S.Hops, S.FastAnswer;
    Saved.SaveLoadRoundTrip(g);
    SameCompiled(scfg, g, Compact(g), seeds, hops, fast);
    var l := Saved.Load(Saved.Save(g)).value;
    assert l.Valid() by { LoadedValid(g); }
    SameCompiled(scfg, g, l, seeds, hops, fast);
  }

  lemma LoadedValid(g: Graph)
    requires g.Valid()
    ensures Compile(g).(edges := [], positions := map[], generation := 0, built := true).Valid()
  {
  }

  lemma SameCompiled(scfg: S.Config, g: Graph, h: Graph, seeds: S.Dict, hops: nat, fast: S.Dict)
    requires g.Valid() && g.Shaped() && h.Valid() && h.Shaped()
    requires g.Size() == h.Size() && Compile(g).adj == Compile(h).adj
    ensures SpreadAlike(scfg, g, h, seeds, hops, fast)
  {
  }

  // ----- labels and nodes -----

  lemma {:induction false} EntitiesNamed(cfg: Config, g: Graph, ans: nat, es: seq<Entity>, seen: set<NodeId>,
                                         fast: bool)
    requires g.Valid() && ans < g.Size() && g.idxToNode[ans].ValueId? && forall id :: id in seen ==> id in g.nodeToIdx
    ensures var r := IngestEntities(cfg, g, ans, es, seen, fast);
            && g.idxToNode <= r.idxToNode
            && forall e :: e in es && |e.term| >= 2 ==> EntityId(e.etype, e.term) in r.idxToNode
    decreases |es|
  {
    hide Graph.Valid, IngestEntity;
    if es == [] {
    } else {
      var id := EntityId(es[0].etype, es[0].term);
      assert es == [es[0]] + es[1..];
      if |id.term| < 2 || id in seen {
        EntitiesNamed(cfg, g, ans, es[1..], seen, fast);
        if id in seen { NodeListed(g, id); }
      } else {
        var m := IngestEntity(cfg, g, ans, id, fast);
        EntityNamed(cfg, g, ans, id, fast);
        EntitiesNamed(cfg, m, ans, es[1..], seen + {id}, fast);
      }
    }
  }

  lemma NodeListed(g: Graph, id: NodeId)
    requires g.Valid() && id in g.nodeToIdx
    ensures id in g.idxToNode
  {
    assert g.idxToNode[g.nodeToIdx[id]] == id;
  }

  lemma EntityNamed(cfg: Config, g: Graph, ans: nat, id: NodeId, fast: bool)
    requires g.Valid() && id.EntityId? && ans < g.Size() && g.idxToNode[ans].ValueId?
    ensures var m := IngestEntity(cfg, g, ans, id, fast);
            id in m.nodeToIdx && id in m.idxToNode && forall x :: x in g.nodeToIdx ==> x in m.nodeToIdx
  {
    var m := IngestEntity(cfg, g, ans, id, fast);
    assert m.idxToNode[m.nodeToIdx[id]] == id;
  }

  // Every label that can name a node does.
  lemma {:induction false} IngestNamed(cfg: Config, g: Graph, docs: seq<Document>, fast: bool)
    requires g.Valid()
    ensures var r := Ingest(cfg, g, docs, fast);
            && g.idxToNode <= r.idxToNode
            && forall x :: x in Labels(docs, 2) ==> Seeding.Names(r.idxToNode, x)
    decreases |docs|
  {
    hide IngestEntities, Graph.Valid, Seeding.Names;
    if docs == [] {
    } else {
      var d, m := docs[0], IngestDocument(cfg, g, docs[0], fast);
      DocumentNamed(cfg, g, d, fast);
      IngestNamed(cfg, m, docs[1..], fast);
      var r := Ingest(cfg, g, docs, fast);
      assert docs == [d] + docs[1..];
      LabelsAppend([d], docs[1..], 2);
      forall x | x in Labels([d], 2)
        ensures Seeding.Names(r.idxToNode, x)
      {
        NamesLonger(m.idxToNode, r.idxToNode, x);
      }
    }
  }

  lemma NamesLonger(ids: seq<NodeId>, more: seq<NodeId>, x: string)
    requires ids <= more && Seeding.Names(ids, x)
    ensures Seeding.Names(more, x)
  {
    assert forall id :: id in ids ==> id in more;
  }

  lemma DocumentNamed(cfg: Config, g: Graph, d: Document, fast: bool)
    requires g.Valid()
    ensures var r := IngestDocument(cfg, g, d, fast);
            && g.idxToNode <= r.idxToNode
            && forall x :: x in Labels([d], 2) ==> Seeding.Names(r.idxToNode, x)
  {
    var v := GetOrAddNode(g, ValueId(d.id), ValueKind, d.value, 0.0);
    EntitiesNamed(cfg, v, v.nodeToIdx[ValueId(d.id)], d.entities, {}, fast);
    var r := IngestDocument(cfg, g, d, fast);
    forall x | x in Labels([d], 2)
      ensures Seeding.Names(r.idxToNode, x)
    {
      var e :| e in d.entities && |e.term| >= 2 && e.term == x;
      assert EntityId(e.etype, e.term) in r.idxToNode;
    }
  }
}
