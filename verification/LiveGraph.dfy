/** The mutable graph object. Every method is specified by the value-level
    operation of the same name in module Graph. */
module LiveGraph {
  import opened Wrappers
  import opened Sparse
  import G = Graph
  import S = SavedGraph

  // Three parallel edge buffers read as one list.
  function Zip(src: seq<nat>, dst: seq<nat>, weight: seq<real>): (es: seq<Edge>)
    requires |src| == |dst| == |weight|
    ensures |es| == |src|
    ensures forall p :: 0 <= p < |es| ==> es[p] == Edge(src[p], dst[p], weight[p])
  {
    seq(|src|, p requires 0 <= p < |src| => Edge(src[p], dst[p], weight[p]))
  }

  class SpreadingActivation {
    const config: G.Config
    var nodeToIdx: map<G.NodeId, nat>
    var idxToNode: seq<G.NodeId>
    var nodeType: seq<G.NodeKind>
    var nodeLabel: seq<string>
    var nodeSpecificity: seq<real>
    var edgeSrc: seq<nat>
    var edgeDst: seq<nat>
    var edgeWeight: seq<real>
    var entityEdgePositions: G.Positions
    var adj: Option<Csr>
    var dirty: bool
    var entityFreq: map<string, nat>
    var entityIndex: G.Index
    var graphGeneration: nat
    var built: bool

    ghost predicate Valid()
      reads this
    {
      |edgeSrc| == |edgeDst| == |edgeWeight|
    }

    ghost function Model(): G.Graph
      reads this
      requires Valid()
    {
      G.Graph(nodeToIdx, idxToNode, nodeType, nodeLabel, nodeSpecificity, Zip(edgeSrc, edgeDst, edgeWeight),
              entityEdgePositions, adj, dirty, entityFreq, entityIndex, graphGeneration, built)
    }

    constructor (config: G.Config)
      ensures Valid() && Model() == G.Empty(0) && this.config == config
    {
      this.config := config;
      nodeToIdx, idxToNode, nodeType, nodeLabel, nodeSpecificity := map[], [], [], [], [];
      edgeSrc, edgeDst, edgeWeight, entityEdgePositions := [], [], [], map[];
      adj, dirty, entityFreq, entityIndex, graphGeneration, built := None, true, map[], map[], 0, false;
    }

    method AppendNode(id: G.NodeId, kind: G.NodeKind, term: string, spec: real)
      modifies `nodeToIdx, `idxToNode, `nodeType, `nodeLabel, `nodeSpecificity, `dirty
      ensures nodeToIdx == old(nodeToIdx)[id := |old(idxToNode)|] && idxToNode == old(idxToNode) + [id]
      ensures nodeType == old(nodeType) + [kind] && nodeLabel == old(nodeLabel) + [term]
      ensures nodeSpecificity == old(nodeSpecificity) + [spec] && dirty
    {
      nodeToIdx := nodeToIdx[id := |idxToNode|];
      idxToNode := idxToNode + [id];
      nodeType := nodeType + [kind];
      nodeLabel := nodeLabel + [term];
      nodeSpecificity := nodeSpecificity + [spec];
      dirty := true;
    }

    method GetOrAddNode(id: G.NodeId, kind: G.NodeKind, term: string, spec: real) returns (idx: nat)
      requires Valid() && Model().Valid()
      requires kind == G.EntityKind <==> id.EntityId?
      requires id.EntityId? ==> term == id.term
      modifies this
      ensures Valid() && Model() == G.GetOrAddNode(old(Model()), id, kind, term, spec)
      ensures id in nodeToIdx && idx == nodeToIdx[id]
    {
      if id in nodeToIdx {
        idx := nodeToIdx[id];
        assert idx < |nodeSpecificity|;
        hide G.Graph.Valid;
        nodeSpecificity := nodeSpecificity[idx := spec];
      } else {
        hide G.Graph.Valid;
        idx := |idxToNode|;
        AppendNode(id, kind, term, spec);
      }
    }

    method AppendEdge(src: nat, dst: nat, weight: real)
      requires Valid()
      modifies `edgeSrc, `edgeDst, `edgeWeight
      ensures Valid() && |edgeSrc| == |old(edgeSrc)| + 1
      ensures Zip(edgeSrc, edgeDst, edgeWeight) == old(Zip(edgeSrc, edgeDst, edgeWeight)) + [Edge(src, dst, weight)]
    {
      edgeSrc := edgeSrc + [src];
      edgeDst := edgeDst + [dst];
      edgeWeight := edgeWeight + [weight];
    }

    method AddEdge(src: nat, dst: nat, weight: real, fast: bool)
      requires Valid() && Model().Valid() && Model().Fits(Edge(src, dst, weight))
      modifies this
      ensures Valid() && Model() == G.AddEdge(old(Model()), Edge(src, dst, weight), fast)
    {
      hide G.Graph.Valid;
      var pos := |edgeSrc|;
      AppendEdge(src, dst, weight);
      if !fast {
        entityEdgePositions := G.Push(entityEdgePositions, src, pos);
        dirty := true;
      }
    }

    method IndexEntityNode(id: G.NodeId)
      requires Valid() && Model().Valid() && id.EntityId?
      modifies this`entityIndex
      ensures Valid()
      ensures Model() == old(Model()).(index := G.IndexUnder(old(entityIndex), [id.term] + config.words(id.term), id))
    {
      hide G.Graph.Valid;
      var keys := [id.term] + config.words(id.term);
      var i := 0;
      while i < |keys|
        invariant 0 <= i <= |keys|
        invariant G.IndexUnder(entityIndex, keys[i..], id) == G.IndexUnder(old(entityIndex), keys, id)
        invariant Valid() && Model() == old(Model()).(index := entityIndex)
      {
        assert keys[i..][0] == keys[i] && keys[i..][1..] == keys[i + 1..];
        entityIndex := G.Push(entityIndex, keys[i], id);
        i := i + 1;
      }
    }

    method IngestEntity(ans: nat, id: G.NodeId, fast: bool)
      requires Valid() && Model().Valid() && id.EntityId? && ans < |idxToNode| && idxToNode[ans].ValueId?
      modifies this
      ensures Valid() && Model() == G.IngestEntity(config, old(Model()), ans, id, fast)
    {
      var freq := if id.term in entityFreq then entityFreq[id.term] else 0;
      var specificity := config.spec(if freq < 1 then 1 else freq);
      var isNew := id !in nodeToIdx;
      var idx := GetOrAddNode(id, G.EntityKind, id.term, specificity);
      if isNew { IndexEntityNode(id); }
      assert Model() == G.IngestNode(config, old(Model()), id);
      AddEdge(idx, ans, G.WeightOf(config, specificity), fast);
    }

    method IngestDocument(doc: G.Document, fast: bool)
      requires Valid() && Model().Valid()
      modifies this
      ensures Valid() && Model() == G.IngestDocument(config, old(Model()), doc, fast)
    {
      var ans := GetOrAddNode(G.ValueId(doc.id), G.ValueKind, doc.value, 0.0);
      ghost var start := Model();
      var seen: set<G.NodeId> := {};
      var i := 0;
      while i < |doc.entities|
        invariant 0 <= i <= |doc.entities|
        invariant Valid() && Model().Valid() && ans < |idxToNode| && idxToNode[ans].ValueId?
        invariant G.IngestEntities(config, Model(), ans, doc.entities[i..], seen, fast)
               == G.IngestEntities(config, start, ans, doc.entities, {}, fast)
      {
        var e := doc.entities[i];
        assert doc.entities[i..][0] == e && doc.entities[i..][1..] == doc.entities[i + 1..];
        var id := G.EntityId(e.etype, e.term);
        if |e.term| >= 2 && id !in seen {
          seen := seen + {id};
          IngestEntity(ans, id, fast);
        }
        i := i + 1;
      }
    }

    method IngestExtracted(docs: seq<G.Document>, fast: bool)
      requires Valid() && Model().Valid()
      modifies this
      ensures Valid() && Model() == G.Ingest(config, old(Model()), docs, fast)
    {
      var i := 0;
      while i < |docs|
        invariant 0 <= i <= |docs| && Valid() && Model().Valid()
        invariant G.Ingest(config, Model(), docs[i..], fast) == G.Ingest(config, old(Model()), docs, fast)
      {
        assert docs[i..][0] == docs[i] && docs[i..][1..] == docs[i + 1..];
        IngestDocument(docs[i], fast);
        i := i + 1;
      }
    }

    method ReweighEdges(positions: seq<nat>, weight: real)
      requires Valid() && Model().Valid() && forall k :: 0 <= k < |positions| ==> positions[k] < |edgeSrc|
      modifies this`edgeWeight
      ensures Valid()
      ensures Model() == old(Model()).(edges := G.Reweigh(old(Model()).edges, positions, weight))
    {
      var k := 0;
      while k < |positions|
        invariant 0 <= k <= |positions| && |edgeWeight| == |edgeSrc|
        invariant forall p :: 0 <= p < |edgeWeight| ==>
                    edgeWeight[p] == if p in positions[..k] then weight else old(edgeWeight)[p]
      {
        assert positions[..k + 1] == positions[..k] + [positions[k]];
        edgeWeight := edgeWeight[positions[k] := weight];
        k := k + 1;
      }
      assert positions[..k] == positions;
      assert Model().edges == G.Reweigh(old(Model()).edges, positions, weight);
    }

    method RefreshNode(id: G.NodeId, spec: real, weight: real)
      requires Valid() && Model().Valid()
      modifies this
      ensures Valid() && Model() == G.RefreshNode(old(Model()), id, spec, weight)
    {
      if id !in nodeToIdx || nodeType[nodeToIdx[id]] != G.EntityKind { return; }
      var idx := nodeToIdx[id];
      ReweighEdges(G.Lookup(entityEdgePositions, idx), weight);
      nodeSpecificity := nodeSpecificity[idx := spec];
    }

    method RefreshLabel(x: string)
      requires Valid() && Model().Valid()
      modifies this
      ensures Valid() && Model() == G.RefreshLabel(config, old(Model()), x)
    {
      var freq := if x in entityFreq then entityFreq[x] else 0;
      if freq == 0 { return; }
      var spec := config.spec(freq);
      var ids, weight := G.Lookup(entityIndex, x), G.WeightOf(config, spec);
      var i := 0;
      while i < |ids|
        invariant 0 <= i <= |ids| && Valid() && Model().Valid()
        invariant G.RefreshNodes(Model(), ids[i..], spec, weight) == G.RefreshNodes(old(Model()), ids, spec, weight)
      {
        assert ids[i..][0] == ids[i] && ids[i..][1..] == ids[i + 1..];
        RefreshNode(ids[i], spec, weight);
        i := i + 1;
      }
    }

    // Walks the touched set in some order, which it reports.
    method RefreshSpecificity(touched: set<string>) returns (ghost order: seq<string>)
      requires Valid() && Model().Valid()
      modifies this
      ensures G.Enumerates(order, touched)
      ensures Valid() && Model() == G.Refresh(config, old(Model()), order)
    {
      hide G.Graph.Valid, G.RefreshLabel;
      order := [];
      var rest := touched;
      while rest != {}
        invariant rest <= touched && Valid()
        invariant G.Enumerates(order, touched - rest)
        invariant Model() == G.RefreshLabels(config, old(Model()), order)
        decreases rest
      {
        var x :| x in rest;
        RefreshAppend(config, old(Model()), order, x);
        RefreshLabel(x);
        order, rest := order + [x], rest - {x};
      }
      assert touched - rest == touched;
      assert order != [] ==> order[0] in touched;
      if touched != {} {
        ghost var x :| x in touched;
        assert x in order;
        dirty := true;
      }
    }

    method SetEdges(es: seq<Edge>, positions: G.Positions)
      modifies `edgeSrc, `edgeDst, `edgeWeight, `entityEdgePositions
      ensures Valid() && Zip(edgeSrc, edgeDst, edgeWeight) == es && entityEdgePositions == positions
    {
      edgeSrc := seq(|es|, p requires 0 <= p < |es| => es[p].src);
      edgeDst := seq(|es|, p requires 0 <= p < |es| => es[p].dst);
      edgeWeight := seq(|es|, p requires 0 <= p < |es| => es[p].weight);
      entityEdgePositions := positions;
    }

    method EnsureMutableEdges()
      requires Valid() && G.Loadable(Model())
      modifies this
      ensures Valid() && Model() == G.EnsureMutable(old(Model()))
    {
      hide G.Graph.Valid, ToCoo, G.IndexPositions;
      if edgeSrc != [] || adj.None? || G.Stored(adj.value) == 0 || dirty { return; }
      var n := |idxToNode|;
      var es := ToCoo(adj.value, n, n);
      SetEdges(es, G.IndexPositions(es));
    }

    method CountBatch(docs: seq<G.Document>)
      requires Valid() && Model().Valid()
      modifies `graphGeneration, `entityFreq
      ensures Valid() && Model() == G.CountBatch(old(Model()), docs)
    {
      hide G.Graph.Valid;
      graphGeneration := graphGeneration + 1;
      entityFreq := G.BumpFreq(entityFreq, docs);
    }

    method AddDocuments(docs: seq<G.Document>) returns (ghost order: seq<string>)
      requires Valid() && G.Loadable(Model())
      modifies this
      ensures docs != [] ==> G.Enumerates(order, G.Labels(docs, 2))
      ensures Valid() && Model() == G.AddDocuments(config, old(Model()), docs, order)
    {
      hide G.Graph.Valid, G.EnsureMutable, G.CountBatch, G.Refresh, G.Ingest, G.Enumerates, G.Labels;
      order := [];
      if docs == [] { return; }
      EnsureMutableEdges();
      CountBatch(docs);
      order := RefreshSpecificity(G.Labels(docs, 2));
      IngestExtracted(docs, false);
      built := true;
    }

    method SetNodes(toIdx: map<G.NodeId, nat>, toNode: seq<G.NodeId>, types: seq<G.NodeKind>,
                    labels: seq<string>, specificities: seq<real>)
      modifies `nodeToIdx, `idxToNode, `nodeType, `nodeLabel, `nodeSpecificity
      ensures nodeToIdx == toIdx && idxToNode == toNode && nodeType == types
      ensures nodeLabel == labels && nodeSpecificity == specificities
    {
      nodeToIdx, idxToNode, nodeType, nodeLabel, nodeSpecificity := toIdx, toNode, types, labels, specificities;
    }

    method SetTables(freq: map<string, nat>, index: G.Index)
      modifies `entityFreq, `entityIndex
      ensures entityFreq == freq && entityIndex == index
    {
      entityFreq, entityIndex := freq, index;
    }

    method ResetGraphState(freq: map<string, nat>)
      modifies this
      ensures Valid() && Model() == G.Empty(old(graphGeneration) + 1).(freq := freq)
    {
      SetNodes(map[], [], [], [], []);
      SetEdges([], map[]);
      SetTables(freq, map[]);
      adj, dirty, built := None, true, false;
      graphGeneration := graphGeneration + 1;
    }

    method Build(docs: seq<G.Document>)
      requires Valid()
      modifies this
      ensures Valid() && Model() == G.Build(config, old(graphGeneration), docs)
    {
      hide G.Graph.Valid, G.Ingest, G.BuildFreq;
      ResetGraphState(G.BuildFreq(docs));
      assert Model() == G.Reset(old(graphGeneration), docs);
      IngestExtracted(docs, true);
      dirty, built := true, true;
    }

    // The fallback of the compile protocol, or any run of it without rivals.
    method CompileLocked()
      requires Valid() && Model().Valid()
      modifies this`adj, this`dirty
      ensures Valid() && Model() == G.Compile(old(Model()))
    {
      hide G.Graph.Valid;
      if !dirty { return; }
      adj := Some(BuildCsr(|idxToNode|, Zip(edgeSrc, edgeDst, edgeWeight)));
      dirty := false;
    }

    // Compiles, then hands out the lists and the matrix.
    method GetSaveData() returns (data: S.SaveData)
      requires Valid() && Model().Valid() && Model().Shaped()
      modifies this`adj, this`dirty
      ensures Valid() && Model() == G.Compile(old(Model()))
      ensures data == S.Save(old(Model()))
    {
      hide G.Graph.Valid, BuildCsr;
      CompileLocked();
      var m := adj.value;
      data := S.SaveData(nodeToIdx, idxToNode, nodeType, nodeLabel, nodeSpecificity,
                         m.data, m.indices, m.indptr, |m.indptr| - 1, |m.indptr| - 1, entityFreq, entityIndex);
    }

    method SetMatrix(m: Csr)
      modifies `adj, `dirty, `built
      ensures adj == Some(m) && !dirty && built
    {
      adj, dirty, built := Some(m), false, true;
    }

    // A new object from saved data, or the error of the first failed check.
    static method FromSparseV1(config: G.Config, data: S.SaveData)
      returns (r: Result<SpreadingActivation, S.Corruption>)
      ensures r.Err? ==> S.Load(data) == Err(r.error)
      ensures r.Ok? ==> fresh(r.value) && r.value.Valid() && S.Load(data) == Ok(r.value.Model())
    {
      hide S.FormatOk, S.Matrix;
      if !S.FormatOk(data) { return Err(S.BadMatrix); }
      if |data.nodeType| != data.rows { return Err(S.BadNodeType); }
      if |data.idxToNode| != data.rows { return Err(S.BadIdxToNode); }
      if |data.nodeLabel| != data.rows { return Err(S.BadNodeLabel); }
      var sa := new SpreadingActivation(config);
      sa.TakeSaved(data);
      r := Ok(sa);
    }

    // Fills a new object: the edge buffers stay empty.
    method TakeSaved(data: S.SaveData)
      requires Valid() && S.FormatOk(data) && Model() == G.Empty(0)
      modifies this
      ensures Valid() && edgeSrc == [] && entityEdgePositions == map[] && graphGeneration == 0
      ensures Model() ==
              G.Graph(data.nodeToIdx, data.idxToNode, data.nodeType, data.nodeLabel, data.nodeSpecificity, [], map[],
                      Some(S.Matrix(data)), false, data.entityFreq, data.entityIndex, 0, true)
    {
      hide S.FormatOk, S.Matrix;
      assert edgeSrc == [] by { assert |Zip(edgeSrc, edgeDst, edgeWeight)| == 0; }
      SetNodes(data.nodeToIdx, data.idxToNode, data.nodeType, data.nodeLabel, data.nodeSpecificity);
      SetTables(data.entityFreq, data.entityIndex);
      SetMatrix(S.Matrix(data));
    }

    // Everything but the generation counter comes from the other object.
    method TakeOver(other: SpreadingActivation)
      requires other.Valid() && other != this
      modifies this
      ensures Valid() && Model() == other.Model().(generation := old(graphGeneration))
    {
      SetNodes(other.nodeToIdx, other.idxToNode, other.nodeType, other.nodeLabel, other.nodeSpecificity);
      SetTables(other.entityFreq, other.entityIndex);
      TakeEdges(other);
    }

    method TakeEdges(other: SpreadingActivation)
      requires other.Valid() && other != this
      modifies `edgeSrc, `edgeDst, `edgeWeight, `entityEdgePositions, `adj, `dirty, `built
      ensures edgeSrc == other.edgeSrc && edgeDst == other.edgeDst && edgeWeight == other.edgeWeight
      ensures entityEdgePositions == other.entityEdgePositions
      ensures adj == other.adj && dirty == other.dirty && built == other.built
    {
      edgeSrc, edgeDst, edgeWeight := other.edgeSrc, other.edgeDst, other.edgeWeight;
      entityEdgePositions, adj, dirty, built := other.entityEdgePositions, other.adj, other.dirty, other.built;
    }

    // Save, load and swap. False stands for the error raised on a graph that
    // was never built; the load itself raises on no graph.
    method Compact() returns (ok: bool)
      requires Valid() && Model().Valid() && Model().Shaped()
      modifies this
      ensures ok == old(built)
      ensures Valid() && Model() == if ok then G.Compact(old(Model())) else old(Model())
    {
      hide G.Graph.Valid, BuildCsr, S.Save, S.Load, G.Compact;
      ok := built;
      if !built { return; }
      S.CompactIsReload(Model());
      var data := GetSaveData();
      var loaded := FromSparseV1(config, data);
      TakeOver(loaded.value);
      graphGeneration := graphGeneration + 1;
    }
  }

  lemma {:induction false} RefreshAppend(cfg: G.Config, g: G.Graph, order: seq<string>, x: string)
    requires g.Valid()
    ensures G.RefreshLabels(cfg, g, order + [x]) == G.RefreshLabel(cfg, G.RefreshLabels(cfg, g, order), x)
    decreases |order|
  {
    if order == [] {
      assert [] + [x] == [x] && [x][1..] == [];
      var r := G.RefreshLabel(cfg, g, x);
      assert G.RefreshLabels(cfg, r, []) == r;
    } else {
      assert (order + [x])[1..] == order[1..] + [x];
      RefreshAppend(cfg, G.RefreshLabel(cfg, g, order[0]), order[1..], x);
    }
  }
}
