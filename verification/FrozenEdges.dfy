/** The edges that a build makes: no batch after it ever changes one, until the
    graph is compacted. */
module FrozenEdges {
  import opened Sparse
  import opened Graph
  import opened Growth
  import opened GrowthTheorems
  import opened Compaction

  lemma {:induction false} FastIngestKeepsPositions(cfg: Config, g: Graph, ans: nat, es: seq<Entity>, seen: set<NodeId>)
    requires g.Valid() && ans < g.Size() && g.idxToNode[ans].ValueId?
    ensures IngestEntities(cfg, g, ans, es, seen, true).positions == g.positions
    decreases |es|
  {
    if es == [] {
    } else {
      var id := EntityId(es[0].etype, es[0].term);
      if |id.term| < 2 || id in seen {
        FastIngestKeepsPositions(cfg, g, ans, es[1..], seen);
      } else {
        FastIngestKeepsPositions(cfg, IngestEntity(cfg, g, ans, id, true), ans, es[1..], seen + {id});
      }
    }
  }

  lemma {:induction false} BuildKeepsPositions(cfg: Config, g: Graph, docs: seq<Document>)
    requires g.Valid()
    ensures Ingest(cfg, g, docs, true).positions == g.positions
    decreases |docs|
  {
    if docs == [] {
    } else {
      var r := GetOrAddNode(g, ValueId(docs[0].id), ValueKind, docs[0].value, 0.0);
      FastIngestKeepsPositions(cfg, r, r.nodeToIdx[ValueId(docs[0].id)], docs[0].entities, {});
      BuildKeepsPositions(cfg, IngestDocument(cfg, g, docs[0], true), docs[1..]);
    }
  }

  // No recorded position is one of the first n edges.
  ghost predicate LatePositions(g: Graph, n: nat) {
    forall i, k :: i in g.positions && 0 <= k < |g.positions[i]| ==> g.positions[i][k] >= n
  }

  // The graph still starts with the built edges, and no refresh can find them.
  ghost predicate Frozen(g: Graph, built: seq<Edge>) {
    g.Valid() && g.Shaped() && built <= g.edges && LatePositions(g, |built|) && g.edges != []
  }

  lemma LateNode(g: Graph, id: NodeId, spec: real, w: real, n: nat)
    requires g.Valid() && n <= |g.edges| && LatePositions(g, n)
    ensures RefreshNode(g, id, spec, w).edges[..n] == g.edges[..n]
  {
  }

  lemma {:induction false} LateNodes(g: Graph, ids: seq<NodeId>, spec: real, w: real, n: nat)
    requires g.Valid() && n <= |g.edges| && LatePositions(g, n)
    ensures RefreshNodes(g, ids, spec, w).edges[..n] == g.edges[..n]
    decreases |ids|
  {
    hide Graph.Valid, RefreshNode;
    if ids == [] {
    } else {
      LateNode(g, ids[0], spec, w, n);
      LateNodes(RefreshNode(g, ids[0], spec, w), ids[1..], spec, w, n);
    }
  }

  lemma {:induction false} LateLabels(cfg: Config, g: Graph, order: seq<string>, n: nat)
    requires g.Valid() && n <= |g.edges| && LatePositions(g, n)
    ensures RefreshLabels(cfg, g, order).edges[..n] == g.edges[..n]
    decreases |order|
  {
    hide Graph.Valid, RefreshNodes;
    if order == [] {
    } else {
      var x := order[0];
      if g.Freq(x) != 0 {
        LateNodes(g, Lookup(g.index, x), cfg.spec(g.Freq(x)), WeightOf(cfg, cfg.spec(g.Freq(x))), n);
      }
      LateLabels(cfg, RefreshLabel(cfg, g, x), order[1..], n);
    }
  }

  lemma LateEdge(g: Graph, e: Edge, n: nat)
    requires g.Valid() && g.Fits(e) && n <= |g.edges| && LatePositions(g, n)
    ensures LatePositions(AddEdge(g, e, false), n)
  {
  }

  lemma {:induction false} LateEntities(cfg: Config, g: Graph, ans: nat, es: seq<Entity>, seen: set<NodeId>, n: nat)
    requires g.Valid() && ans < g.Size() && g.idxToNode[ans].ValueId? && n <= |g.edges| && LatePositions(g, n)
    ensures LatePositions(IngestEntities(cfg, g, ans, es, seen, false), n)
    ensures n <= |IngestEntities(cfg, g, ans, es, seen, false).edges|
    decreases |es|
  {
    hide Graph.Valid, IngestNode, AddEdge;
    if es == [] {
    } else {
      var id := EntityId(es[0].etype, es[0].term);
      if |id.term| < 2 || id in seen {
        LateEntities(cfg, g, ans, es[1..], seen, n);
      } else {
        LateEdge(IngestNode(cfg, g, id), NewEdge(cfg, g, ans, id), n);
        LateEntities(cfg, IngestEntity(cfg, g, ans, id, false), ans, es[1..], seen + {id}, n);
      }
    }
  }

  lemma {:induction false} LateIngest(cfg: Config, g: Graph, docs: seq<Document>, n: nat)
    requires g.Valid() && n <= |g.edges| && LatePositions(g, n)
    ensures LatePositions(Ingest(cfg, g, docs, false), n)
    decreases |docs|
  {
    hide Graph.Valid, IngestEntities, GetOrAddNode;
    if docs == [] {
    } else {
      var r := GetOrAddNode(g, ValueId(docs[0].id), ValueKind, docs[0].value, 0.0);
      assert r.idxToNode[r.nodeToIdx[ValueId(docs[0].id)]].ValueId? by { IdOfNode(r, ValueId(docs[0].id)); }
      LateEntities(cfg, r, r.nodeToIdx[ValueId(docs[0].id)], docs[0].entities, {}, n);
      LateIngest(cfg, IngestDocument(cfg, g, docs[0], false), docs[1..], n);
    }
  }

  lemma IdOfNode(g: Graph, id: NodeId)
    requires g.Valid() && id in g.nodeToIdx
    ensures g.nodeToIdx[id] < g.Size() && g.idxToNode[g.nodeToIdx[id]] == id
  {
  }

  lemma BatchFrozen(cfg: Config, g: Graph, built: seq<Edge>, batch: seq<Document>, order: seq<string>)
    requires Frozen(g, built)
    ensures Frozen(AddBatch(cfg, g, batch, order), built)
  {
    hide Graph.Valid, Ingest, RefreshLabels;
    var c := CountBatch(g, batch);
    var m := Refresh(cfg, c, order);
    LateLabels(cfg, c, order, |built|);
    LateIngest(cfg, m, batch, |built|);
    IngestKeeps(cfg, m, batch, false);
    AddBatchTracked(cfg, g, batch, order);
    assert m.edges[..|built|] == built;
  }

  lemma FrozenStep(cfg: Config, g: Graph, built: seq<Edge>, step: Step)
    requires Frozen(g, built) && !step.Compaction?
    ensures Frozen(Apply(cfg, g, step), built)
  {
    hide Graph.Valid, AddBatch, BuildCsr;
    if step.Add? && step.docs != [] { BatchFrozen(cfg, g, built, step.docs, step.order); }
  }

  ghost predicate Uncompacted(steps: seq<Step>) {
    forall i :: 0 <= i < |steps| ==> !steps[i].Compaction?
  }

  lemma {:induction false} FrozenScript(cfg: Config, g: Graph, built: seq<Edge>, steps: seq<Step>)
    requires Frozen(g, built) && Uncompacted(steps)
    ensures Frozen(RunScript(cfg, g, steps), built)
  {
    hide Frozen, Apply;
    if steps == [] {
    } else {
      FrozenScript(cfg, g, built, steps[..|steps| - 1]);
      FrozenStep(cfg, RunScript(cfg, g, steps[..|steps| - 1]), built, steps[|steps| - 1]);
    }
  }

  // No later batch, with compilations anywhere in between, changes an edge
  // that the build made.
  lemma BuiltEdgesFrozen(cfg: Config, generation: nat, docs: seq<Document>, steps: seq<Step>)
    requires Uncompacted(steps)
    ensures Build(cfg, generation, docs).edges <= RunScript(cfg, Build(cfg, generation, docs), steps).edges
  {
    hide RunScript;
    var b := Build(cfg, generation, docs);
    if b.edges == [] {
    } else {
      BuildKeepsPositions(cfg, Reset(generation, docs), docs);
      FrozenScript(cfg, b, b.edges, steps);
    }
  }

  lemma BuiltEdgeWeight(cfg: Config, generation: nat, docs: seq<Document>, p: nat)
    requires p < |Build(cfg, generation, docs).edges|
    ensures var b := Build(cfg, generation, docs);
            && b.Fits(b.edges[p])
            && b.edges[p].weight == WeightOf(cfg, cfg.spec(Count(docs, b.labels[b.edges[p].src])))
  {
    var b := Build(cfg, generation, docs);
    BuildInvariant(cfg, generation, docs, Labels(docs, 2));
    assert EdgeWeighted(cfg, b, b.edges[p], {});
    WeightIsCount(cfg, b, docs, p);
  }

  // A built edge still weighs what its label's count calls for exactly when
  // the later batches did not change that specificity.
  lemma BuiltEdgeCurrentIff(cfg: Config, generation: nat, docs: seq<Document>, steps: seq<Step>, p: nat, x: string)
    requires Uncompacted(steps) && p < |Build(cfg, generation, docs).edges|
    requires var b := Build(cfg, generation, docs); b.Fits(b.edges[p]) && x == b.labels[b.edges[p].src]
    ensures p < |RunScript(cfg, Build(cfg, generation, docs), steps).edges|
    ensures RunScript(cfg, Build(cfg, generation, docs), steps).edges[p].weight
              == WeightOf(cfg, cfg.spec(Count(docs + Taken(steps), x)))
            <==> WeightOf(cfg, cfg.spec(Count(docs, x))) ==
                 WeightOf(cfg, cfg.spec(Count(docs, x) + Count(Taken(steps), x)))
  {
    hide Build, RunScript, Count, Graph.Valid;
    BuiltEdgesFrozen(cfg, generation, docs, steps);
    BuiltEdgeWeight(cfg, generation, docs, p);
    CountAppend(docs, Taken(steps), x);
  }

  // Different frequencies weigh differently, as with any positive power.
  ghost predicate Discerning(cfg: Config) {
    forall a: nat, b: nat :: 1 <= a < b ==> WeightOf(cfg, cfg.spec(a)) != WeightOf(cfg, cfg.spec(b))
  }

  lemma BuiltLabelCounted(cfg: Config, generation: nat, docs: seq<Document>, p: nat)
    requires p < |Build(cfg, generation, docs).edges|
    ensures var b := Build(cfg, generation, docs);
            b.Fits(b.edges[p]) && b.labels[b.edges[p].src] in Labels(docs, 2)
  {
    var b := Build(cfg, generation, docs);
    BuildInvariant(cfg, generation, docs, Labels(docs, 2));
    assert b.Fits(b.edges[p]) && b.idxToNode[b.edges[p].src] in b.nodeToIdx;
  }

  // With such weights: exactly when no later batch mentions its label.
  lemma BuiltEdgeStaleIff(cfg: Config, generation: nat, docs: seq<Document>, steps: seq<Step>, p: nat, x: string)
    requires Uncompacted(steps) && p < |Build(cfg, generation, docs).edges| && Discerning(cfg)
    requires var b := Build(cfg, generation, docs); b.Fits(b.edges[p]) && x == b.labels[b.edges[p].src]
    ensures p < |RunScript(cfg, Build(cfg, generation, docs), steps).edges|
    ensures RunScript(cfg, Build(cfg, generation, docs), steps).edges[p].weight
              != WeightOf(cfg, cfg.spec(Count(docs + Taken(steps), x)))
            <==> x in Labels(Taken(steps), 2)
  {
    hide Build, RunScript, Graph.Valid, Count, Labels;
    BuiltEdgeCurrentIff(cfg, generation, docs, steps, p, x);
    BuiltLabelCounted(cfg, generation, docs, p);
    CountZero(docs, x);
    CountZero(Taken(steps), x);
    LabelsLong(docs, x);
    LabelsLong(Taken(steps), x);
    var a, b := Count(docs, x), Count(Taken(steps), x);
    assert a >= 1 && (b == 0 || a < a + b);
  }

  // The smallest such input: a label built once and mentioned once more.
  lemma StaleAfterOneBatch(cfg: Config, y: string)
    requires |y| >= 2 && Discerning(cfg)
    ensures var docs, steps := [Mention("0", y)], [Recompile, Add([Mention("1", y)], [y])];
            var r := RunScript(cfg, Build(cfg, 0, docs), steps);
            && WellOrdered(steps) && Taken(steps) == [Mention("1", y)] && Count(docs + Taken(steps), y) == 2
            && |r.edges| > 0 && r.edges[0].weight == WeightOf(cfg, cfg.spec(1)) != WeightOf(cfg, cfg.spec(2))
  {
    hide Build, RunScript, Count;
    var docs, steps := [Mention("0", y)], [Recompile, Add([Mention("1", y)], [y])];
    OneMention(Mention("0", y), y);
    OneMention(Mention("1", y), y);
    EnumeratesOne(y);
    CountAppend(docs, [Mention("1", y)], y);
    TakenTwo(steps[0], steps[1]);
    assert docs + [] == docs;
    BuiltFirstEdge(cfg, docs[0], [], y);
    BuiltEdgesFrozen(cfg, 0, docs, steps);
  }

  lemma TakenTwo(a: Step, b: Step)
    requires a.Recompile? && b.Add?
    ensures Taken([a, b]) == b.docs
  {
    assert [a, b][..1] == [a] && [a][..0] == [];
    assert Taken([a]) == Taken([a][..0]) + [];
  }
}
