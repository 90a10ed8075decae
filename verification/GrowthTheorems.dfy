/** Batch by batch or all at once: when the two graphs agree. */
module GrowthTheorems {
  import opened Sparse
  import opened Graph
  import opened Growth

  // ----- frequencies -----

  lemma {:induction false} CountAppend(docs: seq<Document>, more: seq<Document>, x: string)
    ensures Count(docs + more, x) == Count(docs, x) + Count(more, x)
  {
    if more == [] {
      assert docs + more == docs;
    } else {
      assert (docs + more)[..|docs + more| - 1] == docs + more[..|more| - 1];
      CountAppend(docs, more[..|more| - 1], x);
    }
  }

  lemma {:induction false} CountInZero(es: seq<Entity>, x: string)
    ensures CountIn(es, x) == 0 <==> forall e :: e in es ==> e.term != x
  {
    if es == [] {
    } else {
      CountInZero(es[..|es| - 1], x);
      assert es == es[..|es| - 1] + [es[|es| - 1]];
    }
  }

  lemma {:induction false} CountZero(docs: seq<Document>, x: string)
    ensures Count(docs, x) == 0 <==> x !in Labels(docs, 0)
  {
    if docs == [] {
    } else {
      var init, last := docs[..|docs| - 1], docs[|docs| - 1];
      CountZero(init, x);
      CountInZero(last.entities, x);
      assert docs == init + [last];
      LabelsAppend(init, [last], 0);
      assert x in Labels([last], 0) <==> exists e :: e in last.entities && e.term == x;
    }
  }

  lemma LabelsAppend(docs: seq<Document>, more: seq<Document>, minimum: nat)
    ensures Labels(docs + more, minimum) == Labels(docs, minimum) + Labels(more, minimum)
  {
  }

  lemma LabelsLong(docs: seq<Document>, x: string)
    ensures x in Labels(docs, 2) <==> x in Labels(docs, 0) && |x| >= 2
  {
  }

  // The stored frequencies are the counts of the documents taken in so far,
  // for every label that can name a node.
  ghost predicate Counted(g: Graph, docs: seq<Document>) {
    forall x: string :: |x| >= 2 ==> g.Freq(x) == Count(docs, x)
  }

  lemma BuildCounted(generation: nat, docs: seq<Document>)
    ensures Counted(Reset(generation, docs), docs)
  {
    forall x: string
      ensures Reset(generation, docs).Freq(x) == Count(docs, x)
    {
      CountZero(docs, x);
    }
  }

  lemma BatchCounted(g: Graph, docs: seq<Document>, batch: seq<Document>)
    requires g.Valid() && Counted(g, docs)
    ensures Counted(CountBatch(g, batch), docs + batch)
    ensures forall x :: x in Labels(batch, 2) ==> CountBatch(g, batch).Freq(x) > 0
  {
    forall x: string | |x| >= 2
      ensures CountBatch(g, batch).Freq(x) == Count(docs + batch, x)
      ensures x in Labels(batch, 2) ==> CountBatch(g, batch).Freq(x) > 0
    {
      CountAppend(docs, batch, x);
      CountZero(batch, x);
      LabelsLong(batch, x);
    }
  }

  // ----- one batch -----

  lemma {:induction false} RefreshLabelsKeepNodes(cfg: Config, g: Graph, order: seq<string>)
    requires g.Valid()
    ensures SameNodes(Refresh(cfg, g, order), g)
    ensures SameEnds(Refresh(cfg, g, order).edges, g.edges)
    ensures Refresh(cfg, g, order).freq == g.freq
  {
    hide Graph.Valid;
  }

  lemma AddBatchSound(cfg: Config, m: Graph, docs: seq<Document>, batch: seq<Document>, order: seq<string>,
                      vocabulary: set<string>)
    requires m.Valid() && Sound(cfg, m, vocabulary, false) && Counted(m, docs)
    requires Labels(batch, 2) <= vocabulary && NoClash(cfg, vocabulary)
    requires Enumerates(order, Labels(batch, 2))
    ensures Sound(cfg, AddBatch(cfg, m, batch, order), vocabulary, false)
    ensures Counted(AddBatch(cfg, m, batch, order), docs + batch)
  {
    var c := CountBatch(m, batch);
    BatchCounted(m, docs, batch);
    CountedIsFreshBut(cfg, m, batch);
    RefreshLabelsFresh(cfg, c, order, Labels(batch, 2), vocabulary);
    FreshIsWeighted(cfg, RefreshLabels(cfg, c, order));
    RefreshSound(cfg, c, order, vocabulary);
    IngestSound(cfg, Refresh(cfg, c, order), batch, vocabulary, false);
    RefreshLabelsKeepNodes(cfg, c, order);
    BuiltSound(cfg, Ingest(cfg, Refresh(cfg, c, order), batch, false), vocabulary);
  }

  lemma RefreshIsLabels(cfg: Config, c: Graph, order: seq<string>)
    requires c.Valid()
    ensures Refresh(cfg, c, order) == RefreshLabels(cfg, c, order).(dirty := Refresh(cfg, c, order).dirty)
  {
    hide Graph.Valid;
  }

  lemma RefreshSound(cfg: Config, c: Graph, order: seq<string>, vocabulary: set<string>)
    requires c.Valid() && Within(c, vocabulary)
    requires Weighted(cfg, RefreshLabels(cfg, c, order), {}) && FreshBut(cfg, RefreshLabels(cfg, c, order), {})
    ensures Sound(cfg, Refresh(cfg, c, order), vocabulary, false)
  {
    hide Graph.Valid, Weighted, RefreshLabels, Refresh;
    RefreshIsLabels(cfg, c, order);
    SameWeighted(cfg, RefreshLabels(cfg, c, order), Refresh(cfg, c, order));
  }

  lemma BuiltSound(cfg: Config, g: Graph, vocabulary: set<string>)
    requires g.Valid() && Sound(cfg, g, vocabulary, false)
    ensures Sound(cfg, MarkBuilt(g), vocabulary, false)
  {
    hide Graph.Valid, Weighted;
    SameWeighted(cfg, g, MarkBuilt(g));
  }

  // A batch adds to m what a plain ingest adds to a graph of the same shape,
  // and moves no edge end of m.
  lemma AddBatchAlike(cfg: Config, m: Graph, h: Graph, batch: seq<Document>, order: seq<string>)
    requires m.Valid() && h.Valid() && SameNodes(m, h)
    ensures var r, t := AddBatch(cfg, m, batch, order), Ingest(cfg, h, batch, true);
            && SameNodes(r, t) && |m.edges| <= |r.edges| && h.edges <= t.edges
            && SameEnds(r.edges[..|m.edges|], m.edges)
            && SameEnds(r.edges[|m.edges|..], t.edges[|h.edges|..])
  {
    var c := Refresh(cfg, CountBatch(m, batch), order);
    RefreshLabelsKeepNodes(cfg, CountBatch(m, batch), order);
    IngestAlike(cfg, c, h, batch, false, true);
    var r := Ingest(cfg, c, batch, false);
    assert c.edges <= r.edges;
  }

  // ----- any split into batches against one build -----

  function Concat(batches: seq<seq<Document>>): seq<Document> {
    if batches == [] then [] else Concat(batches[..|batches| - 1]) + batches[|batches| - 1]
  }

  ghost predicate Orders(batches: seq<seq<Document>>, orders: seq<seq<string>>) {
    |batches| == |orders| && forall i :: 0 <= i < |batches| ==> Enumerates(orders[i], Labels(batches[i], 2))
  }

  // The batches one after the other, from the empty graph. The edge buffers
  // are the only home of the edges, as no matrix was ever compiled.
  function Grow(cfg: Config, batches: seq<seq<Document>>, orders: seq<seq<string>>): (r: Graph)
    requires |batches| == |orders|
    ensures r.Valid() && r.adj.None? && r.dirty
    decreases |batches|
  {
    if batches == [] then Empty(0)
    else
      var n := |batches| - 1;
      var g := Grow(cfg, batches[..n], orders[..n]);
      AddBatchKeepsAdj(cfg, g, batches[n], orders[n]);
      AddDocuments(cfg, g, batches[n], orders[n])
  }

  lemma {:induction false} IngestEntitiesKeepsAdj(cfg: Config, g: Graph, ans: nat, es: seq<Entity>, seen: set<NodeId>,
                                                  fast: bool)
    requires g.Valid() && ans < g.Size() && g.idxToNode[ans].ValueId?
    ensures IngestEntities(cfg, g, ans, es, seen, fast).adj == g.adj
    ensures g.dirty ==> IngestEntities(cfg, g, ans, es, seen, fast).dirty
    decreases |es|
  {
    hide Graph.Valid;
    if es == [] {
    } else {
      var id := EntityId(es[0].etype, es[0].term);
      if |id.term| < 2 || id in seen {
        IngestEntitiesKeepsAdj(cfg, g, ans, es[1..], seen, fast);
      } else {
        IngestEntityKeepsAdj(cfg, g, ans, id, fast);
        hide IngestEntity;
        IngestEntitiesKeepsAdj(cfg, IngestEntity(cfg, g, ans, id, fast), ans, es[1..], seen + {id}, fast);
      }
    }
  }

  lemma IngestEntityKeepsAdj(cfg: Config, g: Graph, ans: nat, id: NodeId, fast: bool)
    requires g.Valid() && id.EntityId? && ans < g.Size() && g.idxToNode[ans].ValueId?
    ensures IngestEntity(cfg, g, ans, id, fast).adj == g.adj
    ensures g.dirty ==> IngestEntity(cfg, g, ans, id, fast).dirty
  {
    hide Graph.Valid;
  }

  lemma {:induction false} IngestKeepsAdj(cfg: Config, g: Graph, docs: seq<Document>, fast: bool)
    requires g.Valid()
    ensures Ingest(cfg, g, docs, fast).adj == g.adj && (g.dirty ==> Ingest(cfg, g, docs, fast).dirty)
    decreases |docs|
  {
    if docs == [] {
    } else {
      var d := docs[0];
      var r := GetOrAddNode(g, ValueId(d.id), ValueKind, d.value, 0.0);
      IngestEntitiesKeepsAdj(cfg, r, r.nodeToIdx[ValueId(d.id)], d.entities, {}, fast);
      IngestKeepsAdj(cfg, IngestDocument(cfg, g, d, fast), docs[1..], fast);
    }
  }

  lemma AddBatchKeepsAdj(cfg: Config, m: Graph, batch: seq<Document>, order: seq<string>)
    requires m.Valid()
    ensures AddBatch(cfg, m, batch, order).adj == m.adj && (m.dirty ==> AddBatch(cfg, m, batch, order).dirty)
  {
    IngestKeepsAdj(cfg, Refresh(cfg, CountBatch(m, batch), order), batch, false);
  }

  lemma EmptySound(cfg: Config, generation: nat, freq: map<string, nat>, vocabulary: set<string>, fast: bool)
    ensures Empty(generation).(freq := freq).Valid()
    ensures Sound(cfg, Empty(generation).(freq := freq), vocabulary, fast)
  {
  }

  // Shape, weights and counts of a grown graph, next to the plain ingest of
  // the concatenation on any frequencies.
  lemma {:induction false} GrowInvariant(cfg: Config, batches: seq<seq<Document>>, orders: seq<seq<string>>,
                                         vocabulary: set<string>, generation: nat, freq: map<string, nat>)
    requires Orders(batches, orders)
    requires Labels(Concat(batches), 2) <= vocabulary && NoClash(cfg, vocabulary)
    ensures var g := Grow(cfg, batches, orders);
            var start := Empty(generation).(freq := freq);
            && start.Valid()
            && Sound(cfg, g, vocabulary, false) && Counted(g, Concat(batches))
            && SameNodes(g, Ingest(cfg, start, Concat(batches), true))
            && SameEnds(g.edges, Ingest(cfg, start, Concat(batches), true).edges)
    decreases |batches|
  {
    EmptySound(cfg, generation, freq, vocabulary, false);
    if batches == [] {
      EmptySound(cfg, 0, map[], vocabulary, false);
    } else {
      var n := |batches| - 1;
      var start := Empty(generation).(freq := freq);
      var before, batch, order := Concat(batches[..n]), batches[n], orders[n];
      LabelsAppend(before, batch, 2);
      GrowInvariant(cfg, batches[..n], orders[..n], vocabulary, generation, freq);
      GrowStep(cfg, Grow(cfg, batches[..n], orders[..n]), start, before, batch, order, vocabulary);
    }
  }

  lemma GrowStep(cfg: Config, g: Graph, start: Graph, before: seq<Document>, batch: seq<Document>, order: seq<string>,
                 vocabulary: set<string>)
    requires g.Valid() && g.adj.None? && g.dirty && start.Valid()
    requires Sound(cfg, g, vocabulary, false) && Counted(g, before)
    requires SameNodes(g, Ingest(cfg, start, before, true)) && SameEnds(g.edges, Ingest(cfg, start, before, true).edges)
    requires Labels(batch, 2) <= vocabulary && NoClash(cfg, vocabulary) && Enumerates(order, Labels(batch, 2))
    ensures var r, t := AddDocuments(cfg, g, batch, order), Ingest(cfg, start, before + batch, true);
            && Sound(cfg, r, vocabulary, false) && Counted(r, before + batch)
            && SameNodes(r, t) && SameEnds(r.edges, t.edges)
  {
    var h := Ingest(cfg, start, before, true);
    IngestAppend(cfg, start, before, batch, true);
    if batch == [] {
      assert before + batch == before;
    } else {
      AddBatchSound(cfg, g, before, batch, order, vocabulary);
      AddBatchAlike(cfg, g, h, batch, order);
      var r, t := AddBatch(cfg, g, batch, order), Ingest(cfg, h, batch, true);
      SplicedEnds(r.edges, g.edges, t.edges, h.edges);
    }
  }

  lemma SplicedEnds(r: seq<Edge>, g: seq<Edge>, t: seq<Edge>, h: seq<Edge>)
    requires |g| <= |r| && h <= t && SameEnds(g, h)
    requires SameEnds(r[..|g|], g) && SameEnds(r[|g|..], t[|h|..])
    ensures SameEnds(r, t)
  {
    forall p | 0 <= p < |r|
      ensures r[p].src == t[p].src && r[p].dst == t[p].dst
    {
      if p < |g| {
        assert r[..|g|][p] == r[p] && t[p] == h[p];
      } else {
        assert r[|g|..][p - |g|] == r[p] && t[|h|..][p - |g|] == t[p];
      }
    }
  }

  // Two weighted graphs of one shape with equal counts carry equal weights.
  lemma WeightsAgree(cfg: Config, g: Graph, b: Graph, docs: seq<Document>, vocabulary: set<string>)
    requires g.Valid() && b.Valid() && SameNodes(g, b) && SameEnds(g.edges, b.edges)
    requires Weighted(cfg, g, {}) && Weighted(cfg, b, {}) && Counted(g, docs) && Counted(b, docs)
    requires Within(g, vocabulary) && forall x :: x in vocabulary ==> |x| >= 2
    ensures g.edges == b.edges && g.spec == b.spec
  {
    forall i: nat | i < g.Size()
      ensures g.spec[i] == b.spec[i]
      ensures g.idxToNode[i].EntityId? ==> g.Freq(g.labels[i]) == b.Freq(g.labels[i])
    {
      assert NodeWeighted(cfg, g, i, {}) && NodeWeighted(cfg, b, i, {});
      assert g.idxToNode[i] in g.nodeToIdx;
    }
    forall p | 0 <= p < |g.edges|
      ensures g.edges[p] == b.edges[p]
    {
      assert EdgeWeighted(cfg, g, g.edges[p], {}) && EdgeWeighted(cfg, b, b.edges[p], {});
    }
  }

  lemma BuildInvariant(cfg: Config, generation: nat, docs: seq<Document>, vocabulary: set<string>)
    requires Labels(docs, 2) <= vocabulary
    ensures Sound(cfg, Build(cfg, generation, docs), vocabulary, true)
    ensures Counted(Build(cfg, generation, docs), docs)
  {
    hide Graph.Valid, Weighted, Ingest;
    var start := Reset(generation, docs);
    EmptySound(cfg, generation + 1, BuildFreq(docs), vocabulary, true);
    IngestSound(cfg, start, docs, vocabulary, true);
    BuildCounted(generation, docs);
    SameWeighted(cfg, Ingest(cfg, start, docs, true), Build(cfg, generation, docs));
  }

  // Growing by any split into batches, whatever order each batch walks its
  // labels in, gives the nodes, index, edges and weights of one build of the
  // concatenation, provided no label is a word of another.
  lemma GrownEqualsBuilt(cfg: Config, batches: seq<seq<Document>>, orders: seq<seq<string>>, generation: nat)
    requires Orders(batches, orders) && NoClash(cfg, Labels(Concat(batches), 2))
    ensures var g, b := Grow(cfg, batches, orders), Build(cfg, generation, Concat(batches));
            && SameNodes(g, b) && g.spec == b.spec && g.edges == b.edges
            && forall x: string :: |x| >= 2 ==> g.Freq(x) == b.Freq(x)
  {
    var docs := Concat(batches);
    var vocabulary := Labels(docs, 2);
    GrowInvariant(cfg, batches, orders, vocabulary, generation + 1, BuildFreq(docs));
    BuildInvariant(cfg, generation, docs, vocabulary);
    WeightsAgree(cfg, Grow(cfg, batches, orders), Build(cfg, generation, docs), docs, vocabulary);
  }

  lemma WeightIsCount(cfg: Config, g: Graph, docs: seq<Document>, p: nat)
    requires g.Valid() && p < |g.edges| && EdgeWeighted(cfg, g, g.edges[p], {})
    requires Within(g, Labels(docs, 2)) && Counted(g, docs)
    ensures g.edges[p].weight == WeightOf(cfg, cfg.spec(Count(docs, g.labels[g.edges[p].src])))
  {
    var x := g.labels[g.edges[p].src];
    assert g.idxToNode[g.edges[p].src] in g.nodeToIdx;
    CountZero(docs, x);
    LabelsLong(docs, x);
  }

  // In particular every edge weighs the specificity of its label's count.
  lemma GrownWeights(cfg: Config, batches: seq<seq<Document>>, orders: seq<seq<string>>, p: nat)
    requires Orders(batches, orders) && NoClash(cfg, Labels(Concat(batches), 2))
    requires p < |Grow(cfg, batches, orders).edges|
    ensures var g := Grow(cfg, batches, orders);
            && g.Fits(g.edges[p])
            && g.edges[p].weight == WeightOf(cfg, cfg.spec(Count(Concat(batches), g.labels[g.edges[p].src])))
  {
    var g, docs := Grow(cfg, batches, orders), Concat(batches);
    GrowInvariant(cfg, batches, orders, Labels(docs, 2), 0, map[]);
    assert EdgeWeighted(cfg, g, g.edges[p], {});
    WeightIsCount(cfg, g, docs, p);
  }

  // ----- the converse: a label that is a word of another breaks the split -----

  lemma {:induction false} RefreshNodesSet(g: Graph, ids: seq<NodeId>, spec: real, w: real, p: nat)
    requires g.Valid() && Positioned(g) && p < |g.edges|
    requires forall id :: id in ids ==> id in g.nodeToIdx && id.EntityId?
    requires g.idxToNode[g.edges[p].src] in ids || g.edges[p].weight == w
    ensures RefreshNodes(g, ids, spec, w).edges[p].weight == w
    decreases |ids|
  {
    if ids == [] {
    } else {
      var m := RefreshNode(g, ids[0], spec, w);
      assert p in Lookup(g.positions, g.edges[p].src);
      RefreshNodesPositioned(g, [ids[0]], spec, w);
      assert m == RefreshNodes(g, [ids[0]], spec, w);
      RefreshNodesSet(m, ids[1..], spec, w, p);
    }
  }

  lemma IngestKeeps(cfg: Config, g: Graph, docs: seq<Document>, fast: bool)
    requires g.Valid()
    ensures g.edges <= Ingest(cfg, g, docs, fast).edges
  {
    IngestAlike(cfg, g, g, docs, fast, fast);
  }

  lemma OneEntityOneEdge(cfg: Config, g: Graph, d: Document, e: Entity, fast: bool)
    requires g.Valid() && d.entities == [e] && |e.term| >= 2
    ensures |Ingest(cfg, g, [d], fast).edges| == |g.edges| + 1
  {
    var r := GetOrAddNode(g, ValueId(d.id), ValueKind, d.value, 0.0);
    var ans := r.nodeToIdx[ValueId(d.id)];
    OneEntity(cfg, r, ans, e, fast);
    hide Graph.Valid, GetOrAddNode, IngestEntities;
    assert IngestDocument(cfg, g, d, fast) == IngestEntities(cfg, r, ans, [e], {}, fast);
    assert [d][1..] == [];
  }

  lemma OneEntity(cfg: Config, g: Graph, ans: nat, e: Entity, fast: bool)
    requires g.Valid() && ans < g.Size() && g.idxToNode[ans].ValueId? && |e.term| >= 2
    ensures |IngestEntities(cfg, g, ans, [e], {}, fast).edges| == |g.edges| + 1
  {
    hide Graph.Valid, IngestNode, NewEdge;
    var id := EntityId(e.etype, e.term);
    assert [e][1..] == [];
    assert IngestEntities(cfg, g, ans, [e], {}, fast) == IngestEntity(cfg, g, ans, id, fast);
  }

  function Mention(id: string, term: string): Document {
    Document(id, id, [Entity(term, "entity")])
  }

  // Label y is taken in first; x, one of its words, arrives twice afterwards.
  function ClashBatches(x: string, y: string): seq<seq<Document>> {
    [[Mention("0", y)], [Mention("1", x), Mention("2", x)]]
  }

  lemma ConcatTwo(a: seq<Document>, b: seq<Document>)
    ensures Concat([a]) == a && Concat([a, b]) == a + b
  {
    assert [a][..0] == [] && [] + a == a;
    assert Concat([a]) == Concat([a][..0]) + a;
    assert [a, b][..1] == [a];
  }

  lemma ClashConcat(x: string, y: string)
    requires x != y && |x| >= 2 && |y| >= 2
    ensures var docs := [Mention("0", y), Mention("1", x), Mention("2", x)];
            && Concat(ClashBatches(x, y)) == docs
            && Labels(docs, 2) == {x, y} && Labels([Mention("0", y)], 2) == {y}
            && Labels(ClashBatches(x, y)[1], 2) == {x}
            && Count(docs, y) == 1 && Count(ClashBatches(x, y)[1], x) == 2
  {
    var a, b, c := Mention("0", y), Mention("1", x), Mention("2", x);
    ConcatTwo([a], [b, c]);
    OneMention(a, y);
    TwoMentions(b, c, x);
    CountAppend([a], [b, c], y);
    LabelsAppend([a], [b, c], 2);
    assert [a, b, c] == [a] + [b, c];
  }

  lemma TwoMentions(b: Document, c: Document, x: string)
    requires |b.entities| == 1 == |c.entities| && b.entities[0].term == x == c.entities[0].term && |x| >= 2
    ensures forall z :: Count([b, c], z) == if z == x then 2 else 0
    ensures Labels([b, c], 2) == {x}
  {
    OneMention(b, x);
    OneMention(c, x);
    assert [b] + [c] == [b, c];
    LabelsAppend([b], [c], 2);
    forall z
      ensures Count([b, c], z) == if z == x then 2 else 0
    {
      CountAppend([b], [c], z);
    }
  }

  lemma OneMention(d: Document, t: string)
    requires |d.entities| == 1 && d.entities[0].term == t && |t| >= 2
    ensures forall z :: Count([d], z) == if z == t then 1 else 0
    ensures Labels([d], 2) == {t}
  {
    forall z
      ensures Count([d], z) == if z == t then 1 else 0
    {
      assert d.entities[..0] == [] && [d][..0] == [];
      assert CountIn(d.entities, z) == CountIn([], z) + if d.entities[0].term == z then 1 else 0;
    }
    assert d.entities[0] in d.entities && d in [d];
  }

  lemma GrowTwo(cfg: Config, a: seq<Document>, b: seq<Document>, oa: seq<string>, ob: seq<string>)
    ensures Grow(cfg, [a, b], [oa, ob]) == AddDocuments(cfg, Grow(cfg, [a], [oa]), b, ob)
  {
    assert [a, b][..1] == [a] && [oa, ob][..1] == [oa];
  }

  // The first edge of the grown graph ends up with the weight of x, the
  // first edge of the built graph with that of y.
  lemma ClashGrown(cfg: Config, x: string, y: string)
    requires x != y && |x| >= 2 && |y| >= 2 && x in cfg.words(y)
    ensures |Grow(cfg, ClashBatches(x, y), [[y], [x]]).edges| > 0
    ensures Grow(cfg, ClashBatches(x, y), [[y], [x]]).edges[0].weight == WeightOf(cfg, cfg.spec(2))
  {
    var first, second := ClashBatches(x, y)[0], ClashBatches(x, y)[1];
    ClashConcat(x, y);
    FirstBatch(cfg, y, [first], [[y]]);
    ClashRefresh(cfg, Grow(cfg, [first], [[y]]), second, x, y);
    GrowTwo(cfg, first, second, [y], [x]);
  }

  lemma FirstBatch(cfg: Config, y: string, bs: seq<seq<Document>>, os: seq<seq<string>>)
    requires |y| >= 2 && bs == [[Mention("0", y)]] && os == [[y]]
    ensures var g := Grow(cfg, bs, os);
            && |g.edges| == 1 && Positioned(g) && Indexed(cfg, g) && Within(g, {y})
            && forall x :: |x| >= 2 && x != y ==> g.Freq(x) == 0
  {
    var d := Mention("0", y);
    OneMention(d, y);
    ConcatTwo(bs[0], []);
    EnumeratesOne(y);
    OneBatch(cfg, d, y, bs, os);
  }

  lemma OneBatch(cfg: Config, d: Document, y: string, bs: seq<seq<Document>>, os: seq<seq<string>>)
    requires |y| >= 2 && |d.entities| == 1 && d.entities[0].term == y && Concat(bs) == [d] && Orders(bs, os)
    ensures var g := Grow(cfg, bs, os);
            && |g.edges| == 1 && Positioned(g) && Indexed(cfg, g) && Within(g, {y})
            && forall x :: |x| >= 2 && x != y ==> g.Freq(x) == 0
  {
    hide Grow, Concat, Ingest, Graph.Valid, Weighted, Orders, Indexed, Positioned, Within;
    OneMention(d, y);
    OwnClash(cfg, y);
    GrowInvariant(cfg, bs, os, {y}, 0, map[]);
    OneEntityOneEdge(cfg, Empty(0).(freq := map[]), d, d.entities[0], true);
  }

  lemma OwnClash(cfg: Config, y: string)
    ensures NoClash(cfg, {y})
  {
  }

  lemma ClashRefresh(cfg: Config, g: Graph, batch: seq<Document>, x: string, y: string)
    requires g.Valid() && g.adj.None? && g.dirty && |g.edges| > 0
    requires batch != [] && Labels(batch, 2) == {x} && Count(batch, x) == 2
    requires Positioned(g) && Indexed(cfg, g) && Within(g, {y}) && g.Freq(x) == 0 && x in cfg.words(y)
    ensures |AddDocuments(cfg, g, batch, [x]).edges| > 0
    ensures AddDocuments(cfg, g, batch, [x]).edges[0].weight == WeightOf(cfg, cfg.spec(2))
  {
    hide Graph.Valid;
    var c := CountBatch(g, batch);
    ClashLabel(cfg, c, x, y);
    RefreshOne(cfg, c, x);
    IngestKeeps(cfg, Refresh(cfg, c, [x]), batch, false);
  }

  lemma RefreshOne(cfg: Config, g: Graph, x: string)
    requires g.Valid()
    ensures RefreshLabels(cfg, g, [x]) == RefreshLabel(cfg, g, x)
  {
    hide Graph.Valid;
    var r := RefreshLabel(cfg, g, x);
    assert [x][1..] == [] && RefreshLabels(cfg, r, []) == r;
  }

  lemma ClashLabel(cfg: Config, c: Graph, x: string, y: string)
    requires c.Valid() && |c.edges| > 0 && Positioned(c) && Indexed(cfg, c) && Within(c, {y})
    requires c.Freq(x) == 2 && x in cfg.words(y)
    ensures RefreshLabel(cfg, c, x).edges[0].weight == WeightOf(cfg, cfg.spec(2))
  {
    var s, ids := cfg.spec(2), Lookup(c.index, x);
    forall id | id in ids
      ensures id in c.nodeToIdx && id.EntityId?
    {
      assert Under(c.index, x, id);
    }
    var id := c.idxToNode[c.edges[0].src];
    assert Under(c.index, x, id) by { assert id in c.nodeToIdx && id.term == y; }
    RefreshNodesSet(c, ids, s, WeightOf(cfg, s), 0);
  }

  lemma FirstEdge(cfg: Config, start: Graph, a: Document, y: string)
    requires start.Valid() && start.edges == [] && Sound(cfg, start, {y}, true)
    requires |y| >= 2 && a == Mention("0", y) && start.Freq(y) == 1
    ensures |Ingest(cfg, start, [a], true).edges| > 0
    ensures Ingest(cfg, start, [a], true).edges[0].weight == WeightOf(cfg, cfg.spec(1))
  {
    hide Ingest;
    OneMention(a, y);
    IngestSound(cfg, start, [a], {y}, true);
    OneEntityOneEdge(cfg, start, a, a.entities[0], true);
    var h := Ingest(cfg, start, [a], true);
    assert EdgeWeighted(cfg, h, h.edges[0], {});
    assert h.idxToNode[h.edges[0].src] in h.nodeToIdx;
  }

  lemma BuiltFirstEdge(cfg: Config, a: Document, rest: seq<Document>, y: string)
    requires |y| >= 2 && a == Mention("0", y) && Count([a] + rest, y) == 1
    ensures |Build(cfg, 0, [a] + rest).edges| > 0
    ensures Build(cfg, 0, [a] + rest).edges[0].weight == WeightOf(cfg, cfg.spec(1))
  {
    hide Ingest, Graph.Valid, Count, Weighted, Indexed;
    var docs := [a] + rest;
    var start := Reset(0, docs);
    BuildCounted(0, docs);
    EmptySound(cfg, 1, BuildFreq(docs), {y}, true);
    FirstEdge(cfg, start, a, y);
    IngestAppend(cfg, start, [a], rest, true);
    IngestKeeps(cfg, Ingest(cfg, start, [a], true), rest, true);
  }

  lemma ClashBuilt(cfg: Config, x: string, y: string)
    requires x != y && |x| >= 2 && |y| >= 2
    ensures |Build(cfg, 0, Concat(ClashBatches(x, y))).edges| > 0
    ensures Build(cfg, 0, Concat(ClashBatches(x, y))).edges[0].weight == WeightOf(cfg, cfg.spec(1))
  {
    ClashConcat(x, y);
    hide Build, Concat, Count;
    var a, docs := Mention("0", y), Concat(ClashBatches(x, y));
    assert docs == [a] + docs[1..];
    BuiltFirstEdge(cfg, a, docs[1..], y);
  }

  lemma EnumeratesOne(x: string)
    ensures Enumerates([x], {x})
  {
  }

  lemma ClashOrders(x: string, y: string, bs: seq<seq<Document>>, os: seq<seq<string>>)
    requires x != y && |x| >= 2 && |y| >= 2 && bs == ClashBatches(x, y) && os == [[y], [x]]
    ensures Orders(bs, os) && Labels(Concat(bs), 2) == {x, y}
  {
    ClashConcat(x, y);
    EnumeratesOne(x);
    EnumeratesOne(y);
    assert Labels(bs[0], 2) == {y} && Labels(bs[1], 2) == {x};
  }

  lemma ClashBreaks(cfg: Config, x: string, y: string) returns (bs: seq<seq<Document>>, os: seq<seq<string>>)
    requires x != y && |x| >= 2 && |y| >= 2 && x in cfg.words(y)
    requires WeightOf(cfg, cfg.spec(1)) != WeightOf(cfg, cfg.spec(2))
    ensures Orders(bs, os) && Labels(Concat(bs), 2) == {x, y}
    ensures Grow(cfg, bs, os).edges != Build(cfg, 0, Concat(bs)).edges
  {
    ClashGrown(cfg, x, y);
    ClashBuilt(cfg, x, y);
    bs, os := ClashBatches(x, y), [[y], [x]];
    ClashOrders(x, y, bs, os);
  }

  ghost predicate SplitAgrees(cfg: Config, batches: seq<seq<Document>>, orders: seq<seq<string>>)
    requires Orders(batches, orders)
  {
    Grow(cfg, batches, orders).edges == Build(cfg, 0, Concat(batches)).edges
  }

  ghost predicate SplitSafe(cfg: Config, vocabulary: set<string>) {
    forall batches, orders :: Orders(batches, orders) && Labels(Concat(batches), 2) <= vocabulary ==>
      SplitAgrees(cfg, batches, orders)
  }

  lemma NoClashIsSafe(cfg: Config, vocabulary: set<string>)
    requires NoClash(cfg, vocabulary)
    ensures SplitSafe(cfg, vocabulary)
  {
    forall batches, orders | Orders(batches, orders) && Labels(Concat(batches), 2) <= vocabulary
      ensures SplitAgrees(cfg, batches, orders)
    {
      GrownEqualsBuilt(cfg, batches, orders, 0);
    }
  }

  lemma ClashIsUnsafe(cfg: Config, vocabulary: set<string>, x: string, y: string)
    requires {x, y} <= vocabulary && x != y && |x| >= 2 && |y| >= 2 && x in cfg.words(y)
    requires WeightOf(cfg, cfg.spec(1)) != WeightOf(cfg, cfg.spec(2))
    ensures !SplitSafe(cfg, vocabulary)
  {
    var bs, os := ClashBreaks(cfg, x, y);
    assert !SplitAgrees(cfg, bs, os);
  }

  // Over a vocabulary of labels, every split of every corpus grows the edges
  // that one build makes exactly when no label is a word of another.
  lemma SplitSafeIff(cfg: Config, vocabulary: set<string>)
    requires forall x :: x in vocabulary ==> |x| >= 2
    requires WeightOf(cfg, cfg.spec(1)) != WeightOf(cfg, cfg.spec(2))
    ensures SplitSafe(cfg, vocabulary) <==> NoClash(cfg, vocabulary)
  {
    if NoClash(cfg, vocabulary) {
      NoClashIsSafe(cfg, vocabulary);
    } else {
      var x, y :| x in vocabulary && y in vocabulary && x in cfg.words(y) && x != y;
      ClashIsUnsafe(cfg, vocabulary, x, y);
    }
  }
}
