/** Exactly when compacting a grown graph before a batch shows in the matrix. */
module CompactExact {
  import opened Wrappers
  import opened Sparse
  import opened Graph
  import opened Growth
  import opened GrowthTheorems
  import opened Compaction

  // ----- ingest adds the same edges to graphs of one shape and one count -----

  ghost predicate Twin(g: Graph, h: Graph) {
    SameNodes(g, h) && g.freq == h.freq
  }

  ghost predicate SameGain(g: Graph, r: Graph, h: Graph, t: Graph) {
    && Twin(r, t) && g.edges <= r.edges && h.edges <= t.edges
    && r.edges[|g.edges|..] == t.edges[|h.edges|..]
  }

  lemma {:induction false} SameGainTransitive(g: Graph, r: Graph, r': Graph, h: Graph, t: Graph, t': Graph)
    requires SameGain(g, r, h, t) && SameGain(r, r', t, t')
    ensures SameGain(g, r', h, t')
  {
    hide SameNodes;
    assert r'.edges[|g.edges|..] == r.edges[|g.edges|..] + r'.edges[|r.edges|..];
    assert t'.edges[|h.edges|..] == t.edges[|h.edges|..] + t'.edges[|t.edges|..];
  }

  lemma {:induction false} EntityGain(cfg: Config, g: Graph, h: Graph, ans: nat, id: NodeId)
    requires g.Valid() && h.Valid() && id.EntityId? && Twin(g, h) && ans < g.Size() && g.idxToNode[ans].ValueId?
    ensures SameGain(g, IngestEntity(cfg, g, ans, id, false), h, IngestEntity(cfg, h, ans, id, false))
  {
    hide Graph.Valid, IngestNode;
    IngestNodeAlike(cfg, g, h, id);
  }

  lemma {:induction false} EntitiesGain(cfg: Config, g: Graph, h: Graph, ans: nat, es: seq<Entity>, seen: set<NodeId>)
    requires g.Valid() && h.Valid() && Twin(g, h) && ans < g.Size() && g.idxToNode[ans].ValueId?
    ensures SameGain(g, IngestEntities(cfg, g, ans, es, seen, false), h, IngestEntities(cfg, h, ans, es, seen, false))
    decreases |es|
  {
    hide Graph.Valid, IngestEntity, SameGain;
    if es == [] {
      NoGain(g, h);
    } else {
      var id := EntityId(es[0].etype, es[0].term);
      if |id.term| < 2 || id in seen {
        EntitiesGain(cfg, g, h, ans, es[1..], seen);
      } else {
        var r, t := IngestEntity(cfg, g, ans, id, false), IngestEntity(cfg, h, ans, id, false);
        EntityGain(cfg, g, h, ans, id);
        TwinsAfter(g, r, h, t);
        EntitiesGain(cfg, r, t, ans, es[1..], seen + {id});
        SameGainTransitive(g, r, IngestEntities(cfg, r, ans, es[1..], seen + {id}, false),
                           h, t, IngestEntities(cfg, t, ans, es[1..], seen + {id}, false));
      }
    }
  }

  lemma {:induction false} NoGain(g: Graph, h: Graph)
    requires Twin(g, h)
    ensures SameGain(g, g, h, h)
  {
  }

  lemma {:induction false} TwinsAfter(g: Graph, r: Graph, h: Graph, t: Graph)
    requires SameGain(g, r, h, t)
    ensures Twin(r, t)
  {
  }

  lemma {:induction false} DocumentGain(cfg: Config, g: Graph, h: Graph, d: Document)
    requires g.Valid() && h.Valid() && Twin(g, h)
    ensures SameGain(g, IngestDocument(cfg, g, d, false), h, IngestDocument(cfg, h, d, false))
  {
    hide Graph.Valid;
    ValueNodeAlike(g, h, d);
    var r := GetOrAddNode(g, ValueId(d.id), ValueKind, d.value, 0.0);
    var t := GetOrAddNode(h, ValueId(d.id), ValueKind, d.value, 0.0);
    ValueNodeAt(g, d);
    EntitiesGain(cfg, r, t, r.nodeToIdx[ValueId(d.id)], d.entities, {});
  }

  lemma {:induction false} ValueNodeAt(g: Graph, d: Document)
    requires g.Valid()
    ensures var r := GetOrAddNode(g, ValueId(d.id), ValueKind, d.value, 0.0);
            var ans := r.nodeToIdx[ValueId(d.id)]; ans < r.Size() && r.idxToNode[ans].ValueId? && r.freq == g.freq
  {
  }

  lemma {:induction false} IngestGain(cfg: Config, g: Graph, h: Graph, docs: seq<Document>)
    requires g.Valid() && h.Valid() && Twin(g, h)
    ensures SameGain(g, Ingest(cfg, g, docs, false), h, Ingest(cfg, h, docs, false))
    decreases |docs|
  {
    hide Graph.Valid, IngestDocument, SameGain;
    if docs == [] {
      NoGain(g, h);
    } else {
      var r, t := IngestDocument(cfg, g, docs[0], false), IngestDocument(cfg, h, docs[0], false);
      DocumentGain(cfg, g, h, docs[0]);
      TwinsAfter(g, r, h, t);
      IngestGain(cfg, r, t, docs[1..]);
      SameGainTransitive(g, r, Ingest(cfg, r, docs[1..], false), h, t, Ingest(cfg, t, docs[1..], false));
    }
  }

  // ----- what the refresh does to each edge -----

  lemma {:induction false} RefreshNodesExact(g: Graph, ids: seq<NodeId>, spec: real, w: real, p: nat)
    requires g.Valid() && Positioned(g) && p < |g.edges|
    requires forall id :: id in ids ==> id in g.nodeToIdx && id.EntityId?
    ensures RefreshNodes(g, ids, spec, w).edges[p].weight ==
            if g.idxToNode[g.edges[p].src] in ids then w else g.edges[p].weight
    decreases |ids|
  {
    if ids == [] {
    } else {
      var m := RefreshNode(g, ids[0], spec, w);
      assert p in Lookup(g.positions, g.edges[p].src);
      RefreshNodesPositioned(g, [ids[0]], spec, w);
      assert m == RefreshNodes(g, [ids[0]], spec, w);
      RefreshNodesExact(m, ids[1..], spec, w, p);
      assert ids == [ids[0]] + ids[1..];
    }
  }

  lemma {:induction false} RefreshLabelExact(cfg: Config, g: Graph, x: string, vocabulary: set<string>, p: nat)
    requires g.Valid() && Positioned(g) && Indexed(cfg, g) && Within(g, vocabulary) && NoClash(cfg, vocabulary)
    requires x in vocabulary && g.Freq(x) > 0 && p < |g.edges|
    ensures Positioned(RefreshLabel(cfg, g, x))
    ensures RefreshLabel(cfg, g, x).edges[p].weight ==
            if g.labels[g.edges[p].src] == x then WeightOf(cfg, cfg.spec(g.Freq(x))) else g.edges[p].weight
  {
    hide RefreshNodes, Indexed;
    UnderLabel(cfg, g, x, vocabulary);
    var ids, s := Lookup(g.index, x), cfg.spec(g.Freq(x));
    RefreshNodesExact(g, ids, s, WeightOf(cfg, s), p);
    RefreshNodesPositioned(g, ids, s, WeightOf(cfg, s));
    assert g.Fits(g.edges[p]) && g.NodeAt(g.edges[p].src, g.idxToNode[g.edges[p].src]);
  }

  lemma {:induction false} RefreshExact(cfg: Config, g: Graph, order: seq<string>, vocabulary: set<string>, p: nat)
    requires g.Valid() && Positioned(g) && Indexed(cfg, g) && Within(g, vocabulary) && NoClash(cfg, vocabulary)
    requires (forall x :: x in order ==> x in vocabulary && g.Freq(x) > 0) && p < |g.edges|
    ensures var x := g.labels[g.edges[p].src];
            RefreshLabels(cfg, g, order).edges[p].weight ==
            if x in order then WeightOf(cfg, cfg.spec(g.Freq(x))) else g.edges[p].weight
    decreases |order|
  {
    if order == [] {
    } else {
      hide RefreshLabel, Graph.Valid, NoClash;
      assert order == [order[0]] + order[1..];
      RefreshLabelExact(cfg, g, order[0], vocabulary, p);
      RefreshExact(cfg, RefreshLabel(cfg, g, order[0]), order[1..], vocabulary, p);
    }
  }

  // ----- totals -----

  lemma {:induction false} TotalAppend(a: seq<Edge>, b: seq<Edge>, i: nat, j: nat)
    ensures Total(a + b, i, j) == Total(a, i, j) + Total(b, i, j)
  {
    if b == [] {
      assert a + b == a;
    } else {
      assert (a + b)[..|a + b| - 1] == a + b[..|b| - 1];
      TotalAppend(a, b[..|b| - 1], i, j);
    }
  }

  function Copies(es: seq<Edge>, i: nat, j: nat): nat {
    if es == [] then 0
    else Copies(es[..|es| - 1], i, j) + if es[|es| - 1].src == i && es[|es| - 1].dst == j then 1 else 0
  }

  lemma {:induction false} CopiesMeaning(es: seq<Edge>, i: nat, j: nat)
    ensures Copies(es, i, j) >= 1 <==> Joined(es, i, j)
    ensures Copies(es, i, j) >= 2 <==> Repeats(es, i, j)
  {
    if es == [] {
    } else {
      var front, last := es[..|es| - 1], es[|es| - 1];
      CopiesMeaning(front, i, j);
      JoinedFront(es, i, j);
      RepeatsFront(es, i, j);
    }
  }

  lemma {:induction false} JoinedFront(es: seq<Edge>, i: nat, j: nat)
    requires es != []
    ensures Joined(es, i, j) <==> Joined(es[..|es| - 1], i, j) || (es[|es| - 1].src == i && es[|es| - 1].dst == j)
  {
    var front := es[..|es| - 1];
    if Joined(front, i, j) {
      var p :| 0 <= p < |front| && front[p].src == i && front[p].dst == j;
      assert es[p] == front[p];
    }
    if Joined(es, i, j) {
      var p :| 0 <= p < |es| && es[p].src == i && es[p].dst == j;
      if p < |front| { assert front[p] == es[p]; }
    }
  }

  lemma {:induction false} RepeatsFront(es: seq<Edge>, i: nat, j: nat)
    requires es != []
    ensures var front, last := es[..|es| - 1], es[|es| - 1];
            Repeats(es, i, j) <==> Repeats(front, i, j) || (Joined(front, i, j) && last.src == i && last.dst == j)
  {
    var front := es[..|es| - 1];
    if Repeats(front, i, j) {
      var p, q :| 0 <= p < q < |front| && front[p].src == i == front[q].src && front[p].dst == j == front[q].dst;
      assert es[p] == front[p] && es[q] == front[q];
    }
    if Joined(front, i, j) && es[|es| - 1].src == i && es[|es| - 1].dst == j {
      var p :| 0 <= p < |front| && front[p].src == i && front[p].dst == j;
      assert es[p] == front[p];
    }
    if Repeats(es, i, j) {
      var p, q :| 0 <= p < q < |es| && es[p].src == i == es[q].src && es[p].dst == j == es[q].dst;
      assert front[p] == es[p];
      if q < |front| { assert front[q] == es[q]; }
    }
  }

  // Parallel edges of one positive weight.
  lemma {:induction false} UniformTotal(es: seq<Edge>, i: nat, j: nat, w: real)
    requires w > 0.0 && forall e :: e in es && e.src == i && e.dst == j ==> e.weight == w
    ensures Copies(es, i, j) == 0 ==> Total(es, i, j) == 0.0
    ensures Copies(es, i, j) == 1 ==> Total(es, i, j) == w
    ensures Copies(es, i, j) >= 2 ==> Total(es, i, j) >= w + w
  {
    if es == [] {
    } else {
      var front := es[..|es| - 1];
      assert es == front + [es[|es| - 1]];
      UniformTotal(front, i, j, w);
    }
  }

  // Equal matrices have equal totals.
  lemma {:induction false} MatrixTotal(n: nat, es: seq<Edge>, fs: seq<Edge>, i: nat, j: nat)
    requires BuildCsr(n, es) == BuildCsr(n, fs) && i < n && j < n && Joined(es, i, j)
    ensures Total(es, i, j) == Total(fs, i, j)
  {
    hide BuildCsr;
    BuildCsrRow(n, es, i);
    BuildCsrRow(n, fs, i);
    RowColumns(es, i, n);
    RowColumns(fs, i, n);
    var e := Entry(j, Total(es, i, j));
    assert e in RowOf(fs, i, n);
    var k :| 0 <= k < |RowOf(fs, i, n)| && RowOf(fs, i, n)[k] == e;
  }

  lemma {:induction false} CopiesEnds(es: seq<Edge>, fs: seq<Edge>, i: nat, j: nat)
    requires SameEnds(es, fs)
    ensures Copies(es, i, j) == Copies(fs, i, j)
  {
    if es == [] {
    } else {
      CopiesEnds(es[..|es| - 1], fs[..|fs| - 1], i, j);
    }
  }

  lemma {:induction false} SameWeightsTotal(es: seq<Edge>, fs: seq<Edge>, i: nat, j: nat)
    requires SameEnds(es, fs) && forall p :: 0 <= p < |es| && es[p].src == i ==> es[p].weight == fs[p].weight
    ensures Total(es, i, j) == Total(fs, i, j)
  {
    if es == [] {
    } else {
      SameWeightsTotal(es[..|es| - 1], fs[..|fs| - 1], i, j);
    }
  }

  // ----- the graph that compaction leaves -----

  // The buffers are the edges: a clean graph has their matrix.
  ghost predicate Kept(g: Graph) {
    g.Valid() && (!g.dirty ==> g.adj == Some(BuildCsr(g.Size(), g.edges)))
  }

  lemma {:induction false} CompactedState(g: Graph)
    requires Kept(g) && g.built
    ensures Loadable(Compact(g))
    ensures var m := EnsureMutable(Compact(g));
            && Twin(m, g) && Positioned(m) && m.edges == ToCoo(BuildCsr(g.Size(), g.edges), g.Size(), g.Size())
            && (!m.dirty ==> m.adj == Some(BuildCsr(m.Size(), m.edges)))
  {
    var k, n := Compact(g), g.Size();
    BipartiteInRange(g, g.edges);
    CooRoundTrip(n, g.edges);
    assert k.Shaped() && Current(k) == ToCoo(BuildCsr(n, g.edges), n, n) && Compiled(k);
    assert k.Bipartite(Current(k)) by { CooBipartite(g, g.edges); }
    MaterializedEdges(k);
    Materialized(k);
  }

  // ----- one batch on either -----

  ghost predicate Positive(cfg: Config) {
    forall n: nat :: n >= 1 ==> WeightOf(cfg, cfg.spec(n)) > 0.0
  }

  // What both graphs share before the batch.
  ghost predicate Grounded(cfg: Config, m: Graph, docs: seq<Document>, vocabulary: set<string>) {
    && m.Valid() && Positioned(m) && Indexed(cfg, m) && Within(m, vocabulary) && NoClash(cfg, vocabulary) &&
       Counted(m, docs)
  }

  ghost predicate BatchOk(batch: seq<Document>, order: seq<string>, vocabulary: set<string>) {
    Enumerates(order, Labels(batch, 2)) && Labels(batch, 2) <= vocabulary
  }

  // The old edges of the graph, their weights renewed for the batch.
  function Renewed(cfg: Config, m: Graph, batch: seq<Document>, order: seq<string>): seq<Edge>
    requires m.Valid()
  {
    Refresh(cfg, CountBatch(m, batch), order).edges
  }

  lemma {:induction false} RenewedAt(cfg: Config, m: Graph, docs: seq<Document>, batch: seq<Document>,
                                     order: seq<string>,
                                     vocabulary: set<string>, p: nat)
    requires Grounded(cfg, m, docs, vocabulary) && BatchOk(batch, order, vocabulary) && p < |m.edges|
    ensures SameEnds(Renewed(cfg, m, batch, order), m.edges)
    ensures var x := m.labels[m.edges[p].src];
            Renewed(cfg, m, batch, order)[p].weight ==
            if x in Labels(batch, 2) then WeightOf(cfg, cfg.spec(CountBatch(m, batch).Freq(x))) else m.edges[p].weight
  {
    hide Indexed, Counted, RefreshLabels;
    var c := CountBatch(m, batch);
    BatchCounted(m, docs, batch);
    RefreshLabelsKeepNodes(cfg, c, order);
    assert Indexed(cfg, c) by { assert c.index == m.index && c.nodeToIdx == m.nodeToIdx; SameIndexed(cfg, m, c); }
    RefreshExact(cfg, c, order, vocabulary, p);
    NoLabelsLeft(cfg, c, order);
  }

  lemma {:induction false} SameIndexed(cfg: Config, m: Graph, c: Graph)
    requires c.index == m.index && c.nodeToIdx == m.nodeToIdx && Indexed(cfg, m)
    ensures Indexed(cfg, c)
  {
  }

  lemma {:induction false} NoLabelsLeft(cfg: Config, c: Graph, order: seq<string>)
    requires c.Valid()
    ensures Refresh(cfg, c, order).edges == RefreshLabels(cfg, c, order).edges
  {
  }

  // A touched pair weighs its label once over for each parallel edge.
  lemma {:induction false} TouchedTotal(cfg: Config, m: Graph, docs: seq<Document>, batch: seq<Document>,
                                        order: seq<string>,
                                        vocabulary: set<string>, i: nat, j: nat)
    requires Grounded(cfg, m, docs, vocabulary) && BatchOk(batch, order, vocabulary) && Positive(cfg)
    requires i < m.Size() && m.labels[i] in Labels(batch, 2)
    ensures var w := WeightOf(cfg, cfg.spec(CountBatch(m, batch).Freq(m.labels[i])));
            var total := Total(Renewed(cfg, m, batch, order), i, j);
            && w > 0.0
            && (!Joined(m.edges, i, j) ==> total == 0.0)
            && (Joined(m.edges, i, j) && !Repeats(m.edges, i, j) ==> total == w)
            && (Repeats(m.edges, i, j) ==> total >= w + w)
  {
    hide Indexed, Counted, Refresh, WeightOf;
    var c, es := CountBatch(m, batch), Renewed(cfg, m, batch, order);
    BatchCounted(m, docs, batch);
    var w := WeightOf(cfg, cfg.spec(c.Freq(m.labels[i])));
    forall e | e in es && e.src == i && e.dst == j
      ensures e.weight == w
    {
      var p :| 0 <= p < |es| && es[p] == e;
      RenewedEnds(cfg, m, batch, order);
      RenewedAt(cfg, m, docs, batch, order, vocabulary, p);
    }
    RenewedEnds(cfg, m, batch, order);
    CopiesEnds(es, m.edges, i, j);
    CopiesMeaning(m.edges, i, j);
    UniformTotal(es, i, j, w);
  }

  lemma {:induction false} RenewedEnds(cfg: Config, m: Graph, batch: seq<Document>, order: seq<string>)
    requires m.Valid()
    ensures SameEnds(Renewed(cfg, m, batch, order), m.edges)
  {
    RefreshLabelsKeepNodes(cfg, CountBatch(m, batch), order);
  }

  lemma {:induction false} UntouchedTotal(cfg: Config, m: Graph, docs: seq<Document>, batch: seq<Document>,
                                          order: seq<string>,
                                          vocabulary: set<string>, i: nat, j: nat)
    requires Grounded(cfg, m, docs, vocabulary) && BatchOk(batch, order, vocabulary)
    requires i < m.Size() ==> m.labels[i] !in Labels(batch, 2)
    ensures Total(Renewed(cfg, m, batch, order), i, j) == Total(m.edges, i, j)
  {
    hide Indexed, Counted, Refresh;
    var es := Renewed(cfg, m, batch, order);
    RenewedEnds(cfg, m, batch, order);
    forall p | 0 <= p < |es| && es[p].src == i
      ensures es[p].weight == m.edges[p].weight
    {
      assert m.Fits(m.edges[p]);
      RenewedAt(cfg, m, docs, batch, order, vocabulary, p);
    }
    SameWeightsTotal(es, m.edges, i, j);
  }

  // The old parts, with and without compaction.
  lemma {:induction false} OldTotals(cfg: Config, g: Graph, docs: seq<Document>, batch: seq<Document>,
                                     order: seq<string>,
                                     vocabulary: set<string>, i: nat, j: nat)
    requires Kept(g) && g.built && Grounded(cfg, g, docs, vocabulary)
    requires BatchOk(batch, order, vocabulary) && Positive(cfg)
    ensures Loadable(Compact(g))
    ensures var m := EnsureMutable(Compact(g));
            && (Joined(m.edges, i, j) <==> Joined(g.edges, i, j))
            && (Total(Renewed(cfg, m, batch, order), i, j) == Total(Renewed(cfg, g, batch, order), i, j) <==>
                !(i < g.Size() && g.labels[i] in Labels(batch, 2) && Repeats(g.edges, i, j)))
  {
    hide Renewed, WeightOf, Indexed, EnsureMutable, Compact;
    CompactedState(g);
    var m := EnsureMutable(Compact(g));
    CompactedGrounded(cfg, g, m, docs, vocabulary);
    BipartiteInRange(g, g.edges);
    CooTotal(g.Size(), g.edges, i, j);
    if i < g.Size() && g.labels[i] in Labels(batch, 2) {
      TouchedTotal(cfg, g, docs, batch, order, vocabulary, i, j);
      TouchedTotal(cfg, m, docs, batch, order, vocabulary, i, j);
      SameFreq(g, m, batch, g.labels[i]);
      CopiesMeaning(g.edges, i, j);
    } else {
      UntouchedTotal(cfg, g, docs, batch, order, vocabulary, i, j);
      UntouchedTotal(cfg, m, docs, batch, order, vocabulary, i, j);
    }
  }

  lemma {:induction false} SameFreq(g: Graph, m: Graph, batch: seq<Document>, x: string)
    requires g.Valid() && m.Valid() && m.freq == g.freq
    ensures CountBatch(m, batch).Freq(x) == CountBatch(g, batch).Freq(x)
  {
  }

  lemma {:induction false} CompactedGrounded(cfg: Config, g: Graph, m: Graph, docs: seq<Document>,
                                             vocabulary: set<string>)
    requires Grounded(cfg, g, docs, vocabulary) && m.Valid() && Twin(m, g) && Positioned(m)
    ensures Grounded(cfg, m, docs, vocabulary)
  {
    hide Graph.Valid, Positioned, NoClash;
    SameIndexed(cfg, g, m);
  }

  // ----- the matrices -----

  lemma {:induction false} AddedMatrix(cfg: Config, m: Graph, batch: seq<Document>, order: seq<string>)
    requires m.Valid() && (!m.dirty ==> m.adj == Some(BuildCsr(m.Size(), m.edges)))
    ensures var r := AddBatch(cfg, m, batch, order); Compile(r).adj == Some(BuildCsr(r.Size(), r.edges))
  {
    AddBatchTracked(cfg, m, batch, order);
  }

  lemma {:induction false} CountTwins(g: Graph, m: Graph, batch: seq<Document>)
    requires g.Valid() && m.Valid() && Twin(m, g)
    ensures Twin(CountBatch(m, batch), CountBatch(g, batch))
  {
    hide Graph.Valid;
  }

  // The renewed old edges, then the batch's own.
  lemma {:induction false} AddedParts(cfg: Config, g: Graph, m: Graph, batch: seq<Document>, order: seq<string>)
    returns (own: seq<Edge>)
    requires g.Valid() && m.Valid() && Twin(m, g)
    ensures AddBatch(cfg, g, batch, order).edges == Renewed(cfg, g, batch, order) + own
    ensures AddBatch(cfg, m, batch, order).edges == Renewed(cfg, m, batch, order) + own
    ensures SameNodes(AddBatch(cfg, m, batch, order), AddBatch(cfg, g, batch, order))
  {
    hide Graph.Valid, Refresh, Ingest;
    var c, d := Refresh(cfg, CountBatch(g, batch), order), Refresh(cfg, CountBatch(m, batch), order);
    CountTwins(g, m, batch);
    RefreshLabelsKeepNodes(cfg, CountBatch(g, batch), order);
    RefreshLabelsKeepNodes(cfg, CountBatch(m, batch), order);
    IngestGain(cfg, c, d, batch);
    own := Ingest(cfg, c, batch, false).edges[|c.edges|..];
  }

  ghost predicate TouchesRepeat(g: Graph, batch: seq<Document>) {
    exists i: nat, j: nat :: i < |g.labels| && g.labels[i] in Labels(batch, 2) && Repeats(g.edges, i, j)
  }

  // Compacting before the batch leaves another matrix than the batch alone.
  ghost predicate CompactShows(cfg: Config, g: Graph, batch: seq<Document>, order: seq<string>)
    requires g.Valid() && g.built && Loadable(g) && Loadable(Compact(g))
  {
    Compile(AddDocuments(cfg, Compact(g), batch, order)).adj != Compile(AddDocuments(cfg, g, batch, order)).adj
  }

  lemma {:induction false} BothTotals(cfg: Config, g: Graph, docs: seq<Document>, batch: seq<Document>,
                                      order: seq<string>,
                                      vocabulary: set<string>, own: seq<Edge>, i: nat, j: nat)
    requires Kept(g) && g.built && Grounded(cfg, g, docs, vocabulary)
    requires BatchOk(batch, order, vocabulary) && Positive(cfg) && Loadable(Compact(g))
    ensures var m := EnsureMutable(Compact(g));
            var es, fs := Renewed(cfg, m, batch, order) + own, Renewed(cfg, g, batch, order) + own;
            && (Joined(es, i, j) <==> Joined(fs, i, j))
            && (Total(es, i, j) == Total(fs, i, j) <==>
                !(i < g.Size() && g.labels[i] in Labels(batch, 2) && Repeats(g.edges, i, j)))
  {
    hide Renewed, Grounded, EnsureMutable, Compact;
    var m := EnsureMutable(Compact(g));
    OldTotals(cfg, g, docs, batch, order, vocabulary, i, j);
    var old_, was := Renewed(cfg, m, batch, order), Renewed(cfg, g, batch, order);
    RenewedEnds(cfg, m, batch, order);
    RenewedEnds(cfg, g, batch, order);
    EndsJoined(old_, m.edges);
    EndsJoined(was, g.edges);
    JoinedConcat(old_, own, i, j);
    JoinedConcat(was, own, i, j);
    TotalAppend(old_, own, i, j);
    TotalAppend(was, own, i, j);
  }

  lemma {:induction false} KeptIsMutable(g: Graph)
    requires Kept(g)
    ensures Loadable(g) && EnsureMutable(g) == g
  {
    if g.edges == [] && !g.dirty { NothingListed(g.Size()); }
  }

  lemma {:induction false} TotalShows(r: Graph, t: Graph, i: nat, j: nat)
    requires r.Valid() && t.Valid() && r.Size() == t.Size()
    requires Joined(t.edges, i, j) && Joined(r.edges, i, j) && Total(r.edges, i, j) != Total(t.edges, i, j)
    ensures BuildCsr(r.Size(), r.edges) != BuildCsr(t.Size(), t.edges)
  {
    var p :| 0 <= p < |t.edges| && t.edges[p].src == i && t.edges[p].dst == j;
    assert t.Fits(t.edges[p]);
    if BuildCsr(r.Size(), r.edges) == BuildCsr(t.Size(), t.edges) { MatrixTotal(r.Size(), r.edges, t.edges, i, j); }
  }

  lemma {:induction false} RepeatsJoined(g: Graph, batch: seq<Document>, cfg: Config, order: seq<string>,
                                         own: seq<Edge>, i: nat, j: nat)
    requires g.Valid() && Repeats(g.edges, i, j)
    ensures Joined(Renewed(cfg, g, batch, order) + own, i, j)
  {
    hide Renewed;
    var p, q :| 0 <= p < q < |g.edges| && g.edges[p].src == i == g.edges[q].src &&
                g.edges[p].dst == j == g.edges[q].dst;
    assert Joined(g.edges, i, j);
    RenewedEnds(cfg, g, batch, order);
    EndsJoined(Renewed(cfg, g, batch, order), g.edges);
    JoinedConcat(Renewed(cfg, g, batch, order), own, i, j);
  }

  lemma {:induction false} KeptThenAddIff(cfg: Config, g: Graph, docs: seq<Document>, batch: seq<Document>,
                                          order: seq<string>, vocabulary: set<string>)
    requires Kept(g) && g.built && Grounded(cfg, g, docs, vocabulary) && batch != []
    requires BatchOk(batch, order, vocabulary) && Positive(cfg)
    ensures Loadable(g) && Loadable(Compact(g))
    ensures CompactShows(cfg, g, batch, order) <==> TouchesRepeat(g, batch)
  {
    hide Renewed, Grounded, AddBatch, Compact, EnsureMutable, BuildCsr, Compile, Total, Joined, Labels, Repeats,
         Positive;
    CompactedState(g);
    KeptIsMutable(g);
    var m := EnsureMutable(Compact(g));
    AddedMatrix(cfg, g, batch, order);
    AddedMatrix(cfg, m, batch, order);
    var own := AddedParts(cfg, g, m, batch, order);
    var r, t := AddBatch(cfg, m, batch, order), AddBatch(cfg, g, batch, order);
    forall i: nat, j: nat
      ensures Joined(r.edges, i, j) <==> Joined(t.edges, i, j)
      ensures Total(r.edges, i, j) == Total(t.edges, i, j) <==>
              !(i < g.Size() && g.labels[i] in Labels(batch, 2) && Repeats(g.edges, i, j))
    {
      BothTotals(cfg, g, docs, batch, order, vocabulary, own, i, j);
    }
    if TouchesRepeat(g, batch) {
      var i: nat, j: nat :| i < |g.labels| && g.labels[i] in Labels(batch, 2) && Repeats(g.edges, i, j);
      RepeatsJoined(g, batch, cfg, order, own, i, j);
      TotalShows(r, t, i, j);
    } else {
      MatrixCongruence(r.edges, t.edges, r.Size());
    }
  }

  // ----- any graph that a script leaves -----

  ghost predicate Placed(cfg: Config, g: Graph, vocabulary: set<string>) {
    g.Valid() && Positioned(g) && Indexed(cfg, g) && Within(g, vocabulary)
  }

  lemma {:induction false} EntityPlaced(cfg: Config, g: Graph, ans: nat, id: NodeId, vocabulary: set<string>)
    requires Placed(cfg, g, vocabulary) && id.EntityId? && id.term in vocabulary
    requires ans < g.Size() && g.idxToNode[ans].ValueId?
    ensures Placed(cfg, IngestEntity(cfg, g, ans, id, false), vocabulary)
  {
    var m, e := IngestNode(cfg, g, id), NewEdge(cfg, g, ans, id);
    IngestNodeIndexed(cfg, g, id);
    assert Positioned(m) by { SamePositioned(g, m); }
    assert Within(m, vocabulary) by { NodeWithin(cfg, g, id, vocabulary); }
    hide Graph.Valid, IngestNode, NewEdge, Indexed, Within, Positioned;
    AddEdgePositioned(m, e);
    SameIndexed(cfg, m, AddEdge(m, e, false));
    SameWithin(m, AddEdge(m, e, false), vocabulary);
  }

  lemma {:induction false} SamePositioned(g: Graph, m: Graph)
    requires Positioned(g) && m.edges == g.edges && m.positions == g.positions
    ensures Positioned(m)
  {
  }

  lemma {:induction false} SameWithin(g: Graph, m: Graph, vocabulary: set<string>)
    requires Within(g, vocabulary) && m.nodeToIdx == g.nodeToIdx
    ensures Within(m, vocabulary)
  {
  }

  lemma {:induction false} NodeWithin(cfg: Config, g: Graph, id: NodeId, vocabulary: set<string>)
    requires g.Valid() && Within(g, vocabulary) && id.EntityId? && id.term in vocabulary
    ensures Within(IngestNode(cfg, g, id), vocabulary)
  {
  }

  lemma {:induction false} EntitiesPlaced(cfg: Config, g: Graph, ans: nat, es: seq<Entity>, seen: set<NodeId>,
                                          vocabulary: set<string>)
    requires Placed(cfg, g, vocabulary) && ans < g.Size() && g.idxToNode[ans].ValueId?
    requires forall e :: e in es && |e.term| >= 2 ==> e.term in vocabulary
    ensures Placed(cfg, IngestEntities(cfg, g, ans, es, seen, false), vocabulary)
    decreases |es|
  {
    hide Graph.Valid, IngestEntity, Positioned, Indexed, Within;
    if es == [] {
    } else {
      var id := EntityId(es[0].etype, es[0].term);
      assert es[0] in es && forall e :: e in es[1..] ==> e in es;
      if |id.term| < 2 || id in seen {
        EntitiesPlaced(cfg, g, ans, es[1..], seen, vocabulary);
      } else {
        EntityPlaced(cfg, g, ans, id, vocabulary);
        EntitiesPlaced(cfg, IngestEntity(cfg, g, ans, id, false), ans, es[1..], seen + {id}, vocabulary);
      }
    }
  }

  lemma {:induction false} ValuePlaced(cfg: Config, g: Graph, d: Document, vocabulary: set<string>)
    requires Placed(cfg, g, vocabulary)
    ensures var v := GetOrAddNode(g, ValueId(d.id), ValueKind, d.value, 0.0);
            && Placed(cfg, v, vocabulary)
            && v.nodeToIdx[ValueId(d.id)] < v.Size() && v.idxToNode[v.nodeToIdx[ValueId(d.id)]] == ValueId(d.id)
  {
    var v := GetOrAddNode(g, ValueId(d.id), ValueKind, d.value, 0.0);
    assert Positioned(v) by { SamePositioned(g, v); }
    assert Indexed(cfg, v) && Within(v, vocabulary) by {
      assert forall id: NodeId :: id.EntityId? ==> (id in v.nodeToIdx <==> id in g.nodeToIdx);
    }
  }

  lemma {:induction false} IngestPlaced(cfg: Config, g: Graph, docs: seq<Document>, vocabulary: set<string>)
    requires Placed(cfg, g, vocabulary) && Labels(docs, 2) <= vocabulary
    ensures Placed(cfg, Ingest(cfg, g, docs, false), vocabulary)
    decreases |docs|
  {
    hide GetOrAddNode, IngestEntities, Positioned, Indexed, Within;
    if docs == [] {
    } else {
      var d := docs[0];
      assert d in docs && forall x :: x in docs[1..] ==> x in docs;
      ValuePlaced(cfg, g, d, vocabulary);
      var v := GetOrAddNode(g, ValueId(d.id), ValueKind, d.value, 0.0);
      EntitiesPlaced(cfg, v, v.nodeToIdx[ValueId(d.id)], d.entities, {}, vocabulary);
      IngestPlaced(cfg, IngestDocument(cfg, g, d, false), docs[1..], vocabulary);
    }
  }

  lemma {:induction false} BatchPlaced(cfg: Config, m: Graph, batch: seq<Document>, order: seq<string>,
                                       vocabulary: set<string>)
    requires Placed(cfg, m, vocabulary) && Labels(batch, 2) <= vocabulary
    ensures Placed(cfg, AddBatch(cfg, m, batch, order), vocabulary)
  {
    hide Graph.Valid, Ingest, RefreshLabels, Indexed, Within;
    var c := CountBatch(m, batch);
    var f := Refresh(cfg, c, order);
    RefreshLabelsKeepNodes(cfg, c, order);
    RefreshPositioned(cfg, m, batch, order);
    SameIndexed(cfg, m, f);
    SameWithin(m, f, vocabulary);
    IngestPlaced(cfg, f, batch, vocabulary);
    var r := AddBatch(cfg, m, batch, order);
    SameIndexed(cfg, Ingest(cfg, f, batch, false), r);
    SameWithin(Ingest(cfg, f, batch, false), r, vocabulary);
  }

  lemma {:induction false} RefreshPositioned(cfg: Config, m: Graph, batch: seq<Document>, order: seq<string>)
    requires m.Valid() && Positioned(m)
    ensures Positioned(Refresh(cfg, CountBatch(m, batch), order))
  {
    var c := CountBatch(m, batch);
    var r := RefreshLabels(cfg, c, order);
    hide Graph.Valid, RefreshLabels;
    forall p: nat | p < |r.edges|
      ensures p in Lookup(r.positions, r.edges[p].src)
    {
      assert p in Lookup(m.positions, m.edges[p].src);
    }
  }

  // What every script keeps, whatever ids repeat: the graph is current, its
  // positions and index are whole, and it has counted the documents.
  ghost predicate Settled(cfg: Config, g: Graph, docs: seq<Document>, vocabulary: set<string>) {
    && g.Valid() && g.Shaped() && Compiled(g) && g.Bipartite(Current(g)) && Ready(g)
    && Indexed(cfg, g) && Within(g, vocabulary) && Counted(g, docs)
  }

  // The graph with its buffers filled.
  lemma {:induction false} SettledMutable(cfg: Config, g: Graph, docs: seq<Document>, vocabulary: set<string>)
    requires Settled(cfg, g, docs, vocabulary)
    ensures Loadable(g)
    ensures var m := EnsureMutable(g); Kept(m) && Placed(cfg, m, vocabulary) && Counted(m, docs) && m.built == g.built
  {
    hide Graph.Valid, Indexed, Within;
    MaterializedEdges(g);
    Materialized(g);
    SameIndexed(cfg, g, EnsureMutable(g));
    SameWithin(g, EnsureMutable(g), vocabulary);
  }

  lemma {:induction false} KeptSettled(cfg: Config, m: Graph, docs: seq<Document>, vocabulary: set<string>)
    requires Kept(m) && Placed(cfg, m, vocabulary) && Counted(m, docs)
    ensures Settled(cfg, m, docs, vocabulary)
  {
    CompiledBuffers(m);
  }

  lemma {:induction false} AddSettled(cfg: Config, g: Graph, docs: seq<Document>, batch: seq<Document>,
                                      order: seq<string>, vocabulary: set<string>)
    requires Settled(cfg, g, docs, vocabulary) && Labels(batch, 2) <= vocabulary
    ensures Loadable(g) && Settled(cfg, AddDocuments(cfg, g, batch, order), docs + batch, vocabulary)
  {
    hide Settled, Placed, Counted;
    SettledMutable(cfg, g, docs, vocabulary);
    if batch == [] {
      assert docs + batch == docs;
    } else {
      var m := EnsureMutable(g);
      PlacedValid(cfg, m, vocabulary);
      BatchPlaced(cfg, m, batch, order, vocabulary);
      AddBatchTracked(cfg, m, batch, order);
      AddBatchCounted(cfg, m, docs, batch, order);
      KeptSettled(cfg, AddBatch(cfg, m, batch, order), docs + batch, vocabulary);
    }
  }

  lemma {:induction false} PlacedValid(cfg: Config, m: Graph, vocabulary: set<string>)
    requires Placed(cfg, m, vocabulary)
    ensures m.Valid()
  {
  }

  lemma {:induction false} AddBatchCounted(cfg: Config, m: Graph, docs: seq<Document>, batch: seq<Document>,
                                           order: seq<string>)
    requires m.Valid() && Counted(m, docs)
    ensures Counted(AddBatch(cfg, m, batch, order), docs + batch)
  {
    hide Graph.Valid, Ingest, RefreshLabels, Count;
    BatchCounted(m, docs, batch);
    RefreshLabelsKeepNodes(cfg, CountBatch(m, batch), order);
  }

  lemma {:induction false} CompileSettled(cfg: Config, g: Graph, docs: seq<Document>, vocabulary: set<string>)
    requires Settled(cfg, g, docs, vocabulary)
    ensures Settled(cfg, Compile(g), docs, vocabulary)
  {
    if g.dirty {
      CompiledBuffers(Compile(g));
      SameIndexed(cfg, g, Compile(g));
    }
  }

  lemma {:induction false} CompactCurrent(g: Graph)
    requires g.Valid() && g.Shaped() && Compiled(g) && g.Bipartite(Current(g)) && g.built
    ensures var k := Compact(g); k.Valid() && k.Shaped() && Compiled(k) && g.Bipartite(Current(k))
  {
    var n := g.Size();
    assert Compact(g).adj == Some(BuildCsr(n, Current(g)));
    BipartiteInRange(g, Current(g));
    CooRoundTrip(n, Current(g));
    CooBipartite(g, Current(g));
  }

  lemma {:induction false} CompactSettled(cfg: Config, g: Graph, docs: seq<Document>, vocabulary: set<string>)
    requires Settled(cfg, g, docs, vocabulary) && g.built
    ensures Settled(cfg, Compact(g), docs, vocabulary)
  {
    hide Graph.Valid, BuildCsr, Indexed, Within;
    CompactCurrent(g);
    assert Compact(g).Bipartite(Current(Compact(g))) by { SameBipartite(g, Compact(g), Current(Compact(g))); }
    SameIndexed(cfg, g, Compact(g));
    SameWithin(g, Compact(g), vocabulary);
  }

  lemma {:induction false} SameBipartite(g: Graph, r: Graph, es: seq<Edge>)
    requires g.Bipartite(es) && r.idxToNode == g.idxToNode
    ensures r.Bipartite(es)
  {
  }

  lemma {:induction false} ScriptSettled(cfg: Config, steps: seq<Step>, vocabulary: set<string>)
    requires Labels(Taken(steps), 2) <= vocabulary
    ensures Settled(cfg, RunScript(cfg, Empty(0), steps), Taken(steps), vocabulary)
  {
    hide Settled, AddDocuments, Compile, Compact, Empty;
    if steps == [] {
      EmptySettled(cfg, vocabulary);
    } else {
      var init, last := steps[..|steps| - 1], steps[|steps| - 1];
      var g, more := RunScript(cfg, Empty(0), init), if last.Add? then last.docs else [];
      assert Taken(steps) == Taken(init) + more && Taken(init) + [] == Taken(init);
      LabelsAppend(Taken(init), more, 2);
      ScriptSettled(cfg, init, vocabulary);
      SettledValid(cfg, g, Taken(init), vocabulary);
      match last
      case Add(docs, order) => AddSettled(cfg, g, Taken(init), docs, order, vocabulary);
      case Recompile => CompileSettled(cfg, g, Taken(init), vocabulary);
      case Compaction => if g.built { CompactSettled(cfg, g, Taken(init), vocabulary); }
    }
  }

  lemma {:induction false} EmptySettled(cfg: Config, vocabulary: set<string>)
    ensures Settled(cfg, Empty(0), [], vocabulary)
  {
  }

  lemma {:induction false} SettledValid(cfg: Config, g: Graph, docs: seq<Document>, vocabulary: set<string>)
    requires Settled(cfg, g, docs, vocabulary)
    ensures g.Valid()
  {
  }

  // Compacting before a batch leaves another matrix than the batch alone
  // exactly when some label of the batch already names a pair twice, as when a
  // document id was taken in twice with one entity and not compacted since.
  lemma {:induction false} CompactThenAddIff(cfg: Config, g: Graph, docs: seq<Document>, batch: seq<Document>,
                                             order: seq<string>, vocabulary: set<string>)
    requires Settled(cfg, g, docs, vocabulary) && NoClash(cfg, vocabulary) && g.built && batch != []
    requires BatchOk(batch, order, vocabulary) && Positive(cfg)
    ensures Loadable(g) && Loadable(Compact(g))
    ensures CompactShows(cfg, g, batch, order) <==> TouchesRepeat(EnsureMutable(g), batch)
  {
    hide Settled, NoClash, TouchesRepeat, AddBatch;
    SettledMutable(cfg, g, docs, vocabulary);
    var m := EnsureMutable(g);
    assert Grounded(cfg, m, docs, vocabulary);
    KeptThenAddIff(cfg, m, docs, batch, order, vocabulary);
    KeptIsMutable(m);
    SettledValid(cfg, g, docs, vocabulary);
    assert Compact(m) == Compact(g) by { CompactMutable(g); }
  }

  lemma {:induction false} CompactMutable(g: Graph)
    requires Loadable(g) && g.built
    ensures EnsureMutable(g).built && Compact(EnsureMutable(g)) == Compact(g)
  {
    hide BuildCsr, ToCoo;
  }

  // So for every graph that batches, compilations and compactions leave, in
  // any order and however often ids repeat.
  lemma {:induction false} CompactScriptIff(cfg: Config, steps: seq<Step>, batch: seq<Document>, order: seq<string>)
    requires Enumerates(order, Labels(batch, 2)) && batch != []
    requires NoClash(cfg, Labels(Taken(steps) + batch, 2)) && Positive(cfg) && RunScript(cfg, Empty(0), steps).built
    ensures var g := RunScript(cfg, Empty(0), steps);
            && Loadable(g) && Loadable(Compact(g))
            && (CompactShows(cfg, g, batch, order) <==> TouchesRepeat(EnsureMutable(g), batch))
  {
    hide RunScript, Compact, CompactShows, TouchesRepeat, NoClash, Settled, EnsureMutable;
    var vocabulary := Labels(Taken(steps) + batch, 2);
    LabelsAppend(Taken(steps), batch, 2);
    ScriptSettled(cfg, steps, vocabulary);
    SettledValid(cfg, RunScript(cfg, Empty(0), steps), Taken(steps), vocabulary);
    CompactThenAddIff(cfg, RunScript(cfg, Empty(0), steps), Taken(steps), batch, order, vocabulary);
  }

  // ----- the failing input -----

  lemma MentionNodes(cfg: Config, g: Graph, ans: nat, y: string, fast: bool)
    requires g.Valid() && ans < g.Size() && g.idxToNode[ans].ValueId? && |y| >= 2
    ensures var r := IngestEntities(cfg, g, ans, [Entity(y, "entity")], {}, fast);
            && g.idxToNode <= r.idxToNode && EntityId("entity", y) in r.nodeToIdx
            && |r.edges| == |g.edges| + 1 && g.edges <= r.edges
            && r.edges[|g.edges|].src == r.nodeToIdx[EntityId("entity", y)] && r.edges[|g.edges|].dst == ans
  {
    hide Graph.Valid, IngestNode, Specificity;
    var es, id := [Entity(y, "entity")], EntityId("entity", y);
    assert es[1..] == [];
    assert IngestEntities(cfg, g, ans, es, {}, fast) == IngestEntity(cfg, g, ans, id, fast);
  }

  // One mention joins its two nodes, and nodes that exist keep their numbers.
  lemma MentionEdge(cfg: Config, g: Graph, doc: string, y: string, fast: bool)
    requires g.Valid() && |y| >= 2
    ensures var r := Ingest(cfg, g, [Mention(doc, y)], fast);
            && g.idxToNode <= r.idxToNode && |r.edges| == |g.edges| + 1 && g.edges <= r.edges
            && EntityId("entity", y) in r.nodeToIdx && ValueId(doc) in r.nodeToIdx
            && r.edges[|g.edges|].src == r.nodeToIdx[EntityId("entity", y)]
            && r.edges[|g.edges|].dst == r.nodeToIdx[ValueId(doc)]
  {
    hide IngestEntities;
    var d := Mention(doc, y);
    var v := GetOrAddNode(g, ValueId(doc), ValueKind, doc, 0.0);
    MentionNodes(cfg, v, v.nodeToIdx[ValueId(doc)], y, fast);
    var r, one := Ingest(cfg, g, [d], fast), IngestDocument(cfg, g, d, fast);
    assert [d][1..] == [] && Ingest(cfg, one, [], fast) == one;
    assert r == IngestEntities(cfg, v, v.nodeToIdx[ValueId(doc)], d.entities, {}, fast);
    assert v.idxToNode[v.nodeToIdx[ValueId(doc)]] == ValueId(doc) == r.idxToNode[v.nodeToIdx[ValueId(doc)]];
  }

  lemma SameNumber(g: Graph, r: Graph, id: NodeId)
    requires g.Valid() && r.Valid() && g.idxToNode <= r.idxToNode && id in g.nodeToIdx
    ensures id in r.nodeToIdx && r.nodeToIdx[id] == g.nodeToIdx[id]
  {
    var i := g.nodeToIdx[id];
    assert r.idxToNode[i] == id && r.NodeAt(i, r.idxToNode[i]);
  }

  // One more mention of document 0, and a compilation, add one edge between its
  // two nodes.
  lemma Mentioned(cfg: Config, g: Graph, y: string)
    requires Kept(g) && |y| >= 2
    ensures Loadable(g)
    ensures var r := Compile(AddDocuments(cfg, g, [Mention("0", y)], [y]));
            && Kept(r) && r.built && !r.dirty && g.idxToNode <= r.idxToNode
            && |r.edges| == |g.edges| + 1 && SameEnds(r.edges[..|g.edges|], g.edges)
            && EntityId("entity", y) in r.nodeToIdx && ValueId("0") in r.nodeToIdx
            && r.edges[|g.edges|].src == r.nodeToIdx[EntityId("entity", y)]
            && r.edges[|g.edges|].dst == r.nodeToIdx[ValueId("0")]
  {
    hide Graph.Valid, Ingest, RefreshLabels, BuildCsr;
    KeptIsMutable(g);
    var d, c := [Mention("0", y)], CountBatch(g, [Mention("0", y)]);
    var f := Refresh(cfg, c, [y]);
    RefreshLabelsKeepNodes(cfg, c, [y]);
    MentionEdge(cfg, f, "0", y, false);
    AddedMatrix(cfg, g, d, [y]);
    var r := AddBatch(cfg, g, d, [y]);
    assert r.edges[..|g.edges|] == f.edges;
    assert AddDocuments(cfg, g, d, [y]) == r;
    CompiledKept(r);
  }

  lemma CompiledKept(r: Graph)
    requires r.Valid() && Compile(r).adj == Some(BuildCsr(r.Size(), r.edges))
    ensures Kept(Compile(r))
  {
  }

  lemma MentionedTwice(cfg: Config, y: string)
    requires |y| >= 2 && Kept(Empty(0))
    ensures Loadable(Empty(0))
    ensures var d := [Mention("0", y)];
            var g := Compile(AddDocuments(cfg, Empty(0), d, [y]));
            && Loadable(g)
            && var h := Compile(AddDocuments(cfg, g, d, [y]));
            && Loadable(h) && !h.dirty && h.built && TouchesRepeat(EnsureMutable(h), [Mention("1", y)])
  {
    hide Graph.Valid, AddDocuments, Compile, EnsureMutable, Loadable;
    var d := [Mention("0", y)];
    Mentioned(cfg, Empty(0), y);
    var g := Compile(AddDocuments(cfg, Empty(0), d, [y]));
    Mentioned(cfg, g, y);
    var h := Compile(AddDocuments(cfg, g, d, [y]));
    KeptIsMutable(h);
    var x := EntityId("entity", y);
    var i, j := h.nodeToIdx[x], h.nodeToIdx[ValueId("0")];
    SameNumber(g, h, x);
    SameNumber(g, h, ValueId("0"));
    assert h.edges[..1][0] == h.edges[0];
    assert Repeats(h.edges, i, j);
    LabelOf(h, x);
    OneMention(Mention("1", y), y);
  }

  lemma LabelOf(g: Graph, id: NodeId)
    requires g.Valid() && id in g.nodeToIdx && id.EntityId?
    ensures g.nodeToIdx[id] < |g.labels| && g.labels[g.nodeToIdx[id]] == id.term
  {
    assert g.NodeAt(g.nodeToIdx[id], g.idxToNode[g.nodeToIdx[id]]);
  }

  // Document 0 taken in twice, a query's compilation after each, and the label
  // once more: compacting before the last batch changes the matrix.
  lemma CompactRepeatShows(cfg: Config, y: string)
    requires |y| >= 2 && Positive(cfg)
    ensures var d, batch := [Mention("0", y)], [Mention("1", y)];
            var steps := [Add(d, [y]), Recompile, Add(d, [y]), Recompile];
            var g := RunScript(cfg, Empty(0), steps);
            && WellOrdered(steps) && g.Valid() && !g.dirty && g.built && Loadable(g) && Loadable(Compact(g))
            && CompactShows(cfg, g, batch, [y])
  {
    hide RunScript, Compact, NoClash, Positive, Repeats, EnsureMutable, AddDocuments, Labels, CompactShows, Compile,
         TouchesRepeat, Taken, Loadable;
    var d, batch := [Mention("0", y)], [Mention("1", y)];
    var steps := [Add(d, [y]), Recompile, Add(d, [y]), Recompile];
    assert Kept(Empty(0));
    MentionedTwice(cfg, y);
    FourSteps(cfg, d, y, steps);
    OneMention(d[0], y);
    OneMention(batch[0], y);
    EnumeratesOne(y);
    OwnClash(cfg, y);
    assert [d[0]] == d && [batch[0]] == batch;
    LabelsAppend(d, d, 2);
    LabelsAppend(d + d, batch, 2);
    assert Labels(Taken(steps) + batch, 2) == {y};
    CompactScriptIff(cfg, steps, batch, [y]);
  }

  lemma FourSteps(cfg: Config, d: seq<Document>, y: string, steps: seq<Step>)
    requires steps == [Add(d, [y]), Recompile, Add(d, [y]), Recompile] && Loadable(Empty(0))
    requires Loadable(Compile(AddDocuments(cfg, Empty(0), d, [y])))
    ensures RunScript(cfg, Empty(0), steps) ==
            Compile(AddDocuments(cfg, Compile(AddDocuments(cfg, Empty(0), d, [y])), d, [y]))
    ensures Taken(steps) == d + d
  {
    hide AddDocuments, Compile, Loadable, Graph.Valid;
    var s1, s2, s3 := steps[..1], steps[..2], steps[..3];
    assert s1[..0] == [] && s2[..1] == s1 && s3[..2] == s2 && steps[..3] == s3;
    assert RunScript(cfg, Empty(0), []) == Empty(0) && Taken([]) == [];
    assert RunScript(cfg, Empty(0), s1) == AddDocuments(cfg, Empty(0), d, [y]) && Taken(s1) == [] + d;
    assert RunScript(cfg, Empty(0), s2) == Compile(AddDocuments(cfg, Empty(0), d, [y])) && Taken(s2) == d + [];
    assert Taken(s3) == d + d && Taken(steps) == d + d + [];
  }
}
