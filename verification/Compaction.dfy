/** Compiling and compacting a graph between batches: neither is visible in
    the nodes, the index or the compiled matrix. */
module Compaction {
  import opened Wrappers
  import opened Sparse
  import opened Graph
  import opened Growth
  import opened GrowthTheorems

  // The edges of a graph: its buffers, or the matrix it was loaded with.
  function Current(g: Graph): seq<Edge>
    requires g.Valid() && g.Shaped()
  {
    if g.edges == [] && !g.dirty then ToCoo(g.adj.value, g.Size(), g.Size()) else g.edges
  }

  // The compiled matrix of a clean graph is the matrix of its edges.
  ghost predicate Compiled(g: Graph)
    requires g.Valid() && g.Shaped()
  {
    !g.dirty ==> g.adj == Some(BuildCsr(g.Size(), Current(g)))
  }

  // ----- documents with distinct ids never join a pair twice -----

  ghost predicate DistinctIds(docs: seq<Document>) {
    forall i, j :: 0 <= i < j < |docs| ==> docs[i].id != docs[j].id
  }

  ghost predicate ValueNodes(g: Graph, ids: set<string>) {
    forall x :: ValueId(x) in g.nodeToIdx ==> x in ids
  }

  function Ids(docs: seq<Document>): set<string> {
    set d | d in docs :: d.id
  }

  ghost predicate SeenSources(g: Graph, ans: nat, seen: set<NodeId>)
    requires g.Valid()
  {
    forall p: nat :: p < |g.edges| && g.edges[p].dst == ans ==>
      g.Fits(g.edges[p]) && g.idxToNode[g.edges[p].src] in seen
  }

  lemma IngestEntitySimple(cfg: Config, g: Graph, ans: nat, id: NodeId, seen: set<NodeId>, fast: bool)
    requires g.Valid() && id.EntityId? && ans < g.Size() && g.idxToNode[ans].ValueId?
    requires Simple(g.edges) && SeenSources(g, ans, seen) && id !in seen
    ensures Simple(IngestEntity(cfg, g, ans, id, fast).edges)
    ensures SeenSources(IngestEntity(cfg, g, ans, id, fast), ans, seen + {id})
  {
    var m, e := IngestNode(cfg, g, id), NewEdge(cfg, g, ans, id);
    assert m.idxToNode[e.src] == id;
    var r := IngestEntity(cfg, g, ans, id, fast);
    assert r.edges == g.edges + [e];
    forall p: nat | p < |g.edges| && g.edges[p].dst == ans
      ensures g.edges[p].src != e.src && m.idxToNode[g.edges[p].src] in seen
    {
      assert m.idxToNode[g.edges[p].src] == g.idxToNode[g.edges[p].src];
    }
  }

  lemma {:induction false} IngestEntitiesSimple(cfg: Config, g: Graph, ans: nat, es: seq<Entity>, seen: set<NodeId>,
                                                fast: bool,
                                                ids: set<string>)
    requires g.Valid() && ans < g.Size() && g.idxToNode[ans].ValueId?
    requires Simple(g.edges) && SeenSources(g, ans, seen) && ValueNodes(g, ids)
    ensures Simple(IngestEntities(cfg, g, ans, es, seen, fast).edges)
    ensures ValueNodes(IngestEntities(cfg, g, ans, es, seen, fast), ids)
    decreases |es|
  {
    if es == [] {
    } else {
      var id := EntityId(es[0].etype, es[0].term);
      if |id.term| < 2 || id in seen {
        IngestEntitiesSimple(cfg, g, ans, es[1..], seen, fast, ids);
      } else {
        IngestEntitySimple(cfg, g, ans, id, seen, fast);
        IngestEntitiesSimple(cfg, IngestEntity(cfg, g, ans, id, fast), ans, es[1..], seen + {id}, fast, ids);
      }
    }
  }

  lemma IngestDocumentSimple(cfg: Config, g: Graph, d: Document, fast: bool, ids: set<string>)
    requires g.Valid() && Simple(g.edges) && ValueNodes(g, ids) && d.id !in ids
    ensures Simple(IngestDocument(cfg, g, d, fast).edges)
    ensures ValueNodes(IngestDocument(cfg, g, d, fast), ids + {d.id})
  {
    var r := GetOrAddNode(g, ValueId(d.id), ValueKind, d.value, 0.0);
    var ans := r.nodeToIdx[ValueId(d.id)];
    assert SeenSources(r, ans, {}) by {
      forall p: nat | p < |r.edges|
        ensures r.edges[p].dst != ans
      {
        assert g.Fits(g.edges[p]);
      }
    }
    IngestEntitiesSimple(cfg, r, ans, d.entities, {}, fast, ids + {d.id});
  }

  lemma {:induction false} IngestSimple(cfg: Config, g: Graph, docs: seq<Document>, fast: bool, ids: set<string>)
    requires g.Valid() && Simple(g.edges) && ValueNodes(g, ids)
    requires DistinctIds(docs) && ids !! Ids(docs)
    ensures Simple(Ingest(cfg, g, docs, fast).edges)
    ensures ValueNodes(Ingest(cfg, g, docs, fast), ids + Ids(docs))
    decreases |docs|
  {
    if docs == [] {
    } else {
      var d := docs[0];
      assert d in docs && docs == [d] + docs[1..];
      assert Ids(docs) == {d.id} + Ids(docs[1..]);
      assert d.id !in Ids(docs[1..]);
      IngestDocumentSimple(cfg, g, d, fast, ids);
      IngestSimple(cfg, IngestDocument(cfg, g, d, fast), docs[1..], fast, ids + {d.id});
    }
  }

  // ----- a clean graph stays compiled -----

  // Either dirty, or the edges and the matrix are untouched.
  ghost predicate Tracked(m: Graph, r: Graph) {
    r.dirty || (r.Size() == m.Size() && r.edges == m.edges && r.adj == m.adj && !m.dirty)
  }

  lemma {:induction false} IngestEntitiesTracked(cfg: Config, g: Graph, ans: nat, es: seq<Entity>, seen: set<NodeId>)
    requires g.Valid() && ans < g.Size() && g.idxToNode[ans].ValueId?
    ensures Tracked(g, IngestEntities(cfg, g, ans, es, seen, false))
    decreases |es|
  {
    if es == [] {
    } else {
      var id := EntityId(es[0].etype, es[0].term);
      if |id.term| < 2 || id in seen {
        IngestEntitiesTracked(cfg, g, ans, es[1..], seen);
      } else {
        IngestEntitiesTracked(cfg, IngestEntity(cfg, g, ans, id, false), ans, es[1..], seen + {id});
      }
    }
  }

  lemma {:induction false} IngestTracked(cfg: Config, g: Graph, docs: seq<Document>)
    requires g.Valid()
    ensures Tracked(g, Ingest(cfg, g, docs, false))
    decreases |docs|
  {
    if docs == [] {
    } else {
      var r := GetOrAddNode(g, ValueId(docs[0].id), ValueKind, docs[0].value, 0.0);
      IngestEntitiesTracked(cfg, r, r.nodeToIdx[ValueId(docs[0].id)], docs[0].entities, {});
      IngestTracked(cfg, IngestDocument(cfg, g, docs[0], false), docs[1..]);
    }
  }

  lemma AddBatchTracked(cfg: Config, m: Graph, batch: seq<Document>, order: seq<string>)
    requires m.Valid()
    ensures Tracked(m, AddBatch(cfg, m, batch, order))
  {
    IngestTracked(cfg, Refresh(cfg, CountBatch(m, batch), order), batch);
  }

  lemma EmptyMatrix(n: nat)
    ensures ToCoo(BuildCsr(n, []), n, n) == []
  {
    CooRoundTrip(n, []);
    var coo := ToCoo(BuildCsr(n, []), n, n);
    if coo != [] { assert Joined(coo, coo[0].src, coo[0].dst); }
  }

  lemma {:induction false} EmptyRow(i: nat, j: nat)
    ensures RowOf([], i, j) == []
  {
    if j == 0 {
    } else {
      EmptyRow(i, j - 1);
    }
  }

  lemma {:induction false} EmptyRows(n: nat, i: nat)
    ensures RowsOf([], n, i) == []
  {
    if i == 0 {
    } else {
      EmptyRow(i - 1, n);
      EmptyRows(n, i - 1);
    }
  }

  lemma {:induction false} NothingListed(n: nat)
    ensures Stored(BuildCsr(n, [])) == 0
  {
    EmptyRows(n, n);
  }

  lemma CompiledBuffers(m: Graph)
    requires m.Valid() && (!m.dirty ==> m.adj == Some(BuildCsr(m.Size(), m.edges)))
    ensures m.Shaped() && Current(m) == m.edges && Compiled(m)
  {
    EmptyMatrix(m.Size());
  }

  lemma BipartiteInRange(g: Graph, es: seq<Edge>)
    requires g.Bipartite(es)
    ensures InRange(es, g.Size())
  {
  }

  lemma {:induction false} CooBipartite(g: Graph, es: seq<Edge>)
    requires g.Bipartite(es)
    ensures g.Bipartite(ToCoo(BuildCsr(g.Size(), es), g.Size(), g.Size()))
  {
    BipartiteInRange(g, es);
    var coo := ToCoo(BuildCsr(g.Size(), es), g.Size(), g.Size());
    CooRoundTrip(g.Size(), es);
    forall p | 0 <= p < |coo|
      ensures g.Fits(coo[p])
    {
      assert Joined(coo, coo[p].src, coo[p].dst);
      var q :| 0 <= q < |es| && es[q].src == coo[p].src && es[q].dst == coo[p].dst;
      assert g.Fits(es[q]);
    }
  }

  // Filling the edge buffers: they hold the current edges.
  lemma MaterializedEdges(g: Graph)
    requires g.Valid() && g.Shaped() && Compiled(g) && g.Bipartite(Current(g))
    ensures Loadable(g)
    ensures EnsureMutable(g).edges == Current(g)
    ensures EnsureMutable(g) == g.(edges := EnsureMutable(g).edges, positions := EnsureMutable(g).positions)
    ensures !g.dirty ==> g.adj == Some(BuildCsr(g.Size(), EnsureMutable(g).edges))
  {
    if g.edges == [] && !g.dirty && Stored(g.adj.value) == 0 { NothingStored(g.Size(), Current(g)); }
  }

  // A clean load also recovers the position of every edge.
  lemma Materialized(g: Graph)
    requires g.Valid() && g.Shaped() && Compiled(g) && g.Bipartite(Current(g)) && (g.edges != [] ==> Positioned(g))
    ensures Loadable(g) && Positioned(EnsureMutable(g))
  {
    MaterializedEdges(g);
    var m := EnsureMutable(g);
    forall p: nat | p < |m.edges|
      ensures p in Lookup(m.positions, m.edges[p].src)
    {
      if g.edges != [] { assert p in Lookup(g.positions, g.edges[p].src); }
    }
  }

  lemma NothingStored(n: nat, es: seq<Edge>)
    requires InRange(es, n) && Stored(BuildCsr(n, es)) == 0
    ensures es == []
  {
    if es != [] {
      var e := es[0];
      assert e in es && Joined(es, e.src, e.dst);
      RowColumns(es, e.src, n);
      RowStart(n, es, e.src);
    }
  }

  // ----- what a graph represents -----

  function Plain(cfg: Config, docs: seq<Document>): (r: Graph)
    ensures r.Valid()
  {
    Ingest(cfg, Empty(0), docs, true)
  }

  ghost predicate SameJoins(es: seq<Edge>, fs: seq<Edge>) {
    forall i: nat, j: nat :: Joined(es, i, j) <==> Joined(fs, i, j)
  }

  ghost predicate NodesHold(cfg: Config, g: Graph, docs: seq<Document>, vocabulary: set<string>)
    requires g.Valid()
  {
    && SameNodes(g, Plain(cfg, docs)) && ValueNodes(g, Ids(docs)) && NodesWeighted(cfg, g, {})
    && Indexed(cfg, g) && Within(g, vocabulary) && Counted(g, docs)
  }

  // g holds the documents: the nodes and joined pairs of a plain ingest, each
  // pair once, weighted by the counts, and its matrix, if clean, is current.
  ghost predicate Holds(cfg: Config, g: Graph, docs: seq<Document>, vocabulary: set<string>) {
    && g.Valid() && g.Shaped()
    && NodesHold(cfg, g, docs, vocabulary)
    && SameJoins(Current(g), Plain(cfg, docs).edges)
    && g.Bipartite(Current(g)) && Simple(Current(g)) && EdgesWeighted(cfg, g, Current(g), {})
    && Compiled(g)
  }

  ghost predicate Ready(g: Graph) {
    g.edges != [] ==> Positioned(g)
  }

  lemma {:induction false} EndsJoined(es: seq<Edge>, fs: seq<Edge>)
    requires SameEnds(es, fs)
    ensures SameJoins(es, fs)
  {
    forall i: nat, j: nat
      ensures Joined(es, i, j) <==> Joined(fs, i, j)
    {
      if Joined(es, i, j) { var p :| 0 <= p < |es| && es[p].src == i && es[p].dst == j; assert fs[p].src == i; }
      if Joined(fs, i, j) { var p :| 0 <= p < |fs| && fs[p].src == i && fs[p].dst == j; assert es[p].src == i; }
    }
  }

  lemma JoinedConcat(a: seq<Edge>, b: seq<Edge>, i: nat, j: nat)
    ensures Joined(a + b, i, j) <==> Joined(a, i, j) || Joined(b, i, j)
  {
    if Joined(a, i, j) { var p :| 0 <= p < |a| && a[p].src == i && a[p].dst == j; assert (a + b)[p] == a[p]; }
    if Joined(b, i, j) { var p :| 0 <= p < |b| && b[p].src == i && b[p].dst == j; assert (a + b)[|a| + p] == b[p]; }
  }

  lemma SplicedJoins(r: seq<Edge>, m: seq<Edge>, t: seq<Edge>, h: seq<Edge>)
    requires |m| <= |r| && h <= t && SameJoins(m, h)
    requires SameEnds(r[..|m|], m) && SameEnds(r[|m|..], t[|h|..])
    ensures SameJoins(r, t)
  {
    EndsJoined(r[..|m|], m);
    EndsJoined(r[|m|..], t[|h|..]);
    assert r == r[..|m|] + r[|m|..] && t == h + t[|h|..];
    forall i: nat, j: nat
      ensures Joined(r, i, j) <==> Joined(t, i, j)
    {
      JoinedConcat(r[..|m|], r[|m|..], i, j);
      JoinedConcat(h, t[|h|..], i, j);
    }
  }

  // ----- the steps keep it -----

  // What is said of the nodes does not look at the edges, the matrix or the flags.
  lemma NodesKept(cfg: Config, g: Graph, r: Graph, docs: seq<Document>, vocabulary: set<string>)
    requires g.Valid() && r.Valid() && NodesHold(cfg, g, docs, vocabulary)
    requires r == g.(edges := r.edges, positions := r.positions, adj := r.adj, dirty := r.dirty,
                     generation := r.generation)
    ensures NodesHold(cfg, r, docs, vocabulary)
  {
    forall i: nat | i < r.Size()
      ensures NodeWeighted(cfg, r, i, {})
    {
      assert NodeWeighted(cfg, g, i, {});
    }
  }

  lemma CompileHolds(cfg: Config, g: Graph, docs: seq<Document>, vocabulary: set<string>)
    requires Holds(cfg, g, docs, vocabulary) && Ready(g)
    ensures Holds(cfg, Compile(g), docs, vocabulary) && Ready(Compile(g))
    ensures Current(Compile(g)) == Current(g)
  {
    hide NodesHold;
    if g.dirty {
      CompiledBuffers(Compile(g));
      LargerWeighted(cfg, g, Compile(g), Current(g));
      NodesKept(cfg, g, Compile(g), docs, vocabulary);
    }
  }

  lemma CompactHolds(cfg: Config, g: Graph, docs: seq<Document>, vocabulary: set<string>)
    requires Holds(cfg, g, docs, vocabulary) && g.built
    ensures Holds(cfg, Compact(g), docs, vocabulary) && Ready(Compact(g))
  {
    hide NodesHold, EdgesWeighted;
    CompactEdges(cfg, g, docs, vocabulary);
    NodesKept(cfg, g, Compact(g), docs, vocabulary);
  }

  lemma CompactMatrix(cfg: Config, g: Graph, docs: seq<Document>, vocabulary: set<string>)
    requires Holds(cfg, g, docs, vocabulary) && g.built
    ensures Compact(g).adj == Some(BuildCsr(g.Size(), Current(g)))
    ensures Current(Compact(g)) == ToCoo(BuildCsr(g.Size(), Current(g)), g.Size(), g.Size())
    ensures Compiled(Compact(g))
  {
    BipartiteInRange(g, Current(g));
    CooRoundTrip(g.Size(), Current(g));
  }

  lemma CooOfSimple(n: nat, es: seq<Edge>, e: Edge)
    requires Simple(es) && e in ToCoo(BuildCsr(n, es), n, n)
    ensures e in es
  {
    CooShape(n, es, n);
    SimpleTotal(es, e.src, e.dst);
    var p :| 0 <= p < |es| && es[p].src == e.src && es[p].dst == e.dst;
    assert es[p] == e;
  }

  lemma SubsetWeighted(cfg: Config, g: Graph, es: seq<Edge>, fs: seq<Edge>)
    requires g.Valid() && EdgesWeighted(cfg, g, es, {})
    requires forall e :: e in fs ==> e in es
    ensures EdgesWeighted(cfg, g, fs, {}) && g.Bipartite(fs)
  {
    forall e | e in fs
      ensures EdgeWeighted(cfg, g, e, {})
    {
      assert e in es;
    }
    assert forall p :: 0 <= p < |fs| ==> fs[p] in fs;
  }

  lemma CompactEdges(cfg: Config, g: Graph, docs: seq<Document>, vocabulary: set<string>)
    requires Holds(cfg, g, docs, vocabulary) && g.built
    ensures SameJoins(Current(Compact(g)), Plain(cfg, docs).edges)
    ensures g.Bipartite(Current(Compact(g))) && Simple(Current(Compact(g)))
    ensures EdgesWeighted(cfg, Compact(g), Current(Compact(g)), {})
    ensures Compiled(Compact(g))
  {
    var es, n := Current(g), g.Size();
    var coo := ToCoo(BuildCsr(n, es), n, n);
    CompactMatrix(cfg, g, docs, vocabulary);
    BipartiteInRange(g, es);
    CooRoundTrip(n, es);
    forall e | e in coo
      ensures e in es
    {
      CooOfSimple(n, es, e);
    }
    SubsetWeighted(cfg, g, es, coo);
    LargerWeighted(cfg, g, Compact(g), coo);
  }

  lemma {:induction false} RefreshSimple(cfg: Config, g: Graph, order: seq<string>)
    requires g.Valid() && Simple(g.edges)
    ensures Simple(Refresh(cfg, g, order).edges)
  {
    RefreshLabelsKeepNodes(cfg, g, order);
  }

  lemma MaterializedSound(cfg: Config, g: Graph, docs: seq<Document>, vocabulary: set<string>)
    requires Holds(cfg, g, docs, vocabulary) && Ready(g)
    ensures Loadable(g) && Sound(cfg, EnsureMutable(g), vocabulary, false) && Counted(EnsureMutable(g), docs)
    ensures EnsureMutable(g).edges == Current(g) && SameNodes(EnsureMutable(g), g)
    ensures !g.dirty ==> EnsureMutable(g).adj == Some(BuildCsr(g.Size(), Current(g)))
    ensures EnsureMutable(g).dirty == g.dirty
  {
    MaterializedEdges(g);
    Materialized(g);
    LargerWeighted(cfg, g, EnsureMutable(g), Current(g));
    NodesKept(cfg, g, EnsureMutable(g), docs, vocabulary);
  }

  lemma AddShape(cfg: Config, m: Graph, docs: seq<Document>, batch: seq<Document>, order: seq<string>)
    requires m.Valid() && SameNodes(m, Plain(cfg, docs)) && SameJoins(m.edges, Plain(cfg, docs).edges)
    requires Simple(m.edges) && ValueNodes(m, Ids(docs)) && DistinctIds(docs + batch)
    ensures var r, t := AddBatch(cfg, m, batch, order), Plain(cfg, docs + batch);
            && SameNodes(r, t) && SameJoins(r.edges, t.edges)
            && Simple(r.edges) && ValueNodes(r, Ids(docs + batch))
  {
    var h := Plain(cfg, docs);
    var c := Refresh(cfg, CountBatch(m, batch), order);
    IngestAppend(cfg, Empty(0), docs, batch, true);
    AddBatchAlike(cfg, m, h, batch, order);
    SplicedJoins(AddBatch(cfg, m, batch, order).edges, m.edges, Plain(cfg, docs + batch).edges, h.edges);
    RefreshSimple(cfg, CountBatch(m, batch), order);
    DistinctSplit(docs, batch);
    IngestSimple(cfg, c, batch, false, Ids(docs));
  }

  lemma DistinctSplit(docs: seq<Document>, batch: seq<Document>)
    requires DistinctIds(docs + batch)
    ensures DistinctIds(docs) && DistinctIds(batch) && Ids(docs) !! Ids(batch) &&
            Ids(docs + batch) == Ids(docs) + Ids(batch)
  {
    var all := docs + batch;
    assert forall i :: 0 <= i < |docs| ==> all[i] == docs[i];
    forall i, j | 0 <= i < j < |batch|
      ensures batch[i].id != batch[j].id
    {
      assert all[|docs| + i] == batch[i] && all[|docs| + j] == batch[j];
    }
    forall d, e | d in docs && e in batch
      ensures d.id != e.id
    {
      var i, j :| 0 <= i < |docs| && docs[i] == d && 0 <= j < |batch| && batch[j] == e;
      assert all[i] == d && all[|docs| + j] == e;
    }
  }

  lemma AddHolds(cfg: Config, g: Graph, docs: seq<Document>, batch: seq<Document>, order: seq<string>,
                 vocabulary: set<string>)
    requires Holds(cfg, g, docs, vocabulary) && Ready(g)
    requires Labels(batch, 2) <= vocabulary && NoClash(cfg, vocabulary) && Enumerates(order, Labels(batch, 2))
    requires DistinctIds(docs + batch)
    ensures Loadable(g)
    ensures Holds(cfg, AddDocuments(cfg, g, batch, order), docs + batch, vocabulary)
    ensures Ready(AddDocuments(cfg, g, batch, order))
  {
    MaterializedSound(cfg, g, docs, vocabulary);
    if batch == [] {
      assert docs + batch == docs;
    } else {
      var m := EnsureMutable(g);
      AddBatchSound(cfg, m, docs, batch, order, vocabulary);
      AddShape(cfg, m, docs, batch, order);
      AddBatchTracked(cfg, m, batch, order);
      CompiledBuffers(AddBatch(cfg, m, batch, order));
    }
  }

  // ----- scripts -----

  datatype Step = Add(docs: seq<Document>, order: seq<string>) | Recompile | Compaction

  function Taken(steps: seq<Step>): seq<Document> {
    if steps == [] then []
    else Taken(steps[..|steps| - 1]) + match steps[|steps| - 1] case Add(docs, _) => docs case _ => []
  }

  ghost predicate WellOrdered(steps: seq<Step>) {
    forall i :: 0 <= i < |steps| && steps[i].Add? ==> Enumerates(steps[i].order, Labels(steps[i].docs, 2))
  }

  // One step; compaction of a graph that was never built raises and changes nothing.
  ghost function Apply(cfg: Config, g: Graph, step: Step): Graph {
    match step
    case Add(docs, order) => if Loadable(g) then AddDocuments(cfg, g, docs, order) else g
    case Recompile => if g.Valid() then Compile(g) else g
    case Compaction => if g.Valid() && g.built then Compact(g) else g
  }

  ghost function RunScript(cfg: Config, g: Graph, steps: seq<Step>): Graph {
    if steps == [] then g else Apply(cfg, RunScript(cfg, g, steps[..|steps| - 1]), steps[|steps| - 1])
  }

  lemma ApplyHolds(cfg: Config, g: Graph, docs: seq<Document>, step: Step, vocabulary: set<string>)
    requires Holds(cfg, g, docs, vocabulary) && Ready(g) && NoClash(cfg, vocabulary)
    requires step.Add? ==> Enumerates(step.order, Labels(step.docs, 2)) && Labels(step.docs, 2) <= vocabulary
    requires step.Add? ==> DistinctIds(docs + step.docs)
    ensures Holds(cfg, Apply(cfg, g, step), docs + (if step.Add? then step.docs else []), vocabulary)
    ensures Ready(Apply(cfg, g, step))
  {
    match step
    case Add(more, order) => AddHolds(cfg, g, docs, more, order, vocabulary);
    case Recompile => CompileHolds(cfg, g, docs, vocabulary); assert docs + [] == docs;
    case Compaction => if g.built { CompactHolds(cfg, g, docs, vocabulary); } assert docs + [] == docs;
  }

  lemma {:induction false} ScriptHolds(cfg: Config, g: Graph, docs: seq<Document>, steps: seq<Step>,
                                       vocabulary: set<string>)
    requires Holds(cfg, g, docs, vocabulary) && Ready(g) && NoClash(cfg, vocabulary)
    requires WellOrdered(steps) && Labels(Taken(steps), 2) <= vocabulary && DistinctIds(docs + Taken(steps))
    ensures Holds(cfg, RunScript(cfg, g, steps), docs + Taken(steps), vocabulary) && Ready(RunScript(cfg, g, steps))
    decreases |steps|
  {
    hide Holds, Ready, Apply, NoClash;
    if steps == [] {
      assert docs + [] == docs;
    } else {
      var init, last := steps[..|steps| - 1], steps[|steps| - 1];
      var more := if last.Add? then last.docs else [];
      assert Taken(steps) == Taken(init) + more;
      assert docs + Taken(steps) == docs + Taken(init) + more;
      LabelsAppend(Taken(init), more, 2);
      DistinctSplit(docs + Taken(init), more);
      ScriptHolds(cfg, g, docs, init, vocabulary);
      ApplyHolds(cfg, RunScript(cfg, g, init), docs + Taken(init), last, vocabulary);
    }
  }

  // Two graphs that hold the same documents compile to the same matrix.
  lemma HoldersAgree(cfg: Config, g: Graph, h: Graph, docs: seq<Document>, vocabulary: set<string>)
    requires Holds(cfg, g, docs, vocabulary) && Holds(cfg, h, docs, vocabulary)
    requires forall x :: x in vocabulary ==> |x| >= 2
    ensures SameNodes(g, h) && g.spec == h.spec
    ensures BuildCsr(g.Size(), Current(g)) == BuildCsr(h.Size(), Current(h))
    ensures Compile(g).adj == Compile(h).adj
  {
    SpecsAgree(cfg, g, h, docs, vocabulary);
    var es, fs := Current(g), Current(h);
    forall i: nat, j: nat | i < g.Size() && j < g.Size()
      ensures (Joined(es, i, j) <==> Joined(fs, i, j)) && Total(es, i, j) == Total(fs, i, j)
    {
      TotalsAgree(cfg, g, h, docs, vocabulary, i, j);
    }
    MatrixCongruence(es, fs, g.Size());
  }

  lemma SpecsAgree(cfg: Config, g: Graph, h: Graph, docs: seq<Document>, vocabulary: set<string>)
    requires Holds(cfg, g, docs, vocabulary) && Holds(cfg, h, docs, vocabulary)
    requires forall x :: x in vocabulary ==> |x| >= 2
    ensures SameNodes(g, h) && g.spec == h.spec
  {
    forall i: nat | i < g.Size()
      ensures g.spec[i] == h.spec[i]
    {
      SpecAt(cfg, g, docs, vocabulary, i);
      SpecAt(cfg, h, docs, vocabulary, i);
    }
  }

  lemma SpecAt(cfg: Config, g: Graph, docs: seq<Document>, vocabulary: set<string>, i: nat)
    requires g.Valid() && NodesWeighted(cfg, g, {}) && Within(g, vocabulary) && Counted(g, docs)
    requires (forall x :: x in vocabulary ==> |x| >= 2) && i < g.Size()
    ensures g.spec[i] == if g.idxToNode[i].ValueId? then 0.0
                         else cfg.spec(if Count(docs, g.labels[i]) < 1 then 1 else Count(docs, g.labels[i]))
  {
    assert NodeWeighted(cfg, g, i, {});
    assert g.idxToNode[i] in g.nodeToIdx;
  }

  lemma TotalIsWeight(cfg: Config, g: Graph, docs: seq<Document>, vocabulary: set<string>, i: nat, j: nat)
    requires Holds(cfg, g, docs, vocabulary) && (forall x :: x in vocabulary ==> |x| >= 2) && Joined(Current(g), i, j)
    ensures i < g.Size()
    ensures Total(Current(g), i, j) ==
            WeightOf(cfg, cfg.spec(if Count(docs, g.labels[i]) < 1 then 1 else Count(docs, g.labels[i])))
  {
    var es := Current(g);
    SimpleTotal(es, i, j);
    var p :| 0 <= p < |es| && es[p].src == i && es[p].dst == j;
    assert es[p] in es && EdgeWeighted(cfg, g, es[p], {});
    assert g.idxToNode[i] in g.nodeToIdx;
  }

  lemma TotalsAgree(cfg: Config, g: Graph, h: Graph, docs: seq<Document>, vocabulary: set<string>, i: nat, j: nat)
    requires Holds(cfg, g, docs, vocabulary) && Holds(cfg, h, docs, vocabulary)
    requires forall x :: x in vocabulary ==> |x| >= 2
    ensures Joined(Current(g), i, j) <==> Joined(Current(h), i, j)
    ensures Total(Current(g), i, j) == Total(Current(h), i, j)
  {
    assert Joined(Current(g), i, j) <==> Joined(Plain(cfg, docs).edges, i, j);
    assert Joined(Current(h), i, j) <==> Joined(Plain(cfg, docs).edges, i, j);
    if Joined(Current(g), i, j) {
      TotalIsWeight(cfg, g, docs, vocabulary, i, j);
      TotalIsWeight(cfg, h, docs, vocabulary, i, j);
    } else {
      SimpleTotal(Current(g), i, j);
      SimpleTotal(Current(h), i, j);
    }
  }

  lemma EmptyHolds(cfg: Config, generation: nat, vocabulary: set<string>)
    ensures Holds(cfg, Empty(generation), [], vocabulary) && Ready(Empty(generation))
  {
    EmptySound(cfg, generation, map[], vocabulary, false);
    assert Ingest(cfg, Empty(0), [], true) == Empty(0);
  }

  lemma BuildHolds(cfg: Config, generation: nat, docs: seq<Document>, vocabulary: set<string>)
    requires DistinctIds(docs) && Labels(docs, 2) <= vocabulary
    ensures Holds(cfg, Build(cfg, generation, docs), docs, vocabulary)
  {
    var start := Reset(generation, docs);
    BuildInvariant(cfg, generation, docs, vocabulary);
    IngestAlike(cfg, start, Empty(0), docs, true, true);
    var h, t := Ingest(cfg, start, docs, true), Plain(cfg, docs);
    assert h.edges[|start.edges|..] == h.edges && t.edges[|Empty(0).edges|..] == t.edges;
    EndsJoined(h.edges, t.edges);
    IngestSimple(cfg, start, docs, true, {});
  }

  // Batches, compilations and compactions in any order from the empty graph
  // give the nodes, index and matrix of one build of all the documents.
  lemma ScriptEqualsBuilt(cfg: Config, steps: seq<Step>, generation: nat)
    requires WellOrdered(steps) && DistinctIds(Taken(steps)) && NoClash(cfg, Labels(Taken(steps), 2))
    ensures var g, b := RunScript(cfg, Empty(0), steps), Build(cfg, generation, Taken(steps));
            && g.Valid() && SameNodes(g, b) && g.spec == b.spec && Compile(g).adj == Compile(b).adj
  {
    var docs := Taken(steps);
    var vocabulary := Labels(docs, 2);
    assert [] + docs == docs;
    EmptyHolds(cfg, 0, vocabulary);
    ScriptHolds(cfg, Empty(0), [], steps, vocabulary);
    BuildHolds(cfg, generation, docs, vocabulary);
    HoldersAgree(cfg, RunScript(cfg, Empty(0), steps), Build(cfg, generation, docs), docs, vocabulary);
  }

  // Compacting a built graph also recovers the positions the build never
  // recorded: batches added after it keep every weight current.
  lemma BuildCompactScript(cfg: Config, generation: nat, docs: seq<Document>, steps: seq<Step>)
    requires WellOrdered(steps) && DistinctIds(docs + Taken(steps)) && NoClash(cfg, Labels(docs + Taken(steps), 2))
    ensures var g := RunScript(cfg, Compact(Build(cfg, generation, docs)), steps);
            var b := Build(cfg, 0, docs + Taken(steps));
            && g.Valid() && SameNodes(g, b) && g.spec == b.spec && Compile(g).adj == Compile(b).adj
  {
    var all := docs + Taken(steps);
    var vocabulary := Labels(all, 2);
    LabelsAppend(docs, Taken(steps), 2);
    DistinctSplit(docs, Taken(steps));
    BuildHolds(cfg, generation, docs, vocabulary);
    CompactHolds(cfg, Build(cfg, generation, docs), docs, vocabulary);
    ScriptHolds(cfg, Compact(Build(cfg, generation, docs)), docs, steps, vocabulary);
    BuildHolds(cfg, 0, all, vocabulary);
    var g := RunScript(cfg, Compact(Build(cfg, generation, docs)), steps);
    HoldersAgree(cfg, g, Build(cfg, 0, all), all, vocabulary);
  }
}
