/** What one hop gives a document's value, said of the documents alone. */
module Answers {
  import opened Sparse
  import opened Graph
  import opened Growth
  import opened GrowthTheorems
  import opened Compaction
  import opened Joins
  import S = Spread

  // ----- specificity from the documents -----

  // The specificity of the number of times the documents mention the label.
  function SpecOf(cfg: Config, docs: seq<Document>, x: string): real {
    cfg.spec(if MentionsOf(docs, x) == {} then 1 else |MentionsOf(docs, x)|)
  }

  lemma SpecIs(cfg: Config, docs: seq<Document>, x: string)
    ensures cfg.spec(if Count(docs, x) < 1 then 1 else Count(docs, x)) == SpecOf(cfg, docs, x)
  {
    CountIsMentions(docs, x);
    assert |MentionsOf(docs, x)| == 0 <==> MentionsOf(docs, x) == {};
  }

  // ----- one hop -----

  ghost predicate DocumentLists(docs: seq<Document>, x: NodeId, y: string) {
    exists d :: d in docs && d.id == y && x.EntityId? && |x.term| >= 2 && Entity(x.term, x.etype) in d.entities
  }

  // An active node offers a document's value its own decayed score, if it is
  // that value, or, from the threshold on, what its edge carries, if it is an
  // entity that the document lists.
  ghost predicate Given(cfg: Config, scfg: S.Config, docs: seq<Document>, ids: seq<NodeId>, a: S.Activation, y: string,
                        v: real)
    requires a.node < |ids|
  {
    || (ids[a.node] == ValueId(y) && v == a.score * scfg.decay)
    || (a.score >= scfg.threshold && DocumentLists(docs, ids[a.node], y) &&
        v == a.score * scfg.decay * (SpecOf(cfg, docs, ids[a.node].term) * cfg.edgeWeight))
  }

  lemma {:induction false} PlainTimes(cfg: Config, docs: seq<Document>, x: NodeId, v: NodeId)
    ensures var p := Plain(cfg, docs); Times(p.idxToNode, p.edges, x, v) == Listings(docs, x, v)
  {
    hide Ingest;
    IngestTimes(cfg, Empty(0), docs, true, x, v);
  }

  lemma NumberedOnce(g: Graph, i: nat, j: nat)
    requires g.Valid() && i < g.Size() && j < g.Size() && g.idxToNode[i] == g.idxToNode[j]
    ensures i == j && i < |g.labels| && (g.idxToNode[i].EntityId? ==> g.labels[i] == g.idxToNode[i].term)
  {
    assert g.NodeAt(i, g.idxToNode[i]) && g.NodeAt(j, g.idxToNode[j]);
  }

  lemma JoinedIsRun(g: Graph, es: seq<Edge>, i: nat, j: nat)
    requires g.Valid() && i < g.Size() && j < g.Size() && forall e :: e in es ==> e.src < g.Size() && e.dst < g.Size()
    ensures Joined(es, i, j) <==> exists p :: 0 <= p < |es| && Runs(g.idxToNode, es[p], g.idxToNode[i], g.idxToNode[j])
  {
    hide Graph.Valid;
    var x, v := g.idxToNode[i], g.idxToNode[j];
    if Joined(es, i, j) {
      var p :| 0 <= p < |es| && es[p].src == i && es[p].dst == j;
      assert Runs(g.idxToNode, es[p], x, v);
    }
    forall p | 0 <= p < |es| && Runs(g.idxToNode, es[p], x, v)
      ensures Joined(es, i, j)
    {
      assert es[p] in es;
      NumberedOnce(g, es[p].src, i);
      NumberedOnce(g, es[p].dst, j);
    }
  }

  // Two nodes of a graph that holds the documents are joined if and only if
  // some document lists the one for the other.
  lemma HeldJoins(cfg: Config, g: Graph, docs: seq<Document>, vocabulary: set<string>, i: nat, j: nat)
    requires Holds(cfg, g, docs, vocabulary) && i < g.Size() && j < g.Size() && g.idxToNode[j].ValueId?
    ensures Joined(Current(g), i, j) <==> DocumentLists(docs, g.idxToNode[i], g.idxToNode[j].doc)
  {
    hide Plain, Times, Listings, Graph.Valid, Joined;
    var p, x, v := Plain(cfg, docs), g.idxToNode[i], g.idxToNode[j];
    assert Joined(Current(g), i, j) <==> Joined(p.edges, i, j);
    PlainRange(cfg, docs);
    JoinedIsRun(p, p.edges, i, j);
    SomeTime(p.idxToNode, p.edges, x, v);
    PlainTimes(cfg, docs, x, v);
    SomeListing(docs, x, v);
    assert DocumentLists(docs, x, v.doc) <==> exists d :: d in docs && Mentions(d, x, v) by {
      ListsIsMention(docs, x, v);
    }
  }

  lemma PlainRange(cfg: Config, docs: seq<Document>)
    ensures var p := Plain(cfg, docs); p.Valid() && forall e :: e in p.edges ==> e.src < p.Size() && e.dst < p.Size()
  {
    EdgesInRange(Plain(cfg, docs));
  }

  lemma ListsIsMention(docs: seq<Document>, x: NodeId, v: NodeId)
    requires v.ValueId?
    ensures DocumentLists(docs, x, v.doc) <==> exists d :: d in docs && Mentions(d, x, v)
  {
    if DocumentLists(docs, x, v.doc) {
      var d :| d in docs && d.id == v.doc && x.EntityId? && |x.term| >= 2 && Entity(x.term, x.etype) in d.entities;
      assert Mentions(d, x, v);
    }
  }

  lemma CompiledMatrix(cfg: Config, g: Graph, docs: seq<Document>, vocabulary: set<string>)
    requires Holds(cfg, g, docs, vocabulary)
    ensures Compile(g).adj.Some? && Compile(g).adj.value == BuildCsr(g.Size(), Current(g))
  {
    hide BuildCsr, ToCoo;
  }

  lemma RowCarries(scfg: S.Config, n: nat, es: seq<Edge>, k: nat, score: real, i: nat, v: real)
    requires i < n
    ensures S.RowOffer(scfg, RowOf(es, k, n), score, i, v) <==>
            Joined(es, k, i) && v == score * scfg.decay * Total(es, k, i)
  {
    hide Joined, RowOf, Total;
    RowColumns(es, k, n);
    var row := RowOf(es, k, n);
    if Joined(es, k, i) {
      assert Entry(i, Total(es, k, i)) in row;
      var p :| 0 <= p < |row| && row[p] == Entry(i, Total(es, k, i));
      assert row[p].col == i && row[p].weight == Total(es, k, i);
    }
  }

  lemma EdgeCarries(scfg: S.Config, n: nat, es: seq<Edge>, a: S.Activation, i: nat, v: real)
    requires a.node < n && i < n && BuildCsr(n, es).Valid(n)
    ensures S.EdgeOffer(scfg, BuildCsr(n, es), n, a, i, v) <==>
            a.score >= scfg.threshold && Joined(es, a.node, i) && v == a.score * scfg.decay * Total(es, a.node, i)
  {
    hide BuildCsr, Csr.Valid, Csr.Row, Joined, RowOf, Total, S.RowOffer;
    BuildCsrRow(n, es, a.node);
    RowCarries(scfg, n, es, a.node, a.score, i, v);
  }

  lemma HeldValue(cfg: Config, g: Graph, docs: seq<Document>, vocabulary: set<string>, y: string)
    requires Holds(cfg, g, docs, vocabulary) && ValueId(y) in g.nodeToIdx
    ensures g.Valid() && g.Shaped() && g.nodeToIdx[ValueId(y)] < g.Size()
    ensures Compile(g).adj.Some? && Compile(g).adj.value.Valid(g.Size())
  {
    assert Compile(g).Shaped();
  }

  lemma OwnIsGiven(scfg: S.Config, g: Graph, a: S.Activation, y: string, v: real)
    requires g.Valid() && a.node < g.Size() && ValueId(y) in g.nodeToIdx
    ensures S.OwnOffer(scfg, a, g.nodeToIdx[ValueId(y)], v) <==>
            g.idxToNode[a.node] == ValueId(y) && v == a.score * scfg.decay
  {
    var i := g.nodeToIdx[ValueId(y)];
    if g.idxToNode[a.node] == ValueId(y) { NumberedOnce(g, a.node, i); }
  }

  lemma HeldShape(cfg: Config, g: Graph, docs: seq<Document>, vocabulary: set<string>)
    requires Holds(cfg, g, docs, vocabulary)
    ensures g.Valid() && g.Shaped()
  {
  }

  // The weight of a joined pair, in terms of the documents.
  lemma PairWeight(cfg: Config, g: Graph, docs: seq<Document>, vocabulary: set<string>, k: nat, i: nat)
    requires Holds(cfg, g, docs, vocabulary) && (forall x :: x in vocabulary ==> |x| >= 2)
    requires k < g.Size() && g.idxToNode[k].EntityId? && Joined(Current(g), k, i)
    ensures Total(Current(g), k, i) == SpecOf(cfg, docs, g.idxToNode[k].term) * cfg.edgeWeight
  {
    hide Holds, Joined, Total, SpecOf, MentionsOf, Count, Graph.Valid, Current;
    HeldShape(cfg, g, docs, vocabulary);
    TotalIsWeight(cfg, g, docs, vocabulary, k, i);
    NumberedOnce(g, k, k);
    SpecIs(cfg, docs, g.labels[k]);
  }

  // What an active node offers, in terms of the documents.
  lemma OfferIsGiven(cfg: Config, scfg: S.Config, g: Graph, docs: seq<Document>, vocabulary: set<string>,
                     a: S.Activation, y: string, v: real)
    requires Holds(cfg, g, docs, vocabulary) && (forall x :: x in vocabulary ==> |x| >= 2)
    requires a.node < g.Size() && ValueId(y) in g.nodeToIdx
    ensures var m, n, i := Compile(g).adj.value, g.Size(), g.nodeToIdx[ValueId(y)];
            && i < n && m.Valid(n)
            && (S.OwnOffer(scfg, a, i, v) || S.EdgeOffer(scfg, m, n, a, i, v) <==>
                Given(cfg, scfg, docs, g.idxToNode, a, y, v))
  {
    hide Holds, Compile, Graph.Valid, BuildCsr, Csr.Valid, S.OwnOffer, S.EdgeOffer, DocumentLists, Joined, Total,
         SpecOf;
    HeldValue(cfg, g, docs, vocabulary, y);
    var i, n := g.nodeToIdx[ValueId(y)], g.Size();
    assert g.idxToNode[i] == ValueId(y) by { NodeListed(g, ValueId(y)); }
    CompiledMatrix(cfg, g, docs, vocabulary);
    OwnIsGiven(scfg, g, a, y, v);
    HeldJoins(cfg, g, docs, vocabulary, a.node, i);
    EdgeCarries(scfg, n, Current(g), a, i, v);
    if DocumentLists(docs, g.idxToNode[a.node], y) {
      ListsEntity(docs, g.idxToNode[a.node], y);
      PairWeight(cfg, g, docs, vocabulary, a.node, i);
    }
  }

  lemma ListsEntity(docs: seq<Document>, x: NodeId, y: string)
    requires DocumentLists(docs, x, y)
    ensures x.EntityId?
  {
  }

  // One hop over a graph that holds the documents, whatever batches,
  // compilations and compactions led to it: a document's value receives the
  // most that any active node gives it, and at least 0.
  lemma HopIsMaximum(cfg: Config, scfg: S.Config, g: Graph, docs: seq<Document>, vocabulary: set<string>,
                     seeds: S.Dict, y: string)
    requires Holds(cfg, g, docs, vocabulary) && (forall x :: x in vocabulary ==> |x| >= 2)
    requires ValueId(y) in g.nodeToIdx && forall a :: a in seeds ==> a.node < g.Size()
    ensures g.nodeToIdx[ValueId(y)] < g.Size() && Compile(g).adj.Some? && Compile(g).adj.value.Valid(g.Size())
    ensures var r := S.Received(scfg, Compile(g).adj.value, g.Size(), seeds, g.nodeToIdx[ValueId(y)]);
            && 0.0 <= r
            && (r == 0.0 || exists a :: a in seeds && Given(cfg, scfg, docs, g.idxToNode, a, y, r))
            && forall a, v :: a in seeds && Given(cfg, scfg, docs, g.idxToNode, a, y, v) ==> v <= r
  {
    hide Holds, Given, Compile, Graph.Valid, S.Received, S.OwnOffer, S.EdgeOffer, Csr.Valid;
    HeldValue(cfg, g, docs, vocabulary, y);
    var m, n, i := Compile(g).adj.value, g.Size(), g.nodeToIdx[ValueId(y)];
    S.ReceivedIsMaximum(scfg, m, n, seeds, i);
    var r := S.Received(scfg, m, n, seeds, i);
    forall a, v | a in seeds
      ensures i < n
      ensures S.OwnOffer(scfg, a, i, v) || S.EdgeOffer(scfg, m, n, a, i, v) <==>
              Given(cfg, scfg, docs, g.idxToNode, a, y, v)
    {
      OfferIsGiven(cfg, scfg, g, docs, vocabulary, a, y, v);
    }
    forall a, v | a in seeds && Given(cfg, scfg, docs, g.idxToNode, a, y, v)
      ensures v <= r
    {
      assert S.Offered(scfg, m, n, seeds, i, v);
    }
  }

  // So for every script from the empty graph.
  lemma ScriptHop(cfg: Config, scfg: S.Config, steps: seq<Step>, seeds: S.Dict, y: string)
    requires WellOrdered(steps) && DistinctIds(Taken(steps)) && NoClash(cfg, Labels(Taken(steps), 2))
    requires y in Ids(Taken(steps)) && forall a :: a in seeds ==> a.node < RunScript(cfg, Empty(0), steps).Size()
    ensures var g := RunScript(cfg, Empty(0), steps);
            && g.Valid() && g.Shaped() && ValueId(y) in g.nodeToIdx && g.nodeToIdx[ValueId(y)] < g.Size()
            && var m, docs := Compile(g).adj.value, Taken(steps);
               var r := S.Received(scfg, m, g.Size(), seeds, g.nodeToIdx[ValueId(y)]);
               && 0.0 <= r
               && (r == 0.0 || exists a :: a in seeds && Given(cfg, scfg, docs, g.idxToNode, a, y, r))
               && forall a, v :: a in seeds && Given(cfg, scfg, docs, g.idxToNode, a, y, v) ==> v <= r
  {
    hide RunScript, Given, S.Received, Compile, NoClash, Graph.Valid;
    var g, docs, vocabulary := RunScript(cfg, Empty(0), steps), Taken(steps), Labels(Taken(steps), 2);
    EmptyHolds(cfg, 0, vocabulary);
    assert [] + docs == docs;
    ScriptHolds(cfg, Empty(0), [], steps, vocabulary);
    HeldValues(cfg, g, docs, vocabulary, y);
    HopIsMaximum(cfg, scfg, g, docs, vocabulary, seeds, y);
  }

  lemma HeldValues(cfg: Config, g: Graph, docs: seq<Document>, vocabulary: set<string>, y: string)
    requires Holds(cfg, g, docs, vocabulary) && y in Ids(docs)
    ensures g.Valid() && g.Shaped() && ValueId(y) in g.nodeToIdx
  {
    hide Graph.Valid, Indexed, Within, NodesWeighted, EdgesWeighted, Counted, Simple, Compiled, SameJoins, Plain;
    PlainNodes(cfg, docs, ValueId(y));
    WantedValue(docs, y);
  }

  lemma PlainNodes(cfg: Config, docs: seq<Document>, id: NodeId)
    ensures id in Plain(cfg, docs).nodeToIdx <==> Wanted(docs, id)
  {
    hide Ingest, Wanted;
    IngestWanted(cfg, Empty(0), docs, true, id);
  }

  lemma WantedValue(docs: seq<Document>, y: string)
    requires y in Ids(docs)
    ensures Wanted(docs, ValueId(y))
  {
    var d :| d in docs && d.id == y;
    var k :| 0 <= k < |docs| && docs[k] == d;
    assert Names(docs[k], ValueId(y));
  }
}
