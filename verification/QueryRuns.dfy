/** Runs of batches, builds, compilations, compactions and queries: the graph
    with its label tables, and what each query sees. */
module QueryRuns {
  import opened Basics
  import opened Sparse
  import opened Graph
  import opened Growth
  import opened GrowthTheorems
  import opened Compaction
  import opened Queries
  import opened Seeding
  import opened Reloading
  import S = Spread

  // The graph and the tables beside it.
  datatype Live = Live(g: Graph, t: Terms)

  // A load lists the counted labels in an order of its own.
  datatype Event =
    | Taking(docs: seq<Document>, order: seq<string>)
    | Compiling
    | Compacting(listing: seq<string>)
    | Rebuilding(docs: seq<Document>)
    | Asking(words: seq<string>)

  const START := Live(Empty(0), NO_TERMS)

  function NewNodes(g: Graph, r: Graph): seq<NodeId> {
    if |g.idxToNode| <= |r.idxToNode| then r.idxToNode[|g.idxToNode|..] else []
  }

  // A compilation that has work to do counts the labels again.
  function Recounted(g: Graph, t: Terms): Terms {
    if g.dirty then t.(doSubstr := |t.terms| <= TERMS_MAX) else t
  }

  // Queries and compactions of a graph never built raise and change nothing; a
  // query seeds first and compiles then; a reset leaves the switch.
  ghost function After(cfg: Config, sc: SeedConfig, s: Live, e: Event): (r: Live)
    requires s.g.Valid()
    ensures r.g.Valid()
  {
    match e
    case Taking(docs, order) =>
      var r := Apply(cfg, s.g, Add(docs, order));
      Live(r, IndexNodes(sc, s.t, NewNodes(s.g, r)))
    case Compiling => Live(Apply(cfg, s.g, Recompile), Recounted(s.g, s.t))
    case Compacting(listing) =>
      Live(Apply(cfg, s.g, Compaction), if s.g.built then Reloaded(s.g, s.t, listing) else s.t)
    case Rebuilding(docs) =>
      var r := Build(cfg, s.g.generation, docs);
      Live(r, IndexNodes(sc, NO_TERMS.(doSubstr := s.t.doSubstr), r.idxToNode))
    case Asking(words) =>
      if s.g.built then Live(Compile(s.g), Recounted(s.g, SeedWords(sc, s.g, s.t, words).1)) else s
  }

  ghost function Run(cfg: Config, sc: SeedConfig, events: seq<Event>): (r: Live)
    ensures r.g.Valid()
  {
    if events == [] then START
    else After(cfg, sc, Run(cfg, sc, events[..|events| - 1]), events[|events| - 1])
  }

  // ----- what ingest appends -----

  // Nodes are appended, each indexed under its keys, with labels of the vocabulary.
  ghost predicate Appended(cfg: Config, g: Graph, r: Graph, vocabulary: set<string>) {
    && g.idxToNode <= r.idxToNode && r.index == IndexAll(cfg, g.index, NewNodes(g, r))
    && forall id :: id in NewNodes(g, r) && id.EntityId? ==> |id.term| >= 2 && id.term in vocabulary
  }

  lemma {:induction false} IndexAllAppend(cfg: Config, index: Index, a: seq<NodeId>, b: seq<NodeId>)
    ensures IndexAll(cfg, index, a + b) == IndexAll(cfg, IndexAll(cfg, index, a), b)
  {
    hide IndexUnder, Keys;
    if b == [] {
      assert a + b == a;
    } else {
      assert (a + b)[..|a + b| - 1] == a + b[..|b| - 1];
      IndexAllAppend(cfg, index, a, b[..|b| - 1]);
    }
  }

  lemma AppendedTransitive(cfg: Config, g: Graph, m: Graph, r: Graph, vocabulary: set<string>)
    requires Appended(cfg, g, m, vocabulary) && Appended(cfg, m, r, vocabulary)
    ensures Appended(cfg, g, r, vocabulary)
  {
    hide IndexAll;
    var a, b := NewNodes(g, m), NewNodes(m, r);
    assert NewNodes(g, r) == a + b;
    IndexAllAppend(cfg, g.index, a, b);
  }

  lemma NothingAppended(cfg: Config, g: Graph, r: Graph, vocabulary: set<string>)
    requires r.idxToNode == g.idxToNode && r.index == g.index
    ensures Appended(cfg, g, r, vocabulary)
  {
    assert NewNodes(g, r) == [];
  }

  lemma ValueAppended(cfg: Config, g: Graph, d: Document, vocabulary: set<string>)
    requires g.Valid()
    ensures Appended(cfg, g, GetOrAddNode(g, ValueId(d.id), ValueKind, d.value, 0.0), vocabulary)
  {
    hide Graph.Valid;
    var r := GetOrAddNode(g, ValueId(d.id), ValueKind, d.value, 0.0);
    if ValueId(d.id) in g.nodeToIdx {
      NothingAppended(cfg, g, r, vocabulary);
    } else {
      OneAppended(cfg, g, r, ValueId(d.id), vocabulary);
    }
  }

  lemma OneAppended(cfg: Config, g: Graph, r: Graph, id: NodeId, vocabulary: set<string>)
    requires r.idxToNode == g.idxToNode + [id]
    requires r.index == if id.EntityId? then IndexUnder(g.index, Keys(cfg, id), id) else g.index
    requires id.EntityId? ==> |id.term| >= 2 && id.term in vocabulary
    ensures Appended(cfg, g, r, vocabulary)
  {
    hide IndexUnder, Keys;
    assert NewNodes(g, r) == [id] && [id][..0] == [];
    assert IndexAll(cfg, g.index, []) == g.index;
  }

  lemma EntityAppended(cfg: Config, g: Graph, ans: nat, id: NodeId, fast: bool, vocabulary: set<string>)
    requires g.Valid() && id.EntityId? && ans < g.Size() && g.idxToNode[ans].ValueId?
    requires |id.term| >= 2 && id.term in vocabulary
    ensures Appended(cfg, g, IngestEntity(cfg, g, ans, id, fast), vocabulary)
  {
    hide Graph.Valid, IndexUnder;
    var r := IngestEntity(cfg, g, ans, id, fast);
    if id in g.nodeToIdx {
      NothingAppended(cfg, g, r, vocabulary);
    } else {
      OneAppended(cfg, g, r, id, vocabulary);
    }
  }

  lemma {:induction false} EntitiesAppended(cfg: Config, g: Graph, ans: nat, es: seq<Entity>, seen: set<NodeId>,
                                            fast: bool, vocabulary: set<string>)
    requires g.Valid() && ans < g.Size() && g.idxToNode[ans].ValueId?
    requires forall e :: e in es && |e.term| >= 2 ==> e.term in vocabulary
    ensures Appended(cfg, g, IngestEntities(cfg, g, ans, es, seen, fast), vocabulary)
    decreases |es|
  {
    hide Graph.Valid, IngestEntity, Appended;
    if es == [] {
      NothingAppended(cfg, g, g, vocabulary);
    } else {
      var id := EntityId(es[0].etype, es[0].term);
      assert es[0] in es && forall e :: e in es[1..] ==> e in es;
      if |id.term| < 2 || id in seen {
        EntitiesAppended(cfg, g, ans, es[1..], seen, fast, vocabulary);
      } else {
        var m := IngestEntity(cfg, g, ans, id, fast);
        EntityAppended(cfg, g, ans, id, fast, vocabulary);
        EntitiesAppended(cfg, m, ans, es[1..], seen + {id}, fast, vocabulary);
        AppendedTransitive(cfg, g, m, IngestEntities(cfg, m, ans, es[1..], seen + {id}, fast), vocabulary);
      }
    }
  }

  lemma {:induction false} IngestAppended(cfg: Config, g: Graph, docs: seq<Document>, fast: bool,
                                          vocabulary: set<string>)
    requires g.Valid() && Labels(docs, 2) <= vocabulary
    ensures Appended(cfg, g, Ingest(cfg, g, docs, fast), vocabulary)
    decreases |docs|
  {
    hide Graph.Valid, GetOrAddNode, IngestEntities, Appended;
    if docs == [] {
      NothingAppended(cfg, g, g, vocabulary);
    } else {
      var d, m := docs[0], IngestDocument(cfg, g, docs[0], fast);
      var v := GetOrAddNode(g, ValueId(d.id), ValueKind, d.value, 0.0);
      assert d in docs && forall x :: x in docs[1..] ==> x in docs;
      ValueAppended(cfg, g, d, vocabulary);
      ValueAt(g, d);
      EntitiesAppended(cfg, v, v.nodeToIdx[ValueId(d.id)], d.entities, {}, fast, vocabulary);
      AppendedTransitive(cfg, g, v, m, vocabulary);
      IngestAppended(cfg, m, docs[1..], fast, vocabulary);
      AppendedTransitive(cfg, g, m, Ingest(cfg, m, docs[1..], fast), vocabulary);
    }
  }

  lemma ValueAt(g: Graph, d: Document)
    requires g.Valid()
    ensures var v := GetOrAddNode(g, ValueId(d.id), ValueKind, d.value, 0.0);
            v.nodeToIdx[ValueId(d.id)] < v.Size() && v.idxToNode[v.nodeToIdx[ValueId(d.id)]] == ValueId(d.id)
  {
  }

  lemma {:induction false} AddAppended(cfg: Config, g: Graph, docs: seq<Document>, order: seq<string>)
    requires Loadable(g)
    ensures var r := AddDocuments(cfg, g, docs, order);
            && Appended(cfg, g, r, Labels(docs, 2))
            && (docs != [] ==> r.freq == BumpFreq(g.freq, docs))
            && forall x :: x in Labels(docs, 2) ==> Names(r.idxToNode, x)
  {
    hide Graph.Valid, Ingest, RefreshLabels, BumpFreq, Labels, Names, IndexAll;
    if docs == [] {
      NothingAppended(cfg, g, g, Labels(docs, 2));
      NoLabels(docs);
    } else {
      var c := CountBatch(EnsureMutable(g), docs);
      RefreshLabelsKeepNodes(cfg, c, order);
      IngestAppended(cfg, Refresh(cfg, c, order), docs, false, Labels(docs, 2));
      IngestNamed(cfg, Refresh(cfg, c, order), docs, false);
    }
  }

  lemma NoLabels(docs: seq<Document>)
    requires docs == []
    ensures Labels(docs, 2) == {}
  {
  }

  // The appended nodes are new, and nothing else is.
  lemma AppendedNodes(g: Graph, r: Graph)
    requires g.Valid() && r.Valid() && g.idxToNode <= r.idxToNode
    ensures forall id :: id in NewNodes(g, r) ==> id !in g.nodeToIdx
    ensures forall id :: id in r.nodeToIdx <==> id in g.nodeToIdx || id in NewNodes(g, r)
  {
    var n := g.Size();
    forall id
      ensures id in r.nodeToIdx <==> id in r.idxToNode
      ensures id in g.nodeToIdx <==> id in g.idxToNode
    {
      if id in r.idxToNode { OnlyListed(r, id); } else if id in r.nodeToIdx { NodeListed(r, id); }
      if id in g.idxToNode { OnlyListed(g, id); } else if id in g.nodeToIdx { NodeListed(g, id); }
    }
    assert r.idxToNode == g.idxToNode + NewNodes(g, r);
    forall i | n <= i < r.Size()
      ensures r.idxToNode[i] !in g.nodeToIdx
    {
      assert r.NodeAt(i, r.idxToNode[i]);
      assert forall id :: id in g.nodeToIdx ==> g.nodeToIdx[id] < n && r.idxToNode[g.nodeToIdx[id]] == id;
      assert forall j :: 0 <= j < n ==> r.NodeAt(j, r.idxToNode[j]);
    }
  }

  lemma OnlyListed(g: Graph, id: NodeId)
    requires g.Valid() && id in g.idxToNode
    ensures id in g.nodeToIdx
  {
    var i :| 0 <= i < g.Size() && g.idxToNode[i] == id;
    assert g.NodeAt(i, id);
  }

  // ----- what every run keeps -----

  // The tokens and the known labels are those of the entity nodes, the counted
  // labels too, and only nodes are listed and cached.
  ghost predicate Sane(sc: SeedConfig, s: Live) {
    s.g.Valid() && Tabled(sc, s.t, s.g.idxToNode) && LabelsCounted(s.g) && OnNodes(s.g, s.t)
  }

  lemma NamesParts(ids: seq<NodeId>, more: seq<NodeId>, x: string)
    ensures Names(ids + more, x) <==> Names(ids, x) || Names(more, x)
  {
    assert forall id :: id in ids + more <==> id in ids || id in more;
  }

  lemma AddCounted(cfg: Config, g: Graph, docs: seq<Document>, order: seq<string>)
    requires Loadable(g) && LabelsCounted(g)
    ensures LabelsCounted(AddDocuments(cfg, g, docs, order))
  {
    hide Graph.Valid, AddDocuments, Labels;
    AddAppended(cfg, g, docs, order);
    var r := AddDocuments(cfg, g, docs, order);
    if docs == [] {
      assert r == g by { NothingTaken(cfg, g, docs, order); }
    } else {
      assert r.idxToNode == g.idxToNode + NewNodes(g, r);
      forall x: string | |x| >= 2
        ensures x in r.freq <==> Names(r.idxToNode, x)
      {
        NamesParts(g.idxToNode, NewNodes(g, r), x);
      }
    }
  }

  lemma NothingTaken(cfg: Config, g: Graph, docs: seq<Document>, order: seq<string>)
    requires Loadable(g) && docs == []
    ensures AddDocuments(cfg, g, docs, order) == g
  {
  }

  lemma AppendedOnNodes(cfg: Config, sc: SeedConfig, g: Graph, t: Terms, r: Graph, vocabulary: set<string>)
    requires g.Valid() && r.Valid() && OnNodes(g, t) && Appended(cfg, g, r, vocabulary)
    ensures OnNodes(r, IndexNodes(sc, t, NewNodes(g, r)))
  {
    hide Graph.Valid, IndexAll, IndexNodes, Keys;
    var ids := NewNodes(g, r);
    AppendedNodes(g, r);
    IndexNodesCache(sc, t, ids);
    forall k, id | id in Lookup(r.index, k)
      ensures id in r.nodeToIdx
    {
      IndexAllHas(cfg, g.index, ids, k);
    }
  }

  lemma TakingSane(cfg: Config, sc: SeedConfig, s: Live, docs: seq<Document>, order: seq<string>)
    requires Sane(sc, s)
    ensures Sane(sc, After(cfg, sc, s, Taking(docs, order)))
  {
    hide Graph.Valid, AddDocuments, Tabled, LabelsCounted, OnNodes, IndexNodes, Labels;
    var n := After(cfg, sc, s, Taking(docs, order));
    if Loadable(s.g) {
      AddAppended(cfg, s.g, docs, order);
      AddCounted(cfg, s.g, docs, order);
      AppendedOnNodes(cfg, sc, s.g, s.t, n.g, Labels(docs, 2));
      IndexNodesTabled(sc, s.t, s.g.idxToNode, NewNodes(s.g, n.g));
      assert n.g.idxToNode == s.g.idxToNode + NewNodes(s.g, n.g);
    } else {
      assert n == s by { NothingNew(sc, s.t, NewNodes(s.g, s.g)); }
    }
  }

  lemma NothingNew(sc: SeedConfig, t: Terms, ids: seq<NodeId>)
    requires ids == []
    ensures IndexNodes(sc, t, ids) == t
  {
  }

  lemma RebuildingSane(cfg: Config, sc: SeedConfig, s: Live, docs: seq<Document>)
    requires Sane(sc, s)
    ensures Sane(sc, After(cfg, sc, s, Rebuilding(docs)))
  {
    hide Graph.Valid, Ingest, Tabled, LabelsCounted, OnNodes, IndexNodes, Labels, BuildFreq, Appended;
    var start, t := Reset(s.g.generation, docs), NO_TERMS.(doSubstr := s.t.doSubstr);
    var m, r := Ingest(cfg, start, docs, true), Build(cfg, s.g.generation, docs);
    IngestAppended(cfg, start, docs, true, Labels(docs, 2));
    IngestNamed(cfg, start, docs, true);
    ResetSane(sc, s.g.generation, docs, t);
    AppendedOnNodes(cfg, sc, start, t, m, Labels(docs, 2));
    assert NewNodes(start, m) == r.idxToNode;
    assert Appended(cfg, start, m, Labels(docs, 2));
    NewTerms(cfg, start, m, Labels(docs, 2));
    IndexNodesTabled(sc, t, [], r.idxToNode);
    assert [] + r.idxToNode == r.idxToNode;
    SameOnNodes(m, r, IndexNodes(sc, t, r.idxToNode));
    BuiltCounted(r, docs);
  }

  lemma ResetSane(sc: SeedConfig, generation: nat, docs: seq<Document>, t: Terms)
    requires t == NO_TERMS.(doSubstr := t.doSubstr)
    ensures var g := Reset(generation, docs);
            g.idxToNode == [] && OnNodes(g, t) && Tabled(sc, t, [])
  {
  }

  lemma NewTerms(cfg: Config, g: Graph, r: Graph, vocabulary: set<string>)
    requires Appended(cfg, g, r, vocabulary) && g.idxToNode == []
    ensures forall id :: id in r.idxToNode && id.EntityId? ==> |id.term| >= 2 && id.term in vocabulary
  {
    assert NewNodes(g, r) == r.idxToNode;
  }

  lemma SameOnNodes(g: Graph, r: Graph, t: Terms)
    requires OnNodes(g, t) && r.nodeToIdx == g.nodeToIdx && r.index == g.index
    ensures OnNodes(r, t)
  {
  }

  lemma BuiltCounted(r: Graph, docs: seq<Document>)
    requires r.freq == BuildFreq(docs)
    requires forall id :: id in r.idxToNode && id.EntityId? ==> |id.term| >= 2 && id.term in Labels(docs, 2)
    requires forall x :: x in Labels(docs, 2) ==> Names(r.idxToNode, x)
    ensures LabelsCounted(r)
  {
    forall x: string | |x| >= 2
      ensures x in r.freq <==> Names(r.idxToNode, x)
    {
      LabelsLong(docs, x);
    }
  }

  lemma {:induction false} AskedOnNodes(sc: SeedConfig, g: Graph, t: Terms, words: seq<string>)
    requires g.Valid() && OnNodes(g, t)
    ensures var r := SeedWords(sc, g, t, words).1; OnNodes(g, r) && r == t.(cache := r.cache)
  {
    hide Graph.Valid, Direct, Substr, Found;
    if words == [] {
    } else {
      var init, w := words[..|words| - 1], words[|words| - 1];
      AskedOnNodes(sc, g, t, init);
      FoundOnNodes(g, SeedWords(sc, g, t, init).1, w);
    }
  }

  lemma AskingSane(cfg: Config, sc: SeedConfig, s: Live, words: seq<string>)
    requires Sane(sc, s)
    ensures Sane(sc, After(cfg, sc, s, Asking(words)))
  {
    hide Graph.Valid, SeedWords, BuildCsr, LabelsCounted, Names;
    AskedOnNodes(sc, s.g, s.t, words);
    var n := After(cfg, sc, s, Asking(words));
    if s.g.built { assert LabelsCounted(n.g) by { SameCounted(s.g, n.g); } }
  }

  lemma SameCounted(g: Graph, r: Graph)
    requires LabelsCounted(g) && r.freq == g.freq && r.idxToNode == g.idxToNode
    ensures LabelsCounted(r)
  {
  }

  lemma CompilingSane(cfg: Config, sc: SeedConfig, s: Live)
    requires Sane(sc, s)
    ensures Sane(sc, After(cfg, sc, s, Compiling))
  {
    hide Graph.Valid, BuildCsr, LabelsCounted, Names;
    SameCounted(s.g, Compile(s.g));
  }

  lemma CompactingSane(cfg: Config, sc: SeedConfig, s: Live, listing: seq<string>)
    requires Sane(sc, s)
    ensures Sane(sc, After(cfg, sc, s, Compacting(listing)))
  {
    hide Graph.Valid, BuildCsr, LabelsCounted, Names, TermsOf;
    if s.g.built {
      SameCounted(s.g, Compact(s.g));
      ReloadTabled(sc, s.g, s.t, listing);
    }
  }

  lemma AfterSane(cfg: Config, sc: SeedConfig, s: Live, e: Event)
    requires Sane(sc, s)
    ensures Sane(sc, After(cfg, sc, s, e))
  {
    hide After, Sane;
    match e
    case Taking(docs, order) => TakingSane(cfg, sc, s, docs, order);
    case Rebuilding(docs) => RebuildingSane(cfg, sc, s, docs);
    case Asking(words) => AskingSane(cfg, sc, s, words);
    case Compiling => CompilingSane(cfg, sc, s);
    case Compacting(listing) => CompactingSane(cfg, sc, s, listing);
  }

  // After any run of batches, builds, compilations, compactions and queries the
  // tables are those of the node list, whatever was loaded in between.
  lemma {:induction false} RunSane(cfg: Config, sc: SeedConfig, events: seq<Event>)
    ensures Sane(sc, Run(cfg, sc, events))
  {
    hide Sane, After;
    if events == [] {
      StartSane(sc);
    } else {
      RunSane(cfg, sc, events[..|events| - 1]);
      AfterSane(cfg, sc, Run(cfg, sc, events[..|events| - 1]), events[|events| - 1]);
    }
  }

  lemma StartSane(sc: SeedConfig)
    ensures Sane(sc, START)
  {
  }

  // ----- the switch -----

  // On a clean graph substring seeds are given exactly up to ten thousand labels.
  ghost predicate Switched(s: Live) {
    !s.g.dirty ==> (s.t.doSubstr <==> |s.t.terms| <= 10_000)
  }

  // A batch that leaves the graph clean adds no node.
  lemma CleanTaking(cfg: Config, g: Graph, docs: seq<Document>, order: seq<string>)
    requires g.Valid()
    ensures var r := Apply(cfg, g, Add(docs, order)); !r.dirty ==> !g.dirty && NewNodes(g, r) == []
  {
    hide Graph.Valid, AddBatch, EnsureMutable;
    if Loadable(g) && docs != [] {
      var m := EnsureMutable(g);
      AddBatchTracked(cfg, m, docs, order);
      SameFlags(g);
    }
  }

  lemma SameFlags(g: Graph)
    requires Loadable(g)
    ensures EnsureMutable(g).dirty == g.dirty && EnsureMutable(g).idxToNode == g.idxToNode
  {
  }

  lemma AfterSwitched(cfg: Config, sc: SeedConfig, s: Live, e: Event)
    requires s.g.Valid() && Switched(s) && OnNodes(s.g, s.t)
    ensures Switched(After(cfg, sc, s, e))
  {
    hide Graph.Valid, AddDocuments, Ingest, SeedWords, OnNodes, BuildCsr;
    match e
    case Taking(docs, order) => CleanTaking(cfg, s.g, docs, order);
    case Rebuilding(docs) =>
    case Asking(words) => if s.g.built { AskedOnNodes(sc, s.g, s.t, words); }
    case Compiling =>
    case Compacting(listing) =>
  }

  // After any run: the switch that compilations and loads set is the one the
  // labels ask for.
  lemma {:induction false} RunSwitched(cfg: Config, sc: SeedConfig, events: seq<Event>)
    ensures Switched(Run(cfg, sc, events))
  {
    hide Switched, Sane, After;
    if events == [] {
      assert Switched(START) by { StartSwitched(); }
    } else {
      var s := Run(cfg, sc, events[..|events| - 1]);
      RunSwitched(cfg, sc, events[..|events| - 1]);
      RunSane(cfg, sc, events[..|events| - 1]);
      assert OnNodes(s.g, s.t) by { SaneOnNodes(sc, s); }
      AfterSwitched(cfg, sc, s, events[|events| - 1]);
    }
  }

  lemma StartSwitched()
    ensures Switched(START)
  {
  }

  lemma SaneOnNodes(sc: SeedConfig, s: Live)
    requires Sane(sc, s)
    ensures OnNodes(s.g, s.t)
  {
  }

  function EntityLabels(ids: seq<NodeId>): set<string> {
    set id | id in ids && id.EntityId? :: id.term
  }

  // Without a load the labels are those of the entity nodes, each once.
  lemma LabelsNumber(sc: SeedConfig, ids: seq<NodeId>)
    ensures |TermsOf(sc, ids).terms| == |EntityLabels(ids)|
  {
    hide TermsOf, RebuildTokens;
    TokensRebuilt(sc, ids);
    var terms := TermsOf(sc, ids).terms;
    ElementsCount(terms);
    assert Elements(terms) == EntityLabels(ids);
  }

  // ----- which batches keep the cache harmless -----

  // A batch leaves the cache harmless exactly when it brings a new label, which
  // drops it, or every cached word that concerns a new node lists the node.
  lemma TakingHarmlessIff(cfg: Config, sc: SeedConfig, s: Live, docs: seq<Document>, order: seq<string>)
    requires Sane(sc, s) && Harmless(sc, s.g, s.t) && Loadable(s.g)
    ensures var n := After(cfg, sc, s, Taking(docs, order));
            var ids := NewNodes(s.g, n.g);
            Harmless(sc, n.g, n.t) <==>
            || (exists id :: id in ids && id.EntityId? && id.term !in s.t.exact)
            || (forall id :: id in ids && id.EntityId? ==> Covered(cfg, sc, s.t, id))
  {
    hide Graph.Valid, AddDocuments, Harmless, OnNodes, IndexNodes, IndexAll, Covered, Labels, Tabled, LabelsCounted;
    var n := After(cfg, sc, s, Taking(docs, order));
    AddAppended(cfg, s.g, docs, order);
    AppendedNodes(s.g, n.g);
    HarmlessAfterIff(cfg, sc, s.g, s.t, n.g, NewNodes(s.g, n.g));
  }

  // ----- what a compaction shows -----

  ghost predicate SeedsAlike(sc: SeedConfig, s: Live, n: Live)
    requires s.g.Valid() && n.g.Valid()
  {
    forall words :: SeedWords(sc, s.g, s.t, words).0 == SeedWords(sc, n.g, n.t, words).0
  }

  // Compacting leaves every seed map's spread alone, and the seeds of every
  // word list exactly when the cache is harmless; or, if it moves the substring
  // switch, when no lookup adds a node.
  lemma CompactingIsSilentIff(cfg: Config, scfg: S.Config, sc: SeedConfig, s: Live, listing: seq<string>,
                              seeds: S.Dict, hops: nat, fast: S.Dict)
    requires Sane(sc, s) && s.g.built && s.g.Shaped()
    ensures var n := After(cfg, sc, s, Compacting(listing));
            && n.g.Shaped() && SpreadAlike(scfg, s.g, n.g, seeds, hops, fast)
            && (SeedsAlike(sc, s, n) <==>
                if s.t.doSubstr == n.t.doSubstr then !s.t.doSubstr || Harmless(sc, s.g, s.t)
                else Silent(sc, s.g, if s.t.doSubstr then s.t else n.t))
  {
    hide Graph.Valid, SeedWords, SpreadAlike, Harmless, Silent, BuildCsr;
    var n := After(cfg, sc, s, Compacting(listing));
    CompactKeepsSpread(scfg, s.g, seeds, hops, fast);
    ReloadKeepsSeedsIff(sc, s.g, s.t, listing);
    forall words
      ensures SeedWords(sc, n.g, n.t, words).0 == SeedWords(sc, s.g, n.t, words).0
    {
      SameGraphSeeds(sc, s.g, n.g, n.t, words);
    }
  }

  // ----- a run against one build -----

  function TakenBy(events: seq<Event>): seq<Document> {
    if events == [] then []
    else
      TakenBy(events[..|events| - 1]) +
      match events[|events| - 1] case Taking(docs, _) => docs case _ => []
  }

  ghost predicate Growing(events: seq<Event>) {
    forall i :: 0 <= i < |events| ==>
      && !events[i].Rebuilding?
      && (events[i].Taking? ==> Enumerates(events[i].order, Labels(events[i].docs, 2)))
  }

  lemma AfterHolds(cfg: Config, sc: SeedConfig, s: Live, e: Event, docs: seq<Document>, vocabulary: set<string>)
    requires Holds(cfg, s.g, docs, vocabulary) && Ready(s.g) && NoClash(cfg, vocabulary) && !e.Rebuilding?
    requires e.Taking? ==> Enumerates(e.order, Labels(e.docs, 2)) && Labels(e.docs, 2) <= vocabulary
    requires e.Taking? ==> DistinctIds(docs + e.docs)
    ensures var n := After(cfg, sc, s, e);
            Holds(cfg, n.g, docs + (if e.Taking? then e.docs else []), vocabulary) && Ready(n.g)
  {
    hide Holds, Ready, NoClash, SeedWords, IndexNodes, Apply;
    assert docs + [] == docs;
    match e
    case Taking(more, order) => ApplyHolds(cfg, s.g, docs, Add(more, order), vocabulary);
    case Compiling => ApplyHolds(cfg, s.g, docs, Recompile, vocabulary);
    case Compacting(_) => ApplyHolds(cfg, s.g, docs, Compaction, vocabulary);
    case Asking(_) => if s.g.built { CompileHolds(cfg, s.g, docs, vocabulary); }
  }

  lemma {:induction false} RunHolds(cfg: Config, sc: SeedConfig, events: seq<Event>, vocabulary: set<string>)
    requires Growing(events) && DistinctIds(TakenBy(events)) && NoClash(cfg, vocabulary)
    requires Labels(TakenBy(events), 2) <= vocabulary
    ensures var s := Run(cfg, sc, events); Holds(cfg, s.g, TakenBy(events), vocabulary) && Ready(s.g)
  {
    hide Holds, Ready, After, NoClash;
    if events == [] {
      EmptyHolds(cfg, 0, vocabulary);
    } else {
      var init, last := events[..|events| - 1], events[|events| - 1];
      var more := if last.Taking? then last.docs else [];
      assert TakenBy(events) == TakenBy(init) + more;
      LabelsAppend(TakenBy(init), more, 2);
      DistinctSplit(TakenBy(init), more);
      RunHolds(cfg, sc, init, vocabulary);
      AfterHolds(cfg, sc, Run(cfg, sc, init), last, TakenBy(init), vocabulary);
    }
  }

  // The tables of one build, with the switch where the run left it.
  function BuiltTables(sc: SeedConfig, b: Graph, doSubstr: bool): Terms {
    TermsOf(sc, b.idxToNode).(doSubstr := doSubstr)
  }

  lemma {:induction false} NoCache(sc: SeedConfig, ids: seq<NodeId>)
    ensures TermsOf(sc, ids).cache == map[]
  {
    IndexNodesCache(sc, NO_TERMS, ids);
  }

  // Batches, compilations, compactions and queries in any order answer every
  // query as one build of the documents: every seed map spreads alike, and every
  // word list has the same seeds exactly when the cache is harmless or off.
  lemma RunAnswersIff(cfg: Config, scfg: S.Config, sc: SeedConfig, events: seq<Event>, generation: nat,
                      seeds: S.Dict, hops: nat, fast: S.Dict)
    requires Growing(events) && DistinctIds(TakenBy(events)) && NoClash(cfg, Labels(TakenBy(events), 2))
    ensures var s, b := Run(cfg, sc, events), Build(cfg, generation, TakenBy(events));
            && s.g.Shaped() && b.Shaped() && SpreadAlike(scfg, b, s.g, seeds, hops, fast)
            && (SeedsAlike(sc, s, Live(b, BuiltTables(sc, b, s.t.doSubstr))) <==>
                !s.t.doSubstr || Harmless(sc, s.g, s.t))
  {
    hide Run, Build, SeedWords, SpreadAlike, NoClash, Compile, Harmless, Ready, Graph.Valid, TermsOf;
    var docs := TakenBy(events);
    var vocabulary := Labels(docs, 2);
    var s, b := Run(cfg, sc, events), Build(cfg, generation, docs);
    var u := BuiltTables(sc, b, s.t.doSubstr);
    RunHolds(cfg, sc, events, vocabulary);
    BuildHolds(cfg, generation, docs, vocabulary);
    HoldersAgree(cfg, s.g, b, docs, vocabulary);
    SameCompiled(scfg, b, s.g, seeds, hops, fast);
    RunSane(cfg, sc, events);
    NoCache(sc, b.idxToNode);
    HarmlessIff(sc, s.g, s.t, u);
    forall words
      ensures SeedWords(sc, s.g, u, words).0 == SeedWords(sc, b, u, words).0
    {
      SameGraphSeeds(sc, s.g, b, u, words);
    }
  }

  // ----- the failing run -----

  function Tagged(id: string, term: string, etype: string): Document {
    Document(id, id, [Entity(term, etype)])
  }

  lemma NewEntity(cfg: Config, g: Graph, ans: nat, e: Entity)
    requires g.Valid() && ans < g.Size() && g.idxToNode[ans].ValueId? && |e.term| >= 2
    requires EntityId(e.etype, e.term) !in g.nodeToIdx
    ensures IngestEntities(cfg, g, ans, [e], {}, false).idxToNode == g.idxToNode + [EntityId(e.etype, e.term)]
  {
    hide Graph.Valid;
    var id := EntityId(e.etype, e.term);
    assert [e][1..] == [];
    assert IngestEntities(cfg, g, ans, [e], {}, false) == IngestEntity(cfg, g, ans, id, false);
  }

  // A document with a new id and a new entity adds its two nodes.
  lemma NewMention(cfg: Config, g: Graph, id: string, term: string, etype: string)
    requires g.Valid() && |term| >= 2 && ValueId(id) !in g.nodeToIdx && EntityId(etype, term) !in g.nodeToIdx
    ensures Ingest(cfg, g, [Tagged(id, term, etype)], false).idxToNode ==
            g.idxToNode + [ValueId(id), EntityId(etype, term)]
  {
    hide IngestEntities, IndexUnder;
    var d := Tagged(id, term, etype);
    var v, one := GetOrAddNode(g, ValueId(id), ValueKind, id, 0.0), IngestDocument(cfg, g, d, false);
    NewEntity(cfg, v, v.nodeToIdx[ValueId(id)], Entity(term, etype));
    assert [d][1..] == [] && Ingest(cfg, one, [], false) == one;
    assert one == IngestEntities(cfg, v, v.nodeToIdx[ValueId(id)], d.entities, {}, false);
  }

  lemma TakenMention(cfg: Config, g: Graph, id: string, term: string, etype: string)
    requires Loadable(g) && |term| >= 2 && ValueId(id) !in g.nodeToIdx && EntityId(etype, term) !in g.nodeToIdx
    ensures var d := Tagged(id, term, etype);
            var r := AddDocuments(cfg, g, [d], [term]);
            && r.idxToNode == g.idxToNode + [ValueId(id), EntityId(etype, term)] && r.built && r.dirty
            && Appended(cfg, g, r, {term}) && r.freq.Keys == g.freq.Keys + {term} && Labels([d], 2) == {term}
  {
    hide Graph.Valid, Ingest, RefreshLabels, IndexAll;
    var d := Tagged(id, term, etype);
    var c := CountBatch(EnsureMutable(g), [d]);
    OneMention(d, term);
    RefreshLabelsKeepNodes(cfg, c, [term]);
    NewMention(cfg, Refresh(cfg, c, [term]), id, term, etype);
    AddAppended(cfg, g, [d], [term]);
    IngestTracked(cfg, Refresh(cfg, c, [term]), [d]);
  }

  lemma FirstTaken(cfg: Config, sc: SeedConfig, y: string)
    requires |y| >= 2
    ensures var s := After(cfg, sc, START, Taking([Tagged("0", y, "a")], [y]));
            && s.g.idxToNode == [ValueId("0"), EntityId("a", y)] && s.g.freq.Keys == {y} && s.g.built && s.g.dirty
            && Appended(cfg, Empty(0), s.g, {y}) && s.t == IndexNodes(sc, NO_TERMS, s.g.idxToNode)
  {
    hide Graph.Valid, AddDocuments, Appended, Labels, IndexNodes, Empty;
    EmptyLoadable();
    TakenMention(cfg, START.g, "0", y, "a");
    var s := After(cfg, sc, START, Taking([Tagged("0", y, "a")], [y]));
    assert NewNodes(START.g, s.g) == s.g.idxToNode;
    assert START.g.freq.Keys == {};
  }

  // The first document, and one query for a token of its label.
  lemma AskedOnce(cfg: Config, sc: SeedConfig, w: string, y: string)
    requires |y| >= 2 && Askable(sc, w) && w in sc.tokens(y)
    ensures var s := Run(cfg, sc, [Taking([Tagged("0", y, "a")], [y]), Asking([w])]);
            && s.g.idxToNode == [ValueId("0"), EntityId("a", y)] && s.g.freq.Keys == {y} && Loadable(s.g)
            && Appended(cfg, Empty(0), s.g, {y})
            && s.t.doSubstr && y in s.t.exact && w in s.t.cache && s.t.cache[w] == {EntityId("a", y)}
            && y in Lookup(s.t.tokens, w)
  {
    hide Run, After, Loadable, Graph.Valid, Appended, IndexNodes;
    var a, b := Taking([Tagged("0", y, "a")], [y]), Asking([w]);
    EmptyLoadable();
    FirstTaken(cfg, sc, y);
    FirstEvents(cfg, sc, a, b);
    AskedFirst(cfg, sc, After(cfg, sc, START, a), w, y);
  }

  lemma FirstEvents(cfg: Config, sc: SeedConfig, a: Event, b: Event)
    ensures Run(cfg, sc, [a, b]) == After(cfg, sc, After(cfg, sc, START, a), b)
  {
    hide After;
    assert [a, b][..1] == [a] && [a][..0] == [] && Run(cfg, sc, []) == START;
    assert Run(cfg, sc, [a]) == After(cfg, sc, START, a);
  }

  lemma AskedFirst(cfg: Config, sc: SeedConfig, s: Live, w: string, y: string)
    requires s.g.Valid() && s.g.idxToNode == [ValueId("0"), EntityId("a", y)] && s.g.built && s.g.dirty
    requires Appended(cfg, Empty(0), s.g, {y}) && s.t == IndexNodes(sc, NO_TERMS, s.g.idxToNode)
    requires Askable(sc, w) && w in sc.tokens(y)
    ensures var r := After(cfg, sc, s, Asking([w]));
            && r.g.idxToNode == s.g.idxToNode && r.g.freq == s.g.freq && Loadable(r.g)
            && Appended(cfg, Empty(0), r.g, {y})
            && r.t.doSubstr && r.t.exact == {y} && w in r.t.cache && r.t.cache[w] == {EntityId("a", y)}
            && y in Lookup(r.t.tokens, w)
  {
    hide Graph.Valid, Appended, SeedWords, SeedWord, BuildCsr, Loadable, IndexNodes;
    FirstTables(cfg, sc, s, w, y);
    CompiledLoadable(s.g);
    OneWord(sc, s.g, s.t, w);
    CompiledAppended(cfg, Empty(0), s.g, {y});
  }

  lemma EmptyLoadable()
    ensures START.g.Valid() && Loadable(Empty(0))
    ensures Empty(0).nodeToIdx == map[] && Empty(0).idxToNode == [] && Empty(0).freq == map[]
  {
  }

  lemma CompiledLoadable(g: Graph)
    requires g.Valid() && g.dirty && (g.edges == [] ==> g.Bipartite(g.edges))
    ensures Loadable(Compile(g))
  {
    if g.edges == [] { NothingListed(g.Size()); }
  }

  lemma CompiledAppended(cfg: Config, g: Graph, r: Graph, vocabulary: set<string>)
    requires r.Valid() && Appended(cfg, g, r, vocabulary)
    ensures Appended(cfg, g, Compile(r), vocabulary)
  {
  }

  lemma FirstTables(cfg: Config, sc: SeedConfig, s: Live, w: string, y: string)
    requires s.g.Valid() && s.g.idxToNode == [ValueId("0"), EntityId("a", y)] && Appended(cfg, Empty(0), s.g, {y})
    requires s.t == IndexNodes(sc, NO_TERMS, s.g.idxToNode) && Askable(sc, w) && w in sc.tokens(y)
    ensures s.t.doSubstr && s.t.exact == {y} && s.t.terms == [y] && y in Lookup(s.t.tokens, w)
    ensures SeedWord(sc, s.g, s.t, map[], w).1 == s.t.(cache := map[w := {EntityId("a", y)}])
  {
    hide Graph.Valid, IndexAll, IndexUnder, Direct, Substr, Found;
    var ids := s.g.idxToNode;
    assert ids[..1] == [ValueId("0")] && ids[..1][..0] == [];
    assert IndexNodes(sc, NO_TERMS, []) == NO_TERMS;
    assert IndexNodes(sc, NO_TERMS, ids[..1]) == NO_TERMS;
    TokensMeaning(sc, ids, w, y);
    assert ids[1] in ids;
    FoundHere(cfg, s.g, s.t, w, {y});
    assert Concerns(cfg, s.t, w, y);
    assert Found(s.t, s.g.index, w) == {EntityId("a", y)};
  }

  // On a graph grown from nothing a word finds the nodes it concerns.
  lemma FoundHere(cfg: Config, g: Graph, t: Terms, w: string, vocabulary: set<string>)
    requires Appended(cfg, Empty(0), g, vocabulary)
    ensures forall u :: u in Found(t, g.index, w) <==>
              u in g.idxToNode && u.EntityId? && Concerns(cfg, t, w, u.term)
    ensures forall u :: u in Lookup(g.index, w) <==> u in g.idxToNode && u.EntityId? && w in Keys(cfg, u)
  {
    hide IndexAll, Found, Concerns;
    assert NewNodes(Empty(0), g) == g.idxToNode;
    FoundAll(cfg, t, map[], g.idxToNode, w);
    IndexAllHas(cfg, map[], g.idxToNode, w);
    NothingFound(t, w);
  }

  lemma NothingFound(t: Terms, w: string)
    ensures Found(t, map[], w) == {}
  {
  }

  // The second document changes no table, as its label is known.
  lemma SecondTaken(cfg: Config, sc: SeedConfig, m: Live, y: string)
    requires |y| >= 2 && Loadable(m.g) && m.g.idxToNode == [ValueId("0"), EntityId("a", y)] && y in m.t.exact
    requires Appended(cfg, Empty(0), m.g, {y}) && m.g.freq.Keys == {y}
    ensures var s, id := After(cfg, sc, m, Taking([Tagged("1", y, "b")], [y])), EntityId("b", y);
            && s.t == m.t && s.g.built && id in s.g.nodeToIdx && id in s.g.idxToNode && s.g.freq.Keys == {y}
            && Appended(cfg, Empty(0), s.g, {y})
  {
    hide Graph.Valid, AddDocuments, Appended, Labels, IndexNodes;
    var s, id := After(cfg, sc, m, Taking([Tagged("1", y, "b")], [y])), EntityId("b", y);
    NotListed(m.g, ValueId("1"));
    NotListed(m.g, id);
    TakenMention(cfg, m.g, "1", y, "b");
    AppendedTransitive(cfg, Empty(0), m.g, s.g, {y});
    IndexNodesCache(sc, m.t, NewNodes(m.g, s.g));
    assert NewNodes(m.g, s.g) == [ValueId("1"), id];
    assert s.g.idxToNode[3] == id;
    OnlyListed(s.g, id);
  }

  // A known label taken in under a second type does not drop the cache, so a
  // word asked before misses the new node until the graph is compacted.
  lemma StaleCacheShows(cfg: Config, sc: SeedConfig, w: string, y: string)
    requires |y| >= 2 && Askable(sc, w) && w in sc.tokens(y) && w != y && w !in cfg.words(y)
    ensures var a, b, id := Tagged("0", y, "a"), Tagged("1", y, "b"), EntityId("b", y);
            var events := [Taking([a], [y]), Asking([w]), Taking([b], [y])];
            var s := Run(cfg, sc, events);
            var n := After(cfg, sc, s, Compacting([y]));
            && Growing(events) && s.g.built && Enumerates([y], s.g.freq.Keys) && !Harmless(sc, s.g, s.t)
            && id in s.g.nodeToIdx && n.g.nodeToIdx == s.g.nodeToIdx
            && s.g.nodeToIdx[id] !in SeedWords(sc, s.g, s.t, [w]).0
            && s.g.nodeToIdx[id] in SeedWords(sc, n.g, n.t, [w]).0
  {
    hide Graph.Valid, Appended, SeedWords, Run, After, Found, Concerns, Harmless, Labels, Loadable;
    var id := EntityId("b", y);
    var before, e := [Taking([Tagged("0", y, "a")], [y]), Asking([w])], Taking([Tagged("1", y, "b")], [y]);
    var m, s := Run(cfg, sc, before), Run(cfg, sc, before + [e]);
    AskedOnce(cfg, sc, w, y);
    LastEvent(cfg, sc, before, e);
    SecondTaken(cfg, sc, m, y);
    FoundHere(cfg, s.g, s.t, w, {y});
    Concerned(cfg, s.t, w, y);
    assert before + [e] == [Taking([Tagged("0", y, "a")], [y]), Asking([w]), e];
    StaleSeeds(cfg, sc, s, w, y, id);
    OneMention(Tagged("0", y, "a"), y);
    OneMention(Tagged("1", y, "b"), y);
  }

  lemma Concerned(cfg: Config, t: Terms, w: string, y: string)
    requires y in Lookup(t.tokens, w)
    ensures Concerns(cfg, t, w, y)
  {
  }

  lemma NotListed(g: Graph, id: NodeId)
    requires g.Valid() && id !in g.idxToNode
    ensures id !in g.nodeToIdx
  {
    assert forall x :: x in g.nodeToIdx ==> g.idxToNode[g.nodeToIdx[x]] == x;
  }

  lemma LastEvent(cfg: Config, sc: SeedConfig, before: seq<Event>, e: Event)
    ensures Run(cfg, sc, before + [e]) == After(cfg, sc, Run(cfg, sc, before), e)
  {
    hide After;
    assert (before + [e])[..|before|] == before;
  }

  lemma StaleSeeds(cfg: Config, sc: SeedConfig, s: Live, w: string, y: string, id: NodeId)
    requires s.g.Valid() && s.g.built && id in s.g.nodeToIdx && Askable(sc, w) && s.t.doSubstr
    requires id in Found(s.t, s.g.index, w) && id !in Lookup(s.g.index, w) && w in s.t.cache && id !in s.t.cache[w]
    ensures var n := After(cfg, sc, s, Compacting([y]));
            && n.g.nodeToIdx == s.g.nodeToIdx && !Harmless(sc, s.g, s.t)
            && s.g.nodeToIdx[id] !in SeedWords(sc, s.g, s.t, [w]).0
            && s.g.nodeToIdx[id] in SeedWords(sc, n.g, n.t, [w]).0
  {
    hide Graph.Valid, SeedWords, SeedWord, Found, BuildCsr;
    var n := After(cfg, sc, s, Compacting([y]));
    OneWord(sc, s.g, s.t, w);
    OneWord(sc, n.g, n.t, w);
    WordSeeds(sc, s.g, s.t, map[], w, id);
    WordSeeds(sc, n.g, n.t, map[], w, id);
    SameFound(s.t, n.t, s.g.index, w);
    assert id in Unlisted(s.g, w, Found(s.t, s.g.index, w)) && id !in Unlisted(s.g, w, s.t.cache[w]);
  }
}
