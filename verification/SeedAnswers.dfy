/** Which entities a query's words seed and with what, said of the documents and
    the words alone. */
module SeedAnswers {
  import opened Basics
  import opened Graph
  import opened Growth
  import opened GrowthTheorems
  import opened Seeding
  import opened Answers
  import Compaction

  // ----- seeds -----

  // The word is the label or a word of it.
  predicate Spelled(cfg: Config, sc: SeedConfig, x: string, w: string) {
    w !in sc.stopwords && (w == x || w in cfg.words(x))
  }

  // The word, of four characters or more, is a token of a known label that is
  // x or a word of it.
  ghost predicate Partly(cfg: Config, sc: SeedConfig, t: Terms, ids: seq<NodeId>, x: string, w: string) {
    && w !in sc.stopwords && t.doSubstr && |w| >= 4
    && exists z :: Names(ids, z) && w in sc.tokens(z) && (z == x || z in cfg.words(x))
  }

  ghost predicate Seeded(cfg: Config, sc: SeedConfig, t: Terms, ids: seq<NodeId>, x: string, w: string) {
    Spelled(cfg, sc, x, w) || Partly(cfg, sc, t, ids, x, w)
  }

  // The first word to seed the label does so by a token only.
  ghost predicate PartlyFirst(cfg: Config, sc: SeedConfig, t: Terms, ids: seq<NodeId>, x: string, words: seq<string>) {
    exists k :: 0 <= k < |words| && !Spelled(cfg, sc, x, words[k]) && Partly(cfg, sc, t, ids, x, words[k]) &&
                forall j :: 0 <= j < k ==> !Seeded(cfg, sc, t, ids, x, words[j])
  }

  // The exact boost for the label itself, the partial one for a word of it,
  // the substring one, if that came first, and at least 0 with it.
  ghost predicate Boost(cfg: Config, sc: SeedConfig, t: Terms, ids: seq<NodeId>, docs: seq<Document>, x: string,
                        words: seq<string>, v: real) {
    || (exists w :: w in words && Spelled(cfg, sc, x, w) &&
          v == (if w == x then sc.exactBoost else sc.partialBoost) * SpecOf(cfg, docs, x))
    || (PartlyFirst(cfg, sc, t, ids, x, words) && v == Max(0.0, sc.substrBoost * SpecOf(cfg, docs, x)))
  }

  // A graph that holds the documents, with tables in step with it.
  ghost predicate Stocked(cfg: Config, sc: SeedConfig, g: Graph, t: Terms, docs: seq<Document>,
                          vocabulary: set<string>) {
    && g.Valid() && Compaction.NodesHold(cfg, g, docs, vocabulary) && (forall x :: x in vocabulary ==> |x| >= 2)
    && Tabled(sc, t, g.idxToNode) && Fresh(t, g.index)
  }

  lemma ListedIff(cfg: Config, g: Graph, k: string, i: nat)
    requires g.Valid() && i < g.Size() && Indexed(cfg, g)
    ensures Listed(g, Lookup(g.index, k), i) <==>
            g.idxToNode[i].EntityId? && (k == g.idxToNode[i].term || k in cfg.words(g.idxToNode[i].term))
  {
    var id := g.idxToNode[i];
    assert g.NodeAt(i, id);
    assert id in Lookup(g.index, k) <==> Under(g.index, k, id);
    if Listed(g, Lookup(g.index, k), i) {
      var u :| u in Lookup(g.index, k) && u in g.nodeToIdx && g.nodeToIdx[u] == i;
      assert u == id;
    }
  }

  lemma DirectIff(cfg: Config, sc: SeedConfig, g: Graph, t: Terms, docs: seq<Document>, vocabulary: set<string>,
                  w: string, i: nat)
    requires Stocked(cfg, sc, g, t, docs, vocabulary) && i < g.Size()
    ensures DirectTo(sc, g, w, i) <==> g.idxToNode[i].EntityId? && Spelled(cfg, sc, g.idxToNode[i].term, w)
  {
    hide Graph.Valid, Indexed, Listed, NodesWeighted, Within, Counted, Tabled, Fresh;
    ListedIff(cfg, g, w, i);
  }

  lemma SubstrIff(cfg: Config, sc: SeedConfig, g: Graph, t: Terms, docs: seq<Document>, vocabulary: set<string>,
                  w: string, i: nat)
    requires Stocked(cfg, sc, g, t, docs, vocabulary) && i < g.Size()
    ensures SubstrTo(sc, g, t, w, i) <==>
            g.idxToNode[i].EntityId? && Partly(cfg, sc, t, g.idxToNode, g.idxToNode[i].term, w)
  {
    hide Graph.Valid, Indexed, Listed, NodesWeighted, Within, Counted, Fresh, Names;
    var id := g.idxToNode[i];
    forall z
      ensures z in Lookup(t.tokens, w) <==> w in sc.tokens(z) && Names(g.idxToNode, z)
      ensures Listed(g, Lookup(g.index, z), i) <==>
              id.EntityId? && (z == id.term || z in cfg.words(id.term))
    {
      TokensMeaning(sc, g.idxToNode, w, z);
      ListedIff(cfg, g, z, i);
    }
    FoundIff(g, t, w, i);
  }

  lemma FoundIff(g: Graph, t: Terms, w: string, i: nat)
    requires g.Valid()
    ensures i in Numbers(g, Found(t, g.index, w)) <==>
            exists z :: z in Lookup(t.tokens, w) && Listed(g, Lookup(g.index, z), i)
  {
    hide Graph.Valid;
    if i in Numbers(g, Found(t, g.index, w)) {
      var id :| id in Found(t, g.index, w) && id in g.nodeToIdx && g.nodeToIdx[id] == i;
      var z :| z in Lookup(t.tokens, w) && id in Lookup(g.index, z);
      assert Listed(g, Lookup(g.index, z), i);
    }
    if z :| z in Lookup(t.tokens, w) && Listed(g, Lookup(g.index, z), i) {
      var id :| id in Lookup(g.index, z) && id in g.nodeToIdx && g.nodeToIdx[id] == i;
      assert id in Found(t, g.index, w);
    }
  }

  lemma SpecAtNode(cfg: Config, sc: SeedConfig, g: Graph, t: Terms, docs: seq<Document>, vocabulary: set<string>,
                   i: nat)
    requires Stocked(cfg, sc, g, t, docs, vocabulary) && i < g.Size() && g.idxToNode[i].EntityId?
    ensures i < |g.spec| && i < |g.labels| && g.labels[i] == g.idxToNode[i].term
    ensures g.spec[i] == SpecOf(cfg, docs, g.idxToNode[i].term)
  {
    hide SpecOf, Indexed, Fresh, Tabled;
    NumberedOnce(g, i, i);
    Compaction.SpecAt(cfg, g, docs, vocabulary, i);
    SpecIs(cfg, docs, g.labels[i]);
  }

  lemma ReachesIff(cfg: Config, sc: SeedConfig, g: Graph, t: Terms, docs: seq<Document>, vocabulary: set<string>,
                   w: string, i: nat)
    requires Stocked(cfg, sc, g, t, docs, vocabulary) && i < g.Size()
    ensures g.Valid()
    ensures Reaches(sc, g, t, w, i) <==>
            g.idxToNode[i].EntityId? && Seeded(cfg, sc, t, g.idxToNode, g.idxToNode[i].term, w)
    ensures DirectTo(sc, g, w, i) <==> g.idxToNode[i].EntityId? && Spelled(cfg, sc, g.idxToNode[i].term, w)
  {
    hide DirectTo, SubstrTo, Spelled, Partly, Graph.Valid, Tabled, Fresh;
    DirectIff(cfg, sc, g, t, docs, vocabulary, w, i);
    SubstrIff(cfg, sc, g, t, docs, vocabulary, w, i);
  }

  lemma FirstIff(cfg: Config, sc: SeedConfig, g: Graph, t: Terms, docs: seq<Document>, vocabulary: set<string>,
                 words: seq<string>, i: nat)
    requires Stocked(cfg, sc, g, t, docs, vocabulary) && i < g.Size()
    ensures g.Valid()
    ensures SubstrFirst(sc, g, t, words, i) <==>
            g.idxToNode[i].EntityId? && PartlyFirst(cfg, sc, t, g.idxToNode, g.idxToNode[i].term, words)
  {
    hide Stocked, Reaches, DirectTo, Spelled, Partly, Graph.Valid;
    forall w
      ensures g.Valid()
      ensures Reaches(sc, g, t, w, i) <==>
              g.idxToNode[i].EntityId? && Seeded(cfg, sc, t, g.idxToNode, g.idxToNode[i].term, w)
      ensures DirectTo(sc, g, w, i) <==> g.idxToNode[i].EntityId? && Spelled(cfg, sc, g.idxToNode[i].term, w)
    {
      ReachesIff(cfg, sc, g, t, docs, vocabulary, w, i);
    }
    assert g.Valid() by { ReachesIff(cfg, sc, g, t, docs, vocabulary, "", i); }
    if SubstrFirst(sc, g, t, words, i) {
      var k :| 0 <= k < |words| && FirstAt(sc, g, t, words, i, k) && !DirectTo(sc, g, words[k], i);
      assert !Spelled(cfg, sc, g.idxToNode[i].term, words[k]);
    }
    if g.idxToNode[i].EntityId? && PartlyFirst(cfg, sc, t, g.idxToNode, g.idxToNode[i].term, words) {
      var x := g.idxToNode[i].term;
      var k :| 0 <= k < |words| && !Spelled(cfg, sc, x, words[k]) && Partly(cfg, sc, t, g.idxToNode, x, words[k]) &&
               forall j :: 0 <= j < k ==> !Seeded(cfg, sc, t, g.idxToNode, x, words[j]);
      assert Reaches(sc, g, t, words[k], i);
      assert FirstAt(sc, g, t, words, i, k);
    }
  }

  lemma OfferIff(cfg: Config, sc: SeedConfig, g: Graph, t: Terms, docs: seq<Document>, vocabulary: set<string>,
                 words: seq<string>, i: nat, v: real)
    requires Stocked(cfg, sc, g, t, docs, vocabulary) && i < g.Size()
    ensures g.Valid()
    ensures SeedOffer(sc, g, t, words, i, v) <==>
            g.idxToNode[i].EntityId? && Boost(cfg, sc, t, g.idxToNode, docs, g.idxToNode[i].term, words, v)
  {
    hide Stocked, DirectTo, Spelled, SubstrFirst, PartlyFirst, Graph.Valid, SpecOf;
    FirstIff(cfg, sc, g, t, docs, vocabulary, words, i);
    forall w
      ensures DirectTo(sc, g, w, i) <==> g.idxToNode[i].EntityId? && Spelled(cfg, sc, g.idxToNode[i].term, w)
    {
      ReachesIff(cfg, sc, g, t, docs, vocabulary, w, i);
    }
    if g.idxToNode[i].EntityId? { SpecAtNode(cfg, sc, g, t, docs, vocabulary, i); }
  }

  // For every word list: the seeds are exactly the entities that some word
  // spells or partly names, each with the largest boost of its label's
  // specificity on offer, and at least 0.
  lemma SeedsExplained(cfg: Config, sc: SeedConfig, g: Graph, t: Terms, docs: seq<Document>, vocabulary: set<string>,
                       words: seq<string>, i: nat)
    requires Stocked(cfg, sc, g, t, docs, vocabulary) && i < g.Size()
    ensures g.Valid()
    ensures var r, id := SeedWords(sc, g, t, words).0, g.idxToNode[i];
            && (i in r <==> id.EntityId? && exists w :: w in words && Seeded(cfg, sc, t, g.idxToNode, id.term, w))
            && (i in r ==>
                  && 0.0 <= r[i] && (r[i] == 0.0 || Boost(cfg, sc, t, g.idxToNode, docs, id.term, words, r[i]))
                  && forall v :: Boost(cfg, sc, t, g.idxToNode, docs, id.term, words, v) ==> v <= r[i])
  {
    hide Stocked, Seeded, Reaches, SeedOffer, Boost, SeedWords, Graph.Valid;
    StockedFresh(cfg, sc, g, t, docs, vocabulary);
    SeedsMeaning(sc, g, t, words, i);
    forall w
      ensures Reaches(sc, g, t, w, i) <==>
              g.idxToNode[i].EntityId? && Seeded(cfg, sc, t, g.idxToNode, g.idxToNode[i].term, w)
    {
      ReachesIff(cfg, sc, g, t, docs, vocabulary, w, i);
    }
    forall v
      ensures SeedOffer(sc, g, t, words, i, v) <==>
              g.idxToNode[i].EntityId? && Boost(cfg, sc, t, g.idxToNode, docs, g.idxToNode[i].term, words, v)
    {
      OfferIff(cfg, sc, g, t, docs, vocabulary, words, i, v);
    }
  }

  lemma StockedFresh(cfg: Config, sc: SeedConfig, g: Graph, t: Terms, docs: seq<Document>, vocabulary: set<string>)
    requires Stocked(cfg, sc, g, t, docs, vocabulary)
    ensures g.Valid() && Fresh(t, g.index)
  {
  }
}
