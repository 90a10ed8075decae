/** From query words to seeds: the tables kept beside the entity index and the
    cached substring lookup. */
module Seeding {
  import opened Basics
  import opened Graph

  const CACHE_MAX := 10_000
  const TERMS_MAX := 10_000
  const SUBSTR_MIN := 4

  // `tokens` gives the alphanumeric runs of a label, in lower case, that are
  // not the label itself and have two characters or more.
  datatype SeedConfig = SeedConfig(
    tokens: string -> seq<string>,
    stopwords: set<string>,
    exactBoost: real,
    partialBoost: real,
    substrBoost: real)

  // The labels indexed so far, the labels under each token, the cached
  // answers, and whether substring seeds are given at all.
  datatype Terms = Terms(
    exact: set<string>,
    terms: seq<string>,
    tokens: map<string, seq<string>>,
    cache: map<string, set<NodeId>>,
    doSubstr: bool)

  const NO_TERMS := Terms({}, [], map[], map[], true)

  // ----- indexing a new entity node -----

  // Only a label seen for the first time drops the cache.
  function IndexTerm(sc: SeedConfig, t: Terms, x: string): Terms {
    if x in t.exact then t
    else t.(exact := t.exact + {x}, terms := t.terms + [x],
            tokens := IndexUnder(t.tokens, sc.tokens(x), x), cache := map[])
  }

  // A label is indexed when its node is appended.
  function IndexNodes(sc: SeedConfig, t: Terms, ids: seq<NodeId>): Terms {
    if ids == [] then t
    else
      match ids[|ids| - 1]
      case EntityId(_, x) => IndexTerm(sc, IndexNodes(sc, t, ids[..|ids| - 1]), x)
      case ValueId(_) => IndexNodes(sc, t, ids[..|ids| - 1])
  }

  // So the tables of a graph never loaded follow from its node list.
  function TermsOf(sc: SeedConfig, ids: seq<NodeId>): Terms {
    IndexNodes(sc, NO_TERMS, ids)
  }

  function RebuildTokens(sc: SeedConfig, terms: seq<string>): map<string, seq<string>> {
    if terms == [] then map[]
    else IndexUnder(RebuildTokens(sc, terms[..|terms| - 1]), sc.tokens(terms[|terms| - 1]), terms[|terms| - 1])
  }

  // x is the label of an entity node.
  predicate Names(ids: seq<NodeId>, x: string) {
    exists id :: id in ids && id.EntityId? && id.term == x
  }

  lemma NamesSnoc(ids: seq<NodeId>, x: string)
    requires ids != []
    ensures var last := ids[|ids| - 1];
            Names(ids, x) <==> Names(ids[..|ids| - 1], x) || (last.EntityId? && last.term == x)
  {
    assert ids == ids[..|ids| - 1] + [ids[|ids| - 1]];
  }

  // The tables agree: the tokens are those of the labels, each held once.
  ghost predicate Consistent(sc: SeedConfig, t: Terms) {
    && t.tokens == RebuildTokens(sc, t.terms)
    && (forall x :: x in t.exact <==> x in t.terms)
    && (forall i, j :: 0 <= i < j < |t.terms| ==> t.terms[i] != t.terms[j])
  }

  lemma IndexTermConsistent(sc: SeedConfig, t: Terms, x: string)
    requires Consistent(sc, t)
    ensures Consistent(sc, IndexTerm(sc, t, x))
  {
    hide IndexUnder, RebuildTokens;
    if x in t.exact {
    } else {
      var more := t.terms + [x];
      RebuiltSnoc(sc, t.terms, x);
      forall i, j | 0 <= i < j < |more|
        ensures more[i] != more[j]
      {
        assert more[i] in t.terms;
      }
    }
  }

  lemma RebuiltSnoc(sc: SeedConfig, terms: seq<string>, x: string)
    ensures RebuildTokens(sc, terms + [x]) == IndexUnder(RebuildTokens(sc, terms), sc.tokens(x), x)
  {
    hide IndexUnder;
    assert (terms + [x])[..|terms|] == terms;
  }

  // The token index kept up to date is the one a rebuild gives, and the
  // label list holds each label of an entity node once.
  lemma {:induction false} TokensRebuilt(sc: SeedConfig, ids: seq<NodeId>)
    ensures Consistent(sc, TermsOf(sc, ids))
    ensures forall x :: x in TermsOf(sc, ids).terms <==> Names(ids, x)
  {
    hide Consistent, Names;
    if ids == [] {
      NothingIndexed(sc, ids);
    } else {
      var init, last := ids[..|ids| - 1], ids[|ids| - 1];
      TokensRebuilt(sc, init);
      ConsistentKnows(sc, TermsOf(sc, init));
      if last.EntityId? { IndexTermConsistent(sc, TermsOf(sc, init), last.term); }
      forall x
        ensures Names(ids, x) <==> Names(init, x) || (last.EntityId? && last.term == x)
      {
        NamesSnoc(ids, x);
      }
    }
  }

  lemma NothingIndexed(sc: SeedConfig, ids: seq<NodeId>)
    requires ids == []
    ensures Consistent(sc, NO_TERMS) && forall x :: !Names(ids, x)
  {
  }

  lemma ConsistentKnows(sc: SeedConfig, t: Terms)
    requires Consistent(sc, t)
    ensures forall x :: x in t.exact <==> x in t.terms
  {
  }

  lemma {:induction false} IndexUnderHas<V>(m: map<string, seq<V>>, keys: seq<string>, v: V, k: string)
    ensures forall u :: u in Lookup(IndexUnder(m, keys, v), k) <==> u in Lookup(m, k) || (k in keys && u == v)
    decreases |keys|
  {
    if keys == [] {
    } else {
      IndexUnderHas(Push(m, keys[0], v), keys[1..], v, k);
      assert keys == [keys[0]] + keys[1..];
    }
  }

  lemma {:induction false} RebuiltTokens(sc: SeedConfig, terms: seq<string>, w: string, x: string)
    ensures x in Lookup(RebuildTokens(sc, terms), w) <==> x in terms && w in sc.tokens(x)
  {
    if terms == [] {
    } else {
      var init, last := terms[..|terms| - 1], terms[|terms| - 1];
      RebuiltTokens(sc, init, w, x);
      IndexUnderHas(RebuildTokens(sc, init), sc.tokens(last), last, w);
      assert terms == init + [last];
    }
  }

  // A token finds exactly the labels of entity nodes that contain it.
  lemma TokensMeaning(sc: SeedConfig, ids: seq<NodeId>, w: string, x: string)
    ensures x in Lookup(TermsOf(sc, ids).tokens, w) <==> w in sc.tokens(x) && Names(ids, x)
  {
    TokensRebuilt(sc, ids);
    RebuiltTokens(sc, TermsOf(sc, ids).terms, w, x);
  }

  // ----- the cached lookup -----

  function Found(t: Terms, index: Index, w: string): set<NodeId> {
    set x, id | x in Lookup(t.tokens, w) && id in Lookup(index, x) :: id
  }

  function Substring(t: Terms, index: Index, w: string): (set<NodeId>, Terms) {
    if w in t.cache then (t.cache[w], t)
    else
      var kept := if |t.cache| >= CACHE_MAX then map[] else t.cache;
      (Found(t, index, w), t.(cache := kept[w := Found(t, index, w)]))
  }

  // Every cached answer is the one a lookup now would give.
  ghost predicate Fresh(t: Terms, index: Index) {
    forall w :: w in t.cache ==> t.cache[w] == Found(t, index, w)
  }

  lemma SubstringFresh(t: Terms, index: Index, w: string)
    requires Fresh(t, index)
    ensures var (ids, r) := Substring(t, index, w);
            ids == Found(t, index, w) && Fresh(r, index) && r == t.(cache := r.cache)
  {
  }

  // Some label under the word is the new node's own, or a word of it.
  predicate Concerns(cfg: Config, t: Terms, w: string, term: string) {
    exists x :: x in Lookup(t.tokens, w) && (x == term || x in cfg.words(term))
  }

  // Indexing a new node leaves the cache fresh exactly when its label is new,
  // which drops the cache, or no cached word concerns it.
  lemma FreshAfterIff(cfg: Config, sc: SeedConfig, t: Terms, index: Index, id: NodeId)
    requires id.EntityId? && Fresh(t, index) && forall k :: id !in Lookup(index, k)
    ensures Fresh(IndexTerm(sc, t, id.term), IndexUnder(index, [id.term] + cfg.words(id.term), id)) <==>
            id.term !in t.exact || forall w :: w in t.cache ==> !Concerns(cfg, t, w, id.term)
  {
    var keys := [id.term] + cfg.words(id.term);
    var after := IndexUnder(index, keys, id);
    if id.term in t.exact {
      forall w | w in t.cache
        ensures t.cache[w] == Found(t, after, w) <==> !Concerns(cfg, t, w, id.term)
      {
        FoundAfter(cfg, t, index, id, w);
      }
    }
  }

  lemma FoundAfter(cfg: Config, t: Terms, index: Index, id: NodeId, w: string)
    requires id.EntityId? && forall k :: id !in Lookup(index, k)
    ensures Found(t, IndexUnder(index, [id.term] + cfg.words(id.term), id), w)
              == Found(t, index, w) + if Concerns(cfg, t, w, id.term) then {id} else {}
    ensures id !in Found(t, index, w)
  {
    var keys := [id.term] + cfg.words(id.term);
    var after := IndexUnder(index, keys, id);
    forall x
      ensures forall u :: u in Lookup(after, x) <==> u in Lookup(index, x) || (x in keys && u == id)
    {
      IndexUnderHas(index, keys, id, x);
    }
    forall u
      ensures u in Found(t, after, w) <==> u in Found(t, index, w) || (u == id && Concerns(cfg, t, w, id.term))
    {
      if u in Found(t, index, w) {
        var x :| x in Lookup(t.tokens, w) && u in Lookup(index, x);
        assert u in Lookup(after, x);
      }
      if u == id && Concerns(cfg, t, w, id.term) {
        var x :| x in Lookup(t.tokens, w) && (x == id.term || x in cfg.words(id.term));
        assert x in keys && u in Lookup(after, x);
      }
    }
  }

  // ----- seeds -----

  function Score(acc: map<nat, real>, i: nat): real {
    if i in acc then acc[i] else 0.0
  }

  function Boosted(boost: real, spec: real): real {
    boost * spec
  }

  function Raise(acc: map<nat, real>, i: nat, v: real): map<nat, real> {
    acc[i := Max(Score(acc, i), v)]
  }

  // What a word that the index lists a node under gives the node.
  function DirectValue(sc: SeedConfig, g: Graph, w: string, i: nat): real
    requires g.Valid() && i < g.Size()
  {
    Boosted(if w == g.labels[i] then sc.exactBoost else sc.partialBoost, g.spec[i])
  }

  function SubstrValue(sc: SeedConfig, g: Graph, i: nat): real
    requires g.Valid() && i < g.Size()
  {
    Max(0.0, Boosted(sc.substrBoost, g.spec[i]))
  }

  function Direct(sc: SeedConfig, g: Graph, acc: map<nat, real>, w: string, ids: seq<NodeId>): map<nat, real>
    requires g.Valid()
  {
    if ids == [] then acc
    else
      var before, id := Direct(sc, g, acc, w, ids[..|ids| - 1]), ids[|ids| - 1];
      if id !in g.nodeToIdx then before
      else Raise(before, g.nodeToIdx[id], DirectValue(sc, g, w, g.nodeToIdx[id]))
  }

  function Numbers(g: Graph, ids: set<NodeId>): set<nat>
    requires g.Valid()
    ensures forall i :: i in Numbers(g, ids) ==> i < g.Size()
  {
    set id | id in ids && id in g.nodeToIdx :: g.nodeToIdx[id]
  }

  // Substring seeds only go to nodes without a score.
  function Substr(sc: SeedConfig, g: Graph, acc: map<nat, real>, ids: set<NodeId>): map<nat, real>
    requires g.Valid()
  {
    acc + map i | i in Numbers(g, ids) - acc.Keys :: SubstrValue(sc, g, i)
  }

  function SeedWord(sc: SeedConfig, g: Graph, t: Terms, acc: map<nat, real>, w: string): (map<nat, real>, Terms)
    requires g.Valid()
  {
    if w in sc.stopwords then (acc, t)
    else
      var direct := Direct(sc, g, acc, w, Lookup(g.index, w));
      if t.doSubstr && |w| >= SUBSTR_MIN then
        var (ids, r) := Substring(t, g.index, w);
        (Substr(sc, g, direct, ids), r)
      else (direct, t)
  }

  // Each word once, where it first occurs.
  function SeedWords(sc: SeedConfig, g: Graph, t: Terms, words: seq<string>): (map<nat, real>, Terms)
    requires g.Valid()
  {
    if words == [] then (map[], t)
    else
      var init, w := words[..|words| - 1], words[|words| - 1];
      var (acc, r) := SeedWords(sc, g, t, init);
      if w in init then (acc, r) else SeedWord(sc, g, r, acc, w)
  }

  // ----- what the seeds are -----

  predicate Listed(g: Graph, ids: seq<NodeId>, i: nat) {
    exists id :: id in ids && id in g.nodeToIdx && g.nodeToIdx[id] == i
  }

  predicate DirectTo(sc: SeedConfig, g: Graph, w: string, i: nat) {
    w !in sc.stopwords && Listed(g, Lookup(g.index, w), i)
  }

  predicate SubstrTo(sc: SeedConfig, g: Graph, t: Terms, w: string, i: nat)
    requires g.Valid()
  {
    w !in sc.stopwords && t.doSubstr && |w| >= SUBSTR_MIN && i in Numbers(g, Found(t, g.index, w))
  }

  predicate Reaches(sc: SeedConfig, g: Graph, t: Terms, w: string, i: nat)
    requires g.Valid()
  {
    DirectTo(sc, g, w, i) || SubstrTo(sc, g, t, w, i)
  }

  // The first word to reach the node reaches it as a substring only.
  predicate SubstrFirst(sc: SeedConfig, g: Graph, t: Terms, words: seq<string>, i: nat)
    requires g.Valid()
  {
    exists k :: 0 <= k < |words| && FirstAt(sc, g, t, words, i, k) && !DirectTo(sc, g, words[k], i)
  }

  predicate FirstAt(sc: SeedConfig, g: Graph, t: Terms, words: seq<string>, i: nat, k: nat)
    requires g.Valid() && k < |words|
  {
    Reaches(sc, g, t, words[k], i) && forall j :: 0 <= j < k ==> !Reaches(sc, g, t, words[j], i)
  }

  predicate Reached(sc: SeedConfig, g: Graph, t: Terms, words: seq<string>, i: nat)
    requires g.Valid()
  {
    exists w :: w in words && Reaches(sc, g, t, w, i)
  }

  // A value on offer: a direct one from any word, or the substring one when
  // it came first.
  ghost predicate SeedOffer(sc: SeedConfig, g: Graph, t: Terms, words: seq<string>, i: nat, v: real)
    requires g.Valid() && i < g.Size()
  {
    || (SubstrFirst(sc, g, t, words, i) && v == SubstrValue(sc, g, i))
    || exists w :: w in words && DirectTo(sc, g, w, i) && v == DirectValue(sc, g, w, i)
  }

  lemma {:induction false} DirectAt(sc: SeedConfig, g: Graph, acc: map<nat, real>, w: string, ids: seq<NodeId>, i: nat)
    requires g.Valid() && i < g.Size()
    ensures var r := Direct(sc, g, acc, w, ids);
            && (i in r <==> i in acc || Listed(g, ids, i))
            && Score(r, i) == if Listed(g, ids, i) then Max(Score(acc, i), DirectValue(sc, g, w, i)) else Score(acc, i)
  {
    hide DirectValue, Graph.Valid;
    if ids == [] {
    } else {
      var init, id := ids[..|ids| - 1], ids[|ids| - 1];
      DirectAt(sc, g, acc, w, init, i);
      assert ids == init + [id];
      assert Listed(g, ids, i) <==> Listed(g, init, i) || (id in g.nodeToIdx && g.nodeToIdx[id] == i);
    }
  }

  // One word's effect on one node.
  lemma SeedWordAt(sc: SeedConfig, g: Graph, t: Terms, acc: map<nat, real>, w: string, i: nat)
    requires g.Valid() && i < g.Size() && Fresh(t, g.index)
    ensures var (r, u) := SeedWord(sc, g, t, acc, w);
            && (i in r <==> i in acc || Reaches(sc, g, t, w, i))
            && Fresh(u, g.index) && u == t.(cache := u.cache)
            && Score(r, i) == if DirectTo(sc, g, w, i) then Max(Score(acc, i), DirectValue(sc, g, w, i))
                              else if SubstrTo(sc, g, t, w, i) && i !in acc then SubstrValue(sc, g, i)
                              else Score(acc, i)
  {
    hide DirectValue, SubstrValue, Graph.Valid, Found, Listed, Direct, Fresh;
    DirectAt(sc, g, acc, w, Lookup(g.index, w), i);
    SubstringFresh(t, g.index, w);
  }

  lemma SameReach(sc: SeedConfig, g: Graph, t: Terms, u: Terms, w: string, i: nat)
    requires g.Valid() && u == t.(cache := u.cache)
    ensures SubstrTo(sc, g, u, w, i) <==> SubstrTo(sc, g, t, w, i)
  {
  }

  lemma FirstSnoc(sc: SeedConfig, g: Graph, t: Terms, words: seq<string>, i: nat)
    requires g.Valid() && words != []
    ensures var init, w := words[..|words| - 1], words[|words| - 1];
            && (Reached(sc, g, t, words, i) <==> Reached(sc, g, t, init, i) || Reaches(sc, g, t, w, i))
            && (SubstrFirst(sc, g, t, words, i) <==>
                || SubstrFirst(sc, g, t, init, i)
                || (!Reached(sc, g, t, init, i) && Reaches(sc, g, t, w, i) && !DirectTo(sc, g, w, i)))
  {
    hide Reaches, DirectTo, Graph.Valid;
    var init, w := words[..|words| - 1], words[|words| - 1];
    assert words == init + [w];
    forall k: nat | k < |init|
      ensures FirstAt(sc, g, t, words, i, k) <==> FirstAt(sc, g, t, init, i, k)
    {
    }
    if SubstrFirst(sc, g, t, init, i) {
      var k :| 0 <= k < |init| && FirstAt(sc, g, t, init, i, k) && !DirectTo(sc, g, init[k], i);
      assert FirstAt(sc, g, t, words, i, k) && words[k] == init[k];
    }
    assert FirstAt(sc, g, t, words, i, |init|) <==> Reaches(sc, g, t, w, i) && !Reached(sc, g, t, init, i) by {
      if Reached(sc, g, t, init, i) {
        var x :| x in init && Reaches(sc, g, t, x, i);
        var j :| 0 <= j < |init| && init[j] == x;
        assert Reaches(sc, g, t, words[j], i);
      }
    }
  }

  lemma OffersSnoc(sc: SeedConfig, g: Graph, t: Terms, words: seq<string>, i: nat, v: real)
    requires g.Valid() && i < g.Size() && words != []
    ensures var init, w := words[..|words| - 1], words[|words| - 1];
            SeedOffer(sc, g, t, words, i, v) <==>
            || SeedOffer(sc, g, t, init, i, v)
            || (DirectTo(sc, g, w, i) && v == DirectValue(sc, g, w, i))
            || (!Reached(sc, g, t, init, i) && Reaches(sc, g, t, w, i) && !DirectTo(sc, g, w, i) &&
               v == SubstrValue(sc, g, i))
  {
    hide Reaches, DirectTo, DirectValue, SubstrValue, Graph.Valid, SubstrFirst, Reached;
    var init, w := words[..|words| - 1], words[|words| - 1];
    assert words == init + [w];
    FirstSnoc(sc, g, t, words, i);
  }

  // For every word list and every node: the node is a seed exactly when some
  // word reaches it, and its score is the maximum on offer, and of 0.
  lemma {:induction false} SeedsMeaning(sc: SeedConfig, g: Graph, t: Terms, words: seq<string>, i: nat)
    requires g.Valid() && i < g.Size() && Fresh(t, g.index)
    ensures var (r, u) := SeedWords(sc, g, t, words);
            && Fresh(u, g.index) && u == t.(cache := u.cache)
            && (i in r <==> Reached(sc, g, t, words, i))
            && 0.0 <= Score(r, i) && (Score(r, i) == 0.0 || SeedOffer(sc, g, t, words, i, Score(r, i)))
            && forall v :: SeedOffer(sc, g, t, words, i, v) ==> v <= Score(r, i)
  {
    hide Fresh, Graph.Valid, SeedWord, DirectValue, SubstrTo, DirectTo, Reached, SeedOffer, Boosted;
    if words == [] {
      NothingReached(sc, g, t, i);
    } else {
      var init, w := words[..|words| - 1], words[|words| - 1];
      SeedsMeaning(sc, g, t, init, i);
      var (acc, u) := SeedWords(sc, g, t, init);
      FirstSnoc(sc, g, t, words, i);
      forall v
        ensures SeedOffer(sc, g, t, words, i, v) <==>
                || SeedOffer(sc, g, t, init, i, v)
                || (DirectTo(sc, g, w, i) && v == DirectValue(sc, g, w, i))
                || (!Reached(sc, g, t, init, i) && Reaches(sc, g, t, w, i) && !DirectTo(sc, g, w, i) &&
                   v == SubstrValue(sc, g, i))
      {
        OffersSnoc(sc, g, t, words, i, v);
      }
      if w in init {
        SeenWord(sc, g, t, init, w, i);
      } else {
        SeedWordAt(sc, g, u, acc, w, i);
        SameReach(sc, g, t, u, w, i);
      }
    }
  }

  lemma NothingReached(sc: SeedConfig, g: Graph, t: Terms, i: nat)
    requires g.Valid() && i < g.Size()
    ensures !Reached(sc, g, t, [], i) && forall v :: !SeedOffer(sc, g, t, [], i, v)
  {
  }

  lemma SeenWord(sc: SeedConfig, g: Graph, t: Terms, words: seq<string>, w: string, i: nat)
    requires g.Valid() && i < g.Size() && w in words
    ensures Reaches(sc, g, t, w, i) ==> Reached(sc, g, t, words, i)
    ensures DirectTo(sc, g, w, i) ==> SeedOffer(sc, g, t, words, i, DirectValue(sc, g, w, i))
  {
  }

  lemma {:induction false} DirectInRange(sc: SeedConfig, g: Graph, acc: map<nat, real>, w: string, ids: seq<NodeId>)
    requires g.Valid() && forall i :: i in acc ==> i < g.Size()
    ensures forall i :: i in Direct(sc, g, acc, w, ids) ==> i < g.Size()
  {
    if ids == [] {
    } else {
      DirectInRange(sc, g, acc, w, ids[..|ids| - 1]);
    }
  }

  lemma {:induction false} SeedsInRange(sc: SeedConfig, g: Graph, t: Terms, words: seq<string>)
    requires g.Valid() && Fresh(t, g.index)
    ensures var (r, u) := SeedWords(sc, g, t, words);
            Fresh(u, g.index) && forall i :: i in r ==> i < g.Size()
  {
    hide Fresh, Direct, Graph.Valid, Found;
    if words == [] {
    } else {
      var init, w := words[..|words| - 1], words[|words| - 1];
      SeedsInRange(sc, g, t, init);
      var (acc, u) := SeedWords(sc, g, t, init);
      DirectInRange(sc, g, acc, w, Lookup(g.index, w));
      SubstringFresh(u, g.index, w);
    }
  }

  // ----- the order of the words -----

  // One word reaches the node as a substring only, and gives it more than
  // another word gives it directly.
  ghost predicate Inverted(sc: SeedConfig, g: Graph, t: Terms, i: nat, w: string, x: string)
    requires g.Valid() && i < g.Size()
  {
    && SubstrTo(sc, g, t, w, i) && !DirectTo(sc, g, w, i) && DirectTo(sc, g, x, i)
    && Max(0.0, DirectValue(sc, g, x, i)) < SubstrValue(sc, g, i)
  }

  ghost predicate SomeInverted(sc: SeedConfig, g: Graph, t: Terms)
    requires g.Valid()
  {
    exists i: nat, w, x :: i < g.Size() && Inverted(sc, g, t, i, w, x)
  }

  ghost predicate SameWords(words: seq<string>, others: seq<string>) {
    forall w :: w in words <==> w in others
  }

  // The seeds depend on which words are asked, not on their order.
  ghost predicate OrderFree(sc: SeedConfig, g: Graph, t: Terms)
    requires g.Valid()
  {
    forall words, others :: SameWords(words, others) ==>
      SeedWords(sc, g, t, words).0 == SeedWords(sc, g, t, others).0
  }

  lemma {:induction false} SomeFirst(sc: SeedConfig, g: Graph, t: Terms, words: seq<string>, i: nat)
    requires g.Valid() && Reached(sc, g, t, words, i)
    ensures SubstrFirst(sc, g, t, words, i) || exists w :: w in words && DirectTo(sc, g, w, i)
  {
    hide Reaches, DirectTo, SubstrFirst, Reached;
    if words == [] {
      NoneReached(sc, g, t, i);
    } else {
      FirstSnoc(sc, g, t, words, i);
      if Reached(sc, g, t, words[..|words| - 1], i) {
        SomeFirst(sc, g, t, words[..|words| - 1], i);
        assert forall w :: w in words[..|words| - 1] ==> w in words;
      } else {
        assert words[|words| - 1] in words;
      }
    }
  }

  lemma NoneReached(sc: SeedConfig, g: Graph, t: Terms, i: nat)
    requires g.Valid()
    ensures !Reached(sc, g, t, [], i)
  {
  }

  lemma FirstReaches(sc: SeedConfig, g: Graph, t: Terms, words: seq<string>, i: nat) returns (w: string)
    requires g.Valid() && SubstrFirst(sc, g, t, words, i)
    ensures w in words && SubstrTo(sc, g, t, w, i) && !DirectTo(sc, g, w, i)
  {
    var k :| 0 <= k < |words| && FirstAt(sc, g, t, words, i, k) && !DirectTo(sc, g, words[k], i);
    w := words[k];
  }

  lemma NoLowerScore(sc: SeedConfig, g: Graph, t: Terms, words: seq<string>, others: seq<string>, i: nat)
    requires g.Valid() && i < g.Size() && Fresh(t, g.index) && !SomeInverted(sc, g, t) && SameWords(words, others)
    ensures i in SeedWords(sc, g, t, others).0 <==> i in SeedWords(sc, g, t, words).0
    ensures Score(SeedWords(sc, g, t, others).0, i) <= Score(SeedWords(sc, g, t, words).0, i)
  {
    hide Fresh, Graph.Valid, SeedWords, DirectTo, DirectValue, SubstrTo, SubstrValue, SubstrFirst;
    SeedsMeaning(sc, g, t, words, i);
    SeedsMeaning(sc, g, t, others, i);
    var best := Score(SeedWords(sc, g, t, others).0, i);
    if best == 0.0 {
    } else if SubstrFirst(sc, g, t, others, i) && best == SubstrValue(sc, g, i) && !SubstrFirst(sc, g, t, words, i) {
      var w := FirstReaches(sc, g, t, others, i);
      SomeFirst(sc, g, t, words, i);
      var x :| x in words && DirectTo(sc, g, x, i);
      assert !Inverted(sc, g, t, i, w, x);
      assert SeedOffer(sc, g, t, words, i, DirectValue(sc, g, x, i));
    } else {
      assert SeedOffer(sc, g, t, words, i, best);
    }
  }

  lemma SameForAnyOrder(sc: SeedConfig, g: Graph, t: Terms, words: seq<string>, others: seq<string>)
    requires g.Valid() && Fresh(t, g.index) && !SomeInverted(sc, g, t) && SameWords(words, others)
    ensures SeedWords(sc, g, t, words).0 == SeedWords(sc, g, t, others).0
  {
    hide Fresh, Graph.Valid, SeedWords, SomeInverted;
    SeedsInRange(sc, g, t, words);
    SeedsInRange(sc, g, t, others);
    var r, s := SeedWords(sc, g, t, words).0, SeedWords(sc, g, t, others).0;
    forall i: nat
      ensures (i in r <==> i in s) && (i in r ==> r[i] == s[i])
    {
      if i < g.Size() {
        NoLowerScore(sc, g, t, words, others, i);
        NoLowerScore(sc, g, t, others, words, i);
      }
    }
  }

  lemma OrderShows(sc: SeedConfig, g: Graph, t: Terms, i: nat, w: string, x: string)
    requires g.Valid() && i < g.Size() && Fresh(t, g.index) && Inverted(sc, g, t, i, w, x)
    ensures SeedWords(sc, g, t, [w, x]).0 != SeedWords(sc, g, t, [x, w]).0
  {
    hide Fresh, Graph.Valid, SeedWords, DirectTo, DirectValue, SubstrTo, SubstrValue;
    SeedsMeaning(sc, g, t, [w, x], i);
    SeedsMeaning(sc, g, t, [x, w], i);
    assert FirstAt(sc, g, t, [w, x], i, 0) && !DirectTo(sc, g, [w, x][0], i);
    assert SeedOffer(sc, g, t, [w, x], i, SubstrValue(sc, g, i));
    assert Reaches(sc, g, t, [x, w][0], i);
    assert !SubstrFirst(sc, g, t, [x, w], i);
  }

  // The order of the words is free exactly when no node gets more as a
  // substring than directly.
  lemma OrderFreeIff(sc: SeedConfig, g: Graph, t: Terms)
    requires g.Valid() && Fresh(t, g.index)
    ensures OrderFree(sc, g, t) <==> !SomeInverted(sc, g, t)
  {
    hide Graph.Valid, Fresh, SeedWords, Inverted;
    if SomeInverted(sc, g, t) {
      var i: nat, w, x :| i < g.Size() && Inverted(sc, g, t, i, w, x);
      OrderShows(sc, g, t, i, w, x);
      assert SameWords([w, x], [x, w]);
    } else {
      forall words, others | SameWords(words, others)
        ensures SeedWords(sc, g, t, words).0 == SeedWords(sc, g, t, others).0
      {
        SameForAnyOrder(sc, g, t, words, others);
      }
    }
  }

  // The boosts of the default configuration fall from exact to substring.
  ghost predicate Graded(sc: SeedConfig, g: Graph) {
    0.0 <= sc.substrBoost <= sc.partialBoost && sc.substrBoost <= sc.exactBoost && forall s :: s in g.spec ==> 0.0 <= s
  }

  lemma ScaleLess(a: real, b: real, spec: real)
    requires 0.0 <= a <= b && 0.0 <= spec
    ensures 0.0 <= Boosted(a, spec) <= Boosted(b, spec)
  {
    ProductNonNegative(a, spec);
    ProductNonNegative(b - a, spec);
    assert (b - a) * spec == b * spec - a * spec;
  }

  // Such boosts invert nothing, on any graph.
  lemma GradedOrderFree(sc: SeedConfig, g: Graph, t: Terms)
    requires g.Valid() && Fresh(t, g.index) && Graded(sc, g)
    ensures OrderFree(sc, g, t)
  {
    hide Graph.Valid, Fresh, SeedWords, OrderFree, Boosted;
    OrderFreeIff(sc, g, t);
    forall i: nat, w, x | i < g.Size()
      ensures !Inverted(sc, g, t, i, w, x)
    {
      SpecAt(g, i);
      ScaleLess(sc.substrBoost, sc.partialBoost, g.spec[i]);
      ScaleLess(sc.substrBoost, sc.exactBoost, g.spec[i]);
    }
  }

  lemma SpecAt(g: Graph, i: nat)
    requires g.Valid() && i < g.Size()
    ensures i < |g.spec| && g.spec[i] in g.spec
  {
  }

  // ----- what loading makes of the tables -----

  // The labels counted so far, in some order, the saved tokens, and no cache.
  function Reloaded(g: Graph, t: Terms, order: seq<string>): Terms {
    Terms(g.freq.Keys, order, t.tokens, map[], |order| <= TERMS_MAX)
  }

  lemma SameFound(t: Terms, u: Terms, index: Index, w: string)
    requires t.tokens == u.tokens
    ensures Found(t, index, w) == Found(u, index, w)
  {
  }

  // Seeds read the node numbers, labels, specificities and the index only.
  lemma {:induction false} SameGraphSeeds(sc: SeedConfig, g: Graph, h: Graph, t: Terms, words: seq<string>)
    requires g.Valid() && h.Valid() && g.nodeToIdx == h.nodeToIdx && g.idxToNode == h.idxToNode
    requires g.labels == h.labels && g.spec == h.spec && g.index == h.index
    ensures SeedWords(sc, g, t, words) == SeedWords(sc, h, t, words)
  {
    hide Graph.Valid, Substring;
    if words == [] {
    } else {
      var init, w := words[..|words| - 1], words[|words| - 1];
      SameGraphSeeds(sc, g, h, t, init);
      var (acc, u) := SeedWords(sc, g, t, init);
      SameDirect(sc, g, h, acc, w, Lookup(g.index, w));
      var (ids, v) := Substring(u, g.index, w);
      SameSubstr(sc, g, h, Direct(sc, g, acc, w, Lookup(g.index, w)), ids);
    }
  }

  lemma {:induction false} SameDirect(sc: SeedConfig, g: Graph, h: Graph, acc: map<nat, real>, w: string,
                                      ids: seq<NodeId>)
    requires g.Valid() && h.Valid() && g.nodeToIdx == h.nodeToIdx && g.labels == h.labels && g.spec == h.spec
    ensures Direct(sc, g, acc, w, ids) == Direct(sc, h, acc, w, ids)
  {
    if ids == [] {
    } else {
      SameDirect(sc, g, h, acc, w, ids[..|ids| - 1]);
    }
  }

  lemma SameSubstr(sc: SeedConfig, g: Graph, h: Graph, acc: map<nat, real>, ids: set<NodeId>)
    requires g.Valid() && h.Valid() && g.nodeToIdx == h.nodeToIdx && g.spec == h.spec
    ensures Substr(sc, g, acc, ids) == Substr(sc, h, acc, ids)
  {
    assert Numbers(g, ids) == Numbers(h, ids);
  }

  // ----- the token index outlives a load -----

  // The tokens are those of the node list, and the labels that can name a
  // node are known exactly when they do.
  ghost predicate Tabled(sc: SeedConfig, t: Terms, ids: seq<NodeId>) {
    t.tokens == TermsOf(sc, ids).tokens && forall x: string :: |x| >= 2 ==> (x in t.exact <==> Names(ids, x))
  }

  lemma IndexKeepsTabled(sc: SeedConfig, t: Terms, ids: seq<NodeId>, id: NodeId)
    requires Tabled(sc, t, ids) && (id.EntityId? ==> |id.term| >= 2)
    ensures Tabled(sc, if id.EntityId? then IndexTerm(sc, t, id.term) else t, ids + [id])
  {
    var more := ids + [id];
    assert more[..|more| - 1] == ids;
    TokensRebuilt(sc, ids);
    forall x
      ensures Names(more, x) <==> Names(ids, x) || (id.EntityId? && id.term == x)
    {
    }
  }

  lemma {:induction false} IndexNodesTabled(sc: SeedConfig, t: Terms, ids: seq<NodeId>, more: seq<NodeId>)
    requires Tabled(sc, t, ids) && forall id :: id in more && id.EntityId? ==> |id.term| >= 2
    ensures Tabled(sc, IndexNodes(sc, t, more), ids + more)
  {
    hide Tabled, IndexTerm;
    if more == [] {
      assert ids + more == ids;
    } else {
      var init, last := more[..|more| - 1], more[|more| - 1];
      assert more == init + [last];
      IndexNodesTabled(sc, t, ids, init);
      IndexKeepsTabled(sc, IndexNodes(sc, t, init), ids + init, last);
      assert ids + more == ids + init + [last];
    }
  }

  ghost predicate LabelsCounted(g: Graph) {
    forall x: string :: |x| >= 2 ==> (x in g.freq <==> Names(g.idxToNode, x))
  }

  lemma ReloadTabled(sc: SeedConfig, g: Graph, t: Terms, order: seq<string>)
    requires Tabled(sc, t, g.idxToNode) && LabelsCounted(g)
    ensures Tabled(sc, Reloaded(g, t, order), g.idxToNode)
  {
  }
}
