/** Exactly when reloading the label tables, as compaction does, shows in the
    seeds of some query. */
module Reloading {
  import opened Graph
  import opened Seeding

  // A word that the substring lookup is asked for.
  predicate Askable(sc: SeedConfig, w: string) {
    w !in sc.stopwords && |w| >= SUBSTR_MIN
  }

  // What a lookup adds to the nodes listed under the word itself.
  function Unlisted(g: Graph, w: string, ids: set<NodeId>): set<NodeId> {
    set id | id in ids && id in g.nodeToIdx && id !in Lookup(g.index, w)
  }

  // A cached answer may be stale in nodes that the word finds directly anyway.
  ghost predicate Harmless(sc: SeedConfig, g: Graph, t: Terms) {
    forall w :: w in t.cache && Askable(sc, w) ==>
      Unlisted(g, w, t.cache[w]) == Unlisted(g, w, Found(t, g.index, w))
  }

  ghost predicate Twins(t: Terms, u: Terms) {
    t.tokens == u.tokens && t.doSubstr == u.doSubstr
  }

  // The same of all answers, next to those of fresh tables: an uncached answer
  // is what it would be.
  lemma HarmlessAnswers(sc: SeedConfig, g: Graph, t: Terms, u: Terms)
    requires Twins(t, u) && Fresh(u, g.index)
    ensures Harmless(sc, g, t) <==>
            forall w :: Askable(sc, w) ==>
              Unlisted(g, w, Substring(t, g.index, w).0) == Unlisted(g, w, Substring(u, g.index, w).0)
  {
    hide Found, Unlisted;
    forall w
      ensures Substring(u, g.index, w).0 == Found(t, g.index, w)
      ensures Substring(t, g.index, w).0 == if w in t.cache then t.cache[w] else Found(t, g.index, w)
    {
      SameFound(t, u, g.index, w);
    }
    if Harmless(sc, g, t) {
    } else {
      var w :| w in t.cache && Askable(sc, w) && Unlisted(g, w, t.cache[w]) != Unlisted(g, w, Found(t, g.index, w));
      assert Substring(t, g.index, w).0 == t.cache[w];
    }
  }

  lemma FreshIsHarmless(sc: SeedConfig, g: Graph, t: Terms)
    requires Fresh(t, g.index)
    ensures Harmless(sc, g, t)
  {
  }

  // ----- lookups that add the same give the same seeds -----

  lemma ListedSeeded(sc: SeedConfig, g: Graph, acc: map<nat, real>, w: string, id: NodeId)
    requires g.Valid() && id in g.nodeToIdx && id in Lookup(g.index, w)
    ensures g.nodeToIdx[id] in Direct(sc, g, acc, w, Lookup(g.index, w))
  {
    DirectAt(sc, g, acc, w, Lookup(g.index, w), g.nodeToIdx[id]);
  }

  lemma SubstrUnlisted(sc: SeedConfig, g: Graph, acc: map<nat, real>, w: string, ids: set<NodeId>, others: set<NodeId>)
    requires g.Valid() && Unlisted(g, w, ids) <= Unlisted(g, w, others)
    ensures var direct := Direct(sc, g, acc, w, Lookup(g.index, w));
            Numbers(g, ids) - direct.Keys <= Numbers(g, others) - direct.Keys
  {
    hide Graph.Valid, Direct;
    var direct := Direct(sc, g, acc, w, Lookup(g.index, w));
    forall id | id in ids && id in g.nodeToIdx && g.nodeToIdx[id] !in direct
      ensures id in others
    {
      if id in Lookup(g.index, w) { ListedSeeded(sc, g, acc, w, id); }
      assert id in Unlisted(g, w, ids);
    }
  }

  lemma SameUnlisted(sc: SeedConfig, g: Graph, acc: map<nat, real>, w: string, ids: set<NodeId>, others: set<NodeId>)
    requires g.Valid() && Unlisted(g, w, ids) == Unlisted(g, w, others)
    ensures var direct := Direct(sc, g, acc, w, Lookup(g.index, w));
            Substr(sc, g, direct, ids) == Substr(sc, g, direct, others)
  {
    hide Graph.Valid, Direct, Numbers, Unlisted;
    SubstrUnlisted(sc, g, acc, w, ids, others);
    SubstrUnlisted(sc, g, acc, w, others, ids);
    var direct := Direct(sc, g, acc, w, Lookup(g.index, w));
    assert Numbers(g, ids) - direct.Keys == Numbers(g, others) - direct.Keys;
  }

  lemma AskHarmless(sc: SeedConfig, g: Graph, t: Terms, w: string)
    requires Harmless(sc, g, t) && Askable(sc, w)
    ensures var (ids, r) := Substring(t, g.index, w);
            && Unlisted(g, w, ids) == Unlisted(g, w, Found(t, g.index, w))
            && Harmless(sc, g, r) && r == t.(cache := r.cache)
  {
    hide Unlisted;
    var r := Substring(t, g.index, w).1;
    forall x
      ensures Found(r, g.index, x) == Found(t, g.index, x)
    {
      SameFound(r, t, g.index, x);
    }
  }

  lemma HarmlessWord(sc: SeedConfig, g: Graph, t: Terms, u: Terms, acc: map<nat, real>, w: string)
    requires g.Valid() && Twins(t, u) && Harmless(sc, g, t) && Harmless(sc, g, u)
    ensures SeedWord(sc, g, t, acc, w).0 == SeedWord(sc, g, u, acc, w).0
    ensures var r, s := SeedWord(sc, g, t, acc, w).1, SeedWord(sc, g, u, acc, w).1;
            Twins(r, s) && Harmless(sc, g, r) && Harmless(sc, g, s)
  {
    hide Graph.Valid, Direct, Substr, Substring, Harmless, Unlisted, Found;
    if t.doSubstr && Askable(sc, w) {
      AskHarmless(sc, g, t, w);
      AskHarmless(sc, g, u, w);
      SameFound(t, u, g.index, w);
      SameUnlisted(sc, g, acc, w, Substring(t, g.index, w).0, Substring(u, g.index, w).0);
    }
  }

  // Harmless tables with the same tokens and switch give every word list the
  // same seeds.
  lemma {:induction false} HarmlessSeeds(sc: SeedConfig, g: Graph, t: Terms, u: Terms, words: seq<string>)
    requires g.Valid() && Twins(t, u) && Harmless(sc, g, t) && Harmless(sc, g, u)
    ensures SeedWords(sc, g, t, words).0 == SeedWords(sc, g, u, words).0
    ensures var r, s := SeedWords(sc, g, t, words).1, SeedWords(sc, g, u, words).1;
            Twins(r, s) && Harmless(sc, g, r) && Harmless(sc, g, s)
  {
    hide Graph.Valid, SeedWord, Harmless, Twins;
    if words == [] {
    } else {
      var init, w := words[..|words| - 1], words[|words| - 1];
      HarmlessSeeds(sc, g, t, u, init);
      var (acc, r) := SeedWords(sc, g, t, init);
      HarmlessWord(sc, g, r, SeedWords(sc, g, u, init).1, acc, w);
    }
  }

  // ----- one word shows what its lookup adds -----

  lemma NumberOf(g: Graph, id: NodeId, ids: set<NodeId>)
    requires g.Valid() && id in g.nodeToIdx
    ensures g.nodeToIdx[id] < g.Size() && (g.nodeToIdx[id] in Numbers(g, ids) <==> id in ids)
  {
    assert forall x :: x in g.nodeToIdx ==> g.idxToNode[g.nodeToIdx[x]] == x;
  }

  lemma ListedOf(g: Graph, id: NodeId, ids: seq<NodeId>)
    requires g.Valid() && id in g.nodeToIdx
    ensures Listed(g, ids, g.nodeToIdx[id]) <==> id in ids
  {
    assert forall x :: x in g.nodeToIdx ==> g.idxToNode[g.nodeToIdx[x]] == x;
  }

  // Whether a word seeds a node, on tables of any kind.
  lemma WordSeeds(sc: SeedConfig, g: Graph, t: Terms, acc: map<nat, real>, w: string, id: NodeId)
    requires g.Valid() && id in g.nodeToIdx && w !in sc.stopwords && g.nodeToIdx[id] !in acc
    ensures g.nodeToIdx[id] in SeedWord(sc, g, t, acc, w).0 <==>
            id in Lookup(g.index, w) || (t.doSubstr && |w| >= SUBSTR_MIN && id in Substring(t, g.index, w).0)
  {
    hide Graph.Valid, Direct, Numbers, SubstrValue, Substring, Listed;
    var i, ids := g.nodeToIdx[id], Lookup(g.index, w);
    NumberOf(g, id, Substring(t, g.index, w).0);
    ListedOf(g, id, ids);
    DirectAt(sc, g, acc, w, ids, i);
  }

  lemma OneWord(sc: SeedConfig, g: Graph, t: Terms, w: string)
    requires g.Valid()
    ensures SeedWords(sc, g, t, [w]) == SeedWord(sc, g, t, map[], w)
  {
    hide Graph.Valid, SeedWord;
    assert [w][..0] == [] && SeedWords(sc, g, t, []) == (map[], t);
  }

  ghost predicate SameSeeds(sc: SeedConfig, g: Graph, t: Terms, u: Terms)
    requires g.Valid()
  {
    forall words :: SeedWords(sc, g, t, words).0 == SeedWords(sc, g, u, words).0
  }

  // The nodes that asking for the word alone seeds beside those listed under it.
  function Added(sc: SeedConfig, g: Graph, t: Terms, w: string): set<NodeId> {
    if t.doSubstr && Askable(sc, w) then Unlisted(g, w, Substring(t, g.index, w).0) else {}
  }

  lemma SeedsShowAdded(sc: SeedConfig, g: Graph, t: Terms, u: Terms, w: string)
    requires g.Valid() && Askable(sc, w) && SameSeeds(sc, g, t, u)
    ensures Added(sc, g, t, w) == Added(sc, g, u, w)
  {
    hide Graph.Valid, SeedWords, SeedWord, Substring;
    OneWord(sc, g, t, w);
    OneWord(sc, g, u, w);
    forall id | id in g.nodeToIdx && id !in Lookup(g.index, w)
      ensures id in Added(sc, g, t, w) <==> id in Added(sc, g, u, w)
    {
      WordSeeds(sc, g, t, map[], w, id);
      WordSeeds(sc, g, u, map[], w, id);
    }
  }

  // ----- pushing an entry out of the cache -----

  ghost function Longest(s: set<string>): (n: nat)
    ensures forall x :: x in s ==> |x| <= n
  {
    if s == {} then 0
    else
      var x :| x in s;
      var rest := Longest(s - {x});
      if |x| > rest then |x| else rest
  }

  // A word that nothing is listed, found or cached under.
  predicate Strange(sc: SeedConfig, g: Graph, t: Terms, x: string) {
    Askable(sc, x) && x !in g.index && x !in t.tokens && x !in t.cache
  }

  lemma SomeStrange(sc: SeedConfig, g: Graph, t: Terms, others: set<string>) returns (x: string)
    ensures Strange(sc, g, t, x) && x !in others
  {
    var all := sc.stopwords + g.index.Keys + t.tokens.Keys + t.cache.Keys + others;
    x := seq(SUBSTR_MIN + Longest(all) + 1, _ => 'a');
    assert x !in all;
  }

  lemma StrangeWord(sc: SeedConfig, g: Graph, t: Terms, x: string)
    requires g.Valid() && Strange(sc, g, t, x) && t.doSubstr
    ensures var kept := if |t.cache| >= CACHE_MAX then map[] else t.cache;
            SeedWord(sc, g, t, map[], x) == (map[], t.(cache := kept[x := {}]))
  {
    hide Graph.Valid;
    assert Found(t, g.index, x) == {};
    assert Substr(sc, g, map[], {}) == map[];
  }

  // Words that seed nothing and push w out of the cache.
  lemma Flush(sc: SeedConfig, g: Graph, t: Terms, w: string, asked: seq<string>, now: Terms)
    returns (words: seq<string>)
    requires g.Valid() && t.doSubstr && SeedWords(sc, g, t, asked) == (map[], now)
    requires now == t.(cache := now.cache) && w !in asked && forall x :: x in asked ==> x !in g.index
    ensures w !in words && forall x :: x in words ==> x !in g.index
    ensures var (acc, r) := SeedWords(sc, g, t, words);
            acc == map[] && r == t.(cache := r.cache) && w !in r.cache
    decreases if |now.cache| >= CACHE_MAX then 0 else CACHE_MAX - |now.cache|
  {
    hide Graph.Valid, SeedWord, Strange;
    if w !in now.cache {
      words := asked;
    } else {
      var x := SomeStrange(sc, g, now, {w} + set y | y in asked);
      StrangeWord(sc, g, now, x);
      words := asked + [x];
      assert words[..|words| - 1] == asked;
      assert x !in asked && x !in g.index by { Outside(sc, g, now, x, {w} + set y | y in asked); }
      var (acc, r) := SeedWords(sc, g, t, words);
      if |now.cache| < CACHE_MAX {
        assert r.cache.Keys == now.cache.Keys + {x};
        words := Flush(sc, g, t, w, words, r);
      }
    }
  }

  lemma Outside(sc: SeedConfig, g: Graph, t: Terms, x: string, others: set<string>)
    requires Strange(sc, g, t, x) && x !in others
    ensures forall y :: y in others ==> y != x
    ensures x !in g.index && x !in t.cache
  {
  }

  lemma {:induction false} UnlistedSilent(sc: SeedConfig, g: Graph, t: Terms, words: seq<string>)
    requires g.Valid() && !t.doSubstr && forall x :: x in words ==> x !in g.index
    ensures SeedWords(sc, g, t, words) == (map[], t)
  {
    hide Graph.Valid;
    if words == [] {
    } else {
      UnlistedSilent(sc, g, t, words[..|words| - 1]);
    }
  }

  // ----- the exact condition -----

  // Every lookup, cached or made anew, adds nothing.
  ghost predicate Silent(sc: SeedConfig, g: Graph, t: Terms) {
    forall w :: Askable(sc, w) ==>
      Unlisted(g, w, Found(t, g.index, w)) == {} && (w in t.cache ==> Unlisted(g, w, t.cache[w]) == {})
  }

  lemma {:induction false} SilentSeeds(sc: SeedConfig, g: Graph, t: Terms, u: Terms, words: seq<string>)
    requires g.Valid() && t.doSubstr && !u.doSubstr && Silent(sc, g, t)
    ensures SeedWords(sc, g, t, words).0 == SeedWords(sc, g, u, words).0
    ensures var r, s := SeedWords(sc, g, t, words).1, SeedWords(sc, g, u, words).1;
            r.doSubstr && !s.doSubstr && Silent(sc, g, r)
  {
    hide Graph.Valid, SeedWord, Silent;
    if words == [] {
    } else {
      var init, w := words[..|words| - 1], words[|words| - 1];
      SilentSeeds(sc, g, t, u, init);
      var (acc, r) := SeedWords(sc, g, t, init);
      SilentWord(sc, g, r, SeedWords(sc, g, u, init).1, acc, w);
    }
  }

  lemma SilentWord(sc: SeedConfig, g: Graph, t: Terms, u: Terms, acc: map<nat, real>, w: string)
    requires g.Valid() && t.doSubstr && !u.doSubstr && Silent(sc, g, t)
    ensures SeedWord(sc, g, t, acc, w).0 == SeedWord(sc, g, u, acc, w).0
    ensures var r, s := SeedWord(sc, g, t, acc, w).1, SeedWord(sc, g, u, acc, w).1;
            r.doSubstr && !s.doSubstr && Silent(sc, g, r)
  {
    hide Graph.Valid, Direct, Substr, Unlisted, Found;
    if Askable(sc, w) {
      var ids := Substring(t, g.index, w).0;
      NothingUnlisted(sc, g, acc, w, ids);
      var r := Substring(t, g.index, w).1;
      forall x
        ensures Found(r, g.index, x) == Found(t, g.index, x)
      {
        SameFound(r, t, g.index, x);
      }
    }
  }

  lemma NothingUnlisted(sc: SeedConfig, g: Graph, acc: map<nat, real>, w: string, ids: set<NodeId>)
    requires g.Valid() && Unlisted(g, w, ids) == {}
    ensures var direct := Direct(sc, g, acc, w, Lookup(g.index, w)); Substr(sc, g, direct, ids) == direct
  {
    hide Graph.Valid, Direct;
    assert Unlisted(g, w, {}) == {} && Numbers(g, {}) == {};
    SubstrUnlisted(sc, g, acc, w, ids, {});
  }

  // A table whose switch is on seeds as one whose switch is off, for every
  // word list, exactly when its lookups add nothing.
  lemma SilentIff(sc: SeedConfig, g: Graph, t: Terms, u: Terms)
    requires g.Valid() && t.doSubstr && !u.doSubstr
    ensures SameSeeds(sc, g, t, u) <==> Silent(sc, g, t)
  {
    hide Graph.Valid, SeedWords, Unlisted, Found;
    if Silent(sc, g, t) {
      forall words
        ensures SeedWords(sc, g, t, words).0 == SeedWords(sc, g, u, words).0
      {
        SilentSeeds(sc, g, t, u, words);
      }
    } else if SameSeeds(sc, g, t, u) {
      forall w | Askable(sc, w)
        ensures Unlisted(g, w, Found(t, g.index, w)) == {} && (w in t.cache ==> Unlisted(g, w, t.cache[w]) == {})
      {
        SeedsShowAdded(sc, g, t, u, w);
        SeedsShowFound(sc, g, t, u, w);
      }
    }
  }

  // A stale answer that adds nothing does not hide what a new lookup adds:
  // enough other words clear the cache.
  lemma SeedsShowFound(sc: SeedConfig, g: Graph, t: Terms, u: Terms, w: string)
    requires g.Valid() && t.doSubstr && !u.doSubstr && SameSeeds(sc, g, t, u) && Askable(sc, w)
    ensures Unlisted(g, w, Found(t, g.index, w)) == {}
  {
    hide Graph.Valid, SeedWord, Found;
    assert SeedWords(sc, g, t, []) == (map[], t);
    var words := Flush(sc, g, t, w, [], t);
    UnlistedSilent(sc, g, u, words);
    var more, r := words + [w], SeedWords(sc, g, t, words).1;
    assert more[..|words|] == words;
    assert SeedWords(sc, g, t, more).0 == SeedWord(sc, g, r, map[], w).0;
    assert SeedWords(sc, g, u, more).0 == SeedWord(sc, g, u, map[], w).0;
    SameFound(r, t, g.index, w);
    forall id | id in Unlisted(g, w, Found(t, g.index, w))
      ensures false
    {
      WordSeeds(sc, g, r, map[], w, id);
      WordSeeds(sc, g, u, map[], w, id);
    }
  }

  lemma SameSeedsSymmetric(sc: SeedConfig, g: Graph, t: Terms, u: Terms)
    requires g.Valid()
    ensures SameSeeds(sc, g, t, u) <==> SameSeeds(sc, g, u, t)
  {
  }

  lemma {:induction false} OffWords(sc: SeedConfig, g: Graph, t: Terms, u: Terms, words: seq<string>)
    requires g.Valid() && !t.doSubstr && !u.doSubstr
    ensures SeedWords(sc, g, t, words) == (SeedWords(sc, g, u, words).0, t) && SeedWords(sc, g, u, words).1 == u
  {
    hide Graph.Valid, Direct;
    if words == [] {
    } else {
      OffWords(sc, g, t, u, words[..|words| - 1]);
    }
  }

  lemma OffSeeds(sc: SeedConfig, g: Graph, t: Terms, u: Terms)
    requires g.Valid() && !t.doSubstr && !u.doSubstr
    ensures SameSeeds(sc, g, t, u)
  {
    hide Graph.Valid, SeedWords;
    forall words
      ensures SeedWords(sc, g, t, words).0 == SeedWords(sc, g, u, words).0
    {
      OffWords(sc, g, t, u, words);
    }
  }

  // Next to fresh tables with the same tokens and switch, every word list has
  // the same seeds exactly when a stale cached answer differs only in nodes
  // that are listed under the word itself.
  lemma HarmlessIff(sc: SeedConfig, g: Graph, t: Terms, u: Terms)
    requires g.Valid() && Twins(t, u) && Fresh(u, g.index)
    ensures SameSeeds(sc, g, t, u) <==> !t.doSubstr || Harmless(sc, g, t)
  {
    hide Graph.Valid, SeedWords, Harmless, Substring, Fresh;
    FreshIsHarmless(sc, g, u);
    if !t.doSubstr {
      OffSeeds(sc, g, t, u);
    } else if Harmless(sc, g, t) {
      forall words
        ensures SeedWords(sc, g, t, words).0 == SeedWords(sc, g, u, words).0
      {
        HarmlessSeeds(sc, g, t, u, words);
      }
    } else if SameSeeds(sc, g, t, u) {
      forall w | Askable(sc, w)
        ensures Unlisted(g, w, Substring(t, g.index, w).0) == Unlisted(g, w, Substring(u, g.index, w).0)
      {
        SeedsShowAdded(sc, g, t, u, w);
      }
      HarmlessAnswers(sc, g, t, u);
    }
  }

  // Loading, as compaction does, leaves the seeds of every word list alone
  // exactly when the cache is harmless in this sense; or, if the load moves the
  // substring switch, when no lookup adds a node.
  lemma ReloadKeepsSeedsIff(sc: SeedConfig, g: Graph, t: Terms, order: seq<string>)
    requires g.Valid()
    ensures var u := Reloaded(g, t, order);
            SameSeeds(sc, g, t, u) <==>
            if t.doSubstr == u.doSubstr then !t.doSubstr || Harmless(sc, g, t)
            else Silent(sc, g, if t.doSubstr then t else u)
  {
    hide Graph.Valid, SameSeeds, Silent, Harmless;
    var u := Reloaded(g, t, order);
    if t.doSubstr == u.doSubstr {
      HarmlessIff(sc, g, t, u);
    } else {
      SameSeedsSymmetric(sc, g, t, u);
      if t.doSubstr { SilentIff(sc, g, t, u); } else { SilentIff(sc, g, u, t); }
    }
  }

  // ----- which new nodes keep the cache harmless -----

  // Only nodes are cached and listed.
  ghost predicate OnNodes(g: Graph, t: Terms) {
    && (forall w, id :: w in t.cache && id in t.cache[w] ==> id in g.nodeToIdx)
    && (forall k, id :: id in Lookup(g.index, k) ==> id in g.nodeToIdx)
  }

  function Keys(cfg: Config, id: NodeId): seq<string>
    requires id.EntityId?
  {
    [id.term] + cfg.words(id.term)
  }

  function IndexAll(cfg: Config, index: Index, ids: seq<NodeId>): Index {
    if ids == [] then index
    else
      var last := ids[|ids| - 1];
      var before := IndexAll(cfg, index, ids[..|ids| - 1]);
      if last.EntityId? then IndexUnder(before, Keys(cfg, last), last) else before
  }

  lemma {:induction false} IndexAllHas(cfg: Config, index: Index, ids: seq<NodeId>, k: string)
    ensures forall u :: u in Lookup(IndexAll(cfg, index, ids), k) <==>
              u in Lookup(index, k) || (u in ids && u.EntityId? && k in Keys(cfg, u))
  {
    hide Keys, IndexUnder;
    if ids == [] {
    } else {
      var init, last := ids[..|ids| - 1], ids[|ids| - 1];
      assert ids == init + [last];
      IndexAllHas(cfg, index, init, k);
      if last.EntityId? { IndexUnderHas(IndexAll(cfg, index, init), Keys(cfg, last), last, k); }
    }
  }

  // A label not known before empties the cache, and known ones change nothing.
  lemma {:induction false} IndexNodesCache(sc: SeedConfig, t: Terms, ids: seq<NodeId>)
    ensures var r := IndexNodes(sc, t, ids);
            && r.doSubstr == t.doSubstr && t.exact <= r.exact
            && if (forall id :: id in ids && id.EntityId? ==> id.term in t.exact) then r == t else r.cache == map[]
  {
    if ids == [] {
    } else {
      var init, last := ids[..|ids| - 1], ids[|ids| - 1];
      assert ids == init + [last];
      IndexNodesCache(sc, t, init);
    }
  }

  // The node is found under the words that its label concerns, and listed
  // under its keys.
  predicate Covered(cfg: Config, sc: SeedConfig, t: Terms, id: NodeId)
    requires id.EntityId?
  {
    forall w :: w in t.cache && Askable(sc, w) && Concerns(cfg, t, w, id.term) ==> w in Keys(cfg, id)
  }

  // After new nodes the cache is harmless exactly when one of their labels was
  // not known, which drops it, or every cached word that concerns a new node
  // is one the node is listed under.
  lemma HarmlessAfterIff(cfg: Config, sc: SeedConfig, g: Graph, t: Terms, r: Graph, ids: seq<NodeId>)
    requires Harmless(sc, g, t) && OnNodes(g, t)
    requires (forall id :: id in ids ==> id !in g.nodeToIdx) && r.index == IndexAll(cfg, g.index, ids)
    requires forall id :: id in r.nodeToIdx <==> id in g.nodeToIdx || id in ids
    ensures Harmless(sc, r, IndexNodes(sc, t, ids)) <==>
            || (exists id :: id in ids && id.EntityId? && id.term !in t.exact)
            || (forall id :: id in ids && id.EntityId? ==> Covered(cfg, sc, t, id))
  {
    hide Harmless, OnNodes, Covered, Unlisted, Found, IndexAll, IndexNodes;
    IndexNodesCache(sc, t, ids);
    if forall id :: id in ids && id.EntityId? ==> id.term in t.exact {
      HarmlessKnown(cfg, sc, g, t, r, ids);
    } else {
      EmptyHarmless(sc, r, IndexNodes(sc, t, ids));
    }
  }

  lemma EmptyHarmless(sc: SeedConfig, g: Graph, t: Terms)
    requires t.cache == map[]
    ensures Harmless(sc, g, t)
  {
  }

  lemma HarmlessKnown(cfg: Config, sc: SeedConfig, g: Graph, t: Terms, r: Graph, ids: seq<NodeId>)
    requires Harmless(sc, g, t) && OnNodes(g, t)
    requires (forall id :: id in ids ==> id !in g.nodeToIdx) && r.index == IndexAll(cfg, g.index, ids)
    requires forall id :: id in r.nodeToIdx <==> id in g.nodeToIdx || id in ids
    ensures Harmless(sc, r, t) <==> forall id :: id in ids && id.EntityId? ==> Covered(cfg, sc, t, id)
  {
    hide Unlisted, Found, IndexAll, Keys, Concerns, OnNodes;
    forall w | w in t.cache && Askable(sc, w)
      ensures Unlisted(r, w, t.cache[w]) == Unlisted(r, w, Found(t, r.index, w)) <==>
              forall id :: id in ids && id.EntityId? && Concerns(cfg, t, w, id.term) ==> w in Keys(cfg, id)
    {
      UnlistedAfter(cfg, g, t, r, ids, w);
    }
  }

  // Cached and found, before and after: what is found gains the new nodes
  // that the word concerns and that are not listed under it.
  lemma UnlistedAfter(cfg: Config, g: Graph, t: Terms, r: Graph, ids: seq<NodeId>, w: string)
    requires OnNodes(g, t) && w in t.cache && Unlisted(g, w, t.cache[w]) == Unlisted(g, w, Found(t, g.index, w))
    requires (forall id :: id in ids ==> id !in g.nodeToIdx) && r.index == IndexAll(cfg, g.index, ids)
    requires forall id :: id in r.nodeToIdx <==> id in g.nodeToIdx || id in ids
    ensures Unlisted(r, w, t.cache[w]) == Unlisted(r, w, Found(t, r.index, w)) <==>
            forall id :: id in ids && id.EntityId? && Concerns(cfg, t, w, id.term) ==> w in Keys(cfg, id)
  {
    hide Found, IndexAll, Keys, Concerns;
    IndexAllHas(cfg, g.index, ids, w);
    FoundAll(cfg, t, g.index, ids, w);
    FoundOnNodes(g, t, w);
    var cached, before, after := t.cache[w], Found(t, g.index, w), Found(t, r.index, w);
    forall id
      ensures id in Unlisted(r, w, cached) <==> id in Unlisted(g, w, cached)
      ensures id in Unlisted(r, w, after) <==>
              || id in Unlisted(g, w, before)
              || (id in ids && id.EntityId? && Concerns(cfg, t, w, id.term) && w !in Keys(cfg, id))
    {
    }
    if Unlisted(r, w, cached) == Unlisted(r, w, after) {
      forall id | id in ids && id.EntityId? && Concerns(cfg, t, w, id.term)
        ensures w in Keys(cfg, id)
      {
        assert id in Unlisted(r, w, after) ==> id in Unlisted(g, w, cached);
      }
    } else {
      assert exists id :: id in Unlisted(r, w, after) && id !in Unlisted(g, w, before);
    }
  }

  lemma FoundOnNodes(g: Graph, t: Terms, w: string)
    requires OnNodes(g, t)
    ensures forall id :: id in Found(t, g.index, w) ==> id in g.nodeToIdx
  {
  }

  lemma FoundAll(cfg: Config, t: Terms, index: Index, ids: seq<NodeId>, w: string)
    ensures forall u :: u in Found(t, IndexAll(cfg, index, ids), w) <==>
              || u in Found(t, index, w)
              || (u in ids && u.EntityId? && Concerns(cfg, t, w, u.term))
  {
    hide IndexAll;
    var after := IndexAll(cfg, index, ids);
    forall x
      ensures forall u :: u in Lookup(after, x) <==>
                u in Lookup(index, x) || (u in ids && u.EntityId? && x in Keys(cfg, u))
    {
      IndexAllHas(cfg, index, ids, x);
    }
    forall u
      ensures u in Found(t, after, w) <==>
              u in Found(t, index, w) || (u in ids && u.EntityId? && Concerns(cfg, t, w, u.term))
    {
      if u in Found(t, index, w) {
        var x :| x in Lookup(t.tokens, w) && u in Lookup(index, x);
        assert u in Lookup(after, x);
      }
      if u in ids && u.EntityId? && Concerns(cfg, t, w, u.term) {
        var x :| x in Lookup(t.tokens, w) && (x == u.term || x in cfg.words(u.term));
        assert x in Keys(cfg, u) && u in Lookup(after, x);
      }
    }
  }
}
