/** The mutable label tables and the seeding loops, proved equal to the
    operations of module Seeding. */
module EntityTables {
  import opened Graph
  import S = Seeding

  class EntityTables {
    const config: S.SeedConfig
    var exactEntities: set<string>
    var entityTerms: seq<string>
    var tokenIndex: map<string, seq<string>>
    var substrMatchCache: map<string, set<NodeId>>
    var doSubstr: bool

    ghost function Model(): S.Terms
      reads this
    {
      S.Terms(exactEntities, entityTerms, tokenIndex, substrMatchCache, doSubstr)
    }

    constructor (config: S.SeedConfig)
      ensures Model() == S.NO_TERMS && this.config == config
    {
      this.config := config;
      exactEntities, entityTerms, tokenIndex, substrMatchCache, doSubstr := {}, [], map[], map[], true;
    }

    method IndexTokens(entity: string)
      modifies `tokenIndex
      ensures tokenIndex == IndexUnder(old(tokenIndex), config.tokens(entity), entity)
    {
      var toks := config.tokens(entity);
      var i := 0;
      while i < |toks|
        invariant 0 <= i <= |toks|
        invariant IndexUnder(tokenIndex, toks[i..], entity) == IndexUnder(old(tokenIndex), toks, entity)
      {
        assert toks[i..][0] == toks[i] && toks[i..][1..] == toks[i + 1..];
        tokenIndex := Push(tokenIndex, toks[i], entity);
        i := i + 1;
      }
    }

    // The half of indexing a new node that does not touch the entity index.
    method IndexTerm(entity: string)
      modifies this
      ensures Model() == S.IndexTerm(config, old(Model()), entity)
    {
      if entity in exactEntities { return; }
      exactEntities := exactEntities + {entity};
      entityTerms := entityTerms + [entity];
      substrMatchCache := map[];
      IndexTokens(entity);
    }

    method RebuildTokenIndex()
      modifies `tokenIndex
      ensures tokenIndex == S.RebuildTokens(config, entityTerms)
    {
      tokenIndex := map[];
      var i := 0;
      while i < |entityTerms|
        invariant 0 <= i <= |entityTerms|
        invariant tokenIndex == S.RebuildTokens(config, entityTerms[..i])
      {
        assert entityTerms[..i + 1][..i] == entityTerms[..i];
        IndexTokens(entityTerms[i]);
        i := i + 1;
      }
      assert entityTerms[..i] == entityTerms;
    }

    method SubstringSeedNodes(index: Index, word: string) returns (ids: set<NodeId>)
      modifies `substrMatchCache
      ensures (ids, Model()) == S.Substring(old(Model()), index, word)
    {
      if word in substrMatchCache { return substrMatchCache[word]; }
      var entities := Lookup(tokenIndex, word);
      ids := {};
      for i := 0 to |entities|
        invariant ids == set x, id | x in entities[..i] && id in Lookup(index, x) :: id
      {
        assert entities[..i + 1] == entities[..i] + [entities[i]];
        ids := ids + set id | id in Lookup(index, entities[i]);
      }
      assert entities[..|entities|] == entities;
      assert ids == S.Found(Model(), index, word);
      var kept := if |substrMatchCache| >= S.CACHE_MAX then map[] else substrMatchCache;
      substrMatchCache := kept[word := ids];
    }

    method SeedDirect(g: Graph, acc: map<nat, real>, word: string) returns (activations: map<nat, real>)
      requires g.Valid()
      ensures activations == S.Direct(config, g, acc, word, Lookup(g.index, word))
    {
      hide Graph.Valid, S.DirectValue;
      var ids := Lookup(g.index, word);
      activations := acc;
      for k := 0 to |ids|
        invariant activations == S.Direct(config, g, acc, word, ids[..k])
      {
        assert ids[..k + 1][..k] == ids[..k];
        if ids[k] in g.nodeToIdx {
          var idx := g.nodeToIdx[ids[k]];
          NumberInRange(g, ids[k]);
          activations := S.Raise(activations, idx, S.DirectValue(config, g, word, idx));
        }
      }
      assert ids[..|ids|] == ids;
    }

    // The cached set is walked in some order.
    method SeedSubstr(g: Graph, acc: map<nat, real>, ids: set<NodeId>) returns (activations: map<nat, real>)
      requires g.Valid()
      ensures activations == S.Substr(config, g, acc, ids)
    {
      hide Graph.Valid, S.SubstrValue, S.Substr;
      activations := acc;
      var rest := ids;
      SubstrNone(config, g, acc, ids - rest);
      while rest != {}
        invariant rest <= ids && activations == S.Substr(config, g, acc, ids - rest)
      {
        var id :| id in rest;
        SubstrStep(config, g, acc, ids - rest, id);
        assert ids - (rest - {id}) == ids - rest + {id};
        rest := rest - {id};
        if id in g.nodeToIdx {
          var idx := g.nodeToIdx[id];
          if idx !in activations { activations := activations[idx := S.SubstrValue(config, g, idx)]; }
        }
      }
      assert ids - rest == ids;
    }

    method SeedFromWords(g: Graph, words: seq<string>) returns (activations: map<nat, real>)
      requires g.Valid()
      modifies `substrMatchCache
      ensures (activations, Model()) == S.SeedWords(config, g, old(Model()), words)
    {
      hide Graph.Valid, S.Substring, S.Direct, S.Substr;
      activations := map[];
      for k := 0 to |words|
        invariant (activations, Model()) == S.SeedWords(config, g, old(Model()), words[..k])
      {
        var word := words[k];
        assert words[..k + 1][..k] == words[..k];
        if word in words[..k] || word in config.stopwords { continue; }
        activations := SeedDirect(g, activations, word);
        if doSubstr && |word| >= S.SUBSTR_MIN {
          var ids := SubstringSeedNodes(g.index, word);
          activations := SeedSubstr(g, activations, ids);
        }
      }
      assert words[..|words|] == words;
    }
  }

  lemma NumberInRange(g: Graph, id: NodeId)
    requires g.Valid() && id in g.nodeToIdx
    ensures g.nodeToIdx[id] < g.Size()
  {
  }

  lemma SubstrNone(sc: S.SeedConfig, g: Graph, acc: map<nat, real>, none: set<NodeId>)
    requires g.Valid() && none == {}
    ensures S.Substr(sc, g, acc, none) == acc
  {
    assert S.Numbers(g, none) == {};
  }

  lemma SubstrStep(sc: S.SeedConfig, g: Graph, acc: map<nat, real>, done: set<NodeId>, id: NodeId)
    requires g.Valid()
    ensures id in g.nodeToIdx ==> g.nodeToIdx[id] < g.Size()
    ensures var r := S.Substr(sc, g, acc, done);
            S.Substr(sc, g, acc, done + {id}) ==
            if id in g.nodeToIdx && g.nodeToIdx[id] !in r then
              r[g.nodeToIdx[id] := S.SubstrValue(sc, g, g.nodeToIdx[id])]
            else r
  {
    hide Graph.Valid, S.SubstrValue, S.Numbers;
    if id in g.nodeToIdx { NumberInRange(g, id); }
    NumbersStep(g, done, id);
    var before, more := S.Numbers(g, done), S.Numbers(g, done + {id});
    if id in g.nodeToIdx && g.nodeToIdx[id] !in S.Substr(sc, g, acc, done) {
      assert more - acc.Keys == (before - acc.Keys) + {g.nodeToIdx[id]};
    } else {
      assert more - acc.Keys == before - acc.Keys;
    }
  }

  lemma NumbersStep(g: Graph, done: set<NodeId>, id: NodeId)
    requires g.Valid()
    ensures S.Numbers(g, done + {id}) == S.Numbers(g, done) + if id in g.nodeToIdx then {g.nodeToIdx[id]} else {}
  {
    hide Graph.Valid;
  }
}
