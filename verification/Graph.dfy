/** The spreading-activation graph as a value: the parallel node lists, the
    append-only edge buffers, the frequency-weighted ingest and the compaction
    round trip. Edge weights are reals; the regular expressions that extract
    entities are elsewhere, so a document carries its extracted entities. */
module Graph {
  import opened Wrappers
  import opened Sparse

  datatype NodeKind = EntityKind | ValueKind

  // `e:<type>:<label>` and `v:<document>`.
  datatype NodeId = EntityId(etype: string, term: string) | ValueId(doc: string)

  datatype Entity = Entity(term: string, etype: string)

  datatype Document = Document(id: string, value: string, entities: seq<Entity>)

  // `spec` maps a frequency to its specificity; `words` gives the words under
  // which a label is indexed besides itself.
  datatype Config = Config(spec: nat -> real, edgeWeight: real, words: string -> seq<string>)

  type Index = map<string, seq<NodeId>>

  type Positions = map<nat, seq<nat>>

  datatype Graph = Graph(
    nodeToIdx: map<NodeId, nat>,
    idxToNode: seq<NodeId>,
    kind: seq<NodeKind>,
    labels: seq<string>,
    spec: seq<real>,
    edges: seq<Edge>,
    positions: Positions,
    adj: Option<Csr>,
    dirty: bool,
    freq: map<string, nat>,
    index: Index,
    generation: nat,
    built: bool)
  {
    function Size(): nat {
      |idxToNode|
    }

    // The parallel lists agree, node ids and positions are inverse, and every
    // edge runs from an entity node to a value node.
    ghost predicate Valid() {
      && |kind| == |labels| == |spec| == Size()
      && (forall id :: id in nodeToIdx ==> nodeToIdx[id] < Size() && idxToNode[nodeToIdx[id]] == id)
      && (forall i :: 0 <= i < Size() ==> NodeAt(i, idxToNode[i]))
      && Bipartite(edges)
      && Located(positions, edges)
    }

    predicate NodeAt(i: nat, id: NodeId)
      requires i < |kind| && i < |labels|
    {
      && id in nodeToIdx && nodeToIdx[id] == i
      && (kind[i] == EntityKind <==> id.EntityId?)
      && (id.EntityId? ==> labels[i] == id.term)
    }

    predicate Fits(e: Edge) {
      e.src < Size() && e.dst < Size() && idxToNode[e.src].EntityId? && idxToNode[e.dst].ValueId?
    }

    ghost predicate Bipartite(es: seq<Edge>) {
      forall p :: 0 <= p < |es| ==> Fits(es[p])
    }

    // A clean graph has a matrix with one row per node.
    ghost predicate Shaped() {
      !dirty ==> adj.Some? && adj.value.Valid(Size())
    }

    function Freq(x: string): nat {
      if x in freq then freq[x] else 0
    }
  }

  ghost predicate Located(positions: Positions, edges: seq<Edge>) {
    forall i, k :: i in positions && 0 <= k < |positions[i]| ==>
      positions[i][k] < |edges| && edges[positions[i][k]].src == i
  }

  function Empty(generation: nat): Graph {
    Graph(map[], [], [], [], [], [], map[], None, true, map[], map[], generation, false)
  }

  // ----- node and edge insertion -----

  function GetOrAddNode(g: Graph, id: NodeId, kind: NodeKind, term: string, spec: real): (r: Graph)
    requires g.Valid()
    requires kind == EntityKind <==> id.EntityId?
    requires id.EntityId? ==> term == id.term
    ensures r.Valid() && id in r.nodeToIdx
    ensures r.edges == g.edges && r.positions == g.positions && r.freq == g.freq && r.index == g.index
    ensures g.idxToNode <= r.idxToNode
  {
    if id in g.nodeToIdx then g.(spec := g.spec[g.nodeToIdx[id] := spec])
    else g.(nodeToIdx := g.nodeToIdx[id := g.Size()], idxToNode := g.idxToNode + [id], kind := g.kind + [kind],
            labels := g.labels + [term], spec := g.spec + [spec], dirty := true)
  }

  function Lookup<K, V>(m: map<K, seq<V>>, k: K): seq<V> {
    if k in m then m[k] else []
  }

  function Push<K, V>(m: map<K, seq<V>>, k: K, v: V): map<K, seq<V>> {
    m[k := Lookup(m, k) + [v]]
  }

  // With `fast` the position of the edge is not recorded and the graph is not
  // marked dirty; the caller of the batch build does that once at its end.
  function AddEdge(g: Graph, e: Edge, fast: bool): (r: Graph)
    requires g.Valid() && g.Fits(e)
    ensures r.Valid() && r.edges == g.edges + [e]
    ensures r.idxToNode == g.idxToNode
  {
    if fast then g.(edges := g.edges + [e])
    else g.(edges := g.edges + [e], positions := Push(g.positions, e.src, |g.edges|), dirty := true)
  }

  function IndexUnder<V>(index: map<string, seq<V>>, keys: seq<string>, v: V): map<string, seq<V>>
    decreases |keys|
  {
    if keys == [] then index else IndexUnder(Push(index, keys[0], v), keys[1..], v)
  }

  function Specificity(cfg: Config, g: Graph, x: string): real {
    cfg.spec(if g.Freq(x) < 1 then 1 else g.Freq(x))
  }

  function WeightOf(cfg: Config, spec: real): real {
    spec * cfg.edgeWeight
  }

  // ----- ingest -----

  function IngestNode(cfg: Config, g: Graph, id: NodeId): (r: Graph)
    requires g.Valid() && id.EntityId?
    ensures r.Valid() && id in r.nodeToIdx
    ensures r.edges == g.edges && r.positions == g.positions && r.freq == g.freq
    ensures g.idxToNode <= r.idxToNode
  {
    var r := GetOrAddNode(g, id, EntityKind, id.term, Specificity(cfg, g, id.term));
    if id in g.nodeToIdx then r else r.(index := IndexUnder(r.index, [id.term] + cfg.words(id.term), id))
  }

  function NewEdge(cfg: Config, g: Graph, ans: nat, id: NodeId): (e: Edge)
    requires g.Valid() && id.EntityId? && ans < g.Size() && g.idxToNode[ans].ValueId?
    ensures IngestNode(cfg, g, id).Fits(e)
  {
    Edge(IngestNode(cfg, g, id).nodeToIdx[id], ans, WeightOf(cfg, Specificity(cfg, g, id.term)))
  }

  function IngestEntity(cfg: Config, g: Graph, ans: nat, id: NodeId, fast: bool): (r: Graph)
    requires g.Valid() && id.EntityId? && ans < g.Size() && g.idxToNode[ans].ValueId?
    ensures r.Valid() && r.freq == g.freq
    ensures g.idxToNode <= r.idxToNode
  {
    AddEdge(IngestNode(cfg, g, id), NewEdge(cfg, g, ans, id), fast)
  }

  function IngestEntities(cfg: Config, g: Graph, ans: nat, es: seq<Entity>, seen: set<NodeId>, fast: bool): (r: Graph)
    requires g.Valid() && ans < g.Size() && g.idxToNode[ans].ValueId?
    ensures r.Valid() && r.freq == g.freq
    ensures g.idxToNode <= r.idxToNode
    decreases |es|
  {
    if es == [] then g
    else
      var id := EntityId(es[0].etype, es[0].term);
      if |id.term| < 2 || id in seen then IngestEntities(cfg, g, ans, es[1..], seen, fast)
      else IngestEntities(cfg, IngestEntity(cfg, g, ans, id, fast), ans, es[1..], seen + {id}, fast)
  }

  function IngestDocument(cfg: Config, g: Graph, d: Document, fast: bool): (r: Graph)
    requires g.Valid()
    ensures r.Valid() && r.freq == g.freq
  {
    var r := GetOrAddNode(g, ValueId(d.id), ValueKind, d.value, 0.0);
    IngestEntities(cfg, r, r.nodeToIdx[ValueId(d.id)], d.entities, {}, fast)
  }

  function Ingest(cfg: Config, g: Graph, docs: seq<Document>, fast: bool): (r: Graph)
    requires g.Valid()
    ensures r.Valid() && r.freq == g.freq
    decreases |docs|
  {
    if docs == [] then g else Ingest(cfg, IngestDocument(cfg, g, docs[0], fast), docs[1..], fast)
  }

  // ----- frequencies -----

  function CountIn(es: seq<Entity>, x: string): nat {
    if es == [] then 0 else CountIn(es[..|es| - 1], x) + if es[|es| - 1].term == x then 1 else 0
  }

  function Count(docs: seq<Document>, x: string): nat {
    if docs == [] then 0 else Count(docs[..|docs| - 1], x) + CountIn(docs[|docs| - 1].entities, x)
  }

  function Labels(docs: seq<Document>, minimum: nat): set<string> {
    set d, e | d in docs && e in d.entities && |e.term| >= minimum :: e.term
  }

  function BuildFreq(docs: seq<Document>): map<string, nat> {
    map x | x in Labels(docs, 0) :: Count(docs, x)
  }

  function BumpFreq(freq: map<string, nat>, docs: seq<Document>): map<string, nat> {
    map x | x in freq.Keys + Labels(docs, 2) ::
      (if x in freq then freq[x] else 0) + if x in Labels(docs, 2) then Count(docs, x) else 0
  }

  // ----- the refresh of old edges -----

  function Reweigh(es: seq<Edge>, ps: seq<nat>, w: real): (r: seq<Edge>)
    requires forall k :: 0 <= k < |ps| ==> ps[k] < |es|
    ensures |r| == |es|
    ensures forall p :: 0 <= p < |es| ==> r[p] == if p in ps then es[p].(weight := w) else es[p]
    decreases |ps|
  {
    if ps == [] then es
    else
      assert ps == [ps[0]] + ps[1..];
      Reweigh(es[ps[0] := es[ps[0]].(weight := w)], ps[1..], w)
  }

  function RefreshNode(g: Graph, id: NodeId, spec: real, w: real): (r: Graph)
    requires g.Valid()
    ensures r.Valid()
    ensures r == g.(spec := r.spec, edges := r.edges)
    ensures |r.edges| == |g.edges|
    ensures forall p :: 0 <= p < |g.edges| ==> r.edges[p].src == g.edges[p].src && r.edges[p].dst == g.edges[p].dst
  {
    if id !in g.nodeToIdx || g.kind[g.nodeToIdx[id]] != EntityKind then g
    else
      var idx := g.nodeToIdx[id];
      g.(spec := g.spec[idx := spec], edges := Reweigh(g.edges, Lookup(g.positions, idx), w))
  }

  function RefreshNodes(g: Graph, ids: seq<NodeId>, spec: real, w: real): (r: Graph)
    requires g.Valid()
    ensures r.Valid()
    ensures r == g.(spec := r.spec, edges := r.edges)
    ensures |r.edges| == |g.edges|
    ensures forall p :: 0 <= p < |g.edges| ==> r.edges[p].src == g.edges[p].src && r.edges[p].dst == g.edges[p].dst
    decreases |ids|
  {
    if ids == [] then g else RefreshNodes(RefreshNode(g, ids[0], spec, w), ids[1..], spec, w)
  }

  function RefreshLabel(cfg: Config, g: Graph, x: string): (r: Graph)
    requires g.Valid()
    ensures r.Valid()
    ensures r == g.(spec := r.spec, edges := r.edges)
    ensures |r.edges| == |g.edges|
    ensures forall p :: 0 <= p < |g.edges| ==> r.edges[p].src == g.edges[p].src && r.edges[p].dst == g.edges[p].dst
  {
    if g.Freq(x) == 0 then g
    else RefreshNodes(g, Lookup(g.index, x), cfg.spec(g.Freq(x)), WeightOf(cfg, cfg.spec(g.Freq(x))))
  }

  // The touched labels form a set; `order` is the order it is walked in.
  function RefreshLabels(cfg: Config, g: Graph, order: seq<string>): (r: Graph)
    requires g.Valid()
    ensures r.Valid()
    ensures r == g.(spec := r.spec, edges := r.edges)
    ensures |r.edges| == |g.edges|
    ensures forall p :: 0 <= p < |g.edges| ==> r.edges[p].src == g.edges[p].src && r.edges[p].dst == g.edges[p].dst
    decreases |order|
  {
    if order == [] then g else RefreshLabels(cfg, RefreshLabel(cfg, g, order[0]), order[1..])
  }

  function Refresh(cfg: Config, g: Graph, order: seq<string>): (r: Graph)
    requires g.Valid()
    ensures r.Valid()
  {
    if order == [] then g else RefreshLabels(cfg, g, order).(dirty := true)
  }

  // ----- the public operations -----

  function Stored(m: Csr): nat {
    |m.indices|
  }

  function IndexPositions(es: seq<Edge>): (r: Positions)
    ensures Located(r, es)
    ensures forall p :: 0 <= p < |es| ==> es[p].src in r && p in r[es[p].src]
  {
    if es == [] then map[]
    else
      var init := es[..|es| - 1];
      var r := IndexPositions(init);
      assert forall p :: 0 <= p < |init| ==> init[p] == es[p];
      assert Lookup(r, es[|es| - 1].src) <= Push(r, es[|es| - 1].src, |es| - 1)[es[|es| - 1].src];
      Push(r, es[|es| - 1].src, |es| - 1)
  }

  ghost predicate Materializable(g: Graph) {
    g.edges == [] && g.adj.Some? && Stored(g.adj.value) != 0 && !g.dirty
  }

  // The matrix of a loaded graph must itself be bipartite.
  ghost predicate Loadable(g: Graph) {
    && g.Valid() && g.Shaped()
    && (Materializable(g) ==> g.Bipartite(ToCoo(g.adj.value, g.Size(), g.Size())))
  }

  function EnsureMutable(g: Graph): (r: Graph)
    requires Loadable(g)
    ensures r.Valid()
  {
    if g.edges != [] || g.adj.None? || Stored(g.adj.value) == 0 || g.dirty then g
    else
      var es := ToCoo(g.adj.value, g.Size(), g.Size());
      g.(edges := es, positions := IndexPositions(es))
  }

  ghost predicate Enumerates(order: seq<string>, s: set<string>) {
    && (forall x :: x in order <==> x in s)
    && (forall i, j :: 0 <= i < j < |order| ==> order[i] != order[j])
  }

  // The batch's counts are folded in before any weight is recomputed.
  function CountBatch(g: Graph, docs: seq<Document>): (r: Graph)
    requires g.Valid()
    ensures r.Valid()
  {
    g.(generation := g.generation + 1, freq := BumpFreq(g.freq, docs))
  }

  function MarkBuilt(g: Graph): (r: Graph)
    requires g.Valid()
    ensures r.Valid()
  {
    g.(built := true)
  }

  // The locked phase of one batch, on a graph whose edge buffers are filled.
  function AddBatch(cfg: Config, m: Graph, docs: seq<Document>, order: seq<string>): (r: Graph)
    requires m.Valid()
    ensures r.Valid()
  {
    MarkBuilt(Ingest(cfg, Refresh(cfg, CountBatch(m, docs), order), docs, false))
  }

  function AddDocuments(cfg: Config, g: Graph, docs: seq<Document>, order: seq<string>): (r: Graph)
    requires Loadable(g)
    ensures r.Valid()
  {
    if docs == [] then g else AddBatch(cfg, EnsureMutable(g), docs, order)
  }

  function Reset(generation: nat, docs: seq<Document>): (r: Graph)
    ensures r.Valid() && r.edges == []
  {
    Empty(generation + 1).(freq := BuildFreq(docs))
  }

  function MarkDirty(g: Graph): (r: Graph)
    requires g.Valid()
    ensures r.Valid()
  {
    g.(dirty := true)
  }

  function Build(cfg: Config, generation: nat, docs: seq<Document>): (r: Graph)
    ensures r.Valid()
  {
    MarkBuilt(MarkDirty(Ingest(cfg, Reset(generation, docs), docs, true)))
  }

  function Compile(g: Graph): (r: Graph)
    requires g.Valid()
    ensures r.Valid() && !r.dirty && (g.Shaped() ==> r.Shaped())
  {
    if !g.dirty then g else g.(adj := Some(BuildCsr(g.Size(), g.edges)), dirty := false)
  }

  // Save, load and swap: what remains is the compiled matrix alone.
  function Compact(g: Graph): (r: Graph)
    requires g.Valid() && g.built
    ensures r.Valid() && (g.Shaped() ==> r.Shaped())
  {
    var c := Compile(g);
    c.(edges := [], positions := map[], generation := c.generation + 1)
  }
}
