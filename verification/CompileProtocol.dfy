/** The optimistic compile: snapshot under the lock, build outside it, publish
    under the lock if no writer came in between, and after eight lost races
    build under the lock. Critical sections are single steps; the unlocked
    test and the unlocked build are steps of their own. */
module CompileProtocol {
  import opened Wrappers
  import opened Sparse
  import opened Graph
  import opened Growth
  import opened Compaction

  const MAX_ROUNDS := 8

  // One unlocked test, three steps a round, one locked build.
  const MAX_STEPS := 1 + 3 * MAX_ROUNDS + 1

  datatype Snapshot = Snapshot(size: nat, edges: seq<Edge>, generation: nat)

  datatype Pc =
    | Idle
    | Testing
    | Snapping(round: nat)
    | Building(round: nat, snapshot: Snapshot)
    | Publishing(round: nat, snapshot: Snapshot, matrix: Csr)
    | Fallback
    | Done

  // `steps` counts the steps of the current call.
  datatype Compiler = Compiler(pc: Pc, steps: nat)

  // `held` is the list of edges the graph stands for, kept beside it: builds and
  // batches change it, compiling and compacting do not.
  datatype State = State(g: Graph, held: seq<Edge>, compilers: map<nat, Compiler>)

  predicate Active(pc: Pc) {
    !pc.Idle? && !pc.Done?
  }

  function NextPc(g: Graph, pc: Pc): Pc
    requires Active(pc)
  {
    match pc
    case Testing => if g.dirty then Snapping(0) else Done
    case Snapping(r) => if g.dirty then Building(r, Snapshot(g.Size(), g.edges, g.generation)) else Done
    case Building(r, s) => Publishing(r, s, BuildCsr(s.size, s.edges))
    case Publishing(r, s, _) =>
      if !g.dirty || g.generation == s.generation then Done
      else if r + 1 < MAX_ROUNDS then Snapping(r + 1) else Fallback
    case Fallback => Done
  }

  function NextGraph(g: Graph, pc: Pc): Graph
    requires Active(pc)
  {
    match pc
    case Publishing(_, s, m) =>
      if g.dirty && g.generation == s.generation then g.(adj := Some(m), dirty := false) else g
    case Fallback =>
      if g.dirty then g.(adj := Some(BuildCsr(g.Size(), g.edges)), dirty := false) else g
    case _ => g
  }

  function CompilerStep(s: State, t: nat): State
    requires t in s.compilers && Active(s.compilers[t].pc)
  {
    var c := s.compilers[t];
    State(NextGraph(s.g, c.pc), s.held, s.compilers[t := Compiler(NextPc(s.g, c.pc), c.steps + 1)])
  }

  datatype Write =
    | WriteBuild(docs: seq<Document>)
    | WriteFailedBuild
    | WriteAdd(docs: seq<Document>, order: seq<string>)
    | WriteCompact

  // A build that raises resets the graph a second time.
  ghost function Written(cfg: Config, g: Graph, w: Write): Graph {
    match w
    case WriteBuild(docs) => Build(cfg, g.generation, docs)
    case WriteFailedBuild => Empty(g.generation + 2)
    case WriteAdd(docs, order) => if Loadable(g) then AddDocuments(cfg, g, docs, order) else g
    case WriteCompact => if g.Valid() && g.built then Compact(g) else g
  }

  // The list with each pair's edges summed into one.
  function Merged(n: nat, es: seq<Edge>): seq<Edge> {
    ToCoo(BuildCsr(n, es), n, n)
  }

  // The buffers a batch starts from: a clean graph without buffers was
  // compacted, so its pairs are merged and every position is recorded.
  function Base(g: Graph, held: seq<Edge>): Graph {
    if g.edges == [] && !g.dirty && held != [] then
      g.(edges := Merged(g.Size(), held), positions := IndexPositions(Merged(g.Size(), held)))
    else g.(edges := held)
  }

  // What the writer makes of the list; the matrix plays no part.
  ghost function Held(cfg: Config, g: Graph, held: seq<Edge>, w: Write): seq<Edge> {
    match w
    case WriteBuild(docs) => Build(cfg, g.generation, docs).edges
    case WriteFailedBuild => []
    case WriteAdd(docs, order) =>
      if docs != [] && Base(g, held).Valid() then AddBatch(cfg, Base(g, held), docs, order).edges else held
    case WriteCompact => held
  }

  datatype Action = Call(t: nat) | Run(t: nat) | Write(write: Write)

  ghost predicate Enabled(s: State, a: Action) {
    match a
    case Call(t) => t !in s.compilers || !Active(s.compilers[t].pc)
    case Run(t) => t in s.compilers && Active(s.compilers[t].pc)
    case Write(_) => true
  }

  ghost function Next(cfg: Config, s: State, a: Action): State
    requires Enabled(s, a)
  {
    match a
    case Call(t) => s.(compilers := s.compilers[t := Compiler(Testing, 0)])
    case Run(t) => CompilerStep(s, t)
    case Write(w) => s.(g := Written(cfg, s.g, w), held := Held(cfg, s.g, s.held, w))
  }

  ghost predicate IsRun(cfg: Config, states: seq<State>, actions: seq<Action>) {
    && |states| == |actions| + 1
    && states[0] == State(Empty(0), [], map[])
    && forall i :: 0 <= i < |actions| ==>
         Enabled(states[i], actions[i]) && states[i + 1] == Next(cfg, states[i], actions[i])
  }

  // ----- invariants -----

  ghost predicate Good(g: Graph) {
    g.Valid() && g.Shaped() && Compiled(g) && g.Bipartite(Current(g))
  }

  // Buffers, if there are any or the graph is dirty, are the list; a clean
  // graph's matrix is the matrix of the list.
  ghost predicate Linked(g: Graph, held: seq<Edge>) {
    && g.Valid() && g.Bipartite(held)
    && (g.edges != [] || g.dirty ==> g.edges == held)
    && (!g.dirty ==> g.adj == Some(BuildCsr(g.Size(), held)))
  }

  // A snapshot of the present generation is a snapshot of the present edges.
  ghost predicate Faithful(g: Graph, s: Snapshot) {
    s.generation <= g.generation && (s.generation == g.generation ==> s.size == g.Size() && s.edges == g.edges)
  }

  ghost predicate PcInvariant(g: Graph, pc: Pc) {
    match pc
    case Snapping(r) => r < MAX_ROUNDS
    case Building(r, s) => r < MAX_ROUNDS && Faithful(g, s)
    case Publishing(r, s, m) => r < MAX_ROUNDS && Faithful(g, s) && m == BuildCsr(s.size, s.edges)
    case _ => true
  }

  predicate StepsTaken(c: Compiler) {
    match c.pc
    case Idle => true
    case Testing => c.steps == 0
    case Snapping(r) => c.steps == 1 + 3 * r
    case Building(r, _) => c.steps == 2 + 3 * r
    case Publishing(r, _, _) => c.steps == 3 + 3 * r
    case Fallback => c.steps == 1 + 3 * MAX_ROUNDS
    case Done => c.steps <= MAX_STEPS
  }

  ghost predicate Invariant(s: State) {
    && Linked(s.g, s.held)
    && forall t :: t in s.compilers ==> PcInvariant(s.g, s.compilers[t].pc) && StepsTaken(s.compilers[t])
  }

  // ----- writers -----

  // A write either changes nothing or moves the generation on.
  lemma {:induction false} IngestEntitiesGeneration(cfg: Config, g: Graph, ans: nat, es: seq<Entity>,
                                                    seen: set<NodeId>, fast: bool)
    requires g.Valid() && ans < g.Size() && g.idxToNode[ans].ValueId?
    ensures IngestEntities(cfg, g, ans, es, seen, fast).generation == g.generation
    decreases |es|
  {
    hide Graph.Valid;
    if es == [] {
    } else {
      var id := EntityId(es[0].etype, es[0].term);
      if |id.term| < 2 || id in seen {
        IngestEntitiesGeneration(cfg, g, ans, es[1..], seen, fast);
      } else {
        IngestEntitiesGeneration(cfg, IngestEntity(cfg, g, ans, id, fast), ans, es[1..], seen + {id}, fast);
      }
    }
  }

  lemma {:induction false} IngestGeneration(cfg: Config, g: Graph, docs: seq<Document>, fast: bool)
    requires g.Valid()
    ensures Ingest(cfg, g, docs, fast).generation == g.generation
    decreases |docs|
  {
    if docs == [] {
    } else {
      var r := GetOrAddNode(g, ValueId(docs[0].id), ValueKind, docs[0].value, 0.0);
      IngestEntitiesGeneration(cfg, r, r.nodeToIdx[ValueId(docs[0].id)], docs[0].entities, {}, fast);
      IngestGeneration(cfg, IngestDocument(cfg, g, docs[0], fast), docs[1..], fast);
    }
  }

  lemma AddMovesOn(cfg: Config, g: Graph, docs: seq<Document>, order: seq<string>)
    requires Loadable(g) && docs != []
    ensures AddDocuments(cfg, g, docs, order).generation == g.generation + 1
  {
    hide Graph.Valid;
    IngestGeneration(cfg, Refresh(cfg, CountBatch(EnsureMutable(g), docs), order), docs, false);
  }

  lemma {:induction false} LinkedGood(g: Graph, held: seq<Edge>)
    requires Linked(g, held)
    ensures Good(g)
  {
    if g.edges == [] && !g.dirty {
      BipartiteInRange(g, held);
      CooRoundTrip(g.Size(), held);
      CooBipartite(g, held);
    }
  }

  // Compiling and compacting keep the graph linked to the same list.
  lemma {:induction false} CompactLinked(g: Graph, held: seq<Edge>)
    requires Linked(g, held)
    ensures Linked(Compile(g), held) && (g.built ==> Linked(Compact(g), held))
  {
  }

  // In particular a compaction leaves every pair joined or not, with its total.
  lemma {:induction false} CompactKeepsTotals(g: Graph, held: seq<Edge>, i: nat, j: nat)
    requires Linked(g, held) && g.built
    ensures Compact(g).Valid() && Compact(g).Shaped()
    ensures Joined(Current(Compact(g)), i, j) <==> Joined(held, i, j)
    ensures Total(Current(Compact(g)), i, j) == Total(held, i, j)
  {
    CompactLinked(g, held);
    BipartiteInRange(g, held);
    CooTotal(g.Size(), held, i, j);
  }

  // The buffers a batch finds are those the list gives.
  lemma {:induction false} MutableIsBase(g: Graph, held: seq<Edge>)
    requires Linked(g, held)
    ensures Loadable(g) && Base(g, held).Valid() && EnsureMutable(g) == Base(g, held)
  {
    LinkedGood(g, held);
    MaterializedEdges(g);
    BipartiteInRange(g, held);
    if g.edges == [] && !g.dirty {
      if held == [] {
        EmptyMatrix(g.Size());
        assert Stored(g.adj.value) == 0 by { NothingListed(g.Size()); }
      } else if Stored(g.adj.value) == 0 {
        NothingStored(g.Size(), held);
      }
    }
  }

  lemma {:induction false} AddLinked(cfg: Config, g: Graph, held: seq<Edge>, docs: seq<Document>, order: seq<string>)
    requires Linked(g, held) && docs != []
    ensures Loadable(g) && Base(g, held).Valid()
    ensures Linked(AddDocuments(cfg, g, docs, order), AddBatch(cfg, Base(g, held), docs, order).edges)
  {
    hide Ingest, NodesWeighted;
    MutableIsBase(g, held);
    var m := EnsureMutable(g);
    AddBatchTracked(cfg, m, docs, order);
    BipartiteInRange(g, held);
    CooRoundTrip(g.Size(), held);
  }

  // A writer keeps the graph linked to what it makes of the list, and changes
  // nothing or moves the generation on.
  lemma {:induction false} WrittenLinked(cfg: Config, g: Graph, held: seq<Edge>, w: Write)
    requires Linked(g, held)
    ensures Linked(Written(cfg, g, w), Held(cfg, g, held, w))
    ensures Written(cfg, g, w) == g || Written(cfg, g, w).generation > g.generation
  {
    match w
    case WriteBuild(docs) =>
      IngestGeneration(cfg, Reset(g.generation, docs), docs, true);
    case WriteFailedBuild =>
    case WriteAdd(docs, order) =>
      MutableIsBase(g, held);
      if docs != [] {
        AddLinked(cfg, g, held, docs, order);
        AddMovesOn(cfg, g, docs, order);
      }
    case WriteCompact => CompactLinked(g, held);
  }

  // ----- compilers -----

  // A publication is never stale: what it installs is the matrix of the
  // edges the graph holds at that very step.
  lemma {:induction false} PublishIsCurrent(g: Graph, held: seq<Edge>, pc: Pc)
    requires Linked(g, held) && Active(pc) && PcInvariant(g, pc)
    ensures NextGraph(g, pc).adj != g.adj ==> NextGraph(g, pc).adj == Some(BuildCsr(g.Size(), held))
    ensures NextGraph(g, pc) == g || NextGraph(g, pc) == Compile(g)
    ensures Linked(NextGraph(g, pc), held)
  {
    CompactLinked(g, held);
  }

  // A call returns only when the matrix is current.
  lemma {:induction false} ReturnsCurrent(g: Graph, held: seq<Edge>, pc: Pc)
    requires Linked(g, held) && Active(pc) && PcInvariant(g, pc) && NextPc(g, pc).Done?
    ensures var r := NextGraph(g, pc);
            !r.dirty && r.Valid() && r.Shaped() && r.adj == Some(BuildCsr(r.Size(), held))
  {
    PublishIsCurrent(g, held, pc);
  }

  lemma {:induction false} CompilerStepInvariant(s: State, t: nat)
    requires Invariant(s) && t in s.compilers && Active(s.compilers[t].pc)
    ensures Invariant(CompilerStep(s, t))
  {
    hide Linked, Graph.Valid;
    PublishIsCurrent(s.g, s.held, s.compilers[t].pc);
    hide BuildCsr;
  }

  lemma {:induction false} StepInvariant(cfg: Config, s: State, a: Action)
    requires Invariant(s) && Enabled(s, a)
    ensures Invariant(Next(cfg, s, a))
  {
    hide Linked, Written, Held, CompilerStep;
    match a
    case Call(_) =>
    case Run(t) => CompilerStepInvariant(s, t);
    case Write(w) => WrittenLinked(cfg, s.g, s.held, w);
  }

  lemma {:induction false} RunInvariant(cfg: Config, states: seq<State>, actions: seq<Action>, i: nat)
    requires IsRun(cfg, states, actions) && i < |states|
    ensures Invariant(states[i])
  {
    if i == 0 {
      assert Linked(Empty(0), []);
    } else {
      RunInvariant(cfg, states, actions, i - 1);
      StepInvariant(cfg, states[i - 1], actions[i - 1]);
    }
  }

  // In every interleaving, a graph that is not dirty carries the matrix of the
  // edges that builds and batches have left, one row per node.
  lemma {:induction false} CleanIsCurrent(cfg: Config, states: seq<State>, actions: seq<Action>, i: nat)
    requires IsRun(cfg, states, actions) && i < |states| && !states[i].g.dirty
    ensures var g := states[i].g;
            && g.Valid() && g.Shaped() && g.adj == Some(BuildCsr(g.Size(), states[i].held))
            && |g.adj.value.indptr| == g.Size() + 1
  {
    RunInvariant(cfg, states, actions, i);
  }

  // Every call ends within its step budget, however the writers interfere,
  // and on the step it ends the matrix is current.
  lemma {:induction false} CallsEnd(cfg: Config, states: seq<State>, actions: seq<Action>, i: nat, t: nat)
    requires IsRun(cfg, states, actions) && i < |states| && t in states[i].compilers
    ensures var c := states[i].compilers[t];
            && (!c.pc.Idle? ==> c.steps <= 26) && (Active(c.pc) ==> c.steps < 26)
            && (Active(c.pc) && NextPc(states[i].g, c.pc).Done? ==>
                  var r := CompilerStep(states[i], t).g;
                  r.Valid() && r.Shaped() && !r.dirty && r.adj == Some(BuildCsr(r.Size(), states[i].held)))
  {
    RunInvariant(cfg, states, actions, i);
    var s := states[i];
    var c := s.compilers[t];
    if Active(c.pc) && NextPc(s.g, c.pc).Done? { ReturnsCurrent(s.g, s.held, c.pc); }
  }
}
