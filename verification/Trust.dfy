/** Confidence, trust and supersession of ranked results. */
module Trust {
  import opened Basics
  import opened Wrappers
  import opened Supersession

  datatype Status = Live | Superseded | Tombstone | Unrecognized

  datatype Kind = DocumentChunk | Authored

  datatype Signal = Bm25 | Dense | Facet | OpenAi

  datatype Source = BulkImport | Agent

  datatype Atom = Atom(status: Status, effectiveTime: int, kind: Kind)

  // `edges` are the supersedes edges; `sources` the provenance of an atom.
  datatype Store = Store(atoms: map<Id, Atom>, edges: set<Edge>, sources: map<Id, set<Source>>)

  type Ranked = seq<(Id, real)>

  datatype Why = Evidence | Uncorroborated | Replaced(forked: bool)

  datatype Verdict = Verdict(atomId: Id, score: real, confidence: real, shouldTrust: bool, why: Why,
                             supersededBy: Option<Id>)

  datatype Error = Desync(id: Id) | Corrupt(id: Id) | CycleAt(id: Id)

  // ----- the successor map, from one query -----

  // An edge out of a root, or out of an atom that the rows name as newer.
  ghost predicate Reaches(rows: seq<Edge>, roots: set<Id>, old_: Id) {
    old_ in roots || exists r :: r in rows && r.src == old_
  }

  // What the recursive query returns: exactly the edges walked, ordered by old
  // id, then new id.
  ghost predicate Answer(rows: seq<Edge>, edges: set<Edge>, roots: set<Id>) {
    && (forall e :: e in rows ==> e in edges && Reaches(rows, roots, e.dst))
    && (forall e :: e in edges && Reaches(rows, roots, e.dst) ==> e in rows)
    && forall i, j :: 0 <= i < j < |rows| ==>
         rows[i].dst < rows[j].dst || (rows[i].dst == rows[j].dst && rows[i].src < rows[j].src)
  }

  // The map agrees with the whole store's pins on every atom it covers.
  ghost predicate Covers(pins: map<Id, Id>, forks: set<Id>, edges: set<Edge>, ids: set<Id>) {
    && (forall x :: x in ids ==> (x in pins <==> x in Pins(edges)) && (x in forks <==> Forked(edges, x)))
    && (forall x :: x in pins ==> x in ids && pins[x] in ids && x in Pins(edges) && pins[x] == Pins(edges)[x])
  }

  // What the loop has built from the rows so far.
  ghost predicate Pinned(rows: seq<Edge>, pins: map<Id, Id>) {
    && (forall x :: x in pins ==> Edge(pins[x], x) in rows)
    && (forall r :: r in rows ==> r.dst in pins && pins[r.dst] <= r.src)
  }

  ghost predicate Chained(rows: seq<Edge>, chain: set<Id>) {
    && (forall r :: r in rows ==> r.dst in chain && r.src in chain)
    && (forall x :: x in chain ==> exists r :: r in rows && (r.dst == x || r.src == x))
  }

  ghost predicate Grouped(rows: seq<Edge>, byOld: map<Id, set<Id>>) {
    && (forall x :: x in byOld ==> byOld[x] != {})
    && (forall r :: r in rows ==> r.dst in byOld && r.src in byOld[r.dst])
    && (forall x, y :: x in byOld && y in byOld[x] ==> Edge(y, x) in rows)
  }

  lemma {:induction false} PinNext(rows: seq<Edge>, row: Edge, pins: map<Id, Id>)
    requires Pinned(rows, pins) && forall r :: r in rows ==> r.dst < row.dst || (r.dst == row.dst && r.src < row.src)
    ensures Pinned(rows + [row], if row.dst in pins then pins else pins[row.dst := row.src])
  {
    if row.dst in pins { assert Edge(pins[row.dst], row.dst) in rows; }
  }

  lemma {:induction false} ChainNext(rows: seq<Edge>, row: Edge, chain: set<Id>)
    requires Chained(rows, chain)
    ensures Chained(rows + [row], chain + {row.dst, row.src})
  {
    var all := rows + [row];
    assert row in all && forall r :: r in rows ==> r in all;
    forall x | x in chain + {row.dst, row.src}
      ensures exists r :: r in all && (r.dst == x || r.src == x)
    {
      if x !in chain { assert row.dst == x || row.src == x; }
    }
  }

  lemma {:induction false} GroupNext(rows: seq<Edge>, row: Edge, byOld: map<Id, set<Id>>)
    requires Grouped(rows, byOld)
    ensures Grouped(rows + [row], byOld[row.dst := (if row.dst in byOld then byOld[row.dst] else {}) + {row.src}])
  {
  }

  lemma {:induction false} Earlier(rows: seq<Edge>, edges: set<Edge>, roots: set<Id>, n: nat)
    requires Answer(rows, edges, roots) && n < |rows|
    ensures forall r :: r in rows[..n] ==> r.dst < rows[n].dst || (r.dst == rows[n].dst && r.src < rows[n].src)
  {
  }

  method SuccessorMap(rows: seq<Edge>, edges: set<Edge>, roots: set<Id>)
    returns (pins: map<Id, Id>, chain: set<Id>, forks: set<Id>)
    requires Answer(rows, edges, roots)
    ensures Covers(pins, forks, edges, roots + chain)
  {
    hide Answer, Pinned, Chained, Grouped, Covers;
    pins, chain, forks := map[], {}, {};
    var byOld: map<Id, set<Id>> := map[];
    Nothing();
    for n := 0 to |rows|
      invariant Pinned(rows[..n], pins) && Chained(rows[..n], chain) && Grouped(rows[..n], byOld)
    {
      Earlier(rows, edges, roots, n);
      PinNext(rows[..n], rows[n], pins);
      ChainNext(rows[..n], rows[n], chain);
      GroupNext(rows[..n], rows[n], byOld);
      assert rows[..n + 1] == rows[..n] + [rows[n]];
      var oldId, newId := rows[n].dst, rows[n].src;
      var had := if oldId in byOld then byOld[oldId] else {};
      pins := if oldId in pins then pins else pins[oldId := newId];
      chain := chain + {oldId, newId};
      byOld := byOld[oldId := had + {newId}];
    }
    assert rows[..|rows|] == rows;
    forks := Multiple(byOld);
    GatheredCovers(rows, edges, roots, pins, chain, byOld);
  }

  lemma {:induction false} Nothing()
    ensures Pinned([], map[]) && Chained([], {}) && Grouped([], map[])
  {
  }

  function Multiple(byOld: map<Id, set<Id>>): set<Id> {
    set x | x in byOld && |byOld[x]| > 1
  }

  lemma {:induction false} RowsComplete(rows: seq<Edge>, edges: set<Edge>, roots: set<Id>, chain: set<Id>, x: Id)
    requires Answer(rows, edges, roots) && Chained(rows, chain) && x in roots + chain
    ensures forall y :: y in Successors(edges, x) <==> Edge(y, x) in rows
  {
    if x in chain {
      var r :| r in rows && (r.dst == x || r.src == x);
      assert Reaches(rows, roots, x);
    }
    assert forall y :: y in Successors(edges, x) <==> Edge(y, x) in edges;
  }

  lemma {:induction false} PinIsLeast(rows: seq<Edge>, pins: map<Id, Id>, all: set<Id>, x: Id)
    requires Pinned(rows, pins) && forall y :: y in all <==> Edge(y, x) in rows
    ensures x in pins <==> all != {}
    ensures x in pins ==> pins[x] == Least(all)
  {
    if all != {} {
      var y :| y in all;
      assert Edge(y, x).dst in pins;
      assert Edge(Least(all), x) in rows;
    }
    if x in pins { assert pins[x] in all; }
  }

  lemma {:induction false} GroupIsAll(rows: seq<Edge>, byOld: map<Id, set<Id>>, all: set<Id>, x: Id)
    requires Grouped(rows, byOld) && forall y :: y in all <==> Edge(y, x) in rows
    ensures if x in byOld then byOld[x] == all else all == {}
  {
    if x !in byOld {
      assert forall y :: Edge(y, x) in rows ==> Edge(y, x).dst in byOld;
    }
  }

  lemma {:induction false} CoversAt(rows: seq<Edge>, edges: set<Edge>, roots: set<Id>, pins: map<Id, Id>,
                                    chain: set<Id>, byOld: map<Id, set<Id>>, x: Id)
    requires Answer(rows, edges, roots) && Pinned(rows, pins) && Chained(rows, chain) && Grouped(rows, byOld) &&
             x in roots + chain
    ensures (x in pins <==> Successors(edges, x) != {}) && (x in Multiple(byOld) <==> Forked(edges, x))
    ensures x in pins ==> pins[x] == Least(Successors(edges, x))
  {
    hide Answer, Pinned, Chained, Grouped, Successors;
    RowsComplete(rows, edges, roots, chain, x);
    PinIsLeast(rows, pins, Successors(edges, x), x);
    GroupIsAll(rows, byOld, Successors(edges, x), x);
  }

  lemma {:induction false} PinnedInChain(rows: seq<Edge>, pins: map<Id, Id>, chain: set<Id>)
    requires Pinned(rows, pins) && Chained(rows, chain)
    ensures forall x :: x in pins ==> x in chain && pins[x] in chain
  {
    forall x | x in pins
      ensures x in chain && pins[x] in chain
    {
      var e := Edge(pins[x], x);
      assert e in rows;
    }
  }

  lemma {:induction false} GatheredCovers(rows: seq<Edge>, edges: set<Edge>, roots: set<Id>, pins: map<Id, Id>,
                                          chain: set<Id>, byOld: map<Id, set<Id>>)
    requires Answer(rows, edges, roots) && Pinned(rows, pins) && Chained(rows, chain) && Grouped(rows, byOld)
    ensures Covers(pins, Multiple(byOld), edges, roots + chain)
  {
    hide Answer, Pinned, Chained, Grouped, Forked, Successors, Multiple;
    forall x | x in roots + chain
      ensures (x in pins <==> Successors(edges, x) != {}) && (x in Multiple(byOld) <==> Forked(edges, x))
      ensures x in pins ==> pins[x] == Least(Successors(edges, x))
    {
      CoversAt(rows, edges, roots, pins, chain, byOld, x);
    }
    PinnedInChain(rows, pins, chain);
  }

  // ----- sub-scores -----

  const W_AGREE: real := 0.5
  const W_GAP: real := 0.3
  const W_TIME: real := 0.2
  const GAP_TAU: real := 1.5
  const GAP_NEUTRAL: real := 0.5
  const GAP_SINGLE: real := 1.0
  const TRUST_TAU: int := 180 * 86_400
  const TRUST_TIME_FLOOR: real := 0.5
  const TRUST_FLOOR: real := 0.6
  const SUPERSEDED_CONF_CAP: real := 0.4
  const UNCORROBORATED_CORPUS_CONF_CAP: real := 0.4

  // The library exponential: into (0, 1] on arguments up to zero.
  ghost predicate IsExp(exp: real -> real) {
    forall x :: x <= 0.0 ==> 0.0 < exp(x) <= 1.0
  }

  function Agreement(signals: set<Signal>): real {
    var primary := if Bm25 in signals || Dense in signals then 0.5 else 0.0;
    var dual := if Bm25 in signals && Dense in signals then 0.4 else 0.0;
    var facet := if Facet in signals then 0.1 else 0.0;
    Min(1.0, primary + dual + facet)
  }

  function GapScore(exp: real -> real, isTop: bool, gap: Option<real>): real {
    if !isTop then GAP_NEUTRAL
    else if gap.None? then GAP_SINGLE
    else Max(GAP_NEUTRAL, 1.0 - exp(-Max(0.0, gap.value) / GAP_TAU))
  }

  function TemporalScore(exp: real -> real, ageSeconds: int): real {
    var age := if ageSeconds > 0 then ageSeconds else 0;
    TRUST_TIME_FLOOR + (1.0 - TRUST_TIME_FLOOR) * exp(-(age as real) / (TRUST_TAU as real))
  }

  function Blend(exp: real -> real, signals: set<Signal>, isTop: bool, gap: Option<real>, age: int): real {
    W_AGREE * Agreement(signals) + W_GAP * GapScore(exp, isTop, gap) + W_TIME * TemporalScore(exp, age)
  }

  function Confidence(exp: real -> real, signals: set<Signal>, isTop: bool, gap: Option<real>, age: int): real {
    Max(0.0, Min(1.0, Blend(exp, signals, isTop, gap, age)))
  }

  // The weights sum to one, so the clamp never acts.
  lemma {:induction false} ClampIsIdle(exp: real -> real, signals: set<Signal>, isTop: bool, gap: Option<real>,
                                       age: int)
    requires IsExp(exp)
    ensures Confidence(exp, signals, isTop, gap, age) == Blend(exp, signals, isTop, gap, age)
    ensures 0.25 <= Blend(exp, signals, isTop, gap, age) <= 1.0
  {
    assert 0.5 <= GapScore(exp, isTop, gap) <= 1.0 by {
      if gap.Some? { NegativeRatio(Max(0.0, gap.value), GAP_TAU); }
    }
    assert 0.5 <= TemporalScore(exp, age) <= 1.0 by {
      NegativeRatio(if age > 0 then age as real else 0.0, TRUST_TAU as real);
    }
  }

  lemma {:induction false} SubScores(exp: real -> real, isTop: bool, gap: Option<real>, age: int)
    requires IsExp(exp)
    ensures 0.5 <= GapScore(exp, isTop, gap) <= 1.0 && 0.5 <= TemporalScore(exp, age) <= 1.0
  {
    if gap.Some? { NegativeRatio(Max(0.0, gap.value), GAP_TAU); }
    NegativeRatio(if age > 0 then age as real else 0.0, TRUST_TAU as real);
  }

  // Two agreeing primary signals always reach the floor, however tight the gap
  // and however old the atom; without a primary signal nothing does.
  lemma {:induction false} AgreementDecides(exp: real -> real, signals: set<Signal>, isTop: bool, gap: Option<real>,
                                            age: int)
    requires IsExp(exp)
    ensures Bm25 in signals && Dense in signals ==> Confidence(exp, signals, isTop, gap, age) >= TRUST_FLOOR
    ensures Bm25 !in signals && Dense !in signals ==> Confidence(exp, signals, isTop, gap, age) < TRUST_FLOOR
  {
    hide GapScore, TemporalScore, IsExp;
    SubScores(exp, isTop, gap, age);
  }

  lemma {:induction false} NegativeRatio(a: real, b: real)
    requires a >= 0.0 && b > 0.0
    ensures -a / b <= 0.0
  {
  }

  function Families(signals: set<Signal>): set<Signal> {
    (signals * {Bm25, Dense, Facet}) + if OpenAi in signals then {Dense} else {}
  }

  predicate UncorroboratedCorpus(kind: Kind, sources: set<Source>, signals: set<Signal>) {
    kind == DocumentChunk && sources != {} && sources <= {BulkImport} && |Families(signals)| < 2
  }

  // ----- one result -----

  datatype Recall = Recall(reranked: Ranked, hits: map<Id, set<Signal>>, store: Store, now: int)

  ghost function Forks(edges: set<Edge>): (r: set<Id>)
    ensures forall x :: x in r <==> Forked(edges, x)
  {
    var olds := set e | e in edges :: e.dst;
    forall x | Forked(edges, x)
      ensures x in olds
    {
      assert Successors(edges, x) != {};
      var y :| y in Successors(edges, x);
      assert Edge(y, x) in edges;
    }
    set x | x in olds && Forked(edges, x)
  }

  function TopGap(reranked: Ranked): Option<real> {
    if |reranked| >= 2 then Some(reranked[0].1 - reranked[1].1) else None
  }

  function SignalsOf(q: Recall, id: Id): set<Signal> {
    if id in q.hits then q.hits[id] else {}
  }

  function SourcesOf(st: Store, id: Id): set<Source> {
    if id in st.sources then st.sources[id] else {}
  }

  function ConfidenceOf(q: Recall, exp: real -> real, i: nat): real
    requires i < |q.reranked| && q.reranked[i].0 in q.store.atoms
  {
    var id := q.reranked[i].0;
    Confidence(exp, SignalsOf(q, id), i == 0, if i == 0 then TopGap(q.reranked) else None,
               q.now - q.store.atoms[id].effectiveTime)
  }

  function LiveVerdict(q: Recall, exp: real -> real, i: nat): Verdict
    requires i < |q.reranked| && q.reranked[i].0 in q.store.atoms
  {
    var (id, score) := q.reranked[i];
    var confidence := ConfidenceOf(q, exp, i);
    if UncorroboratedCorpus(q.store.atoms[id].kind, SourcesOf(q.store, id), SignalsOf(q, id)) then
      var capped := Min(confidence, UNCORROBORATED_CORPUS_CONF_CAP);
      Verdict(id, score, capped, capped >= TRUST_FLOOR, Uncorroborated, None)
    else
      Verdict(id, score, confidence, confidence >= TRUST_FLOOR, Evidence, None)
  }

  // A superseded result whose chain ends at `end`; None when that is not live.
  function ReplacedVerdict(q: Recall, exp: real -> real, i: nat, end: Id, forked: bool): Option<Verdict>
    requires i < |q.reranked| && q.reranked[i].0 in q.store.atoms
  {
    if end !in q.store.atoms || q.store.atoms[end].status != Live then None
    else
      var (id, score) := q.reranked[i];
      var capped := Min(ConfidenceOf(q, exp, i), SUPERSEDED_CONF_CAP);
      Some(Verdict(id, score, capped, capped >= TRUST_FLOOR, Replaced(forked), Some(end)))
  }

  // What becomes of result i, over the whole store's edges.
  ghost function Judge(q: Recall, exp: real -> real, i: nat): Result<Option<Verdict>, Error>
    requires i < |q.reranked|
  {
    var id := q.reranked[i].0;
    if id !in q.store.atoms then Err(Desync(id))
    else match q.store.atoms[id].status
      case Live => Ok(Some(LiveVerdict(q, exp, i)))
      case Tombstone => Ok(None)
      case Unrecognized => Err(Corrupt(id))
      case Superseded =>
        match LiveEnd(Pins(q.store.edges), Forks(q.store.edges), id, {}, false)
        case Cycle => Err(CycleAt(id))
        case End(end, forked) => Ok(ReplacedVerdict(q, exp, i, end, forked))
  }

  ghost function Assessed(q: Recall, exp: real -> real, n: nat): Result<seq<Verdict>, Error>
    requires n <= |q.reranked|
  {
    if n == 0 then Ok([])
    else match Assessed(q, exp, n - 1)
      case Err(e) => Err(e)
      case Ok(out) =>
        match Judge(q, exp, n - 1)
        case Err(e) => Err(e)
        case Ok(None) => Ok(out)
        case Ok(Some(v)) => Ok(out + [v])
  }

  // ----- the one query is enough -----

  lemma {:induction false} SameWalk(pins: map<Id, Id>, forks: set<Id>, edges: set<Edge>, ids: set<Id>, cur: Id,
                                    seen: set<Id>, forked: bool)
    requires Covers(pins, forks, edges, ids) && cur in ids
    ensures LiveEnd(pins, forks, cur, seen, forked) == LiveEnd(Pins(edges), Forks(edges), cur, seen, forked)
    decreases |pins.Keys - seen|
  {
    if cur in pins && cur !in seen {
      assert pins.Keys - (seen + {cur}) == (pins.Keys - seen) - {cur};
      var later := forked || cur in forks;
      assert later == (forked || cur in Forks(edges));
      SameWalk(pins, forks, edges, ids, pins[cur], seen + {cur}, later);
    }
  }

  function Roots(reranked: Ranked): (r: set<Id>)
    ensures forall i :: 0 <= i < |reranked| ==> reranked[i].0 in r
  {
    set i | 0 <= i < |reranked| :: reranked[i].0
  }

  // `rows` is the answer of the recursive query.
  method AssessTrust(q: Recall, rows: seq<Edge>, exp: real -> real) returns (r: Result<seq<Verdict>, Error>)
    requires Answer(rows, q.store.edges, Roots(q.reranked))
    ensures r == Assessed(q, exp, |q.reranked|)
  {
    hide Answer, Covers, LiveEnd, Pins, Forks, ReplacedVerdict, LiveVerdict;
    if q.reranked == [] { return Ok([]); }
    var pins, chain, forks := SuccessorMap(rows, q.store.edges, Roots(q.reranked));
    var out: seq<Verdict> := [];
    for n := 0 to |q.reranked|
      invariant Assessed(q, exp, n) == Ok(out)
    {
      var id := q.reranked[n].0;
      AssessedStops(q, exp, n + 1, |q.reranked|);
      if id !in q.store.atoms { return Err(Desync(id)); }
      match q.store.atoms[id].status
      case Live => out := out + [LiveVerdict(q, exp, n)];
      case Tombstone =>
      case Unrecognized => return Err(Corrupt(id));
      case Superseded =>
        SameWalk(pins, forks, q.store.edges, Roots(q.reranked) + chain, id, {}, false);
        var walked := WalkToEnd(id, pins, forks);
        if walked.Cycle? { return Err(CycleAt(id)); }
        var kept := ReplacedVerdict(q, exp, n, walked.id, walked.forked);
        if kept.Some? { out := out + [kept.value]; }
    }
    return Ok(out);
  }

  lemma {:induction false} AssessedStops(q: Recall, exp: real -> real, m: nat, n: nat)
    requires m <= n <= |q.reranked|
    ensures Assessed(q, exp, m).Err? ==> Assessed(q, exp, n) == Assessed(q, exp, m)
  {
    if m == n {
    } else {
      AssessedStops(q, exp, m, n - 1);
    }
  }

  // ----- what a verdict promises -----

  // The live atom at the end of the pinned chain, with nothing newer than it
  // anywhere in the store.
  ghost predicate Replaces(st: Store, id: Id, end: Id, forked: bool) {
    && end in st.atoms && st.atoms[end].status == Live && Successors(st.edges, end) == {}
    && exists p :: Path(Pins(st.edges), p, id) && p[|p| - 1] == end && (forked <==> Crosses(p, Forks(st.edges)))
  }

  ghost predicate Sound(q: Recall, i: nat, v: Verdict)
    requires i < |q.reranked|
  {
    && (v.atomId, v.score) == q.reranked[i] && v.atomId in q.store.atoms
    && 0.0 <= v.confidence <= 1.0 && (v.shouldTrust <==> v.confidence >= TRUST_FLOOR)
    && var status := q.store.atoms[v.atomId].status;
       match v.supersededBy
       case None =>
         && status == Live
         && (v.shouldTrust ==>
               !UncorroboratedCorpus(q.store.atoms[v.atomId].kind, SourcesOf(q.store, v.atomId),
                                     SignalsOf(q, v.atomId)))
       case Some(end) =>
         && status == Superseded && v.confidence <= SUPERSEDED_CONF_CAP && !v.shouldTrust
         && v.why.Replaced? && Replaces(q.store, v.atomId, end, v.why.forked)
  }

  lemma {:induction false} JudgeSound(q: Recall, exp: real -> real, i: nat)
    requires IsExp(exp) && i < |q.reranked| && Judge(q, exp, i).Ok? && Judge(q, exp, i).value.Some?
    ensures Sound(q, i, Judge(q, exp, i).value.value)
  {
    hide Confidence, LiveEnd, UncorroboratedCorpus, IsExp, Replaces;
    var id := q.reranked[i].0;
    ClampIsIdle(exp, SignalsOf(q, id), i == 0, if i == 0 then TopGap(q.reranked) else None,
                q.now - q.store.atoms[id].effectiveTime);
    if q.store.atoms[id].status == Superseded {
      var r := LiveEnd(Pins(q.store.edges), Forks(q.store.edges), id, {}, false);
      EndReplaces(q.store, id);
    }
  }

  lemma {:induction false} EndReplaces(st: Store, id: Id)
    ensures var r := LiveEnd(Pins(st.edges), Forks(st.edges), id, {}, false);
            r.End? && r.id in st.atoms && st.atoms[r.id].status == Live ==> Replaces(st, id, r.id, r.forked)
  {
    hide LiveEnd, Successors;
    var pins, forks := Pins(st.edges), Forks(st.edges);
    var r := LiveEnd(pins, forks, id, {}, false);
    if r.End? {
      var p := EndPath(pins, forks, id, {}, false);
      assert Leads(pins, forks, p, id, r, false);
    }
  }

  // The results kept, by rank.
  ghost function Kept(q: Recall, exp: real -> real, n: nat): seq<nat>
    requires n <= |q.reranked|
  {
    if n == 0 then []
    else Kept(q, exp, n - 1) + if Judge(q, exp, n - 1).Ok? && Judge(q, exp, n - 1).value.Some? then [n - 1] else []
  }

  ghost predicate From(q: Recall, exp: real -> real, out: seq<Verdict>, kept: seq<nat>, n: nat)
    requires n <= |q.reranked|
  {
    && |out| == |kept|
    && (forall k :: 0 <= k < |kept| ==> kept[k] < n && Judge(q, exp, kept[k]) == Ok(Some(out[k])))
    && (forall k, l :: 0 <= k < l < |kept| ==> kept[k] < kept[l])
    && (forall i :: 0 <= i < n && i !in kept ==> Judge(q, exp, i) == Ok(None))
  }

  lemma {:induction false} FromNext(q: Recall, exp: real -> real, out: seq<Verdict>, kept: seq<nat>, n: nat)
    requires n < |q.reranked| && From(q, exp, out, kept, n) && Judge(q, exp, n).Ok?
    ensures var row := Judge(q, exp, n).value;
            if row.None? then From(q, exp, out, kept, n + 1) else From(q, exp, out + [row.value], kept + [n], n + 1)
  {
    hide Judge;
    var row := Judge(q, exp, n).value;
    if row.Some? {
      var more := kept + [n];
      assert n in more && forall i :: i in kept ==> i in more;
    }
  }

  lemma {:induction false} AssessedKept(q: Recall, exp: real -> real, n: nat)
    requires n <= |q.reranked| && Assessed(q, exp, n).Ok?
    ensures From(q, exp, Assessed(q, exp, n).value, Kept(q, exp, n), n)
  {
    hide Judge, From;
    if n > 0 {
      AssessedKept(q, exp, n - 1);
      var before := Kept(q, exp, n - 1);
      FromNext(q, exp, Assessed(q, exp, n - 1).value, before, n - 1);
      assert Kept(q, exp, n) == if Judge(q, exp, n - 1).value.Some? then before + [n - 1] else before;
    } else {
      FromNothing(q, exp);
    }
  }

  lemma {:induction false} FromNothing(q: Recall, exp: real -> real)
    ensures From(q, exp, [], [], 0)
  {
  }

  // The call fails exactly when some row does.
  lemma {:induction false} AssessedFails(q: Recall, exp: real -> real, n: nat)
    requires n <= |q.reranked|
    ensures Assessed(q, exp, n).Err? <==> exists i: nat :: i < n && Judge(q, exp, i).Err?
  {
    hide Judge;
    if n == 0 {
    } else {
      AssessedFails(q, exp, n - 1);
    }
  }

  // Rows keep the input's order, every row is sound, and a row is missing only
  // when its result is dropped.
  lemma {:induction false} AssessmentSound(q: Recall, exp: real -> real, out: seq<Verdict>)
    requires IsExp(exp) && Assessed(q, exp, |q.reranked|) == Ok(out)
    ensures var kept := Kept(q, exp, |q.reranked|);
            && From(q, exp, out, kept, |q.reranked|)
            && forall k :: 0 <= k < |out| ==> Sound(q, kept[k], out[k])
  {
    hide Judge, Sound, IsExp;
    AssessedKept(q, exp, |q.reranked|);
    var kept := Kept(q, exp, |q.reranked|);
    forall k | 0 <= k < |out|
      ensures Sound(q, kept[k], out[k])
    {
      JudgeSound(q, exp, kept[k]);
    }
  }

  // When a superseded result is dropped or the call raises over it, in terms of
  // its pinned path through the whole store.
  lemma {:induction false} SupersededFate(q: Recall, exp: real -> real, i: nat)
    requires i < |q.reranked| && q.reranked[i].0 in q.store.atoms
    requires q.store.atoms[q.reranked[i].0].status == Superseded
    ensures var pins, id := Pins(q.store.edges), q.reranked[i].0;
            && (Judge(q, exp, i).Err? <==> exists p :: Path(pins, p, id) && Repeats(p))
            && (Judge(q, exp, i) == Ok(None) <==>
                exists p :: Path(pins, p, id) && Terminal(pins, p) && !IsLive(q.store, p[|p| - 1]))
  {
    hide LiveEnd, Path, Repeats, Terminal, Crosses, Confidence;
    var pins, forks, id := Pins(q.store.edges), Forks(q.store.edges), q.reranked[i].0;
    WalkMeaning(pins, forks, id);
    if LiveEnd(pins, forks, id, {}, false).End? {
      var p := EndPath(pins, forks, id, {}, false);
      assert Leads(pins, forks, p, id, LiveEnd(pins, forks, id, {}, false), false);
      assert Path(pins, p, id) && Terminal(pins, p);
    }
  }

  predicate IsLive(st: Store, id: Id) {
    id in st.atoms && st.atoms[id].status == Live
  }
}
