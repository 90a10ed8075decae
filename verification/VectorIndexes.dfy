/** The flat and the graph index over embeddings, and the map both represent. */
module VectorIndexes {
  import opened Basics
  import opened Wrappers
  import opened Ranking

  // Atom ids sort as they were made.
  type Id = nat

  datatype Vec = Vec(xs: seq<real>)

  // One embedding row; the primary key makes the ids of a load distinct.
  datatype Row = Row(id: Id, vec: Vec)

  datatype Op = Build(rows: seq<Row>) | Add(id: Id, vec: Vec) | Remove(id: Id)

  ghost predicate Distinct<T>(s: seq<T>) {
    forall i, j :: 0 <= i < j < |s| ==> s[i] != s[j]
  }

  function Ids(rows: seq<Row>): seq<Id> {
    seq(|rows|, i requires 0 <= i < |rows| => rows[i].id)
  }

  function Vecs(rows: seq<Row>): seq<Vec> {
    seq(|rows|, i requires 0 <= i < |rows| => rows[i].vec)
  }

  ghost predicate Legal(op: Op) {
    op.Build? ==> Distinct(Ids(op.rows))
  }

  // ----- what an index represents -----

  // `known` are the atoms with a row, live or not.
  datatype Abstract = Abstract(known: set<Id>, live: map<Id, Vec>, retired: set<Id>)

  function Loaded(rows: seq<Row>): map<Id, Vec> {
    if rows == [] then map[] else Loaded(rows[..|rows| - 1])[rows[|rows| - 1].id := rows[|rows| - 1].vec]
  }

  // A removal retires the atom; adding one again retires its old row first.
  function Apply(a: Abstract, op: Op): Abstract {
    match op
    case Build(rows) => Abstract((set x | x in Ids(rows)), Loaded(rows), {})
    case Add(id, vec) =>
      Abstract(a.known + {id}, a.live[id := vec], a.retired + if id in a.known then {id} else {})
    case Remove(id) =>
      if id in a.known then Abstract(a.known, a.live - {id}, a.retired + {id}) else a
  }

  // ----- the rows behind it -----

  // Rows keep their position for ever; `live` are the positions not retired.
  datatype Table = Table(ids: seq<Id>, vecs: seq<Vec>, live: set<nat>) {
    ghost predicate Valid() {
      && |ids| == |vecs| && (forall i :: i in live ==> i < |ids|)
      && forall i, j :: i in live && j in live && i != j ==> ids[i] != ids[j]
    }
  }

  function Upto(n: nat): (r: set<nat>)
    ensures forall i: nat :: i in r <==> i < n
  {
    if n == 0 then {} else Upto(n - 1) + {n - 1}
  }

  function Positions(ids: seq<Id>, id: Id): (r: set<nat>)
    ensures forall i: nat :: i in r <==> i < |ids| && ids[i] == id
  {
    set i: nat | 0 <= i < |ids| && ids[i] == id
  }

  function Step(t: Table, op: Op): Table {
    match op
    case Build(rows) => Table(Ids(rows), Vecs(rows), Upto(|rows|))
    case Remove(id) => Table(t.ids, t.vecs, t.live - Positions(t.ids, id))
    case Add(id, vec) => Table(t.ids + [id], t.vecs + [vec], t.live - Positions(t.ids, id) + {|t.ids|})
  }

  // What the first n rows put in the map, a later row over an earlier one.
  function LiveUpto(t: Table, n: nat): map<Id, Vec>
    requires n <= |t.ids| == |t.vecs|
  {
    if n == 0 then map[]
    else if n - 1 in t.live then LiveUpto(t, n - 1)[t.ids[n - 1] := t.vecs[n - 1]]
    else LiveUpto(t, n - 1)
  }

  function RetiredUpto(t: Table, n: nat): set<Id>
    requires n <= |t.ids|
  {
    if n == 0 then {} else RetiredUpto(t, n - 1) + if n - 1 in t.live then {} else {t.ids[n - 1]}
  }

  function LiveMap(t: Table): map<Id, Vec>
    requires |t.ids| == |t.vecs|
  {
    LiveUpto(t, |t.ids|)
  }

  function Retired(t: Table): set<Id> {
    RetiredUpto(t, |t.ids|)
  }

  function Meaning(t: Table): Abstract
    requires |t.ids| == |t.vecs|
  {
    Abstract((set x | x in t.ids), LiveMap(t), Retired(t))
  }

  lemma {:induction false} LiveAt(t: Table, n: nat)
    requires t.Valid() && n <= |t.ids|
    ensures forall i :: i in t.live && i < n ==> t.ids[i] in LiveUpto(t, n) && LiveUpto(t, n)[t.ids[i]] == t.vecs[i]
    ensures forall x :: x in LiveUpto(t, n) ==> exists i :: i in t.live && i < n && t.ids[i] == x
  {
    if n == 0 {
    } else {
      LiveAt(t, n - 1);
    }
  }

  lemma {:induction false} LiveIs(t: Table)
    requires t.Valid()
    ensures forall i :: i in t.live ==> t.ids[i] in LiveMap(t) && LiveMap(t)[t.ids[i]] == t.vecs[i]
    ensures forall x :: x in LiveMap(t) ==> exists i :: i in t.live && t.ids[i] == x
  {
    LiveAt(t, |t.ids|);
  }

  lemma {:induction false} RetiredAt(t: Table, n: nat)
    requires n <= |t.ids|
    ensures forall i: nat :: i < n && i !in t.live ==> t.ids[i] in RetiredUpto(t, n)
    ensures forall x :: x in RetiredUpto(t, n) ==> exists i: nat :: i < n && i !in t.live && t.ids[i] == x
  {
    if n == 0 {
    } else {
      RetiredAt(t, n - 1);
    }
  }

  lemma {:induction false} BuildUpto(rows: seq<Row>, n: nat)
    requires n <= |rows|
    ensures LiveUpto(Table(Ids(rows), Vecs(rows), Upto(|rows|)), n) == Loaded(rows[..n])
    ensures RetiredUpto(Table(Ids(rows), Vecs(rows), Upto(|rows|)), n) == {}
  {
    if n == 0 {
    } else {
      BuildUpto(rows, n - 1);
      assert rows[..n][..n - 1] == rows[..n - 1];
    }
  }

  lemma {:induction false} RemoveUpto(t: Table, u: Table, id: Id, n: nat)
    requires n <= |t.ids| == |t.vecs| && u == Step(t, Remove(id))
    ensures LiveUpto(u, n) == LiveUpto(t, n) - {id}
    ensures RetiredUpto(u, n) == RetiredUpto(t, n) + if id in t.ids[..n] then {id} else {}
  {
    if n == 0 {
    } else {
      RemoveUpto(t, u, id, n - 1);
      assert t.ids[..n] == t.ids[..n - 1] + [t.ids[n - 1]];
    }
  }

  lemma {:induction false} AppendUpto(u: Table, v: Table, id: Id, vec: Vec, n: nat)
    requires n <= |u.ids| == |u.vecs| && v == Table(u.ids + [id], u.vecs + [vec], u.live + {|u.ids|})
    ensures LiveUpto(v, n) == LiveUpto(u, n) && RetiredUpto(v, n) == RetiredUpto(u, n)
  {
    if n == 0 {
    } else {
      AppendUpto(u, v, id, vec, n - 1);
    }
  }

  lemma {:induction false} RemoveMeaning(t: Table, id: Id)
    requires |t.ids| == |t.vecs|
    ensures Meaning(Step(t, Remove(id))) == Apply(Meaning(t), Remove(id))
  {
    hide LiveUpto, RetiredUpto;
    var u := Step(t, Remove(id));
    RemoveUpto(t, u, id, |t.ids|);
    assert t.ids[..|t.ids|] == t.ids;
    if id !in t.ids {
      assert u.live == t.live;
    }
  }

  lemma {:induction false} AddMeaning(t: Table, id: Id, vec: Vec)
    requires |t.ids| == |t.vecs|
    ensures Meaning(Step(t, Add(id, vec))) == Apply(Meaning(t), Add(id, vec))
  {
    var u, v := Step(t, Remove(id)), Step(t, Add(id, vec));
    var n := |t.ids|;
    RemoveMeaning(t, id);
    AppendUpto(u, v, id, vec, n);
    assert LiveUpto(v, n + 1) == LiveUpto(v, n)[id := vec];
    assert RetiredUpto(v, n + 1) == RetiredUpto(v, n);
    AppendKnown(t.ids, id);
    AddOver(Meaning(t), id, vec);
  }

  lemma {:induction false} AddRetires(t: Table, id: Id, vec: Vec)
    requires |t.ids| == |t.vecs|
    ensures Retired(Step(t, Add(id, vec))) == Retired(Step(t, Remove(id)))
  {
    AppendUpto(Step(t, Remove(id)), Step(t, Add(id, vec)), id, vec, |t.ids|);
  }

  lemma {:induction false} AppendKnown(ids: seq<Id>, id: Id)
    ensures (set x | x in ids + [id]) == (set x | x in ids) + {id}
  {
  }

  lemma {:induction false} AddOver(a: Abstract, id: Id, vec: Vec)
    ensures Apply(a, Add(id, vec)) ==
            Abstract(a.known + {id}, Apply(a, Remove(id)).live[id := vec], Apply(a, Remove(id)).retired)
  {
  }

  lemma {:induction false} DistinctApart(ids: seq<Id>)
    requires Distinct(ids)
    ensures forall i, j :: 0 <= i < |ids| && 0 <= j < |ids| && i != j ==> ids[i] != ids[j]
  {
  }

  lemma {:induction false} StepValid(t: Table, op: Op)
    requires op.Build? || t.Valid()
    requires Legal(op)
    ensures Step(t, op).Valid()
  {
    match op
    case Build(rows) => DistinctApart(Ids(rows));
    case Add(id, vec) => AppendValid(Step(t, Remove(id)), Step(t, op), id, vec);
    case Remove(id) =>
  }

  lemma {:induction false} AppendValid(u: Table, v: Table, id: Id, vec: Vec)
    requires u.Valid() && (forall i :: i in u.live ==> u.ids[i] != id)
    requires v == Table(u.ids + [id], u.vecs + [vec], u.live + {|u.ids|})
    ensures v.Valid()
  {
    assert forall i :: i in u.live ==> v.ids[i] == u.ids[i];
  }

  lemma {:induction false} StepMeaning(t: Table, op: Op)
    requires |t.ids| == |t.vecs|
    ensures Meaning(Step(t, op)) == Apply(Meaning(t), op)
  {
    match op
    case Build(rows) =>
      BuildUpto(rows, |rows|);
      assert rows[..|rows|] == rows;
    case Add(id, vec) => AddMeaning(t, id, vec);
    case Remove(id) => RemoveMeaning(t, id);
  }

  // ----- a run -----

  function Run(t: Table, ops: seq<Op>): Table {
    if ops == [] then t else Step(Run(t, ops[..|ops| - 1]), ops[|ops| - 1])
  }

  function Applied(a: Abstract, ops: seq<Op>): Abstract {
    if ops == [] then a else Apply(Applied(a, ops[..|ops| - 1]), ops[|ops| - 1])
  }

  const EMPTY := Table([], [], {})

  // After any sequence of builds, adds and removals the rows mean the map that
  // the operations describe, with one live row an atom.
  lemma {:induction false} RunMeaning(ops: seq<Op>)
    requires forall op :: op in ops ==> Legal(op)
    ensures Run(EMPTY, ops).Valid()
    ensures Meaning(Run(EMPTY, ops)) == Applied(Abstract({}, map[], {}), ops)
  {
    if ops == [] {
    } else {
      var front := ops[..|ops| - 1];
      RunMeaning(front);
      StepValid(Run(EMPTY, front), ops[|ops| - 1]);
      StepMeaning(Run(EMPTY, front), ops[|ops| - 1]);
    }
  }

  // The newest vector wins and a removed atom is gone, whatever came before.
  lemma {:induction false} NewestWins(ops: seq<Op>, id: Id, vec: Vec)
    requires forall op :: op in ops ==> Legal(op)
    ensures Run(EMPTY, ops + [Add(id, vec)]).Valid() && Run(EMPTY, ops + [Remove(id)]).Valid()
    ensures var m := LiveMap(Run(EMPTY, ops + [Add(id, vec)])); id in m && m[id] == vec
    ensures id !in LiveMap(Run(EMPTY, ops + [Remove(id)]))
  {
    RunMeaning(ops);
    assert (ops + [Add(id, vec)])[..|ops|] == ops && (ops + [Remove(id)])[..|ops|] == ops;
    hide Run, Applied, LiveMap;
    var t := Run(EMPTY, ops);
    StepValid(t, Add(id, vec));
    StepValid(t, Remove(id));
    StepMeaning(t, Add(id, vec));
    StepMeaning(t, Remove(id));
    LiveIs(Step(t, Remove(id)));
  }

  // ----- search -----

  function Products(a: seq<real>, b: seq<real>): real {
    if a == [] || b == [] then 0.0 else a[0] * b[0] + Products(a[1..], b[1..])
  }

  function Dot(a: Vec, b: Vec): real {
    Products(a.xs, b.xs)
  }

  // ----- what a score is -----

  // The vector s * a + c.
  function Mixed(s: real, a: seq<real>, c: seq<real>): seq<real>
    requires |a| == |c|
  {
    seq(|a|, i requires 0 <= i < |a| => MixedAt(s, a[i], c[i]))
  }

  function MixedAt(s: real, a: real, c: real): real {
    s * a + c
  }

  function Unit(n: nat, i: nat): seq<real> {
    seq(n, j => if j == i then 1.0 else 0.0)
  }

  lemma MixedTail(s: real, a: seq<real>, c: seq<real>)
    requires |a| == |c| > 0
    ensures Mixed(s, a, c)[1..] == Mixed(s, a[1..], c[1..])
  {
    hide MixedAt;
  }

  lemma MixedProduct(s: real, a: real, c: real, b: real)
    ensures MixedAt(s, a, c) * b == s * (a * b) + c * b
  {
  }

  lemma Distributes(s: real, p: real, q: real)
    ensures s * (p + q) == s * p + s * q
  {
  }

  // Linear in the stored vector,
  lemma {:induction false} ProductsLinear(s: real, a: seq<real>, c: seq<real>, b: seq<real>)
    requires |a| == |c|
    ensures Products(Mixed(s, a, c), b) == s * Products(a, b) + Products(c, b)
  {
    if a == [] || b == [] {
    } else {
      ProductsLinear(s, a[1..], c[1..], b[1..]);
      MixedTail(s, a, c);
      MixedProduct(s, a[0], c[0], b[0]);
      Distributes(s, a[0] * b[0], Products(a[1..], b[1..]));
    }
  }

  // the same either way round,
  lemma {:induction false} ProductsSymmetric(a: seq<real>, b: seq<real>)
    ensures Products(a, b) == Products(b, a)
  {
    if a == [] || b == [] {
    } else {
      ProductsSymmetric(a[1..], b[1..]);
    }
  }

  // and against a unit vector the coordinate.
  lemma {:induction false} ProductsUnit(a: seq<real>, i: nat)
    requires i < |a|
    ensures Products(a, Unit(|a|, i)) == a[i]
  {
    var e := Unit(|a|, i);
    if i == 0 {
      assert e[1..] == Unit(|a| - 1, |a|);
      ProductsNothing(a[1..], |a|);
    } else {
      assert e[1..] == Unit(|a| - 1, i - 1);
      ProductsUnit(a[1..], i - 1);
    }
  }

  lemma {:induction false} ProductsNothing(a: seq<real>, i: nat)
    requires i >= |a|
    ensures Products(a, Unit(|a|, i)) == 0.0
  {
    if a == [] {
    } else {
      assert Unit(|a|, i)[1..] == Unit(|a| - 1, i - 1);
      ProductsNothing(a[1..], i - 1);
    }
  }

  // A query divided by its norm scores the product over the norm.
  lemma {:induction false} ScoreOverNorm(v: Vec, query: Vec, norm: real)
    requires norm != 0.0
    ensures norm * Dot(v, Scaled(query, norm)) == Dot(v, query)
  {
    ScaledProducts(v.xs, query.xs, norm);
  }

  lemma OverNorm(norm: real, a: real, b: real, rest: real)
    requires norm != 0.0
    ensures norm * (a * (b / norm) + rest) == a * b + norm * rest
  {
    var q := b / norm;
    assert norm * q == b;
    assert norm * (a * q) == a * (norm * q);
  }

  lemma {:induction false} ScaledProducts(a: seq<real>, b: seq<real>, norm: real)
    requires norm != 0.0
    ensures norm * Products(a, Scaled(Vec(b), norm).xs) == Products(a, b)
  {
    if a == [] || b == [] {
    } else {
      assert Scaled(Vec(b), norm).xs[1..] == Scaled(Vec(b[1..]), norm).xs;
      ScaledProducts(a[1..], b[1..], norm);
      OverNorm(norm, a[0], b[0], Products(a[1..], Scaled(Vec(b[1..]), norm).xs));
    }
  }

  predicate Allows(allowed: Option<set<Id>>, id: Id) {
    allowed.None? || id in allowed.value
  }

  // The eligible rows in position order with their scores.
  function Eligible(t: Table, n: nat, allowed: Option<set<Id>>, query: Vec): (hits: seq<Hit>)
    requires |t.ids| == |t.vecs| && n <= |t.ids|
    ensures forall i, j :: 0 <= i < j < |hits| ==> hits[i].key < hits[j].key
    ensures forall h :: h in hits ==>
              h.key < n && h.key in t.live && Allows(allowed, t.ids[h.key]) && h.score == Dot(t.vecs[h.key], query)
    ensures forall i: nat :: i < n && i in t.live && Allows(allowed, t.ids[i]) ==>
              Hit(i, Dot(t.vecs[i], query)) in hits
  {
    if n == 0 then []
    else
      var before := Eligible(t, n - 1, allowed, query);
      if n - 1 in t.live && Allows(allowed, t.ids[n - 1]) then before + [Hit(n - 1, Dot(t.vecs[n - 1], query))]
      else before
  }

  function Named(ids: seq<Id>, hits: seq<Hit>): (r: seq<(Id, real)>)
    requires forall h :: h in hits ==> h.key < |ids|
    ensures |r| == |hits| && forall i :: 0 <= i < |r| ==> r[i] == (ids[hits[i].key], hits[i].score)
  {
    seq(|hits|, i requires 0 <= i < |hits| => (ids[hits[i].key], hits[i].score))
  }

  ghost function Candidates(live: map<Id, Vec>, allowed: Option<set<Id>>): set<Id> {
    set x | x in live && Allows(allowed, x)
  }

  // k of the candidates, or all of them, each once under its newest vector's
  // score, best first; and none left out scores higher than one returned.
  ghost predicate BestAtoms(r: seq<(Id, real)>, live: map<Id, Vec>, allowed: Option<set<Id>>, query: Vec, k: nat) {
    && |r| == (if |Candidates(live, allowed)| < k then |Candidates(live, allowed)| else k)
    && (forall i, j :: 0 <= i < j < |r| ==> r[i].0 != r[j].0 && r[i].1 >= r[j].1)
    && (forall i :: 0 <= i < |r| ==> r[i].0 in Candidates(live, allowed) && r[i].1 == Dot(live[r[i].0], query))
    && (forall i, x :: 0 <= i < |r| && x in Candidates(live, allowed) && Omits(r, x) ==> r[i].1 >= Dot(live[x], query))
  }

  ghost predicate Omits(r: seq<(Id, real)>, x: Id) {
    forall i :: 0 <= i < |r| ==> r[i].0 != x
  }

  function AtomsOf(ids: seq<Id>, hits: seq<Hit>): seq<Id>
    requires forall h :: h in hits ==> h.key < |ids|
  {
    seq(|hits|, i requires 0 <= i < |hits| => ids[hits[i].key])
  }

  lemma {:induction false} EligibleCount(t: Table, allowed: Option<set<Id>>, query: Vec)
    requires t.Valid()
    ensures |Eligible(t, |t.ids|, allowed, query)| == |Candidates(LiveMap(t), allowed)|
  {
    hide LiveMap, Eligible;
    LiveIs(t);
    var hits := Eligible(t, |t.ids|, allowed, query);
    var names := AtomsOf(t.ids, hits);
    forall i, j | 0 <= i < j < |names|
      ensures names[i] != names[j]
    {
      assert hits[i] in hits && hits[j] in hits;
    }
    ElementsCount(names);
    forall x | x in Candidates(LiveMap(t), allowed)
      ensures x in names
    {
      IsEligible(t, allowed, query, x);
    }
    forall x | x in names
      ensures x in Candidates(LiveMap(t), allowed)
    {
      var i :| 0 <= i < |names| && names[i] == x;
      assert hits[i] in hits;
    }
    assert Elements(names) == Candidates(LiveMap(t), allowed);
  }

  lemma {:induction false} IsEligible(t: Table, allowed: Option<set<Id>>, query: Vec, x: Id)
    requires t.Valid() && x in Candidates(LiveMap(t), allowed)
    ensures x in AtomsOf(t.ids, Eligible(t, |t.ids|, allowed, query))
  {
    hide LiveMap, Eligible;
    LiveIs(t);
    var hits := Eligible(t, |t.ids|, allowed, query);
    var i :| i in t.live && t.ids[i] == x;
    var h := Hit(i, Dot(t.vecs[i], query));
    assert h in hits;
    var j :| 0 <= j < |hits| && hits[j] == h;
    assert AtomsOf(t.ids, hits)[j] == x;
  }

  // The k best rows by score, then position.
  function Best(t: Table, allowed: Option<set<Id>>, query: Vec, k: nat): (r: seq<Hit>)
    requires |t.ids| == |t.vecs|
    ensures forall h :: h in r ==> h.key < |t.ids|
  {
    var hits := Eligible(t, |t.ids|, allowed, query);
    SortIsTop(hits, k);
    Take(Sort(hits), k)
  }

  // A top k of the rows is a top k of the map.
  lemma {:induction false} TopIsBest(t: Table, allowed: Option<set<Id>>, query: Vec, k: nat, top: seq<Hit>)
    requires t.Valid() && TopScores(top, Eligible(t, |t.ids|, allowed, query), k)
    ensures BestAtoms(Named(t.ids, top), LiveMap(t), allowed, query, k)
  {
    hide LiveMap, Eligible;
    LiveIs(t);
    var hits, r, m := Eligible(t, |t.ids|, allowed, query), Named(t.ids, top), LiveMap(t);
    EligibleCount(t, allowed, query);
    forall i | 0 <= i < |r|
      ensures r[i].0 in Candidates(m, allowed) && r[i].1 == Dot(m[r[i].0], query)
    {
      assert top[i] in hits;
    }
    forall i, j | 0 <= i < j < |r|
      ensures r[i].0 != r[j].0
    {
      assert top[i] in hits && top[j] in hits;
    }
    forall i, x | 0 <= i < |r| && x in Candidates(m, allowed) && Omits(r, x)
      ensures r[i].1 >= Dot(m[x], query)
    {
      OmittedIsWorse(t, allowed, query, k, top, i, x);
    }
  }

  lemma {:induction false} BestIsBest(t: Table, allowed: Option<set<Id>>, query: Vec, k: nat)
    requires t.Valid()
    ensures BestAtoms(Named(t.ids, Best(t, allowed, query, k)), LiveMap(t), allowed, query, k)
  {
    SortIsTop(Eligible(t, |t.ids|, allowed, query), k);
    TopIsBest(t, allowed, query, k, Best(t, allowed, query, k));
  }

  lemma {:induction false} OmittedIsWorse(t: Table, allowed: Option<set<Id>>, query: Vec, k: nat, top: seq<Hit>,
                                          i: nat, x: Id)
    requires t.Valid() && TopScores(top, Eligible(t, |t.ids|, allowed, query), k) && i < |top|
    requires forall h :: h in top ==> h.key < |t.ids|
    requires x in Candidates(LiveMap(t), allowed) && Omits(Named(t.ids, top), x)
    ensures top[i].score >= Dot(LiveMap(t)[x], query)
  {
    hide LiveMap, Eligible;
    LiveIs(t);
    var p :| p in t.live && t.ids[p] == x;
    var g := Hit(p, Dot(t.vecs[p], query));
    assert g in Eligible(t, |t.ids|, allowed, query);
    assert forall j :: 0 <= j < |top| ==> top[j] != g by {
      assert forall j :: 0 <= j < |top| ==> Named(t.ids, top)[j].0 != x;
    }
    assert top[i] in top;
  }

  function Names(r: seq<(Id, real)>): seq<Id> {
    seq(|r|, i requires 0 <= i < |r| => r[i].0)
  }

  lemma {:induction false} CountBelow(front: seq<Id>, back: seq<Id>)
    requires Distinct(front) && Distinct(back) && forall x :: x in front ==> x in back
    ensures |front| <= |back|
  {
    ElementsCount(front);
    ElementsCount(back);
    SubsetSize(Elements(front), Elements(back));
  }

  lemma {:induction false} NamesDistinct(r: seq<(Id, real)>, live: map<Id, Vec>, allowed: Option<set<Id>>, query: Vec,
                                         k: nat, n: nat)
    requires BestAtoms(r, live, allowed, query, k) && n <= |r|
    ensures Distinct(Names(r[..n]))
  {
  }

  lemma {:induction false} NoBetterScore(r: seq<(Id, real)>, s: seq<(Id, real)>, live: map<Id, Vec>,
                                         allowed: Option<set<Id>>, query: Vec, k: nat, i: nat)
    requires BestAtoms(r, live, allowed, query, k) && BestAtoms(s, live, allowed, query, k) && i < |r|
    ensures |r| == |s| && r[i].1 <= s[i].1
  {
    hide BestAtoms;
    assert |r| == |s| by { SameLength(r, s, live, allowed, query, k); }
    if r[i].1 > s[i].1 {
      var front, back := Names(r[..i + 1]), Names(s[..i]);
      forall x | x in front
        ensures x in back
      {
        var a :| 0 <= a < |front| && front[a] == x;
        AlsoAhead(r, s, live, allowed, query, k, i, a);
      }
      NamesDistinct(r, live, allowed, query, k, i + 1);
      NamesDistinct(s, live, allowed, query, k, i);
      CountBelow(front, back);
      assert false;
    }
  }

  lemma {:induction false} SameLength(r: seq<(Id, real)>, s: seq<(Id, real)>, live: map<Id, Vec>,
                                      allowed: Option<set<Id>>, query: Vec, k: nat)
    requires BestAtoms(r, live, allowed, query, k) && BestAtoms(s, live, allowed, query, k)
    ensures |r| == |s|
  {
  }

  lemma {:induction false} AlsoAhead(r: seq<(Id, real)>, s: seq<(Id, real)>, live: map<Id, Vec>,
                                     allowed: Option<set<Id>>, query: Vec, k: nat, i: nat, a: nat)
    requires BestAtoms(r, live, allowed, query, k) && BestAtoms(s, live, allowed, query, k) && a <= i < |r|
    requires r[i].1 > s[i].1
    ensures r[a].0 in Names(s[..i])
  {
    var x := r[a].0;
    assert r[a].1 >= r[i].1;
    assert !Omits(s, x);
    var b :| 0 <= b < |s| && s[b].0 == x;
    assert s[b].1 == r[a].1;
    assert b < i;
    assert Names(s[..i])[b] == x;
  }

  // However ties are broken, the scores returned are the same: the flat scan
  // and the scoped graph search agree score by score.
  lemma {:induction false} BestScoresUnique(r: seq<(Id, real)>, s: seq<(Id, real)>, live: map<Id, Vec>,
                                            allowed: Option<set<Id>>, query: Vec, k: nat)
    requires BestAtoms(r, live, allowed, query, k) && BestAtoms(s, live, allowed, query, k)
    ensures |r| == |s| && forall i :: 0 <= i < |r| ==> r[i].1 == s[i].1
  {
    forall i | 0 <= i < |r|
      ensures r[i].1 == s[i].1
    {
      NoBetterScore(r, s, live, allowed, query, k, i);
      NoBetterScore(s, r, live, allowed, query, k, i);
    }
  }

  function Scaled(vec: Vec, norm: real): Vec
    requires norm != 0.0
  {
    Vec(seq(|vec.xs|, i requires 0 <= i < |vec.xs| => vec.xs[i] / norm))
  }

  lemma {:induction false} NothingIsBest(live: map<Id, Vec>, allowed: Option<set<Id>>, query: Vec, k: nat)
    requires k == 0 || Candidates(live, allowed) == {}
    ensures BestAtoms([], live, allowed, query, k)
  {
  }

  // ----- the flat index -----

  class FlatIndex {
    var atomIds: seq<Id>
    var matrix: seq<Vec>
    var retired: set<nat>

    constructor ()
      ensures Valid() && Rows() == EMPTY
    {
      atomIds, matrix, retired := [], [], {};
      new;
      assert Upto(0) == {};
    }

    // The rows not masked out.
    ghost function Rows(): Table
      reads this
    {
      Table(atomIds, matrix, Upto(|atomIds|) - retired)
    }

    ghost predicate Valid()
      reads this
    {
      Rows().Valid() && forall i :: i in retired ==> i < |atomIds|
    }

    method Load(rows: seq<Row>)
      requires Distinct(Ids(rows))
      modifies this
      ensures Valid() && Rows() == Step(old(Rows()), Build(rows))
    {
      atomIds, matrix, retired := Ids(rows), Vecs(rows), {};
      assert Rows().live == Upto(|rows|);
    }

    method Drop(id: Id) returns (found: bool)
      requires Valid()
      modifies this
      ensures Valid() && Rows() == Step(old(Rows()), Remove(id))
      ensures found == (id in old(Meaning(Rows()).known))
    {
      StepMeaning(Rows(), Remove(id));
      var positions := Positions(atomIds, id);
      found := positions != {};
      if id in atomIds {
        var i :| 0 <= i < |atomIds| && atomIds[i] == id;
        assert i in positions;
      }
      retired := retired + positions;
      assert Rows().live == old(Rows().live) - positions;
    }

    method Insert(id: Id, vec: Vec)
      requires Valid()
      modifies this
      ensures Valid() && Rows() == Step(old(Rows()), Add(id, vec))
    {
      hide LiveMap, Meaning;
      StepMeaning(Rows(), Add(id, vec));
      if id in atomIds { var _ := Drop(id); }
      matrix := matrix + [vec];
      atomIds := atomIds + [id];
      assert Rows().live == old(Rows().live) - Positions(old(atomIds), id) + {|old(atomIds)|};
    }

    method RetiredIds() returns (r: set<Id>)
      requires Valid()
      ensures r == Meaning(Rows()).retired
    {
      RetiredAt(Rows(), |atomIds|);
      r := set i | i in retired :: atomIds[i];
    }

    // `norm` is the Euclidean norm of the query.
    method Search(vec: Vec, norm: real, k: int, allowed: Option<set<Id>>) returns (r: seq<(Id, real)>)
      requires Valid()
      ensures norm == 0.0 ==> r == []
      ensures norm != 0.0 ==>
                BestAtoms(r, Meaning(Rows()).live, allowed, Scaled(vec, norm), if k < 0 then 0 else k)
    {
      if |matrix| == 0 || k <= 0 || allowed == Some({}) || norm == 0.0 {
        if norm != 0.0 {
          NothingIsBest(Meaning(Rows()).live, allowed, Scaled(vec, norm), if k < 0 then 0 else k);
        }
        return [];
      }
      var query := Scaled(vec, norm);
      var t := Table(atomIds, matrix, Upto(|atomIds|) - retired);
      BestIsBest(t, allowed, query, k);
      r := Named(atomIds, Best(t, allowed, query, k));
    }
  }

  // ----- the graph index, with its exact scoped search -----

  const SCOPED_VECTOR_BATCH: nat := 4096

  class HnswIndex {
    var atomIds: seq<Id>
    var index: Option<map<nat, Vec>>
    var retiredIds: set<Id>
    // Every vector ever added, by key.
    ghost var vecs: seq<Vec>

    constructor ()
      ensures Valid() && Rows() == EMPTY
    {
      atomIds, index, retiredIds, vecs := [], None, {}, [];
    }

    function Stored(): map<nat, Vec>
      reads this
    {
      if index.None? then map[] else index.value
    }

    ghost function Rows(): Table
      reads this
    {
      Table(atomIds, vecs, Stored().Keys)
    }

    ghost predicate Valid()
      reads this
    {
      && Rows().Valid() && (index.None? ==> atomIds == [])
      && (forall i :: i in Stored() ==> Stored()[i] == vecs[i])
      && retiredIds == Retired(Rows())
    }

    method Load(rows: seq<Row>)
      requires Distinct(Ids(rows))
      modifies this
      ensures Valid() && Rows() == Step(old(Rows()), Build(rows))
    {
      atomIds, retiredIds, vecs := Ids(rows), {}, Vecs(rows);
      if rows == [] {
        index := None;
      } else {
        index := Some(map i: nat | i in Upto(|rows|) :: rows[i].vec);
      }
      assert Stored().Keys == Upto(|rows|);
      StepValid(old(Rows()), Build(rows));
      RetiredAt(Rows(), |rows|);
    }

    method Drop(id: Id) returns (found: bool)
      requires Valid()
      modifies this
      ensures Valid() && Rows() == Step(old(Rows()), Remove(id))
      ensures found == (id in old(Meaning(Rows()).known))
    {
      StepMeaning(Rows(), Remove(id));
      if index.None? {
        assert Positions(atomIds, id) == {};
        return false;
      }
      var keys := Positions(atomIds, id);
      assert forall i :: 0 <= i < |atomIds| && atomIds[i] == id ==> i in keys;
      if keys == {} {
        assert Rows().live - keys == Rows().live;
        return false;
      }
      index := Some(index.value - keys);
      assert Rows().live == old(Rows().live) - keys;
      retiredIds := retiredIds + {id};
      var p :| p in keys;
      assert atomIds[p] == id;
      return true;
    }

    method Insert(id: Id, vec: Vec)
      requires Valid()
      modifies this
      ensures Valid() && Rows() == Step(old(Rows()), Add(id, vec))
    {
      hide LiveMap, Retired;
      ghost var was := Rows();
      StepValid(was, Add(id, vec));
      AddRetires(was, id, vec);
      if id in atomIds { var _ := Drop(id); }
      assert Stored().Keys == was.live - Positions(was.ids, id);
      assert Rows() == Step(was, Remove(id));
      if index.None? { index := Some(map[]); }
      var key := |atomIds|;
      index := Some(index.value[key := vec]);
      atomIds := atomIds + [id];
      vecs := vecs + [vec];
      assert Rows() == Step(was, Add(id, vec));
    }

    // The scoped search; unscoped search is the graph walk.
    method Search(vec: Vec, norm: real, k: int, allowed: set<Id>) returns (r: seq<(Id, real)>)
      requires Valid()
      ensures norm == 0.0 ==> r == []
      ensures norm != 0.0 ==>
                BestAtoms(r, Meaning(Rows()).live, Some(allowed), Scaled(vec, norm), if k < 0 then 0 else k)
    {
      if index.None? || k <= 0 || allowed == {} || norm == 0.0 {
        if norm != 0.0 {
          NothingIsBest(LiveMap(Rows()), Some(allowed), Scaled(vec, norm), if k < 0 then 0 else k);
        }
        return [];
      }
      r := SearchScoped(Scaled(vec, norm), k, allowed);
    }

    // Each key is stored, and its hit carries the score of the stored vector.
    ghost predicate Scored(keys: seq<nat>, hits: seq<Hit>, query: Vec)
      reads this
    {
      && |keys| == |hits|
      && forall i :: 0 <= i < |keys| ==> keys[i] in Stored() && hits[i] == Hit(keys[i], Dot(Stored()[keys[i]], query))
    }

    lemma ScopedKeys(keys: seq<nat>, hits: seq<Hit>, query: Vec, allowed: set<Id>)
      requires Valid() && keys == KeysOf(atomIds, |atomIds|, Stored().Keys, allowed)
      requires hits == Eligible(Rows(), |atomIds|, Some(allowed), query)
      ensures Scored(keys, hits, query)
    {
      hide Eligible, KeysOf, Dot, Retired;
      KeysAreHits(Rows(), |atomIds|, allowed, query);
      forall i | 0 <= i < |keys|
        ensures keys[i] in Stored() && hits[i] == Hit(keys[i], Dot(Stored()[keys[i]], query))
      {
        assert hits[i] in hits && HitKeys(hits)[i] == hits[i].key;
      }
    }

    // Batch by batch over the keys, keeping the k best seen in a heap; `best`
    // is the heap's content in best-first order.
    method Stream(keys: seq<nat>, ghost hits: seq<Hit>, query: Vec, k: nat) returns (best: seq<Hit>)
      requires Scored(keys, hits, query)
      requires forall a, b :: 0 <= a < b < |hits| ==> hits[a].key < hits[b].key
      ensures best == Take(Sort(hits), k)
    {
      hide Dot, Sort, Take, Offer;
      best := [];
      var start := 0;
      assert Take(Sort(hits[..0]), k) == [] by { NoHits(k); }
      while start < |keys|
        invariant 0 <= start <= |keys|
        invariant best == Take(Sort(hits[..start]), k)
      {
        var stop := if start + SCOPED_VECTOR_BATCH < |keys| then start + SCOPED_VECTOR_BATCH else |keys|;
        for i := start to stop
          invariant best == Take(Sort(hits[..i]), k)
        {
          OfferNext(hits, i, k);
          best := Offer(best, k, Hit(keys[i], Dot(index.value[keys[i]], query)));
        }
        start := stop;
      }
      assert hits[..|keys|] == hits;
    }

    // The exact search over allowed live keys.
    method SearchScoped(query: Vec, k: nat, allowed: set<Id>) returns (r: seq<(Id, real)>)
      requires Valid()
      ensures r == Named(atomIds, Best(Rows(), Some(allowed), query, k))
      ensures BestAtoms(r, LiveMap(Rows()), Some(allowed), query, k)
    {
      hide LiveMap, Retired, BestAtoms, Sort, Take, Offer, Scored;
      BestIsBest(Rows(), Some(allowed), query, k);
      var keys := KeysOf(atomIds, |atomIds|, Stored().Keys, allowed);
      ghost var hits := Eligible(Rows(), |atomIds|, Some(allowed), query);
      ScopedKeys(keys, hits, query, allowed);
      var best := Stream(keys, hits, query, k);
      r := Named(atomIds, best);
    }
  }

  function KeysOf(ids: seq<Id>, n: nat, stored: set<nat>, allowed: set<Id>): seq<nat>
    requires n <= |ids|
  {
    if n == 0 then []
    else KeysOf(ids, n - 1, stored, allowed) + if ids[n - 1] in allowed && n - 1 in stored then [n - 1] else []
  }

  function HitKeys(hits: seq<Hit>): seq<nat> {
    seq(|hits|, i requires 0 <= i < |hits| => hits[i].key)
  }

  lemma {:induction false} HitKeysSnoc(hits: seq<Hit>, h: Hit)
    ensures HitKeys(hits + [h]) == HitKeys(hits) + [h.key]
  {
  }

  lemma {:induction false} KeysAreHits(t: Table, n: nat, allowed: set<Id>, query: Vec)
    requires |t.ids| == |t.vecs| && n <= |t.ids|
    ensures KeysOf(t.ids, n, t.live, allowed) == HitKeys(Eligible(t, n, Some(allowed), query))
  {
    hide HitKeys, Dot;
    if n == 0 {
      assert HitKeys([]) == [] by { NoKeys(); }
    } else {
      KeysAreHits(t, n - 1, allowed, query);
      HitKeysSnoc(Eligible(t, n - 1, Some(allowed), query), Hit(n - 1, Dot(t.vecs[n - 1], query)));
    }
  }

  lemma {:induction false} NoKeys()
    ensures HitKeys([]) == []
  {
  }

  lemma {:induction false} NoHits(k: nat)
    ensures Take(Sort([]), k) == []
  {
  }

  lemma {:induction false} OfferNext(hits: seq<Hit>, i: nat, k: nat)
    requires i < |hits| && forall a, b :: 0 <= a < b < |hits| ==> hits[a].key < hits[b].key
    ensures Take(Sort(hits[..i + 1]), k) == Offer(Take(Sort(hits[..i]), k), k, hits[i])
  {
    assert hits[..i + 1] == hits[..i] + [hits[i]];
    StreamStep(hits[..i], hits[i], k);
  }

  // Both indexes after the same operations: the same rows, so the same map,
  // the same retired ids and, scoped or not, the same scores.
  method RunBoth(ops: seq<Op>) returns (flat: FlatIndex, graph: HnswIndex)
    requires forall op :: op in ops ==> Legal(op)
    ensures flat.Valid() && graph.Valid()
    ensures flat.Rows() == graph.Rows() == Run(EMPTY, ops)
    ensures Meaning(flat.Rows()) == Meaning(graph.Rows()) == Applied(Abstract({}, map[], {}), ops)
  {
    hide Step, Meaning;
    flat := new FlatIndex();
    graph := new HnswIndex();
    for n := 0 to |ops|
      invariant flat.Valid() && graph.Valid() && fresh(flat) && fresh(graph)
      invariant flat.Rows() == graph.Rows() == Run(EMPTY, ops[..n])
    {
      assert ops[..n + 1][..n] == ops[..n];
      assert ops[n] in ops;
      match ops[n]
      case Build(rows) =>
        flat.Load(rows);
        graph.Load(rows);
      case Add(id, vec) =>
        flat.Insert(id, vec);
        graph.Insert(id, vec);
      case Remove(id) =>
        var _ := flat.Drop(id);
        var _ := graph.Drop(id);
    }
    assert ops[..|ops|] == ops;
    RunMeaning(ops);
  }
}
