/** Supersedes edges, the pinned successor of an atom, and the walk to the end
    of its chain. */
module Supersession {
  // Ids are ULIDs, ordered; the order is all that matters here.
  type Id = nat

  // `src` is the newer atom, `dst` the one it supersedes.
  datatype Edge = Edge(src: Id, dst: Id)

  ghost function Successors(edges: set<Edge>, old_: Id): set<Id> {
    set e | e in edges && e.dst == old_ :: e.src
  }

  ghost predicate Forked(edges: set<Edge>, old_: Id) {
    |Successors(edges, old_)| > 1
  }

  lemma {:induction false} HasLeast(s: set<Id>, x: Id)
    requires x in s
    ensures exists z :: z in s && forall y :: y in s ==> z <= y
  {
    if y :| y in s && y < x { HasLeast(s, y); }
  }

  ghost function Least(s: set<Id>): (x: Id)
    requires s != {}
    ensures x in s && forall y :: y in s ==> x <= y
  {
    var any :| any in s;
    HasLeast(s, any);
    var x :| x in s && forall y :: y in s ==> x <= y;
    x
  }

  // Every superseded atom to its smallest successor, over the whole store.
  ghost function Pins(edges: set<Edge>): (m: map<Id, Id>)
    ensures forall x :: x in m <==> Successors(edges, x) != {}
    ensures forall x :: x in m ==> m[x] == Least(Successors(edges, x))
  {
    var olds := set e | e in edges :: e.dst;
    assert forall x :: Successors(edges, x) != {} ==> x in olds by {
      forall x | Successors(edges, x) != {}
        ensures x in olds
      {
        var y :| y in Successors(edges, x);
        assert Edge(y, x) in edges;
      }
    }
    map x | x in olds && Successors(edges, x) != {} :: Least(Successors(edges, x))
  }

  // ----- the walk -----

  datatype Walked = End(id: Id, forked: bool) | Cycle

  // The loop's meaning from any of its states.
  function LiveEnd(pins: map<Id, Id>, forks: set<Id>, cur: Id, seen: set<Id>, forked: bool): Walked
    decreases |pins.Keys - seen|
  {
    if cur !in pins then End(cur, forked)
    else if cur in seen then Cycle
    else
      assert pins.Keys - (seen + {cur}) == (pins.Keys - seen) - {cur};
      LiveEnd(pins, forks, pins[cur], seen + {cur}, forked || cur in forks)
  }

  method WalkToEnd(atomId: Id, pins: map<Id, Id>, forks: set<Id>) returns (r: Walked)
    ensures r == LiveEnd(pins, forks, atomId, {}, false)
  {
    var seen: seq<Id> := [];
    ghost var been: set<Id> := {};
    var forked := false;
    var cur := atomId;
    while cur in pins
      invariant forall x :: x in seen <==> x in been
      invariant LiveEnd(pins, forks, cur, been, forked) == LiveEnd(pins, forks, atomId, {}, false)
      decreases |pins.Keys - been|
    {
      if cur in seen { return Cycle; }
      if cur in forks { forked := true; }
      seen := seen + [cur];
      assert pins.Keys - (been + {cur}) == (pins.Keys - been) - {cur};
      been := been + {cur};
      cur := pins[cur];
    }
    return End(cur, forked);
  }

  // ----- paths -----

  ghost predicate Path(pins: map<Id, Id>, p: seq<Id>, from: Id) {
    && p != [] && p[0] == from
    && forall i :: 0 <= i < |p| - 1 ==> Next(pins, p, i)
  }

  ghost predicate Next(pins: map<Id, Id>, p: seq<Id>, i: nat)
    requires i < |p| - 1
  {
    p[i] in pins && pins[p[i]] == p[i + 1]
  }

  ghost predicate Terminal(pins: map<Id, Id>, p: seq<Id>) {
    p != [] && p[|p| - 1] !in pins
  }

  ghost predicate Repeats(p: seq<Id>) {
    exists i, j :: 0 <= i < j < |p| && p[i] == p[j]
  }

  ghost predicate Crosses(p: seq<Id>, forks: set<Id>) {
    exists i :: 0 <= i < |p| - 1 && p[i] in forks
  }

  lemma {:induction false} PathCons(pins: map<Id, Id>, cur: Id, p: seq<Id>)
    requires cur in pins && Path(pins, p, pins[cur])
    ensures p != [] && Path(pins, [cur] + p, cur)
  {
    var q := [cur] + p;
    forall i | 0 <= i < |q| - 1
      ensures Next(pins, q, i)
    {
      if i > 0 { assert Next(pins, p, i - 1); }
    }
  }

  lemma {:induction false} CrossCons(cur: Id, p: seq<Id>, forks: set<Id>)
    requires p != []
    ensures Crosses([cur] + p, forks) <==> cur in forks || Crosses(p, forks)
  {
    var q := [cur] + p;
    if cur in forks { assert q[0] in forks; }
    if Crosses(p, forks) {
      var i :| 0 <= i < |p| - 1 && p[i] in forks;
      assert q[i + 1] in forks;
    }
    if Crosses(q, forks) && cur !in forks {
      var i :| 0 <= i < |q| - 1 && q[i] in forks;
      assert p[i - 1] in forks;
    }
  }

  ghost predicate Leads(pins: map<Id, Id>, forks: set<Id>, p: seq<Id>, from: Id, end: Walked, forked: bool) {
    && Path(pins, p, from) && Terminal(pins, p)
    && end.End? && end.id == p[|p| - 1] && (end.forked <==> forked || Crosses(p, forks))
  }

  lemma {:induction false} LeadsCons(pins: map<Id, Id>, forks: set<Id>, p: seq<Id>, cur: Id, end: Walked, forked: bool)
    requires cur in pins && Leads(pins, forks, p, pins[cur], end, forked || cur in forks)
    ensures Leads(pins, forks, [cur] + p, cur, end, forked)
  {
    hide Crosses;
    PathCons(pins, cur, p);
    CrossCons(cur, p, forks);
  }

  lemma {:induction false} LeadsHere(pins: map<Id, Id>, forks: set<Id>, cur: Id, forked: bool)
    requires cur !in pins
    ensures Leads(pins, forks, [cur], cur, End(cur, forked), forked)
  {
  }

  // A walk that ends hands back its path.
  lemma {:induction false} EndPath(pins: map<Id, Id>, forks: set<Id>, cur: Id, seen: set<Id>, forked: bool)
    returns (p: seq<Id>)
    requires LiveEnd(pins, forks, cur, seen, forked).End?
    ensures Leads(pins, forks, p, cur, LiveEnd(pins, forks, cur, seen, forked), forked)
    decreases |pins.Keys - seen|
  {
    hide Leads;
    if cur !in pins {
      LeadsHere(pins, forks, cur, forked);
      p := [cur];
    } else {
      assert pins.Keys - (seen + {cur}) == (pins.Keys - seen) - {cur};
      var end, later := LiveEnd(pins, forks, cur, seen, forked), forked || cur in forks;
      var q := EndPath(pins, forks, pins[cur], seen + {cur}, later);
      LeadsCons(pins, forks, q, cur, end, forked);
      p := [cur] + q;
    }
  }

  lemma {:induction false} CyclePath(pins: map<Id, Id>, forks: set<Id>, cur: Id, seen: set<Id>, forked: bool)
    returns (p: seq<Id>)
    requires LiveEnd(pins, forks, cur, seen, forked).Cycle?
    ensures Path(pins, p, cur) && (p[|p| - 1] in seen || Repeats(p))
    decreases |pins.Keys - seen|
  {
    if cur in seen {
      p := [cur];
    } else {
      assert pins.Keys - (seen + {cur}) == (pins.Keys - seen) - {cur};
      var q := CyclePath(pins, forks, pins[cur], seen + {cur}, forked || cur in forks);
      p := [cur] + q;
      PathCons(pins, cur, q);
      if Repeats(q) {
        var i, j :| 0 <= i < j < |q| && q[i] == q[j];
        assert p[i + 1] == p[j + 1];
      } else if q[|q| - 1] == cur {
        assert p[0] == p[|p| - 1];
      }
    }
  }

  // Pinning leaves no choice: of two paths the shorter is a prefix.
  lemma {:induction false} SamePath(pins: map<Id, Id>, p: seq<Id>, q: seq<Id>, from: Id, n: nat)
    requires Path(pins, p, from) && Path(pins, q, from) && n < |p| && n < |q|
    ensures p[n] == q[n]
  {
    if n == 0 {
    } else {
      SamePath(pins, p, q, from, n - 1);
      assert Next(pins, p, n - 1) && Next(pins, q, n - 1);
    }
  }

  // A path that came back to a node goes round for ever.
  lemma {:induction false} Periodic(pins: map<Id, Id>, p: seq<Id>, from: Id, i: nat, j: nat, k: nat)
    requires Path(pins, p, from) && i < j && j + k < |p| && p[i] == p[j]
    ensures p[i + k] == p[j + k]
  {
    if k == 0 {
    } else {
      Periodic(pins, p, from, i, j, k - 1);
      assert Next(pins, p, i + k - 1) && Next(pins, p, j + k - 1);
    }
  }

  lemma {:induction false} InnerPinned(pins: map<Id, Id>, p: seq<Id>, from: Id, i: nat)
    requires Path(pins, p, from) && i < |p| - 1
    ensures p[i] in pins
  {
    assert Next(pins, p, i);
  }

  lemma {:induction false} EndedIsLongest(pins: map<Id, Id>, p: seq<Id>, q: seq<Id>, from: Id)
    requires Path(pins, p, from) && Terminal(pins, p) && Path(pins, q, from)
    ensures |q| <= |p|
  {
    if |q| > |p| {
      SamePath(pins, p, q, from, |p| - 1);
      InnerPinned(pins, q, from, |p| - 1);
    }
  }

  lemma {:induction false} RoundIsEndless(pins: map<Id, Id>, p: seq<Id>, from: Id, i: nat, j: nat)
    requires Path(pins, p, from) && i < j < |p| && p[i] == p[j]
    ensures !Terminal(pins, p)
  {
    var k := |p| - 1 - j;
    Periodic(pins, p, from, i, j, k);
    InnerPinned(pins, p, from, i + k);
  }

  lemma {:induction false} EndedNeverRepeats(pins: map<Id, Id>, p: seq<Id>, q: seq<Id>, from: Id)
    requires Path(pins, p, from) && Terminal(pins, p) && Path(pins, q, from)
    ensures |q| <= |p| && !Repeats(q)
  {
    EndedIsLongest(pins, p, q, from);
    forall i: nat, j | i < j < |q|
      ensures q[i] != q[j]
    {
      SamePath(pins, p, q, from, i);
      SamePath(pins, p, q, from, j);
      if p[i] == p[j] { RoundIsEndless(pins, p, from, i, j); }
    }
  }

  // The walk raises exactly when the pinned path revisits a node, and otherwise
  // ends at the one place the path can end.
  lemma {:induction false} WalkMeaning(pins: map<Id, Id>, forks: set<Id>, a: Id)
    ensures LiveEnd(pins, forks, a, {}, false).Cycle? <==> exists p :: Path(pins, p, a) && Repeats(p)
    ensures LiveEnd(pins, forks, a, {}, false).End? <==> exists p :: Path(pins, p, a) && Terminal(pins, p)
    ensures forall p :: Path(pins, p, a) && Terminal(pins, p) ==>
              LiveEnd(pins, forks, a, {}, false) == End(p[|p| - 1], Crosses(p, forks))
  {
    hide LiveEnd, Path, Repeats, Terminal, Crosses;
    match LiveEnd(pins, forks, a, {}, false)
    case Cycle =>
      var q := CyclePath(pins, forks, a, {}, false);
      forall p | Path(pins, p, a)
        ensures !Terminal(pins, p)
      {
        if Terminal(pins, p) { EndedNeverRepeats(pins, p, q, a); }
      }
    case End(e, f) =>
      var q := EndPath(pins, forks, a, {}, false);
      forall p | Path(pins, p, a)
        ensures !Repeats(p) && (Terminal(pins, p) ==> p == q)
      {
        EndedNeverRepeats(pins, q, p, a);
        if Terminal(pins, p) { TerminalUnique(pins, p, q, a); }
      }
  }

  lemma {:induction false} TerminalUnique(pins: map<Id, Id>, p: seq<Id>, q: seq<Id>, from: Id)
    requires Path(pins, p, from) && Path(pins, q, from) && Terminal(pins, p) && Terminal(pins, q)
    ensures p == q
  {
    EndedNeverRepeats(pins, p, q, from);
    EndedNeverRepeats(pins, q, p, from);
    forall i | 0 <= i < |p|
      ensures p[i] == q[i]
    {
      SamePath(pins, p, q, from, i);
    }
  }
}
