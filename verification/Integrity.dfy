/** The scan that reports supersession cycles. */
module Integrity {
  import opened Supersession

  // A walk along edges, newer to older.
  ghost predicate Walk(rows: seq<Edge>, p: seq<Id>) {
    p != [] && forall i :: 0 <= i < |p| - 1 ==> Hop(rows, p, i)
  }

  ghost predicate Hop(rows: seq<Edge>, p: seq<Id>, i: nat)
    requires i < |p| - 1
  {
    Edge(p[i], p[i + 1]) in rows
  }

  ghost predicate ClosedWalk(rows: seq<Edge>, p: seq<Id>) {
    Walk(rows, p) && |p| >= 2 && p[0] == p[|p| - 1]
  }

  ghost predicate Acyclic(rows: seq<Edge>) {
    forall p :: !ClosedWalk(rows, p)
  }

  // ----- the adjacency lists -----

  ghost predicate Adjacency(rows: seq<Edge>, graph: map<Id, seq<Id>>, order: seq<Id>) {
    && (forall x :: x in graph <==> x in order)
    && (forall e :: e in rows ==> e.src in graph && e.dst in graph[e.src])
    && (forall x, y :: x in graph && y in graph[x] ==> Edge(x, y) in rows)
  }

  lemma {:induction false} AdjacencyNext(rows: seq<Edge>, row: Edge, graph: map<Id, seq<Id>>, order: seq<Id>)
    requires Adjacency(rows, graph, order)
    ensures var had := if row.src in graph then graph[row.src] else [];
            Adjacency(rows + [row], graph[row.src := had + [row.dst]],
                      if row.src in graph then order else order + [row.src])
  {
  }

  // `order` is the insertion order of the dictionary's keys.
  method BuildGraph(rows: seq<Edge>) returns (graph: map<Id, seq<Id>>, order: seq<Id>)
    ensures Adjacency(rows, graph, order)
  {
    hide Adjacency;
    graph, order := map[], [];
    NoRows();
    for n := 0 to |rows|
      invariant Adjacency(rows[..n], graph, order)
    {
      AdjacencyNext(rows[..n], rows[n], graph, order);
      assert rows[..n + 1] == rows[..n] + [rows[n]];
      var src, dst := rows[n].src, rows[n].dst;
      var had := if src in graph then graph[src] else [];
      order := if src in graph then order else order + [src];
      graph := graph[src := had + [dst]];
    }
    assert rows[..|rows|] == rows;
  }

  lemma {:induction false} NoRows()
    ensures Adjacency([], map[], [])
  {
  }

  // ----- the worklist from one start -----

  datatype Frame = Frame(node: Id, path: seq<Id>)

  ghost predicate FrameOk(rows: seq<Edge>, start: Id, f: Frame) {
    Walk(rows, f.path) && f.path[0] == start && f.path[|f.path| - 1] == f.node
  }

  ghost predicate Genuine(rows: seq<Edge>, start: Id, p: seq<Id>) {
    ClosedWalk(rows, p) && p[0] == start
  }

  ghost predicate OnStack(stack: seq<Frame>, x: Id) {
    exists f :: f in stack && f.node == x
  }

  ghost function Targets(rows: seq<Edge>): set<Id> {
    set e | e in rows :: e.dst
  }

  lemma {:induction false} Extend(rows: seq<Edge>, start: Id, f: Frame, next: Id)
    requires FrameOk(rows, start, f) && Edge(f.node, next) in rows
    ensures FrameOk(rows, start, Frame(next, f.path + [next]))
    ensures next == start ==> Genuine(rows, start, f.path + [next])
  {
    var q := f.path + [next];
    forall i | 0 <= i < |q| - 1
      ensures Hop(rows, q, i)
    {
      if i < |f.path| - 1 { assert Hop(rows, f.path, i); }
    }
  }

  // Every successor of one node is either the start, and reported, or seen;
  // what was new is pushed.
  method Expand(ghost rows: seq<Edge>, start: Id, f: Frame, nexts: seq<Id>, before: set<Id>, base: seq<Frame>)
    returns (seen: set<Id>, stack: seq<Frame>, found: seq<seq<Id>>)
    requires FrameOk(rows, start, f) && (forall y :: y in nexts ==> Edge(f.node, y) in rows)
    requires (forall g :: g in base ==> FrameOk(rows, start, g)) && start !in before
    ensures forall g :: g in stack ==> FrameOk(rows, start, g)
    ensures forall p :: p in found ==> Genuine(rows, start, p)
    ensures before <= seen <= before + Targets(rows) && start !in seen
    ensures base <= stack && (seen == before ==> stack == base)
    ensures forall x :: x in seen && x !in before ==> OnStack(stack, x)
    ensures forall y :: y in nexts ==> y in seen || found != []
  {
    hide FrameOk, Genuine;
    seen, stack, found := before, base, [];
    for k := 0 to |nexts|
      invariant forall g :: g in stack ==> FrameOk(rows, start, g)
      invariant forall p :: p in found ==> Genuine(rows, start, p)
      invariant before <= seen <= before + Targets(rows) && start !in seen
      invariant base <= stack && (seen == before ==> stack == base)
      invariant forall x :: x in seen && x !in before ==> OnStack(stack, x)
      invariant forall i :: 0 <= i < k ==> nexts[i] in seen || found != []
    {
      var next := nexts[k];
      assert Edge(f.node, next) in rows;
      Extend(rows, start, f, next);
      if next == start {
        found := found + [f.path + [next]];
      } else if next !in seen {
        seen := seen + {next};
        OnStackPush(stack, Frame(next, f.path + [next]));
        stack := stack + [Frame(next, f.path + [next])];
        assert Edge(f.node, next).dst in Targets(rows);
      }
    }
  }

  lemma {:induction false} OnStackPush(stack: seq<Frame>, f: Frame)
    ensures OnStack(stack + [f], f.node)
    ensures forall x :: OnStack(stack, x) ==> OnStack(stack + [f], x)
  {
    assert f in stack + [f];
    assert forall g :: g in stack ==> g in stack + [f];
  }

  // Everything discovered has been expanded or waits on the stack.
  ghost predicate Accounted(start: Id, seen: set<Id>, done: set<Id>, stack: seq<Frame>) {
    forall x :: x == start || x in seen ==> x in done || OnStack(stack, x)
  }

  ghost predicate Expanded(rows: seq<Edge>, seen: set<Id>, done: set<Id>) {
    forall x, y :: x in done && Edge(x, y) in rows ==> y in seen
  }

  method FromStart(ghost rows: seq<Edge>, graph: map<Id, seq<Id>>, ghost order: seq<Id>, start: Id)
    returns (cycles: seq<seq<Id>>)
    requires Adjacency(rows, graph, order)
    ensures forall p :: p in cycles ==> Genuine(rows, start, p)
    ensures cycles == [] ==> forall p :: !Genuine(rows, start, p)
  {
    hide FrameOk, Genuine, OnStack, Accounted, Expanded, Adjacency;
    cycles := [];
    var seen: set<Id> := {};
    ghost var done: set<Id> := {};
    var stack := [Frame(start, [start])];
    Started(rows, start);
    while stack != []
      invariant forall g :: g in stack ==> FrameOk(rows, start, g)
      invariant forall p :: p in cycles ==> Genuine(rows, start, p)
      invariant start !in seen && Accounted(start, seen, done, stack)
      invariant cycles == [] ==> Expanded(rows, seen, done)
      decreases |Targets(rows) - seen|, |stack|
    {
      var f, base := stack[|stack| - 1], stack[..|stack| - 1];
      assert stack == base + [f];
      var nexts := if f.node in graph then graph[f.node] else [];
      ListsHops(rows, graph, order, f.node);
      var more, pushed, found := Expand(rows, start, f, nexts, seen, base);
      AccountedNext(start, seen, more, done, base, f, pushed);
      if found == [] && cycles == [] { ExpandedNext(rows, seen, more, done, f.node, nexts); }
      Shrinks(Targets(rows), seen, more);
      done := done + {f.node};
      seen, stack, cycles := more, pushed, cycles + found;
    }
    if cycles == [] {
      forall p
        ensures !Genuine(rows, start, p)
      {
        NothingMissed(rows, start, seen, done, p);
      }
    }
  }

  lemma {:induction false} Started(rows: seq<Edge>, start: Id)
    ensures FrameOk(rows, start, Frame(start, [start]))
    ensures Accounted(start, {}, {}, [Frame(start, [start])]) && Expanded(rows, {}, {})
  {
    OnStackPush([], Frame(start, [start]));
    assert [] + [Frame(start, [start])] == [Frame(start, [start])];
  }

  lemma {:induction false} ListsHops(rows: seq<Edge>, graph: map<Id, seq<Id>>, order: seq<Id>, x: Id)
    requires Adjacency(rows, graph, order)
    ensures var nexts := if x in graph then graph[x] else [];
            forall y :: y in nexts <==> Edge(x, y) in rows
  {
    assert forall y :: Edge(x, y) in rows ==> Edge(x, y).src in graph && Edge(x, y).dst in graph[Edge(x, y).src];
  }

  lemma {:induction false} AccountedNext(start: Id, seen: set<Id>, more: set<Id>, done: set<Id>, base: seq<Frame>,
                                         f: Frame, pushed: seq<Frame>)
    requires Accounted(start, seen, done, base + [f]) && base <= pushed
    requires forall x :: x in more && x !in seen ==> OnStack(pushed, x)
    ensures Accounted(start, more, done + {f.node}, pushed)
  {
    forall x | x == start || x in more
      ensures x in done + {f.node} || OnStack(pushed, x)
    {
      if (x == start || x in seen) && x !in done && x != f.node {
        var g :| g in base + [f] && g.node == x;
        assert g in base;
        var k :| 0 <= k < |base| && base[k] == g;
        assert pushed[k] == g;
      }
    }
  }

  lemma {:induction false} ExpandedNext(rows: seq<Edge>, seen: set<Id>, more: set<Id>, done: set<Id>, node: Id,
                                        nexts: seq<Id>)
    requires Expanded(rows, seen, done) && seen <= more
    requires forall y :: Edge(node, y) in rows ==> y in nexts
    requires forall y :: y in nexts ==> y in more
    ensures Expanded(rows, more, done + {node})
  {
  }

  lemma {:induction false} Shrinks(all: set<Id>, seen: set<Id>, more: set<Id>)
    requires seen <= more <= seen + all
    ensures |all - more| <= |all - seen| && (more != seen ==> |all - more| < |all - seen|)
  {
    var fresh_ := more - seen;
    assert all - seen == (all - more) + fresh_ && (all - more) !! fresh_;
    assert |all - seen| == |all - more| + |fresh_|;
    if more != seen { assert fresh_ != {}; }
  }

  // With nothing reported, the expanded set is closed and has no way back.
  lemma {:induction false} NothingMissed(rows: seq<Edge>, start: Id, seen: set<Id>, done: set<Id>, p: seq<Id>)
    requires Accounted(start, seen, done, []) && Expanded(rows, seen, done) && start !in seen
    ensures !Genuine(rows, start, p)
  {
    if Genuine(rows, start, p) {
      StaysInside(rows, start, seen, done, p, |p| - 1);
    }
  }

  lemma {:induction false} StaysInside(rows: seq<Edge>, start: Id, seen: set<Id>, done: set<Id>, p: seq<Id>, i: nat)
    requires Accounted(start, seen, done, []) && Expanded(rows, seen, done)
    requires Walk(rows, p) && p[0] == start && i < |p|
    ensures p[i] in done && (i > 0 ==> p[i] in seen)
  {
    assert forall x :: !OnStack([], x);
    if i == 0 {
    } else {
      StaysInside(rows, start, seen, done, p, i - 1);
      assert Hop(rows, p, i - 1);
    }
  }

  // ----- the scan -----

  // Every reported path is a closed walk, and nothing is reported exactly when
  // the graph has none.
  method SupersessionSanity(rows: seq<Edge>) returns (cycles: seq<seq<Id>>)
    ensures forall p :: p in cycles ==> ClosedWalk(rows, p)
    ensures cycles == [] <==> Acyclic(rows)
  {
    hide ClosedWalk, Adjacency;
    var graph, order := BuildGraph(rows);
    cycles := [];
    for k := 0 to |order|
      invariant forall p :: p in cycles ==> ClosedWalk(rows, p)
      invariant cycles == [] ==> forall i, p :: 0 <= i < k ==> !Genuine(rows, order[i], p)
    {
      var found := FromStart(rows, graph, order, order[k]);
      cycles := cycles + found;
    }
    if cycles == [] {
      forall p
        ensures !ClosedWalk(rows, p)
      {
        StartListed(rows, graph, order, p);
      }
    } else {
      assert cycles[0] in cycles;
    }
  }

  lemma {:induction false} StartListed(rows: seq<Edge>, graph: map<Id, seq<Id>>, order: seq<Id>, p: seq<Id>)
    requires Adjacency(rows, graph, order)
    ensures ClosedWalk(rows, p) ==> exists i :: 0 <= i < |order| && Genuine(rows, order[i], p)
  {
    if ClosedWalk(rows, p) {
      assert Hop(rows, p, 0);
      assert p[0] in order;
      var i :| 0 <= i < |order| && order[i] == p[0];
      assert Genuine(rows, order[i], p);
    }
  }

  // ----- a clean report keeps recall from raising -----

  lemma {:induction false} PinIsEdge(edges: set<Edge>, x: Id)
    requires x in Pins(edges)
    ensures Edge(Pins(edges)[x], x) in edges
  {
    assert Pins(edges)[x] in Successors(edges, x);
  }

  lemma {:induction false} BackWalk(rows: seq<Edge>, edges: set<Edge>, p: seq<Id>, a: Id, i: nat, j: nat)
    requires (forall e :: e in edges ==> e in rows) && Path(Pins(edges), p, a)
    requires i < j < |p| && p[i] == p[j]
    ensures ClosedWalk(rows, seq(j - i + 1, k requires 0 <= k < j - i + 1 => p[j - k]))
  {
    var q := seq(j - i + 1, k requires 0 <= k < j - i + 1 => p[j - k]);
    forall k | 0 <= k < |q| - 1
      ensures Hop(rows, q, k)
    {
      var m := j - k - 1;
      assert Next(Pins(edges), p, m);
      PinIsEdge(edges, p[m]);
    }
  }

  // After a clean report the walk ends, from any atom.
  lemma {:induction false} CleanNeverRaises(rows: seq<Edge>, edges: set<Edge>, forks: set<Id>, a: Id)
    requires Acyclic(rows) && forall e :: e in edges ==> e in rows
    ensures LiveEnd(Pins(edges), forks, a, {}, false).End?
  {
    hide LiveEnd, Pins;
    if LiveEnd(Pins(edges), forks, a, {}, false).Cycle? {
      var p := CyclePath(Pins(edges), forks, a, {}, false);
      var i, j :| 0 <= i < j < |p| && p[i] == p[j];
      BackWalk(rows, edges, p, a, i, j);
    }
  }
}
