/** How many rounds a compile call takes: undisturbed it publishes in its first,
    and each further one is owed to a write that came in between. */
module CompileRounds {
  import opened Wrappers
  import opened Sparse
  import opened Graph
  import opened CompileProtocol

  // ----- a call on its own -----

  // On a clean graph a call returns at once; on a dirty one without writers it
  // tests, snapshots, builds and publishes the matrix of the held edges, and
  // changes nothing else.
  lemma LoneCall(cfg: Config, s: State, t: nat)
    requires Invariant(s) && Enabled(s, Call(t))
    ensures var a := Next(cfg, s, Call(t));
            && Enabled(a, Run(t)) && a.g == s.g
            && var b := Next(cfg, a, Run(t));
               if !s.g.dirty then b.compilers[t].pc.Done? && b.g == s.g
               else
                 && Enabled(b, Run(t))
                 && var c := Next(cfg, b, Run(t));
                    && Enabled(c, Run(t))
                    && var d := Next(cfg, c, Run(t));
                       && Enabled(d, Run(t))
                       && var e := Next(cfg, d, Run(t));
                          && e.compilers[t].pc.Done? && e.held == s.held
                          && e.g == s.g.(adj := Some(BuildCsr(s.g.Size(), s.held)), dirty := false)
  {
    hide BuildCsr, Graph.Valid;
  }

  // ----- rounds lost to writers -----

  // By this round the generation has moved on at least as many times since the
  // call began.
  ghost predicate Owed(g: Graph, start: nat, pc: Pc) {
    match pc
    case Testing => g.generation >= start
    case Snapping(r) => g.generation >= start + r
    case Building(r, s) => g.generation >= s.generation >= start + r
    case Publishing(r, s, _) => g.generation >= s.generation >= start + r
    case Fallback => g.generation >= start + 8
    case _ => true
  }

  // The call that compiler t made at k is still its last before i.
  ghost predicate LastCall(actions: seq<Action>, k: nat, i: nat, t: nat) {
    k < i <= |actions| && actions[k] == Call(t) && forall j :: k < j < i ==> actions[j] != Call(t)
  }

  lemma OwedAfterRun(s: State, t: nat, start: nat)
    requires t in s.compilers && Active(s.compilers[t].pc) && PcInvariant(s.g, s.compilers[t].pc)
    requires Owed(s.g, start, s.compilers[t].pc)
    ensures Owed(CompilerStep(s, t).g, start, CompilerStep(s, t).compilers[t].pc)
  {
    hide BuildCsr;
  }

  lemma OwedLater(g: Graph, h: Graph, start: nat, pc: Pc)
    requires Owed(g, start, pc) && h.generation >= g.generation
    ensures Owed(h, start, pc)
  {
  }

  lemma StepsGeneration(cfg: Config, s: State, a: Action)
    requires Invariant(s) && Enabled(s, a)
    ensures Next(cfg, s, a).g.generation >= s.g.generation
  {
    hide Written, Held, BuildCsr, Linked;
    if a.Write? { WrittenLinked(cfg, s.g, s.held, a.write); }
  }

  // In every interleaving a call that is in round r, or in the locked build,
  // has seen r writes, or eight, move the generation on since it began.
  lemma {:induction false} RoundsNeedWrites(cfg: Config, states: seq<State>, actions: seq<Action>, k: nat, i: nat,
                                            t: nat)
    requires IsRun(cfg, states, actions) && LastCall(actions, k, i, t)
    ensures t in states[i].compilers
    ensures Owed(states[i].g, states[k].g.generation, states[i].compilers[t].pc)
  {
    hide Owed, Next, Invariant;
    var n := i - 1;
    var s, start := states[n], states[k].g.generation;
    assert Enabled(s, actions[n]) && states[n + 1] == Next(cfg, s, actions[n]);
    RunInvariant(cfg, states, actions, n);
    StepsGeneration(cfg, s, actions[n]);
    if n == k {
      JustCalled(cfg, s, t);
    } else {
      RoundsNeedWrites(cfg, states, actions, k, n, t);
      assert actions[n] != Call(t);
      OwedNext(cfg, s, actions[n], t, start);
    }
  }

  lemma JustCalled(cfg: Config, s: State, t: nat)
    requires Enabled(s, Call(t))
    ensures var n := Next(cfg, s, Call(t)); t in n.compilers && Owed(n.g, s.g.generation, n.compilers[t].pc)
  {
  }

  lemma OwedNext(cfg: Config, s: State, a: Action, t: nat, start: nat)
    requires Invariant(s) && Enabled(s, a) && a != Call(t) && t in s.compilers
    requires Owed(s.g, start, s.compilers[t].pc) && Next(cfg, s, a).g.generation >= s.g.generation
    ensures var n := Next(cfg, s, a); t in n.compilers && Owed(n.g, start, n.compilers[t].pc)
  {
    hide Written, Held, BuildCsr, Linked, Owed;
    var n := Next(cfg, s, a);
    if a == Run(t) {
      OwedAfterRun(s, t, start);
    } else {
      assert n.compilers[t] == s.compilers[t];
      OwedLater(s.g, n.g, start, s.compilers[t].pc);
    }
  }
}
