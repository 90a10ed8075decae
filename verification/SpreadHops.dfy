/** h hops of the general loop against one hop of the fast spread. */
module SpreadHops {
  import opened Basics
  import opened Sparse
  import opened Spread

  // ----- two-layer graphs -----

  // No node that an edge reaches has an edge of its own.
  predicate TwoLayer(m: Csr, n: nat)
    requires m.Valid(n)
  {
    forall i: nat, k: nat :: i < n && k < n && Targets(m.Row(n, i), k) ==> m.Row(n, k) == []
  }

  ghost predicate Seeds(n: nat, d: Dict) {
    Distinct(d) && forall a :: a in d ==> a.node < n && 0.0 <= a.score
  }

  // A two-layer matrix and a positive threshold.
  ghost predicate Layered(cfg: Config, m: Csr, n: nat, seeds: Dict) {
    && cfg.Valid() && 0.0 < cfg.threshold
    && m.Valid(n) && TwoLayer(m, n) && Seeds(n, seeds)
  }

  // The same with an unpruned first hop.
  ghost predicate Regular(cfg: Config, m: Csr, n: nat, seeds: Dict) {
    Layered(cfg, m, n, seeds) && |NewActivations(cfg, m, n, seeds)| <= cfg.maxActive
  }

  // decay^h * v
  function Faded(cfg: Config, h: nat, v: real): real {
    if h == 0 then v else Decayed(cfg, Faded(cfg, h - 1, v))
  }

  // d is exactly { i -> decay^h * r1(i) : that value is at least the threshold }.
  ghost predicate IsLevel(cfg: Config, m: Csr, n: nat, seeds: Dict, h: nat, d: Dict)
    requires m.Valid(n) && forall a :: a in seeds ==> a.node < n
  {
    && Distinct(d)
    && (forall k: nat :: k < n ==> LevelAt(cfg, h, Received(cfg, m, n, seeds, k), d, k))
    && (forall k: nat :: Has(d, k) ==> k < n)
  }

  predicate LevelAt(cfg: Config, h: nat, r: real, d: Dict, k: nat) {
    && (Has(d, k) <==> Faded(cfg, h, r) >= cfg.threshold)
    && (Has(d, k) ==> Get(d, k) == Faded(cfg, h, r))
  }

  // One hop holds exactly the nodes whose one-hop value reaches the threshold
  // if and only if the threshold is positive or the hop writes to every node.
  lemma OneHopExactIff(cfg: Config, m: Csr, n: nat, seeds: Dict)
    requires Usable(m, n, seeds) && |NewActivations(cfg, m, n, seeds)| <= cfg.maxActive
    ensures IsLevel(cfg, m, n, seeds, 0, Hops(cfg, m, n, seeds, 1)) <==>
            cfg.threshold > 0.0 || forall k: nat :: k < n ==> Touches(cfg, m, n, seeds, k)
  {
    hide Received, NewActivations, Touches, Csr.Valid, Distinct;
    var next := NewActivations(cfg, m, n, seeds);
    OneHop(cfg, m, n, seeds);
    NewActivationsMeaning(cfg, m, n, seeds);
    AtLeastMeaning(next, cfg.threshold);
    var d := Hops(cfg, m, n, seeds, 1);
    assert d == AtLeast(next, cfg.threshold);
    forall k: nat
      ensures Has(d, k) ==> k < n
      ensures k < n ==> (LevelAt(cfg, 0, Received(cfg, m, n, seeds, k), d, k) <==>
                         cfg.threshold > 0.0 || Touches(cfg, m, n, seeds, k))
    {
      GetMember(next, k);
      ReceivedIsMaximum(cfg, m, n, seeds, k);
      if Has(d, k) { TouchesInRange(cfg, m, n, seeds, k); }
    }
  }

  lemma OneHop(cfg: Config, m: Csr, n: nat, seeds: Dict)
    requires m.Valid(n) && forall a :: a in seeds ==> a.node < n
    ensures Hops(cfg, m, n, seeds, 1) == Hop(cfg, m, n, seeds)
  {
    assert Hops(cfg, m, n, seeds, 0) == seeds;
  }

  lemma DecayedShrinks(cfg: Config, v: real)
    requires cfg.Valid() && 0.0 <= v
    ensures 0.0 <= Decayed(cfg, v) <= v
  {
    ProductNonNegative(v, 1.0 - cfg.decay);
    ProductNonNegative(v, cfg.decay);
    assert v * (1.0 - cfg.decay) == v - v * cfg.decay;
  }

  lemma DecayedMonotone(cfg: Config, u: real, v: real)
    requires cfg.Valid() && u <= v
    ensures Decayed(cfg, u) <= Decayed(cfg, v)
  {
    ProductNonNegative(v - u, cfg.decay);
    assert (v - u) * cfg.decay == v * cfg.decay - u * cfg.decay;
  }

  lemma {:induction false} FadedBounds(cfg: Config, h: nat, v: real)
    requires cfg.Valid() && 0.0 <= v
    ensures 0.0 <= Faded(cfg, h, v) <= v
  {
    if h == 0 {
    } else {
      FadedBounds(cfg, h - 1, v);
      DecayedShrinks(cfg, Faded(cfg, h - 1, v));
    }
  }

  lemma {:induction false} FadedMonotone(cfg: Config, h: nat, u: real, v: real)
    requires cfg.Valid() && u <= v
    ensures Faded(cfg, h, u) <= Faded(cfg, h, v)
  {
    if h == 0 {
    } else {
      FadedMonotone(cfg, h - 1, u, v);
      DecayedMonotone(cfg, Faded(cfg, h - 1, u), Faded(cfg, h - 1, v));
    }
  }

  lemma CarriedDecays(cfg: Config, u: real, w: real)
    ensures Carried(cfg, Decayed(cfg, u), w) == Decayed(cfg, Carried(cfg, u, w))
  {
  }

  // Carrying a faded score is fading the carried score.
  lemma {:induction false} FadedCarried(cfg: Config, h: nat, s: real, w: real)
    ensures Carried(cfg, Faded(cfg, h, s), w) == Faded(cfg, h, Carried(cfg, s, w))
  {
    if h == 0 {
    } else {
      FadedCarried(cfg, h - 1, s, w);
      CarriedDecays(cfg, Faded(cfg, h - 1, s), w);
    }
  }

  lemma {:induction false} FadedDecayed(cfg: Config, h: nat, s: real)
    ensures Faded(cfg, h, Decayed(cfg, s)) == Decayed(cfg, Faded(cfg, h, s))
  {
    if h == 0 {
    } else {
      FadedDecayed(cfg, h - 1, s);
    }
  }

  // A node with edges is reached by none, so it only ever keeps its own seed.
  lemma SourceSeed(cfg: Config, m: Csr, n: nat, seeds: Dict, e: nat) returns (a: Activation)
    requires m.Valid(n) && TwoLayer(m, n) && Seeds(n, seeds) && e < n && m.Row(n, e) != []
    requires Received(cfg, m, n, seeds, e) > 0.0
    ensures a in seeds && a.node == e && Received(cfg, m, n, seeds, e) == Decayed(cfg, a.score)
  {
    var r := Received(cfg, m, n, seeds, e);
    ReceivedIsMaximum(cfg, m, n, seeds, e);
    a :| a in seeds && (OwnOffer(cfg, a, e, r) || EdgeOffer(cfg, m, n, a, e, r));
    assert EdgeOffer(cfg, m, n, a, e, r) ==> Targets(m.Row(n, a.node), e);
  }

  // The scores are one-hop values faded h times.
  ghost predicate FadedScores(cfg: Config, m: Csr, n: nat, seeds: Dict, h: nat, d: Dict)
    requires m.Valid(n) && forall a :: a in seeds ==> a.node < n
  {
    forall a :: a in d ==> a.node < n && a.score == Faded(cfg, h, Received(cfg, m, n, seeds, a.node))
  }

  // Whatever such scores offer node i is at most its value faded once more.
  lemma OfferBound(cfg: Config, m: Csr, n: nat, seeds: Dict, h: nat, d: Dict, i: nat, v: real)
    requires Layered(cfg, m, n, seeds) && FadedScores(cfg, m, n, seeds, h, d) && i < n
    requires Offered(cfg, m, n, d, i, v)
    ensures v <= Faded(cfg, h + 1, Received(cfg, m, n, seeds, i))
  {
    var a :| a in d && (OwnOffer(cfg, a, i, v) || EdgeOffer(cfg, m, n, a, i, v));
    if !OwnOffer(cfg, a, i, v) { EdgeOfferBound(cfg, m, n, seeds, h, a, i, v); }
  }

  lemma EdgeOfferBound(cfg: Config, m: Csr, n: nat, seeds: Dict, h: nat, a: Activation, i: nat, v: real)
    requires Layered(cfg, m, n, seeds) && i < n && a.node < n
    requires a.score == Faded(cfg, h, Received(cfg, m, n, seeds, a.node)) && EdgeOffer(cfg, m, n, a, i, v)
    ensures v <= Faded(cfg, h + 1, Received(cfg, m, n, seeds, i))
  {
    var e := a.node;
    var r, row := Received(cfg, m, n, seeds, e), m.Row(n, e);
    var p :| 0 <= p < |row| && row[p].col == i && v == Carried(cfg, a.score, row[p].weight);
    ReceivedIsMaximum(cfg, m, n, seeds, e);
    FadedBounds(cfg, h, r);
    var s := SourceSeed(cfg, m, n, seeds, e);
    DecayedShrinks(cfg, s.score);
    var w := row[p].weight;
    var first := Carried(cfg, s.score, w);
    assert RowOffer(cfg, row, s.score, i, first);
    assert Offered(cfg, m, n, seeds, i, first);
    ReceivedIsMaximum(cfg, m, n, seeds, i);
    FadedDecayed(cfg, h, s.score);
    FadedCarried(cfg, h + 1, s.score, w);
    FadedMonotone(cfg, h + 1, first, Received(cfg, m, n, seeds, i));
  }

  function Nodes(d: Dict): set<nat> {
    if d == [] then {} else Nodes(d[..|d| - 1]) + {d[|d| - 1].node}
  }

  lemma {:induction false} DistinctNodes(d: Dict)
    requires Distinct(d)
    ensures |d| == |Nodes(d)|
    ensures forall k: nat :: k in Nodes(d) <==> Has(d, k)
  {
    if d == [] {
    } else {
      var init, last := d[..|d| - 1], d[|d| - 1];
      assert d == init + [last];
      DistinctSnoc(init, last, d);
      DistinctNodes(init);
      HasSnoc(init, last);
    }
  }

  lemma FewerNodes(d: Dict, e: Dict)
    requires Distinct(d) && Distinct(e) && forall k: nat :: Has(d, k) ==> Has(e, k)
    ensures |d| <= |e|
  {
    DistinctNodes(d);
    DistinctNodes(e);
    SubsetSize(Nodes(d), Nodes(e));
  }

  // Later hops write to no node the first hop did not write to.
  lemma LaterTouches(cfg: Config, m: Csr, n: nat, seeds: Dict, h: nat, d: Dict, k: nat)
    requires Regular(cfg, m, n, seeds) && IsLevel(cfg, m, n, seeds, h, d)
    requires (forall a :: a in d ==> a.node < n) && Touches(cfg, m, n, d, k)
    ensures Touches(cfg, m, n, seeds, k)
  {
    var a :| a in d && TouchedBy(cfg, m, n, a, k);
    var e := a.node;
    var r := Received(cfg, m, n, seeds, e);
    GetMember(d, e);
    assert LevelAt(cfg, h, r, d, e);
    ReceivedIsMaximum(cfg, m, n, seeds, e);
    FadedBounds(cfg, h, r);
    NewActivationsMeaning(cfg, m, n, seeds);
    GetMember(NewActivations(cfg, m, n, seeds), e);
    assert Touches(cfg, m, n, seeds, e);
    if e != k {
      var s := SourceSeed(cfg, m, n, seeds, e);
      DecayedShrinks(cfg, s.score);
      assert TouchedBy(cfg, m, n, s, k);
    }
  }

  lemma LaterUnpruned(cfg: Config, m: Csr, n: nat, seeds: Dict, h: nat, d: Dict)
    requires Regular(cfg, m, n, seeds) && IsLevel(cfg, m, n, seeds, h, d) && forall a :: a in d ==> a.node < n
    ensures |NewActivations(cfg, m, n, d)| <= cfg.maxActive
  {
    NewActivationsMeaning(cfg, m, n, seeds);
    NewActivationsMeaning(cfg, m, n, d);
    var next, first := NewActivations(cfg, m, n, d), NewActivations(cfg, m, n, seeds);
    forall k: nat | Has(next, k)
      ensures Has(first, k)
    {
      LaterTouches(cfg, m, n, seeds, h, d, k);
    }
    FewerNodes(next, first);
  }

  lemma LevelScores(cfg: Config, m: Csr, n: nat, seeds: Dict, h: nat, d: Dict)
    requires Layered(cfg, m, n, seeds) && IsLevel(cfg, m, n, seeds, h, d)
    ensures FadedScores(cfg, m, n, seeds, h, d)
  {
    hide Received, Faded;
    forall a | a in d
      ensures a.node < n && a.score == Faded(cfg, h, Received(cfg, m, n, seeds, a.node))
    {
      GetMember(d, a.node);
      assert LevelAt(cfg, h, Received(cfg, m, n, seeds, a.node), d, a.node);
    }
  }

  lemma LevelStepAt(cfg: Config, m: Csr, n: nat, seeds: Dict, h: nat, d: Dict, k: nat)
    requires Regular(cfg, m, n, seeds) && IsLevel(cfg, m, n, seeds, h, d) && k < n
    requires forall a :: a in d ==> a.node < n
    ensures var w := Faded(cfg, h + 1, Received(cfg, m, n, seeds, k));
            && Received(cfg, m, n, d, k) <= w
            && (w >= cfg.threshold ==> Touches(cfg, m, n, d, k) && Received(cfg, m, n, d, k) == w)
  {
    var r := Received(cfg, m, n, seeds, k);
    var w, got := Faded(cfg, h + 1, r), Received(cfg, m, n, d, k);
    ReceivedIsMaximum(cfg, m, n, seeds, k);
    ReceivedIsMaximum(cfg, m, n, d, k);
    FadedBounds(cfg, h, r);
    FadedBounds(cfg, h + 1, r);
    LevelScores(cfg, m, n, seeds, h, d);
    if got != 0.0 { OfferBound(cfg, m, n, seeds, h, d, k, got); }
    DecayedShrinks(cfg, Faded(cfg, h, r));
    assert LevelAt(cfg, h, r, d, k);
    if w >= cfg.threshold {
      GetMember(d, k);
      var a := Activation(k, Get(d, k));
      assert OwnOffer(cfg, a, k, w) && TouchedBy(cfg, m, n, a, k);
      assert Offered(cfg, m, n, d, k, w);
    }
  }

  lemma LevelStep(cfg: Config, m: Csr, n: nat, seeds: Dict, h: nat, d: Dict)
    requires Regular(cfg, m, n, seeds) && IsLevel(cfg, m, n, seeds, h, d) && forall a :: a in d ==> a.node < n
    ensures IsLevel(cfg, m, n, seeds, h + 1, Hop(cfg, m, n, d))
  {
    LaterUnpruned(cfg, m, n, seeds, h, d);
    NewActivationsMeaning(cfg, m, n, d);
    var next, r := NewActivations(cfg, m, n, d), Hop(cfg, m, n, d);
    AtLeastMeaning(next, cfg.threshold);
    forall k: nat
      ensures Has(r, k) ==> k < n
      ensures k < n ==> LevelAt(cfg, h + 1, Received(cfg, m, n, seeds, k), r, k)
    {
      if Has(r, k) { TouchesInRange(cfg, m, n, d, k); }
      if k < n { LevelStepAt(cfg, m, n, seeds, h, d, k); }
    }
  }

  // h hops of the general loop are one hop faded h - 1 times, thresholded.
  lemma {:induction false} GeneralHops(cfg: Config, m: Csr, n: nat, seeds: Dict, hops: nat)
    requires Regular(cfg, m, n, seeds) && hops >= 1
    ensures IsLevel(cfg, m, n, seeds, hops - 1, Hops(cfg, m, n, seeds, hops))
  {
    hide IsLevel, Hop;
    var before := Hops(cfg, m, n, seeds, hops - 1);
    HopInRange(cfg, m, n, before);
    if hops == 1 {
      OneHopExactIff(cfg, m, n, seeds);
    } else {
      GeneralHops(cfg, m, n, seeds, hops - 1);
      LevelStep(cfg, m, n, seeds, hops - 2, before);
    }
  }

  lemma {:induction false} NoJoinsNoRow(es: seq<Edge>, i: nat, n: nat)
    requires forall c: nat :: !Joined(es, i, c)
    ensures RowOf(es, i, n) == []
  {
    if n == 0 {
    } else {
      NoJoinsNoRow(es, i, n - 1);
    }
  }

  // Graphs whose edges run from one side to the other compile to two layers.
  lemma OneSidedIsTwoLayer(n: nat, es: seq<Edge>)
    requires forall e, f :: e in es && f in es ==> e.dst != f.src
    ensures TwoLayer(BuildCsr(n, es), n)
  {
    var m := BuildCsr(n, es);
    forall i: nat, k: nat | i < n && k < n && Targets(m.Row(n, i), k)
      ensures m.Row(n, k) == []
    {
      BuildCsrRow(n, es, i);
      BuildCsrRow(n, es, k);
      RowColumns(es, i, n);
      var p :| 0 <= p < |es| && es[p].src == i && es[p].dst == k;
      assert es[p] in es;
      forall c: nat
        ensures !Joined(es, k, c)
      {
        assert forall q :: 0 <= q < |es| ==> es[q] in es;
      }
      NoJoinsNoRow(es, k, n);
    }
  }

  // ----- the dictionaries that the two paths return -----

  // With a positive threshold, a node that scores was written to.
  lemma ReachedIsTouched(cfg: Config, m: Csr, n: nat, seeds: Dict, k: nat)
    requires Usable(m, n, seeds) && 0.0 < Received(cfg, m, n, seeds, k)
    ensures Touches(cfg, m, n, seeds, k)
  {
    NewActivationsMeaning(cfg, m, n, seeds);
    GetMember(NewActivations(cfg, m, n, seeds), k);
  }

  // Where no more nodes are written to than fit, every answer of the fast
  // spread holds exactly the nodes that reach a positive threshold.
  lemma FastUnpruned(cfg: Config, m: Csr, n: nat, seeds: Dict, fast: Dict)
    requires 0.0 < cfg.threshold && Usable(m, n, seeds) && FastAnswer(cfg, m, n, seeds, fast)
    requires |NewActivations(cfg, m, n, seeds)| <= cfg.maxActive
    ensures IsLevel(cfg, m, n, seeds, 0, fast)
  {
    hide Received, NewActivations, Touches, Csr.Valid, Distinct;
    forall k: nat
      ensures Has(fast, k) ==> k < n
      ensures k < n ==> LevelAt(cfg, 0, Received(cfg, m, n, seeds, k), fast, k)
    {
      var v := Received(cfg, m, n, seeds, k);
      GetMember(fast, k);
      if k < n && v >= cfg.threshold && Activation(k, v) !in fast {
        assert KeptOrBeaten(cfg, fast, k, v);
        MoreTouched(cfg, m, n, seeds, fast, k);
        assert false;
      }
    }
  }

  // An answer that leaves out a node which reaches a positive threshold is
  // smaller than the set of nodes written to.
  lemma MoreTouched(cfg: Config, m: Csr, n: nat, seeds: Dict, fast: Dict, k: nat)
    requires 0.0 < cfg.threshold && Usable(m, n, seeds) && FastAnswer(cfg, m, n, seeds, fast)
    requires k < n && Received(cfg, m, n, seeds, k) >= cfg.threshold && !Has(fast, k)
    ensures |fast| < |NewActivations(cfg, m, n, seeds)|
  {
    hide Received, NewActivations, Touches, Csr.Valid;
    var next, more := NewActivations(cfg, m, n, seeds), fast + [Activation(k, Received(cfg, m, n, seeds, k))];
    NewActivationsMeaning(cfg, m, n, seeds);
    HasSnoc(fast, Activation(k, Received(cfg, m, n, seeds, k)));
    SnocDistinct(fast, Activation(k, Received(cfg, m, n, seeds, k)));
    forall j: nat | Has(more, j)
      ensures Has(next, j)
    {
      GetMember(fast, j);
      ReachedIsTouched(cfg, m, n, seeds, j);
    }
    FewerNodes(more, next);
  }

  // The loop ranks what the fast spread returns: its h-hop dictionary is the
  // fast one faded h - 1 times and thresholded again, and at one hop the two
  // are the same.
  lemma FastMatchesGeneral(cfg: Config, m: Csr, n: nat, seeds: Dict, hops: nat, fast: Dict, k: nat)
    requires Regular(cfg, m, n, seeds) && hops >= 1 && FastAnswer(cfg, m, n, seeds, fast)
    ensures var slow, v := Hops(cfg, m, n, seeds, hops), Faded(cfg, hops - 1, Get(fast, k));
            && (Has(slow, k) <==> Has(fast, k) && v >= cfg.threshold)
            && (Has(slow, k) ==> Get(slow, k) == v)
  {
    hide Hops, Received, TwoLayer, NewActivations, FastAnswer;
    var slow, r := Hops(cfg, m, n, seeds, hops), Received(cfg, m, n, seeds, k);
    GeneralHops(cfg, m, n, seeds, hops);
    FastUnpruned(cfg, m, n, seeds, fast);
    if k < n {
      assert LevelAt(cfg, hops - 1, r, slow, k) && LevelAt(cfg, 0, r, fast, k);
      ReceivedIsMaximum(cfg, m, n, seeds, k);
      FadedBounds(cfg, hops - 1, r);
    }
  }

  ghost predicate AllTouched(cfg: Config, m: Csr, n: nat, seeds: Dict)
    requires m.Valid(n) && forall a :: a in seeds ==> a.node < n
  {
    forall k: nat :: k < n ==> Touches(cfg, m, n, seeds, k)
  }

  // One hop of the loop, pruned or not, is an answer the fast spread may give
  // exactly when: the threshold is positive, or the hop writes to maxActive
  // nodes or to all. With maxActive 0 the loop drops every node and the fast
  // spread none, so no node may reach the threshold.
  lemma OneHopIsFastIff(cfg: Config, m: Csr, n: nat, seeds: Dict)
    requires cfg.Valid() && Usable(m, n, seeds)
    ensures FastAnswer(cfg, m, n, seeds, Hops(cfg, m, n, seeds, 1)) <==>
            if cfg.maxActive == 0 then forall k: nat :: k < n ==> Received(cfg, m, n, seeds, k) < cfg.threshold
            else cfg.threshold > 0.0 || AllTouched(cfg, m, n, seeds) ||
                 |NewActivations(cfg, m, n, seeds)| >= cfg.maxActive
  {
    hide Received, NewActivations, Touches, Csr.Valid, Distinct, Hop, FastAnswer;
    OneHop(cfg, m, n, seeds);
    if cfg.maxActive == 0 {
      NothingKept(cfg, m, n, seeds);
    } else if cfg.threshold > 0.0 || AllTouched(cfg, m, n, seeds) ||
              |NewActivations(cfg, m, n, seeds)| >= cfg.maxActive {
      HopIsFast(cfg, m, n, seeds);
    } else {
      HopIsNotFast(cfg, m, n, seeds);
    }
  }

  // The first hop before the threshold: everything written to, or the best of it.
  function Kept(cfg: Config, m: Csr, n: nat, seeds: Dict): Dict
    requires m.Valid(n) && forall a :: a in seeds ==> a.node < n
  {
    var next := NewActivations(cfg, m, n, seeds);
    if |next| > cfg.maxActive then NLargest(cfg.maxActive, next) else next
  }

  lemma NothingKept(cfg: Config, m: Csr, n: nat, seeds: Dict)
    requires Usable(m, n, seeds) && cfg.maxActive == 0
    ensures Hop(cfg, m, n, seeds) == []
    ensures FastAnswer(cfg, m, n, seeds, []) <==>
            forall k: nat :: k < n ==> Received(cfg, m, n, seeds, k) < cfg.threshold
  {
    hide Received, NewActivations, Csr.Valid;
    assert Kept(cfg, m, n, seeds) == [];
    if FastAnswer(cfg, m, n, seeds, []) {
      forall k: nat | k < n
        ensures Received(cfg, m, n, seeds, k) < cfg.threshold
      {
        assert KeptOrBeaten(cfg, [], k, Received(cfg, m, n, seeds, k));
      }
    } else {
      var none: Dict := [];
      assert Distinct(none) && forall a :: a !in none;
      var k: nat :| k < n && !KeptOrBeaten(cfg, none, k, Received(cfg, m, n, seeds, k));
      assert Received(cfg, m, n, seeds, k) >= cfg.threshold;
    }
  }

  // What is kept are one-hop values of distinct nodes, no more than fit, and
  // a node left out that was written to is beaten by all of them.
  lemma KeptMeaning(cfg: Config, m: Csr, n: nat, seeds: Dict, k: nat)
    requires Usable(m, n, seeds)
    ensures var kept, v := Kept(cfg, m, n, seeds), Received(cfg, m, n, seeds, k);
            && Distinct(kept) && |kept| <= cfg.maxActive
            && (forall a :: a in kept ==> a.node < n && a.score == Received(cfg, m, n, seeds, a.node) >= 0.0)
            && (Touches(cfg, m, n, seeds, k) ==>
                  Activation(k, v) in kept || (|kept| == cfg.maxActive && forall a :: a in kept ==> a.score >= v))
            && (|NewActivations(cfg, m, n, seeds)| >= cfg.maxActive ==> |kept| == cfg.maxActive)
  {
    hide Received, NewActivations, Touches, Csr.Valid, Distinct, NLargest;
    var next, kept := NewActivations(cfg, m, n, seeds), Kept(cfg, m, n, seeds);
    NewActivationsMeaning(cfg, m, n, seeds);
    GetMember(next, k);
    if |next| > cfg.maxActive {
      NLargestBest(cfg.maxActive, next);
      NLargestMembers(cfg.maxActive, next);
      NLargestDistinct(cfg.maxActive, next);
    }
    forall a | a in kept
      ensures a.node < n && a.score == Received(cfg, m, n, seeds, a.node) >= 0.0
    {
      GetMember(next, a.node);
      TouchesInRange(cfg, m, n, seeds, a.node);
      ReceivedIsMaximum(cfg, m, n, seeds, a.node);
    }
  }

  lemma {:induction false} AtLeastFilters(d: Dict, t: real)
    ensures |AtLeast(d, t)| <= |d|
    ensures (forall a :: a in d ==> a.score >= t) ==> AtLeast(d, t) == d
    ensures forall a :: a in AtLeast(d, t) <==> a in d && a.score >= t
  {
    if d == [] {
    } else {
      assert d == d[..|d| - 1] + [d[|d| - 1]];
      AtLeastFilters(d[..|d| - 1], t);
    }
  }

  lemma HopIsFast(cfg: Config, m: Csr, n: nat, seeds: Dict)
    requires cfg.Valid() && Usable(m, n, seeds) && cfg.maxActive > 0
    requires cfg.threshold > 0.0 || AllTouched(cfg, m, n, seeds) ||
             |NewActivations(cfg, m, n, seeds)| >= cfg.maxActive
    ensures FastAnswer(cfg, m, n, seeds, Hop(cfg, m, n, seeds))
  {
    hide Received, NewActivations, Touches, Csr.Valid, Distinct, NLargest, AtLeast, Kept;
    var kept, d := Kept(cfg, m, n, seeds), Hop(cfg, m, n, seeds);
    assert d == AtLeast(kept, cfg.threshold) by { KeptIsPruned(cfg, m, n, seeds); }
    KeptMeaning(cfg, m, n, seeds, 0);
    AtLeastMeaning(kept, cfg.threshold);
    AtLeastFilters(kept, cfg.threshold);
    forall k: nat | k < n
      ensures KeptOrBeaten(cfg, d, k, Received(cfg, m, n, seeds, k))
    {
      KeptMeaning(cfg, m, n, seeds, k);
      if !Touches(cfg, m, n, seeds, k) { Untouched(cfg, m, n, seeds, k); }
    }
  }

  lemma KeptIsPruned(cfg: Config, m: Csr, n: nat, seeds: Dict)
    requires m.Valid(n) && forall a :: a in seeds ==> a.node < n
    ensures Hop(cfg, m, n, seeds) == AtLeast(Kept(cfg, m, n, seeds), cfg.threshold)
  {
  }

  lemma Untouched(cfg: Config, m: Csr, n: nat, seeds: Dict, k: nat)
    requires Usable(m, n, seeds) && !Touches(cfg, m, n, seeds, k)
    ensures Received(cfg, m, n, seeds, k) == 0.0
  {
    NewActivationsMeaning(cfg, m, n, seeds);
    GetMember(NewActivations(cfg, m, n, seeds), k);
  }

  // At threshold 0 an answer with room left would have to hold every node.
  lemma HopIsNotFast(cfg: Config, m: Csr, n: nat, seeds: Dict)
    requires cfg.Valid() && Usable(m, n, seeds) && cfg.threshold == 0.0
    requires !AllTouched(cfg, m, n, seeds) && |NewActivations(cfg, m, n, seeds)| < cfg.maxActive
    ensures !FastAnswer(cfg, m, n, seeds, Hop(cfg, m, n, seeds))
  {
    hide Received, NewActivations, Touches, Csr.Valid, Distinct, AtLeast;
    var k: nat :| k < n && !Touches(cfg, m, n, seeds, k);
    var next, d := NewActivations(cfg, m, n, seeds), Hop(cfg, m, n, seeds);
    Untouched(cfg, m, n, seeds, k);
    NewActivationsMeaning(cfg, m, n, seeds);
    GetMember(next, k);
    AtLeastFilters(next, cfg.threshold);
    assert Activation(k, 0.0) in d ==> Activation(k, 0.0) in next;
    assert |d| < cfg.maxActive;
    assert !KeptOrBeaten(cfg, d, k, Received(cfg, m, n, seeds, k));
  }

  // The failing input at threshold 0, which the configuration admits: the
  // fast spread reports a node that the loop never visits.
  lemma ZeroThresholdDiffers()
    ensures var cfg, m := Config(0.5, 0.0, 50), BuildCsr(1, []);
            && cfg.Valid() && Usable(m, 1, []) && Received(cfg, m, 1, [], 0) >= cfg.threshold
            && !Has(Hops(cfg, m, 1, [], 1), 0)
            && FastAnswer(cfg, m, 1, [], [Activation(0, 0.0)]) && !FastAnswer(cfg, m, 1, [], [])
  {
    var cfg, m := Config(0.5, 0.0, 50), BuildCsr(1, []);
    assert Hops(cfg, m, 1, [], 0) == [];
    assert Hop(cfg, m, 1, []) == [];
    assert Received(cfg, m, 1, [], 0) == 0.0 && !KeptOrBeaten(cfg, [], 0, 0.0);
    assert [Activation(0, 0.0)][0] == Activation(0, 0.0);
  }
}
