/** h hops of the general loop, pruned or not, against the fast spread. */
module PrunedHops {
  import opened Sparse
  import opened Spread
  import opened SpreadHops

  // d is fast faded h times and thresholded again.
  ghost predicate FadedFrom(cfg: Config, h: nat, fast: Dict, d: Dict) {
    Distinct(d) && forall k: nat :: FadedAt(cfg, h, fast, d, k)
  }

  predicate FadedAt(cfg: Config, h: nat, fast: Dict, d: Dict, k: nat) {
    && (Has(d, k) <==> Has(fast, k) && Faded(cfg, h, Get(fast, k)) >= cfg.threshold)
    && (Has(d, k) ==> Get(d, k) == Faded(cfg, h, Get(fast, k)))
  }

  // A hop in progress: d is the fast answer after h fadings.
  ghost predicate Stage(cfg: Config, m: Csr, n: nat, seeds: Dict, h: nat, fast: Dict, d: Dict) {
    && Layered(cfg, m, n, seeds) && cfg.maxActive > 0
    && FastAnswer(cfg, m, n, seeds, fast) && FadedFrom(cfg, h, fast, d)
  }

  // ----- one node at a stage -----

  lemma FastGet(cfg: Config, m: Csr, n: nat, seeds: Dict, fast: Dict, k: nat)
    requires Usable(m, n, seeds) && FastAnswer(cfg, m, n, seeds, fast)
    ensures Has(fast, k) ==> k < n && Get(fast, k) == Received(cfg, m, n, seeds, k) >= cfg.threshold
    ensures Activation(k, Received(cfg, m, n, seeds, k)) in fast ==> Has(fast, k)
  {
    hide Received;
    GetMember(fast, k);
  }

  lemma StageScores(cfg: Config, m: Csr, n: nat, seeds: Dict, h: nat, fast: Dict, d: Dict)
    requires Stage(cfg, m, n, seeds, h, fast, d)
    ensures Usable(m, n, d) && FadedScores(cfg, m, n, seeds, h, d)
  {
    hide Received, Faded, Csr.Valid, FastAnswer;
    forall a | a in d
      ensures a.node < n && a.score == Faded(cfg, h, Received(cfg, m, n, seeds, a.node))
    {
      GetMember(d, a.node);
      assert FadedAt(cfg, h, fast, d, a.node);
      FastGet(cfg, m, n, seeds, fast, a.node);
    }
  }

  // What the next hop gives node k: at most its faded value, and just that if k
  // is held now.
  lemma NextAt(cfg: Config, m: Csr, n: nat, seeds: Dict, h: nat, fast: Dict, d: Dict, k: nat)
    requires Stage(cfg, m, n, seeds, h, fast, d) && k < n
    ensures Usable(m, n, d)
    ensures var w := Faded(cfg, h + 1, Received(cfg, m, n, seeds, k));
            && 0.0 <= Received(cfg, m, n, d, k) <= w <= Faded(cfg, h, Received(cfg, m, n, seeds, k))
            && (Has(d, k) ==> Received(cfg, m, n, d, k) == w && Touches(cfg, m, n, d, k))
  {
    hide Received, Csr.Valid, FastAnswer, TwoLayer, FadedScores;
    StageScores(cfg, m, n, seeds, h, fast, d);
    var r, got := Received(cfg, m, n, seeds, k), Received(cfg, m, n, d, k);
    ReceivedIsMaximum(cfg, m, n, seeds, k);
    ReceivedIsMaximum(cfg, m, n, d, k);
    FadedBounds(cfg, h, r);
    DecayedShrinks(cfg, Faded(cfg, h, r));
    if got != 0.0 { OfferBound(cfg, m, n, seeds, h, d, k, got); }
    if Has(d, k) {
      var a := Activation(k, Get(d, k));
      GetMember(d, k);
      assert FadedAt(cfg, h, fast, d, k);
      FastGet(cfg, m, n, seeds, fast, k);
      assert OwnOffer(cfg, a, k, Decayed(cfg, a.score)) && TouchedBy(cfg, m, n, a, k);
      assert Offered(cfg, m, n, d, k, Decayed(cfg, a.score));
    }
  }

  lemma StageFewer(cfg: Config, m: Csr, n: nat, seeds: Dict, h: nat, fast: Dict, d: Dict)
    requires Stage(cfg, m, n, seeds, h, fast, d)
    ensures |d| <= |fast| <= cfg.maxActive
  {
    hide Received, Faded, Csr.Valid, TwoLayer;
    forall k: nat | Has(d, k)
      ensures Has(fast, k)
    {
      assert FadedAt(cfg, h, fast, d, k);
    }
    FewerNodes(d, fast);
  }

  // A node that the fast answer leaves out scores no more than one it holds.
  lemma LeftOut(cfg: Config, m: Csr, n: nat, seeds: Dict, fast: Dict, k: nat, f: nat)
    requires Usable(m, n, seeds) && FastAnswer(cfg, m, n, seeds, fast) && k < n && !Has(fast, k) && Has(fast, f)
    ensures f < n && Received(cfg, m, n, seeds, k) <= Received(cfg, m, n, seeds, f)
  {
    hide Received;
    FastGet(cfg, m, n, seeds, fast, f);
    FastGet(cfg, m, n, seeds, fast, k);
    GetMember(fast, f);
    assert KeptOrBeaten(cfg, fast, k, Received(cfg, m, n, seeds, k));
  }

  // ----- room left: nothing comes back -----

  lemma NoneReturns(cfg: Config, m: Csr, n: nat, seeds: Dict, h: nat, fast: Dict, d: Dict, k: nat)
    requires Stage(cfg, m, n, seeds, h, fast, d) && |d| < cfg.maxActive && k < n
    ensures Usable(m, n, d)
    ensures Received(cfg, m, n, d, k) >= cfg.threshold ==> Has(d, k)
  {
    hide Received, Csr.Valid, TwoLayer, Faded;
    NextAt(cfg, m, n, seeds, h, fast, d, k);
    var r := Received(cfg, m, n, seeds, k);
    ReceivedIsMaximum(cfg, m, n, seeds, k);
    FadedBounds(cfg, h, r);
    FastGet(cfg, m, n, seeds, fast, k);
    assert FadedAt(cfg, h, fast, d, k) && KeptOrBeaten(cfg, fast, k, r);
    if Received(cfg, m, n, d, k) >= cfg.threshold && !Has(d, k) {
      forall f: nat | Has(fast, f)
        ensures Has(d, f)
      {
        LeftOut(cfg, m, n, seeds, fast, k, f);
        FastGet(cfg, m, n, seeds, fast, f);
        FadedMonotone(cfg, h, r, Received(cfg, m, n, seeds, f));
        assert FadedAt(cfg, h, fast, d, f);
      }
      FewerNodes(fast, d);
    }
  }

  // The next dictionary by node: what is kept and reaches the threshold.
  lemma HopAt(cfg: Config, m: Csr, n: nat, d: Dict, k: nat)
    requires Usable(m, n, d)
    ensures var kept, hop := Kept(cfg, m, n, d), Hop(cfg, m, n, d);
            && Distinct(hop) && (Has(kept, k) ==> k < n)
            && (Has(hop, k) <==> Has(kept, k) && Received(cfg, m, n, d, k) >= cfg.threshold)
            && (Has(hop, k) ==> Get(hop, k) == Received(cfg, m, n, d, k))
  {
    hide Received, Csr.Valid, AtLeast, NewActivations, NLargest;
    KeptIsPruned(cfg, m, n, d);
    KeptMeaning(cfg, m, n, d, k);
    var kept := Kept(cfg, m, n, d);
    GetMember(kept, k);
    AtLeastMeaning(kept, cfg.threshold);
  }

  // A node written to is kept, or maxActive are that score no less.
  lemma KeptAt(cfg: Config, m: Csr, n: nat, d: Dict, k: nat, j: nat)
    requires Usable(m, n, d) && Touches(cfg, m, n, d, k) && !Has(Kept(cfg, m, n, d), k) && Has(Kept(cfg, m, n, d), j)
    ensures |Kept(cfg, m, n, d)| == cfg.maxActive && j < n
    ensures Received(cfg, m, n, d, j) >= Received(cfg, m, n, d, k)
  {
    hide Received, Csr.Valid, NewActivations, NLargest, Kept, Touches;
    KeptMeaning(cfg, m, n, d, k);
    GetMember(Kept(cfg, m, n, d), k);
    GetMember(Kept(cfg, m, n, d), j);
  }

  lemma KeptFull(cfg: Config, m: Csr, n: nat, d: Dict, k: nat)
    requires Usable(m, n, d) && Touches(cfg, m, n, d, k) && !Has(Kept(cfg, m, n, d), k)
    ensures |Kept(cfg, m, n, d)| == cfg.maxActive && Distinct(Kept(cfg, m, n, d))
  {
    hide Received, Csr.Valid, NewActivations, NLargest, Kept, Touches;
    KeptMeaning(cfg, m, n, d, k);
    GetMember(Kept(cfg, m, n, d), k);
  }

  lemma RoomStep(cfg: Config, m: Csr, n: nat, seeds: Dict, h: nat, fast: Dict, d: Dict)
    requires Stage(cfg, m, n, seeds, h, fast, d) && |d| < cfg.maxActive
    ensures Usable(m, n, d) && FadedFrom(cfg, h + 1, fast, Hop(cfg, m, n, d))
  {
    hide Received, Csr.Valid, Kept, Hop, Faded, FastAnswer, Layered, Touches;
    StageScores(cfg, m, n, seeds, h, fast, d);
    HopAt(cfg, m, n, d, 0);
    var later := h + 1;
    forall k: nat
      ensures FadedAt(cfg, later, fast, Hop(cfg, m, n, d), k)
    {
      RoomStepAt(cfg, m, n, seeds, h, fast, d, k);
    }
  }

  lemma RoomStepAt(cfg: Config, m: Csr, n: nat, seeds: Dict, h: nat, fast: Dict, d: Dict, k: nat)
    requires Stage(cfg, m, n, seeds, h, fast, d) && |d| < cfg.maxActive && Usable(m, n, d)
    ensures FadedAt(cfg, h + 1, fast, Hop(cfg, m, n, d), k)
  {
    hide Received, Csr.Valid, Kept, Hop, Faded, Touches, TwoLayer;
    HopAt(cfg, m, n, d, k);
    FastGet(cfg, m, n, seeds, fast, k);
    assert FadedAt(cfg, h, fast, d, k);
    if k < n {
      NextAt(cfg, m, n, seeds, h, fast, d, k);
      NoneReturns(cfg, m, n, seeds, h, fast, d, k);
      if Has(d, k) && Received(cfg, m, n, d, k) >= cfg.threshold && !Has(Kept(cfg, m, n, d), k) {
        KeptFull(cfg, m, n, d, k);
        forall j: nat | Has(Kept(cfg, m, n, d), j)
          ensures Has(d, j)
        {
          KeptAt(cfg, m, n, d, k, j);
          NoneReturns(cfg, m, n, seeds, h, fast, d, j);
        }
        FewerNodes(Kept(cfg, m, n, d), d);
      }
    }
  }

  // ----- no room: equal scores may change places -----

  lemma {:induction false} FadedStrict(cfg: Config, h: nat, u: real, v: real)
    requires cfg.Valid() && 0.0 < cfg.decay && u < v
    ensures Faded(cfg, h, u) < Faded(cfg, h, v)
  {
    if h == 0 {
    } else {
      FadedStrict(cfg, h - 1, u, v);
      DecayedStrict(cfg, Faded(cfg, h - 1, u), Faded(cfg, h - 1, v));
    }
  }

  lemma DecayedStrict(cfg: Config, u: real, v: real)
    requires 0.0 < cfg.decay && u < v
    ensures Decayed(cfg, u) < Decayed(cfg, v)
  {
    assert (v - u) * cfg.decay > 0.0;
    assert (v - u) * cfg.decay == v * cfg.decay - u * cfg.decay;
  }

  lemma {:induction false} SameNodes(d: Dict, e: Dict)
    requires Distinct(d) && Distinct(e) && |d| >= |e| && forall k: nat :: Has(d, k) ==> Has(e, k)
    ensures forall k: nat :: Has(e, k) ==> Has(d, k)
  {
    hide Nodes;
    DistinctNodes(d);
    DistinctNodes(e);
    SameSet(Nodes(d), Nodes(e));
  }

  lemma {:induction false} SameSet(a: set<nat>, b: set<nat>)
    requires a <= b && |a| >= |b|
    ensures a == b
  {
    assert b == a + (b - a);
  }

  // With no room left the whole answer is held.
  lemma FullStage(cfg: Config, m: Csr, n: nat, seeds: Dict, h: nat, fast: Dict, d: Dict)
    requires Stage(cfg, m, n, seeds, h, fast, d) && |d| >= cfg.maxActive
    ensures |d| == |fast| == cfg.maxActive && forall k: nat :: Has(fast, k) <==> Has(d, k)
  {
    hide Received, Faded, Csr.Valid, TwoLayer;
    StageFewer(cfg, m, n, seeds, h, fast, d);
    forall k: nat | Has(d, k)
      ensures Has(fast, k)
    {
      assert FadedAt(cfg, h, fast, d, k);
    }
    SameNodes(d, fast);
  }

  lemma FullKept(cfg: Config, m: Csr, n: nat, seeds: Dict, h: nat, fast: Dict, d: Dict)
    requires Stage(cfg, m, n, seeds, h, fast, d) && |d| >= cfg.maxActive
    ensures Usable(m, n, d)
    ensures |Kept(cfg, m, n, d)| == cfg.maxActive && Distinct(Kept(cfg, m, n, d))
  {
    hide Received, Csr.Valid, Kept, Faded, Touches, TwoLayer;
    StageScores(cfg, m, n, seeds, h, fast, d);
    KeptMeaning(cfg, m, n, d, 0);
    var next := NewActivations(cfg, m, n, d);
    NewActivationsMeaning(cfg, m, n, d);
    forall k: nat | Has(d, k)
      ensures Has(next, k)
    {
      GetMember(d, k);
      NextAt(cfg, m, n, seeds, h, fast, d, k);
    }
    FewerNodes(d, next);
  }

  // Some held node is not kept, once a node that is not held is.
  lemma Displaced(d: Dict, kept: Dict, j: nat) returns (f: nat)
    requires Distinct(d) && Distinct(kept) && |kept| <= |d| && Has(kept, j) && !Has(d, j)
    ensures Has(d, f) && !Has(kept, f)
  {
    if forall k: nat :: Has(d, k) ==> Has(kept, k) {
      SameNodes(d, kept);
    }
    f :| Has(d, f) && !Has(kept, f);
  }

  // A kept node has its faded value; if it was not held, its one-hop value
  // equals that of a node it displaced.
  lemma FullAt(cfg: Config, m: Csr, n: nat, seeds: Dict, h: nat, fast: Dict, d: Dict, j: nat) returns (f: nat)
    requires Stage(cfg, m, n, seeds, h, fast, d) && |d| >= cfg.maxActive && 0.0 < cfg.decay && Usable(m, n, d)
    requires Has(Kept(cfg, m, n, d), j)
    ensures j < n && Received(cfg, m, n, d, j) == Faded(cfg, h + 1, Received(cfg, m, n, seeds, j))
    ensures Has(fast, f) && f < n && Received(cfg, m, n, seeds, j) == Received(cfg, m, n, seeds, f) >= cfg.threshold
  {
    hide Received, Csr.Valid, Kept, Faded, Touches, TwoLayer, FastAnswer, FadedFrom;
    HopAt(cfg, m, n, d, j);
    NextAt(cfg, m, n, seeds, h, fast, d, j);
    FullStage(cfg, m, n, seeds, h, fast, d);
    if Has(d, j) {
      f := j;
    } else {
      FullKept(cfg, m, n, seeds, h, fast, d);
      StageDistinct(cfg, m, n, seeds, h, fast, d);
      f := Displaced(d, Kept(cfg, m, n, d), j);
      LeftOut(cfg, m, n, seeds, fast, j, f);
      NextAt(cfg, m, n, seeds, h, fast, d, f);
      KeptAt(cfg, m, n, d, f, j);
      var u, v := Received(cfg, m, n, seeds, j), Received(cfg, m, n, seeds, f);
      FadedMonotone(cfg, h + 1, u, v);
      if u < v { FadedStrict(cfg, h + 1, u, v); }
    }
    FastGet(cfg, m, n, seeds, fast, f);
  }

  lemma StageDistinct(cfg: Config, m: Csr, n: nat, seeds: Dict, h: nat, fast: Dict, d: Dict)
    requires Stage(cfg, m, n, seeds, h, fast, d)
    ensures Distinct(d) && Distinct(fast)
  {
    hide Received, Faded, Csr.Valid;
  }

  // The kept nodes with their one-hop values.
  function Renamed(cfg: Config, m: Csr, n: nat, seeds: Dict, kept: Dict): (r: Dict)
    requires m.Valid(n) && forall a :: a in seeds ==> a.node < n
    ensures |r| == |kept|
    ensures forall i :: 0 <= i < |r| ==>
              r[i].node == kept[i].node && r[i].score == Received(cfg, m, n, seeds, r[i].node)
  {
    seq(|kept|, i requires 0 <= i < |kept| =>
      Activation(kept[i].node, Received(cfg, m, n, seeds, kept[i].node)))
  }

  lemma RenamedAt(cfg: Config, m: Csr, n: nat, seeds: Dict, kept: Dict, k: nat)
    requires m.Valid(n) && (forall a :: a in seeds ==> a.node < n) && Distinct(kept)
    ensures var r := Renamed(cfg, m, n, seeds, kept);
            && Distinct(r) && (Has(r, k) <==> Has(kept, k))
            && (Has(r, k) ==> Get(r, k) == Received(cfg, m, n, seeds, k) && Activation(k, Get(r, k)) in r)
            && (forall a :: a in r ==> Has(kept, a.node) && a.score == Received(cfg, m, n, seeds, a.node))
  {
    hide Received, Csr.Valid, Renamed;
    var r := Renamed(cfg, m, n, seeds, kept);
    assert Distinct(r);
    GetMember(r, k);
    if Has(kept, k) {
      var i :| 0 <= i < |kept| && kept[i].node == k;
      assert r[i].node == k;
    }
  }

  lemma FullStep(cfg: Config, m: Csr, n: nat, seeds: Dict, h: nat, fast: Dict, d: Dict) returns (swapped: Dict)
    requires Stage(cfg, m, n, seeds, h, fast, d) && |d| >= cfg.maxActive && 0.0 < cfg.decay
    ensures Usable(m, n, d) && FastAnswer(cfg, m, n, seeds, swapped)
    ensures FadedFrom(cfg, h + 1, swapped, Hop(cfg, m, n, d))
  {
    hide Received, Csr.Valid, Kept, Hop, Faded, FadedFrom, Touches, TwoLayer, Renamed;
    StageScores(cfg, m, n, seeds, h, fast, d);
    FullKept(cfg, m, n, seeds, h, fast, d);
    var kept := Kept(cfg, m, n, d);
    swapped := Renamed(cfg, m, n, seeds, kept);
    RenamedAt(cfg, m, n, seeds, kept, 0);
    forall a | a in swapped
      ensures a.node < n && a.score == Received(cfg, m, n, seeds, a.node) >= cfg.threshold
    {
      var f := FullAt(cfg, m, n, seeds, h, fast, d, a.node);
    }
    forall k: nat | k < n
      ensures KeptOrBeaten(cfg, swapped, k, Received(cfg, m, n, seeds, k))
    {
      SwappedBeats(cfg, m, n, seeds, h, fast, d, k);
    }
    HopAt(cfg, m, n, d, 0);
    assert FadedFrom(cfg, h + 1, swapped, Hop(cfg, m, n, d)) by { SwappedFades(cfg, m, n, seeds, h, fast, d); }
  }

  lemma SwappedFades(cfg: Config, m: Csr, n: nat, seeds: Dict, h: nat, fast: Dict, d: Dict)
    requires Stage(cfg, m, n, seeds, h, fast, d) && |d| >= cfg.maxActive && 0.0 < cfg.decay && Usable(m, n, d)
    ensures FadedFrom(cfg, h + 1, Renamed(cfg, m, n, seeds, Kept(cfg, m, n, d)), Hop(cfg, m, n, d))
  {
    hide Received, Csr.Valid, Kept, Hop, Faded, FastAnswer, TwoLayer, Touches, Renamed;
    FullKept(cfg, m, n, seeds, h, fast, d);
    var kept, later := Kept(cfg, m, n, d), h + 1;
    HopAt(cfg, m, n, d, 0);
    forall k: nat
      ensures FadedAt(cfg, later, Renamed(cfg, m, n, seeds, kept), Hop(cfg, m, n, d), k)
    {
      HopAt(cfg, m, n, d, k);
      RenamedAt(cfg, m, n, seeds, kept, k);
      if Has(kept, k) { var f := FullAt(cfg, m, n, seeds, h, fast, d, k); }
    }
  }

  lemma SwappedBeats(cfg: Config, m: Csr, n: nat, seeds: Dict, h: nat, fast: Dict, d: Dict, k: nat)
    requires Stage(cfg, m, n, seeds, h, fast, d) && |d| >= cfg.maxActive && 0.0 < cfg.decay && Usable(m, n, d) && k < n
    ensures KeptOrBeaten(cfg, Renamed(cfg, m, n, seeds, Kept(cfg, m, n, d)), k, Received(cfg, m, n, seeds, k))
  {
    hide Received, Csr.Valid, Kept, Faded, FastAnswer, FadedFrom, Touches, TwoLayer, Renamed;
    FullKept(cfg, m, n, seeds, h, fast, d);
    FullStage(cfg, m, n, seeds, h, fast, d);
    var kept, v := Kept(cfg, m, n, d), Received(cfg, m, n, seeds, k);
    var swapped := Renamed(cfg, m, n, seeds, kept);
    RenamedAt(cfg, m, n, seeds, kept, k);
    if !Has(kept, k) {
      forall a | a in swapped
        ensures a.score >= v
      {
        var f := FullAt(cfg, m, n, seeds, h, fast, d, a.node);
        if Has(fast, k) {
          NextAt(cfg, m, n, seeds, h, fast, d, k);
          KeptAt(cfg, m, n, d, k, a.node);
          if a.score < v { FadedStrict(cfg, h + 1, a.score, v); }
        } else {
          LeftOut(cfg, m, n, seeds, fast, k, f);
        }
      }
    }
  }

  // Without decay everything is gone after one more hop.
  lemma ZeroStep(cfg: Config, m: Csr, n: nat, seeds: Dict, h: nat, fast: Dict, d: Dict)
    requires Stage(cfg, m, n, seeds, h, fast, d) && cfg.decay == 0.0
    ensures Usable(m, n, d) && FadedFrom(cfg, h + 1, fast, Hop(cfg, m, n, d))
  {
    hide Received, Csr.Valid, Kept, Hop, Touches, TwoLayer, FastAnswer;
    StageScores(cfg, m, n, seeds, h, fast, d);
    HopAt(cfg, m, n, d, 0);
    var later := h + 1;
    forall k: nat
      ensures FadedAt(cfg, later, fast, Hop(cfg, m, n, d), k)
    {
      HopAt(cfg, m, n, d, k);
      ZeroFaded(cfg, h, Get(fast, k));
      if k < n {
        ZeroFaded(cfg, h, Received(cfg, m, n, seeds, k));
        NextAt(cfg, m, n, seeds, h, fast, d, k);
      }
    }
  }

  lemma ZeroFaded(cfg: Config, h: nat, v: real)
    requires cfg.decay == 0.0
    ensures Faded(cfg, h + 1, v) == 0.0
  {
  }

  // ----- all hops -----

  lemma StageStep(cfg: Config, m: Csr, n: nat, seeds: Dict, h: nat, fast: Dict, d: Dict) returns (next: Dict)
    requires Stage(cfg, m, n, seeds, h, fast, d)
    ensures Usable(m, n, d) && Stage(cfg, m, n, seeds, h + 1, next, Hop(cfg, m, n, d))
  {
    hide Received, Csr.Valid, FadedFrom, FastAnswer, Hop, TwoLayer;
    if cfg.decay == 0.0 {
      ZeroStep(cfg, m, n, seeds, h, fast, d);
      next := fast;
    } else if |d| < cfg.maxActive {
      RoomStep(cfg, m, n, seeds, h, fast, d);
      next := fast;
    } else {
      next := FullStep(cfg, m, n, seeds, h, fast, d);
    }
  }

  // With a positive threshold h hops of the loop, pruned or not, are some answer
  // of the fast spread, faded h - 1 times and thresholded again.
  lemma {:induction false} PrunedHops(cfg: Config, m: Csr, n: nat, seeds: Dict, hops: nat) returns (fast: Dict)
    requires Layered(cfg, m, n, seeds) && cfg.maxActive > 0 && hops >= 1
    ensures FastAnswer(cfg, m, n, seeds, fast) && FadedFrom(cfg, hops - 1, fast, Hops(cfg, m, n, seeds, hops))
  {
    hide Received, Csr.Valid, FadedFrom, FastAnswer, Hop, TwoLayer, NewActivations;
    if hops == 1 {
      OneHopIsFastIff(cfg, m, n, seeds);
      fast := Hops(cfg, m, n, seeds, 1);
      SelfFaded(cfg, m, n, seeds, fast);
    } else {
      fast := PrunedHops(cfg, m, n, seeds, hops - 1);
      var d := Hops(cfg, m, n, seeds, hops - 1);
      fast := StageStep(cfg, m, n, seeds, hops - 2, fast, d);
    }
  }

  lemma SelfFaded(cfg: Config, m: Csr, n: nat, seeds: Dict, fast: Dict)
    requires Usable(m, n, seeds) && FastAnswer(cfg, m, n, seeds, fast)
    ensures FadedFrom(cfg, 0, fast, fast)
  {
    hide Received, Csr.Valid;
    forall k: nat
      ensures FadedAt(cfg, 0, fast, fast, k)
    {
      FastGet(cfg, m, n, seeds, fast, k);
    }
  }

  // With max_active 0 the loop holds nothing after its first hop.
  lemma {:induction false} NoneActive(cfg: Config, m: Csr, n: nat, seeds: Dict, hops: nat)
    requires Usable(m, n, seeds) && cfg.maxActive == 0 && hops >= 1
    ensures Hops(cfg, m, n, seeds, hops) == []
  {
    hide Received, Csr.Valid, Hop;
    if hops == 1 {
      OneHop(cfg, m, n, seeds);
      NothingKept(cfg, m, n, seeds);
    } else {
      NoneActive(cfg, m, n, seeds, hops - 1);
      NothingKept(cfg, m, n, []);
    }
  }
}
