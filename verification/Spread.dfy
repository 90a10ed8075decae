/** Spreading activation over a compiled matrix: the one-hop scatter-max and
    the general multi-hop loop. Scores are reals. */
module Spread {
  import opened Basics
  import opened Sparse

  datatype Config = Config(decay: real, threshold: real, maxActive: nat) {
    // What SpreadingConfig accepts.
    predicate Valid() {
      0.0 <= decay < 1.0 && 0.0 <= threshold
    }
  }

  // A Python dict from node to score, in insertion order.
  datatype Activation = Activation(node: nat, score: real)

  type Dict = seq<Activation>

  predicate Distinct(d: Dict) {
    forall i, j :: 0 <= i < j < |d| ==> d[i].node != d[j].node
  }

  predicate Has(d: Dict, node: nat) {
    exists i :: 0 <= i < |d| && d[i].node == node
  }

  function Get(d: Dict, node: nat): real {
    if d == [] then 0.0 else if d[|d| - 1].node == node then d[|d| - 1].score else Get(d[..|d| - 1], node)
  }

  function Upsert(d: Dict, node: nat, score: real): Dict {
    if d == [] then [Activation(node, score)]
    else if d[|d| - 1].node == node then d[|d| - 1 := Activation(node, score)]
    else if Has(d[..|d| - 1], node) then Upsert(d[..|d| - 1], node, score) + [d[|d| - 1]]
    else d + [Activation(node, score)]
  }

  function Decayed(cfg: Config, score: real): real {
    score * cfg.decay
  }

  function Carried(cfg: Config, score: real, weight: real): real {
    Decayed(cfg, score) * weight
  }

  ghost predicate Usable(m: Csr, n: nat, d: Dict) {
    m.Valid(n) && Distinct(d) && forall a :: a in d ==> a.node < n
  }

  // ----- what a node receives -----

  // The largest of what a row carries to node i, and of 0.
  function RowBest(cfg: Config, row: seq<Entry>, score: real, i: nat): real {
    if row == [] then 0.0
    else
      var last := row[|row| - 1];
      var rest := RowBest(cfg, row[..|row| - 1], score, i);
      if last.col == i then Max(rest, Carried(cfg, score, last.weight)) else rest
  }

  // The largest of what one active node gives node i, and of 0.
  function Gives(cfg: Config, m: Csr, n: nat, a: Activation, i: nat): real
    requires m.Valid(n) && a.node < n
  {
    var own := if a.node == i then Max(0.0, Decayed(cfg, a.score)) else 0.0;
    if a.score < cfg.threshold then own else Max(own, RowBest(cfg, m.Row(n, a.node), a.score, i))
  }

  function Received(cfg: Config, m: Csr, n: nat, d: Dict, i: nat): real
    requires m.Valid(n) && forall a :: a in d ==> a.node < n
  {
    if d == [] then 0.0
    else Max(Received(cfg, m, n, d[..|d| - 1], i), Gives(cfg, m, n, d[|d| - 1], i))
  }

  // Some value on offer to node i: a seed's own decayed score, or an edge of
  // a seed at or above the threshold.
  ghost predicate Offered(cfg: Config, m: Csr, n: nat, d: Dict, i: nat, v: real)
    requires m.Valid(n) && forall a :: a in d ==> a.node < n
  {
    exists a :: a in d && (OwnOffer(cfg, a, i, v) || EdgeOffer(cfg, m, n, a, i, v))
  }

  predicate OwnOffer(cfg: Config, a: Activation, i: nat, v: real) {
    a.node == i && v == Decayed(cfg, a.score)
  }

  predicate EdgeOffer(cfg: Config, m: Csr, n: nat, a: Activation, i: nat, v: real)
    requires m.Valid(n) && a.node < n
  {
    a.score >= cfg.threshold && RowOffer(cfg, m.Row(n, a.node), a.score, i, v)
  }

  predicate RowOffer(cfg: Config, row: seq<Entry>, score: real, i: nat, v: real) {
    exists p :: 0 <= p < |row| && row[p].col == i && v == Carried(cfg, score, row[p].weight)
  }

  lemma {:induction false} RowBestIsMaximum(cfg: Config, row: seq<Entry>, score: real, i: nat)
    ensures var b := RowBest(cfg, row, score, i);
            && 0.0 <= b && (b == 0.0 || RowOffer(cfg, row, score, i, b))
            && forall v :: RowOffer(cfg, row, score, i, v) ==> v <= b
  {
    if row == [] {
    } else {
      var init, last := row[..|row| - 1], row[|row| - 1];
      RowBestIsMaximum(cfg, init, score, i);
      assert row == init + [last];
      forall v
        ensures RowOffer(cfg, row, score, i, v) <==>
                RowOffer(cfg, init, score, i, v) || (last.col == i && v == Carried(cfg, score, last.weight))
      {
        if RowOffer(cfg, init, score, i, v) {
          var p :| 0 <= p < |init| && init[p].col == i && v == Carried(cfg, score, init[p].weight);
          assert row[p] == init[p];
        }
        if last.col == i && v == Carried(cfg, score, last.weight) { assert row[|init|] == last; }
      }
    }
  }

  // The one-hop value of a node is the maximum over everything offered to it,
  // and over 0.
  lemma {:induction false} ReceivedIsMaximum(cfg: Config, m: Csr, n: nat, d: Dict, i: nat)
    requires m.Valid(n) && forall a :: a in d ==> a.node < n
    ensures var r := Received(cfg, m, n, d, i);
            && 0.0 <= r && (r == 0.0 || Offered(cfg, m, n, d, i, r))
            && forall v :: Offered(cfg, m, n, d, i, v) ==> v <= r
  {
    if d == [] {
    } else {
      var init, last := d[..|d| - 1], d[|d| - 1];
      assert d == init + [last];
      ReceivedIsMaximum(cfg, m, n, init, i);
      GivesIsMaximum(cfg, m, n, last, i);
      var g, r := Gives(cfg, m, n, last, i), Received(cfg, m, n, init, i);
      assert last in d;
      forall v
        ensures Offered(cfg, m, n, d, i, v) <==>
                Offered(cfg, m, n, init, i, v) || OwnOffer(cfg, last, i, v) || EdgeOffer(cfg, m, n, last, i, v)
      {
      }
    }
  }

  lemma GivesIsMaximum(cfg: Config, m: Csr, n: nat, a: Activation, i: nat)
    requires m.Valid(n) && a.node < n
    ensures var g := Gives(cfg, m, n, a, i);
            && 0.0 <= g && (g == 0.0 || OwnOffer(cfg, a, i, g) || EdgeOffer(cfg, m, n, a, i, g))
            && forall v :: OwnOffer(cfg, a, i, v) || EdgeOffer(cfg, m, n, a, i, v) ==> v <= g
  {
    RowBestIsMaximum(cfg, m.Row(n, a.node), a.score, i);
  }

  // ----- dictionaries -----

  lemma {:induction false} UpsertMeaning(d: Dict, node: nat, score: real)
    requires Distinct(d)
    ensures var r := Upsert(d, node, score);
            && Distinct(r)
            && (forall k: nat :: Get(r, k) == if k == node then score else Get(d, k))
            && (forall k: nat :: Has(r, k) <==> k == node || Has(d, k))
  {
    if d != [] {
      var init, last := d[..|d| - 1], d[|d| - 1];
      assert d == init + [last];
      HasSnoc(init, last);
      GetSnoc(init, last);
      if last.node == node {
        HasSnoc(init, Activation(node, score));
        GetSnoc(init, Activation(node, score));
        assert Upsert(d, node, score) == init + [Activation(node, score)];
      } else if Has(init, node) {
        UpsertMeaning(init, node, score);
        var r := Upsert(init, node, score);
        HasSnoc(r, last);
        GetSnoc(r, last);
        DistinctSnoc(init, last, d);
        SnocDistinct(r, last);
      } else {
        HasSnoc(d, Activation(node, score));
        GetSnoc(d, Activation(node, score));
        SnocDistinct(d, Activation(node, score));
      }
    } else {
      HasSnoc(d, Activation(node, score));
      GetSnoc(d, Activation(node, score));
      assert [] + [Activation(node, score)] == Upsert(d, node, score);
    }
  }

  lemma HasSnoc(d: Dict, a: Activation)
    ensures forall k: nat :: Has(d + [a], k) <==> k == a.node || Has(d, k)
  {
    forall k: nat
      ensures Has(d + [a], k) <==> k == a.node || Has(d, k)
    {
      if Has(d, k) { var i :| 0 <= i < |d| && d[i].node == k; assert (d + [a])[i] == d[i]; }
      assert (d + [a])[|d|] == a;
    }
  }

  lemma GetSnoc(d: Dict, a: Activation)
    ensures forall k: nat :: Get(d + [a], k) == if k == a.node then a.score else Get(d, k)
  {
    assert (d + [a])[..|d|] == d;
  }

  lemma DistinctSnoc(init: Dict, last: Activation, d: Dict)
    requires d == init + [last] && Distinct(d)
    ensures Distinct(init) && !Has(init, last.node)
  {
    forall i | 0 <= i < |init|
      ensures init[i].node != last.node
    {
      assert d[i] == init[i] && d[|init|] == last;
    }
    forall i, j | 0 <= i < j < |init|
      ensures init[i].node != init[j].node
    {
      assert d[i] == init[i] && d[j] == init[j];
    }
  }

  lemma SnocDistinct(d: Dict, a: Activation)
    requires Distinct(d) && !Has(d, a.node)
    ensures Distinct(d + [a])
  {
  }

  lemma {:induction false} GetMember(d: Dict, k: nat)
    requires Distinct(d)
    ensures Has(d, k) ==> Activation(k, Get(d, k)) in d
    ensures !Has(d, k) ==> Get(d, k) == 0.0
    ensures forall a :: a in d ==> Has(d, a.node) && Get(d, a.node) == a.score
  {
    if d == [] {
    } else {
      var init, last := d[..|d| - 1], d[|d| - 1];
      assert d == init + [last];
      DistinctSnoc(init, last, d);
      GetMember(init, k);
      HasSnoc(init, last);
      forall a | a in d
        ensures Has(d, a.node) && Get(d, a.node) == a.score
      {
        var i :| 0 <= i < |d| && d[i] == a;
        if i < |init| {
          assert init[i] == a && a in init;
        }
      }
    }
  }

  // ----- one hop of the general loop -----

  function RowStep(cfg: Config, acc: Dict, row: seq<Entry>, score: real): Dict {
    if row == [] then acc
    else
      var before := RowStep(cfg, acc, row[..|row| - 1], score);
      var last := row[|row| - 1];
      Upsert(before, last.col, Max(Get(before, last.col), Carried(cfg, score, last.weight)))
  }

  function NodeStep(cfg: Config, m: Csr, n: nat, acc: Dict, a: Activation): Dict
    requires m.Valid(n) && a.node < n
  {
    var own := Upsert(acc, a.node, Max(Get(acc, a.node), Decayed(cfg, a.score)));
    if a.score < cfg.threshold then own else RowStep(cfg, own, m.Row(n, a.node), a.score)
  }

  // The dict `new_act` after all active nodes have been handled.
  function NewActivations(cfg: Config, m: Csr, n: nat, d: Dict): Dict
    requires m.Valid(n) && forall a :: a in d ==> a.node < n
  {
    if d == [] then []
    else NodeStep(cfg, m, n, NewActivations(cfg, m, n, d[..|d| - 1]), d[|d| - 1])
  }

  // `heapq.nlargest` by score: a stable descending sort, cut to length.
  function InsertDescending(a: Activation, s: Dict): Dict {
    if s == [] || s[0].score < a.score then [a] + s else [s[0]] + InsertDescending(a, s[1..])
  }

  function SortDescending(d: Dict): Dict {
    if d == [] then [] else InsertDescending(d[|d| - 1], SortDescending(d[..|d| - 1]))
  }

  function NLargest(k: nat, d: Dict): Dict {
    var s := SortDescending(d);
    if |s| <= k then s else s[..k]
  }

  function AtLeast(d: Dict, threshold: real): Dict {
    if d == [] then []
    else AtLeast(d[..|d| - 1], threshold) + if d[|d| - 1].score >= threshold then [d[|d| - 1]] else []
  }

  function Hop(cfg: Config, m: Csr, n: nat, d: Dict): Dict
    requires m.Valid(n) && forall a :: a in d ==> a.node < n
  {
    var next := NewActivations(cfg, m, n, d);
    AtLeast(if |next| > cfg.maxActive then NLargest(cfg.maxActive, next) else next, cfg.threshold)
  }

  lemma {:induction false} RowStepMeaning(cfg: Config, n: nat, acc: Dict, row: seq<Entry>, score: real)
    requires Distinct(acc)
    ensures Distinct(RowStep(cfg, acc, row, score))
    ensures forall k: nat :: 0.0 <= Get(acc, k) ==>
              Get(RowStep(cfg, acc, row, score), k) == Max(Get(acc, k), RowBest(cfg, row, score, k))
    ensures forall k: nat :: Has(RowStep(cfg, acc, row, score), k) <==> Has(acc, k) || Targets(row, k)
  {
    if row == [] {
    } else {
      var init, last := row[..|row| - 1], row[|row| - 1];
      var before := RowStep(cfg, acc, init, score);
      RowStepMeaning(cfg, n, acc, init, score);
      UpsertMeaning(before, last.col, Max(Get(before, last.col), Carried(cfg, score, last.weight)));
      TargetsSnoc(row);
    }
  }

  predicate Targets(row: seq<Entry>, k: nat) {
    exists p :: 0 <= p < |row| && row[p].col == k
  }

  lemma TargetsSnoc(row: seq<Entry>)
    requires row != []
    ensures forall k: nat :: Targets(row, k) <==> Targets(row[..|row| - 1], k) || row[|row| - 1].col == k
  {
    forall k: nat
      ensures Targets(row, k) <==> Targets(row[..|row| - 1], k) || row[|row| - 1].col == k
    {
      if Targets(row[..|row| - 1], k) {
        var p :| 0 <= p < |row| - 1 && row[..|row| - 1][p].col == k;
        assert row[p].col == k;
      }
      if row[|row| - 1].col == k { assert Targets(row, k); }
    }
  }

  // The nodes that one hop writes to.
  ghost predicate Touches(cfg: Config, m: Csr, n: nat, d: Dict, k: nat)
    requires m.Valid(n) && forall a :: a in d ==> a.node < n
  {
    exists a :: a in d && TouchedBy(cfg, m, n, a, k)
  }

  predicate TouchedBy(cfg: Config, m: Csr, n: nat, a: Activation, k: nat)
    requires m.Valid(n) && a.node < n
  {
    a.node == k || (a.score >= cfg.threshold && Targets(m.Row(n, a.node), k))
  }

  lemma NodeStepMeaning(cfg: Config, m: Csr, n: nat, acc: Dict, a: Activation)
    requires m.Valid(n) && a.node < n && Distinct(acc)
    ensures Distinct(NodeStep(cfg, m, n, acc, a))
    ensures forall k: nat :: 0.0 <= Get(acc, k) ==>
              Get(NodeStep(cfg, m, n, acc, a), k) == Max(Get(acc, k), Gives(cfg, m, n, a, k))
    ensures forall k: nat :: Has(NodeStep(cfg, m, n, acc, a), k) <==> Has(acc, k) || TouchedBy(cfg, m, n, a, k)
  {
    hide Decayed;
    var own := Upsert(acc, a.node, Max(Get(acc, a.node), Decayed(cfg, a.score)));
    UpsertMeaning(acc, a.node, Max(Get(acc, a.node), Decayed(cfg, a.score)));
    RowStepMeaning(cfg, n, own, m.Row(n, a.node), a.score);
  }

  // The dict holds, for every node, what the scatter-max gives it.
  lemma {:induction false} NewActivationsMeaning(cfg: Config, m: Csr, n: nat, d: Dict)
    requires m.Valid(n) && forall a :: a in d ==> a.node < n
    ensures var r := NewActivations(cfg, m, n, d);
            && Distinct(r) && (forall k: nat :: Get(r, k) == Received(cfg, m, n, d, k))
            && (forall k: nat :: Has(r, k) <==> Touches(cfg, m, n, d, k))
  {
    if d == [] {
    } else {
      var init, last := d[..|d| - 1], d[|d| - 1];
      assert d == init + [last];
      NewActivationsMeaning(cfg, m, n, init);
      assert last in d;
      NodeStepMeaning(cfg, m, n, NewActivations(cfg, m, n, init), last);
      forall k: nat
        ensures 0.0 <= Received(cfg, m, n, init, k)
        ensures Touches(cfg, m, n, d, k) <==> Touches(cfg, m, n, init, k) || TouchedBy(cfg, m, n, last, k)
      {
        ReceivedIsMaximum(cfg, m, n, init, k);
      }
    }
  }

  lemma {:induction false} AtLeastMeaning(d: Dict, t: real)
    requires Distinct(d)
    ensures var r := AtLeast(d, t);
            && Distinct(r)
            && (forall k: nat :: Has(r, k) <==> Has(d, k) && Get(d, k) >= t)
            && (forall k: nat :: Has(r, k) ==> Get(r, k) == Get(d, k))
  {
    if d == [] {
    } else {
      var init, last := d[..|d| - 1], d[|d| - 1];
      assert d == init + [last];
      DistinctSnoc(init, last, d);
      AtLeastMeaning(init, t);
      HasSnoc(init, last);
      GetSnoc(init, last);
      if last.score >= t {
        HasSnoc(AtLeast(init, t), last);
        GetSnoc(AtLeast(init, t), last);
        SnocDistinct(AtLeast(init, t), last);
      } else {
        assert AtLeast(d, t) == AtLeast(init, t);
      }
    }
  }

  // ----- what the fast spread may answer -----

  // A node that reaches the threshold is in the answer, or the answer is full
  // of nodes scoring no less.
  predicate KeptOrBeaten(cfg: Config, d: Dict, k: nat, v: real) {
    v >= cfg.threshold ==>
      Activation(k, v) in d || (|d| == cfg.maxActive > 0 && forall a :: a in d ==> a.score >= v)
  }

  // Whichever of several equal scores a partition drops: one-hop values at or
  // above the threshold, cut to the maxActive best unless maxActive is 0.
  ghost predicate FastAnswer(cfg: Config, m: Csr, n: nat, seeds: Dict, d: Dict)
    requires m.Valid(n) && forall a :: a in seeds ==> a.node < n
  {
    && Distinct(d)
    && (forall a :: a in d ==> a.node < n && a.score == Received(cfg, m, n, seeds, a.node) >= cfg.threshold)
    && (cfg.maxActive > 0 ==> |d| <= cfg.maxActive)
    && (forall k: nat :: k < n ==> KeptOrBeaten(cfg, d, k, Received(cfg, m, n, seeds, k)))
  }

  // ----- any number of hops -----

  function Hops(cfg: Config, m: Csr, n: nat, d: Dict, hops: nat): (r: Dict)
    requires m.Valid(n) && forall a :: a in d ==> a.node < n
    ensures forall a :: a in r ==> a.node < n
  {
    if hops == 0 then d
    else
      var before := Hops(cfg, m, n, d, hops - 1);
      HopInRange(cfg, m, n, before);
      Hop(cfg, m, n, before)
  }

  lemma {:induction false} InsertMembers(a: Activation, s: Dict)
    ensures multiset(InsertDescending(a, s)) == multiset(s) + multiset{a}
  {
    if s == [] || s[0].score < a.score {
    } else {
      InsertMembers(a, s[1..]);
      assert s == [s[0]] + s[1..];
    }
  }

  lemma {:induction false} SortMembers(d: Dict)
    ensures multiset(SortDescending(d)) == multiset(d)
  {
    if d == [] {
    } else {
      SortMembers(d[..|d| - 1]);
      InsertMembers(d[|d| - 1], SortDescending(d[..|d| - 1]));
      assert d == d[..|d| - 1] + [d[|d| - 1]];
    }
  }

  lemma NLargestMembers(k: nat, d: Dict)
    ensures forall a :: a in NLargest(k, d) ==> a in d
  {
    SortMembers(d);
    forall a | a in NLargest(k, d)
      ensures a in d
    {
      assert a in SortDescending(d) && a in multiset(SortDescending(d));
      assert a in multiset(d);
    }
  }

  lemma {:induction false} AtLeastMembers(d: Dict, t: real)
    ensures forall a :: a in AtLeast(d, t) ==> a in d
  {
    if d == [] {
    } else {
      AtLeastMembers(d[..|d| - 1], t);
    }
  }

  lemma {:induction false} InsertSorted(a: Activation, s: Dict)
    requires forall i, j :: 0 <= i < j < |s| ==> s[i].score >= s[j].score
    ensures var r := InsertDescending(a, s);
            && (forall i, j :: 0 <= i < j < |r| ==> r[i].score >= r[j].score)
            && |r| == |s| + 1
            && (forall i :: 0 <= i < |r| ==> r[i] == a || r[i] in s)
  {
    if s == [] || s[0].score < a.score {
    } else {
      InsertSorted(a, s[1..]);
      assert forall i :: 1 <= i < |s| ==> s[i] == s[1..][i - 1];
    }
  }

  lemma {:induction false} SortSorted(d: Dict)
    ensures var r := SortDescending(d);
            && |r| == |d| && forall i, j :: 0 <= i < j < |r| ==> r[i].score >= r[j].score
  {
    if d == [] {
    } else {
      SortSorted(d[..|d| - 1]);
      InsertSorted(d[|d| - 1], SortDescending(d[..|d| - 1]));
    }
  }

  lemma NLargestBest(k: nat, d: Dict)
    requires |d| > k
    ensures |NLargest(k, d)| == k
    ensures forall a, b :: a in NLargest(k, d) && b in d && b !in NLargest(k, d) ==> a.score >= b.score
  {
    SortSorted(d);
    SortMembers(d);
    var s := SortDescending(d);
    assert forall j :: 0 <= j < k ==> s[j] == s[..k][j];
    forall a, b | a in NLargest(k, d) && b in d && b !in NLargest(k, d)
      ensures a.score >= b.score
    {
      assert b in multiset(d) && b in multiset(s);
      var i :| 0 <= i < k && s[i] == a;
      var j :| 0 <= j < |s| && s[j] == b;
    }
  }

  lemma {:induction false} InsertDistinct(a: Activation, s: Dict)
    requires Distinct(s) && !Has(s, a.node)
    ensures Distinct(InsertDescending(a, s))
    ensures forall k: nat :: Has(InsertDescending(a, s), k) <==> k == a.node || Has(s, k)
  {
    if s == [] || s[0].score < a.score {
      ConsDistinct(a, s);
    } else {
      var rest := s[1..];
      assert s == [s[0]] + rest;
      DistinctTail(s);
      InsertDistinct(a, rest);
      ConsDistinct(s[0], InsertDescending(a, rest));
      ConsDistinct(s[0], rest);
    }
  }

  lemma ConsDistinct(a: Activation, s: Dict)
    ensures forall k: nat :: Has([a] + s, k) <==> k == a.node || Has(s, k)
    ensures Distinct(s) && !Has(s, a.node) ==> Distinct([a] + s)
  {
    forall k: nat
      ensures Has([a] + s, k) <==> k == a.node || Has(s, k)
    {
      assert ([a] + s)[0] == a;
      if Has(s, k) {
        var i :| 0 <= i < |s| && s[i].node == k;
        assert ([a] + s)[i + 1] == s[i];
      }
    }
  }

  lemma DistinctTail(s: Dict)
    requires s != [] && Distinct(s)
    ensures Distinct(s[1..]) && !Has(s[1..], s[0].node)
  {
    forall i, j | 0 <= i < j < |s| - 1
      ensures s[1..][i].node != s[1..][j].node
    {
      assert s[1..][i] == s[i + 1] && s[1..][j] == s[j + 1];
    }
  }

  lemma {:induction false} SortDistinct(d: Dict)
    requires Distinct(d)
    ensures Distinct(SortDescending(d))
    ensures forall k: nat :: Has(SortDescending(d), k) <==> Has(d, k)
  {
    if d == [] {
    } else {
      var init, last := d[..|d| - 1], d[|d| - 1];
      assert d == init + [last];
      DistinctSnoc(init, last, d);
      SortDistinct(init);
      InsertDistinct(last, SortDescending(init));
      HasSnoc(init, last);
    }
  }

  lemma NLargestDistinct(k: nat, d: Dict)
    requires Distinct(d)
    ensures Distinct(NLargest(k, d))
  {
    SortDistinct(d);
  }

  lemma HopInRange(cfg: Config, m: Csr, n: nat, d: Dict)
    requires m.Valid(n) && forall a :: a in d ==> a.node < n
    ensures forall a :: a in Hop(cfg, m, n, d) ==> a.node < n
  {
    NewActivationsMeaning(cfg, m, n, d);
    var next := NewActivations(cfg, m, n, d);
    NLargestMembers(cfg.maxActive, next);
    AtLeastMembers(if |next| > cfg.maxActive then NLargest(cfg.maxActive, next) else next, cfg.threshold);
    forall a | a in next
      ensures a.node < n
    {
      GetMember(next, a.node);
      TouchesInRange(cfg, m, n, d, a.node);
    }
  }

  lemma TouchesInRange(cfg: Config, m: Csr, n: nat, d: Dict, k: nat)
    requires m.Valid(n) && (forall a :: a in d ==> a.node < n) && Touches(cfg, m, n, d, k)
    ensures k < n
  {
    var a :| a in d && TouchedBy(cfg, m, n, a, k);
    if a.node != k {
      var row := m.Row(n, a.node);
      var p :| 0 <= p < |row| && row[p].col == k;
      assert row[p].col == m.indices[m.indptr[a.node] + p];
    }
  }
}
