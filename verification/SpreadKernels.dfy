/** The spread loops as they run: a dense scatter-max and a dict per hop. */
module SpreadKernels {
  import opened Basics
  import opened Sparse
  import opened Spread

  // The scatter-max kernel over a dense result.
  method SpreadBipartiteRaw(cfg: Config, m: Csr, n: nat, acts: Dict) returns (result: seq<real>)
    requires Usable(m, n, acts)
    ensures |result| == n && forall i: nat :: i < n ==> result[i] == Received(cfg, m, n, acts, i)
  {
    var scores := new real[n](_ => 0.0);
    for k := 0 to |acts|
      invariant forall i: nat :: i < n ==> scores[i] == Received(cfg, m, n, acts[..k], i)
    {
      assert acts[k] in acts;
      ghost var before := scores[..];
      ScatterNode(cfg, m, n, acts[k], scores);
      assert acts[..k + 1] == acts[..k] + [acts[k]];
      forall i: nat | i < n
        ensures scores[i] == Received(cfg, m, n, acts[..k + 1], i)
      {
        ReceivedIsMaximum(cfg, m, n, acts[..k], i);
        assert before[i] == Received(cfg, m, n, acts[..k], i);
      }
    }
    assert acts[..|acts|] == acts;
    result := scores[..];
  }

  method ScatterNode(cfg: Config, m: Csr, n: nat, a: Activation, scores: array<real>)
    requires m.Valid(n) && a.node < n && scores.Length == n
    modifies scores
    ensures forall i: nat :: i < n && 0.0 <= old(scores[i]) ==>
              scores[i] == Max(old(scores[i]), Gives(cfg, m, n, a, i))
  {
    hide Decayed, Carried;
    var decayed := Decayed(cfg, a.score);
    if decayed > scores[a.node] { scores[a.node] := decayed; }
    if a.score < cfg.threshold { return; }
    ScatterRow(cfg, m, n, a, scores);
  }

  method ScatterRow(cfg: Config, m: Csr, n: nat, a: Activation, scores: array<real>)
    requires m.Valid(n) && a.node < n && scores.Length == n
    modifies scores
    ensures forall i: nat :: i < n && 0.0 <= old(scores[i]) ==>
              scores[i] == Max(old(scores[i]), RowBest(cfg, m.Row(n, a.node), a.score, i))
  {
    hide Carried;
    ghost var row := m.Row(n, a.node);
    var rowStart, rowEnd := m.indptr[a.node], m.indptr[a.node + 1];
    for j := rowStart to rowEnd
      invariant forall i: nat :: i < n && 0.0 <= old(scores[i]) ==>
                  scores[i] == Max(old(scores[i]), RowBest(cfg, row[..j - rowStart], a.score, i))
    {
      ghost var p := j - rowStart;
      assert row[..p + 1][..p] == row[..p] && row[p] == Entry(m.indices[j], m.data[j]);
      var val, nbr := Carried(cfg, a.score, m.data[j]), m.indices[j];
      if val > scores[nbr] { scores[nbr] := val; }
    }
    assert row[..rowEnd - rowStart] == row;
  }

  // The general loop, hop after hop.
  method SpreadGeneral(cfg: Config, m: Csr, n: nat, seeds: Dict, hops: nat) returns (acts: Dict)
    requires Usable(m, n, seeds)
    ensures acts == Hops(cfg, m, n, seeds, hops)
  {
    acts := seeds;
    for h := 0 to hops
      invariant (forall a :: a in acts ==> a.node < n) && acts == Hops(cfg, m, n, seeds, h)
    {
      HopInRange(cfg, m, n, acts);
      acts := SpreadOnce(cfg, m, n, acts);
    }
  }

  method SpreadOnce(cfg: Config, m: Csr, n: nat, acts: Dict) returns (next: Dict)
    requires m.Valid(n) && forall a :: a in acts ==> a.node < n
    ensures next == Hop(cfg, m, n, acts)
  {
    hide NodeStep;
    var newAct: Dict := [];
    for k := 0 to |acts|
      invariant newAct == NewActivations(cfg, m, n, acts[..k])
    {
      assert acts[k] in acts && acts[..k + 1][..k] == acts[..k];
      newAct := ActivateNode(cfg, m, n, newAct, acts[k]);
    }
    assert acts[..|acts|] == acts;
    if |newAct| > cfg.maxActive { newAct := NLargest(cfg.maxActive, newAct); }
    next := AtLeast(newAct, cfg.threshold);
  }

  method ActivateNode(cfg: Config, m: Csr, n: nat, acc: Dict, a: Activation) returns (next: Dict)
    requires m.Valid(n) && a.node < n
    ensures next == NodeStep(cfg, m, n, acc, a)
  {
    next := Upsert(acc, a.node, Max(Get(acc, a.node), Decayed(cfg, a.score)));
    if a.score < cfg.threshold { return; }
    ghost var own, row := next, m.Row(n, a.node);
    var rowStart, rowEnd := m.indptr[a.node], m.indptr[a.node + 1];
    for j := rowStart to rowEnd
      invariant next == RowStep(cfg, own, row[..j - rowStart], a.score)
    {
      ghost var p := j - rowStart;
      assert row[..p + 1][..p] == row[..p] && row[p] == Entry(m.indices[j], m.data[j]);
      next := Upsert(next, m.indices[j], Max(Get(next, m.indices[j]), Carried(cfg, a.score, m.data[j])));
    }
    assert row[..rowEnd - rowStart] == row;
  }

  // Above-threshold nodes by ascending index.
  function Above(result: seq<real>, threshold: real, i: nat): (d: Dict)
    requires i <= |result|
    ensures Distinct(d) && forall k: nat :: Has(d, k) <==> k < i && result[k] >= threshold
    ensures forall a :: a in d ==> a.node < i && a.score == result[a.node]
  {
    if i == 0 then []
    else
      var before := Above(result, threshold, i - 1);
      if result[i - 1] >= threshold then
        HasSnoc(before, Activation(i - 1, result[i - 1]));
        SnocDistinct(before, Activation(i - 1, result[i - 1]));
        before + [Activation(i - 1, result[i - 1])]
      else before
  }

  // The one-hop spread. A cut to the last maxActive entries keeps them all
  // when maxActive is 0.
  method SpreadBipartite(cfg: Config, m: Csr, n: nat, acts: Dict) returns (d: Dict)
    requires Usable(m, n, acts)
    ensures FastAnswer(cfg, m, n, acts, d)
  {
    var result := SpreadBipartiteRaw(cfg, m, n, acts);
    d := Above(result, cfg.threshold, n);
    AboveAnswer(cfg, m, n, acts, result, d);
    if |d| > cfg.maxActive > 0 { d := NLargest(cfg.maxActive, d); }
  }

  lemma AboveAnswer(cfg: Config, m: Csr, n: nat, acts: Dict, result: seq<real>, full: Dict)
    requires Usable(m, n, acts) && |result| == n && full == Above(result, cfg.threshold, n)
    requires forall i: nat :: i < n ==> result[i] == Received(cfg, m, n, acts, i)
    ensures FastAnswer(cfg, m, n, acts, if |full| > cfg.maxActive > 0 then NLargest(cfg.maxActive, full) else full)
  {
    hide Received, Above, NLargest, Csr.Valid;
    var pruned := |full| > cfg.maxActive > 0;
    var d := if pruned then NLargest(cfg.maxActive, full) else full;
    if pruned {
      NLargestBest(cfg.maxActive, full);
      NLargestMembers(cfg.maxActive, full);
      NLargestDistinct(cfg.maxActive, full);
    }
    forall a | a in full
      ensures a.score >= cfg.threshold
    {
      GetMember(full, a.node);
    }
    forall k: nat | k < n && result[k] >= cfg.threshold
      ensures KeptOrBeaten(cfg, d, k, result[k])
    {
      assert Has(full, k);
      GetMember(full, k);
      assert Activation(k, result[k]) in full;
    }
  }

  // The two paths behind one call.
  method SpreadFor(cfg: Config, m: Csr, n: nat, isBipartite: bool, acts: Dict, hops: nat) returns (d: Dict)
    requires Usable(m, n, acts)
    ensures isBipartite && hops >= 1 ==> FastAnswer(cfg, m, n, acts, d)
    ensures !isBipartite || hops == 0 ==> d == Hops(cfg, m, n, acts, hops)
  {
    if isBipartite && hops >= 1 {
      d := SpreadBipartite(cfg, m, n, acts);
    } else {
      d := SpreadGeneral(cfg, m, n, acts, hops);
    }
  }
}
