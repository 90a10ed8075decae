/** Coordinate edge lists and the compressed sparse rows compiled from them.
    Duplicate coordinates are summed and the columns of a row ascend, as in
    scipy's conversion. */
module Sparse {
  datatype Edge = Edge(src: nat, dst: nat, weight: real)

  datatype Entry = Entry(col: nat, weight: real)

  datatype Csr = Csr(indptr: seq<nat>, indices: seq<nat>, data: seq<real>) {
    predicate Valid(n: nat) {
      && |indptr| == n + 1 && indptr[0] == 0 && indptr[n] == |indices|
      && |indices| == |data|
      && (forall i, j :: 0 <= i <= j <= n ==> indptr[i] <= indptr[j] <= |indices|)
      && (forall k :: 0 <= k < |indices| ==> indices[k] < n)
    }

    // The entries stored between indptr[i] and indptr[i + 1].
    function Row(n: nat, i: nat): seq<Entry>
      requires Valid(n) && i < n
    {
      seq(indptr[i + 1] - indptr[i],
          k requires 0 <= k < indptr[i + 1] - indptr[i] => Entry(indices[indptr[i] + k], data[indptr[i] + k]))
    }
  }

  predicate InRange(es: seq<Edge>, n: nat) {
    forall e :: e in es ==> e.src < n && e.dst < n
  }

  predicate Joined(es: seq<Edge>, i: nat, j: nat) {
    exists p :: 0 <= p < |es| && es[p].src == i && es[p].dst == j
  }

  function Total(es: seq<Edge>, i: nat, j: nat): real {
    if es == [] then 0.0
    else
      var last := es[|es| - 1];
      Total(es[..|es| - 1], i, j) + if last.src == i && last.dst == j then last.weight else 0.0
  }

  // Row i of the matrix, columns below j.
  function RowOf(es: seq<Edge>, i: nat, j: nat): seq<Entry> {
    if j == 0 then []
    else RowOf(es, i, j - 1) + if Joined(es, i, j - 1) then [Entry(j - 1, Total(es, i, j - 1))] else []
  }

  // The first i rows of an n-column matrix, one after the other.
  function RowsOf(es: seq<Edge>, n: nat, i: nat): seq<Entry> {
    if i == 0 then [] else RowsOf(es, n, i - 1) + RowOf(es, i - 1, n)
  }

  function BuildCsr(n: nat, es: seq<Edge>): (m: Csr)
    ensures m.Valid(n)
  {
    RowsMonotone(n, es);
    RowsColumns(es, n, n);
    var entries := RowsOf(es, n, n);
    Csr(seq(n + 1, i requires 0 <= i <= n => |RowsOf(es, n, i)|),
        seq(|entries|, k requires 0 <= k < |entries| => entries[k].col),
        seq(|entries|, k requires 0 <= k < |entries| => entries[k].weight))
  }

  function RowEdges(i: nat, row: seq<Entry>): seq<Edge> {
    seq(|row|, k requires 0 <= k < |row| => Edge(i, row[k].col, row[k].weight))
  }

  // The edges of the first i rows, as `tocoo` lists them.
  function ToCoo(m: Csr, n: nat, i: nat): seq<Edge>
    requires m.Valid(n) && i <= n
  {
    if i == 0 then [] else ToCoo(m, n, i - 1) + RowEdges(i - 1, m.Row(n, i - 1))
  }

  lemma {:induction false} RowColumns(es: seq<Edge>, i: nat, j: nat)
    ensures forall k :: 0 <= k < |RowOf(es, i, j)| ==>
              var e := RowOf(es, i, j)[k];
              e.col < j && Joined(es, i, e.col) && e.weight == Total(es, i, e.col)
    ensures forall c: nat :: c < j && Joined(es, i, c) ==> Entry(c, Total(es, i, c)) in RowOf(es, i, j)
    ensures forall k, l :: 0 <= k < l < |RowOf(es, i, j)| ==> RowOf(es, i, j)[k].col < RowOf(es, i, j)[l].col
  {
    if j == 0 {
    } else {
      RowColumns(es, i, j - 1);
    }
  }

  lemma {:induction false} RowsPrefix(es: seq<Edge>, n: nat, i: nat, k: nat)
    requires i <= k
    ensures RowsOf(es, n, i) <= RowsOf(es, n, k)
  {
    if i == k {
    } else {
      RowsPrefix(es, n, i, k - 1);
    }
  }

  lemma {:induction false} RowsColumns(es: seq<Edge>, n: nat, i: nat)
    ensures forall k :: 0 <= k < |RowsOf(es, n, i)| ==> RowsOf(es, n, i)[k].col < n
  {
    if i == 0 {
    } else {
      RowsColumns(es, n, i - 1);
      RowColumns(es, i - 1, n);
    }
  }

  lemma RowsMonotone(n: nat, es: seq<Edge>)
    ensures forall i: nat, j: nat :: i <= j <= n ==> |RowsOf(es, n, i)| <= |RowsOf(es, n, j)| <= |RowsOf(es, n, n)|
  {
    forall i: nat, j: nat | i <= j <= n
      ensures |RowsOf(es, n, i)| <= |RowsOf(es, n, j)| <= |RowsOf(es, n, n)|
    {
      RowsPrefix(es, n, i, j);
      RowsPrefix(es, n, j, n);
    }
  }

  lemma RowStart(n: nat, es: seq<Edge>, i: nat)
    requires i < n
    ensures RowsOf(es, n, i) + RowOf(es, i, n) <= RowsOf(es, n, n)
  {
    RowsPrefix(es, n, i + 1, n);
    assert RowsOf(es, n, i + 1) == RowsOf(es, n, i) + RowOf(es, i, n);
  }

  lemma RowSlice(n: nat, es: seq<Edge>, i: nat)
    requires i < n
    ensures |RowsOf(es, n, i)| <= |RowsOf(es, n, i + 1)| <= |RowsOf(es, n, n)|
    ensures BuildCsr(n, es).Row(n, i) == RowsOf(es, n, n)[|RowsOf(es, n, i)|..|RowsOf(es, n, i + 1)|]
  {
    hide RowsOf;
    RowsMonotone(n, es);
  }

  // The compiled matrix has one row per node, and row i holds exactly the
  // summed weights of the edges leaving node i, by ascending column.
  lemma BuildCsrRow(n: nat, es: seq<Edge>, i: nat)
    requires i < n
    ensures BuildCsr(n, es).Row(n, i) == RowOf(es, i, n)
  {
    RowStart(n, es, i);
    RowSlice(n, es, i);
    hide BuildCsr, Csr.Row, RowOf;
    var all, before, row := RowsOf(es, n, n), RowsOf(es, n, i), RowOf(es, i, n);
    assert RowsOf(es, n, i + 1) == before + row;
    assert (before + row)[|before|..] == row;
    assert all[..|before + row|] == before + row;
  }

  lemma {:induction false} RowCongruence(es: seq<Edge>, fs: seq<Edge>, i: nat, j: nat)
    requires forall c: nat :: c < j ==> (Joined(es, i, c) <==> Joined(fs, i, c)) && Total(es, i, c) == Total(fs, i, c)
    ensures RowOf(es, i, j) == RowOf(fs, i, j)
  {
    if j == 0 {
    } else {
      RowCongruence(es, fs, i, j - 1);
    }
  }

  lemma {:induction false} RowsCongruence(es: seq<Edge>, fs: seq<Edge>, n: nat, i: nat)
    requires i <= n
    requires forall r: nat, c: nat :: r < n && c < n ==>
               (Joined(es, r, c) <==> Joined(fs, r, c)) && Total(es, r, c) == Total(fs, r, c)
    ensures RowsOf(es, n, i) == RowsOf(fs, n, i)
  {
    if i == 0 {
    } else {
      RowsCongruence(es, fs, n, i - 1);
      RowCongruence(es, fs, i - 1, n);
    }
  }

  // The matrix depends on the edges only through which pairs are joined and
  // the total weight of each pair.
  lemma MatrixCongruence(es: seq<Edge>, fs: seq<Edge>, n: nat)
    requires forall r: nat, c: nat :: r < n && c < n ==>
               (Joined(es, r, c) <==> Joined(fs, r, c)) && Total(es, r, c) == Total(fs, r, c)
    ensures BuildCsr(n, es) == BuildCsr(n, fs)
  {
    forall i: nat | i <= n
      ensures RowsOf(es, n, i) == RowsOf(fs, n, i)
    {
      RowsCongruence(es, fs, n, i);
    }
  }

  predicate Simple(es: seq<Edge>) {
    forall p, q :: 0 <= p < q < |es| ==> es[p].src != es[q].src || es[p].dst != es[q].dst
  }

  lemma {:induction false} SimpleTotal(es: seq<Edge>, i: nat, j: nat)
    requires Simple(es)
    ensures !Joined(es, i, j) ==> Total(es, i, j) == 0.0
    ensures forall p :: 0 <= p < |es| && es[p].src == i && es[p].dst == j ==> Total(es, i, j) == es[p].weight
  {
    if es == [] {
    } else {
      var init := es[..|es| - 1];
      SimpleTotal(init, i, j);
      assert Joined(init, i, j) ==> Joined(es, i, j) by {
        if Joined(init, i, j) {
          var p :| 0 <= p < |init| && init[p].src == i && init[p].dst == j;
          assert es[p] == init[p];
        }
      }
      assert es[|es| - 1].src == i && es[|es| - 1].dst == j ==> Joined(es, i, j) && !Joined(init, i, j);
    }
  }

  lemma {:induction false} CooShape(n: nat, es: seq<Edge>, i: nat)
    requires i <= n
    ensures forall e :: e in ToCoo(BuildCsr(n, es), n, i) ==>
              e.src < i && e.dst < n && Joined(es, e.src, e.dst) && e.weight == Total(es, e.src, e.dst)
    ensures forall r: nat, c: nat :: r < i && c < n && Joined(es, r, c) ==>
              Edge(r, c, Total(es, r, c)) in ToCoo(BuildCsr(n, es), n, i)
    ensures Simple(ToCoo(BuildCsr(n, es), n, i))
  {
    if i == 0 {
    } else {
      CooShape(n, es, i - 1);
      BuildCsrRow(n, es, i - 1);
      RowColumns(es, i - 1, n);
      var row := RowOf(es, i - 1, n);
      RowEdgesShape(es, i - 1, n, row);
      SimpleConcat(ToCoo(BuildCsr(n, es), n, i - 1), RowEdges(i - 1, row), i - 1);
    }
  }

  lemma RowEdgesShape(es: seq<Edge>, i: nat, n: nat, row: seq<Entry>)
    requires row == RowOf(es, i, n)
    ensures forall e :: e in RowEdges(i, row) ==>
              e.src == i && e.dst < n && Joined(es, i, e.dst) && e.weight == Total(es, i, e.dst)
    ensures forall c: nat :: c < n && Joined(es, i, c) ==> Edge(i, c, Total(es, i, c)) in RowEdges(i, row)
    ensures Simple(RowEdges(i, row))
  {
    RowColumns(es, i, n);
    forall c: nat | c < n && Joined(es, i, c)
      ensures Edge(i, c, Total(es, i, c)) in RowEdges(i, row)
    {
      var k :| 0 <= k < |row| && row[k] == Entry(c, Total(es, i, c));
      assert RowEdges(i, row)[k] == Edge(i, c, Total(es, i, c));
    }
  }

  lemma SimpleConcat(a: seq<Edge>, b: seq<Edge>, i: nat)
    requires Simple(a) && Simple(b)
    requires (forall e :: e in a ==> e.src < i) && (forall e :: e in b ==> e.src == i)
    ensures Simple(a + b)
  {
    forall p, q | 0 <= p < q < |a + b|
      ensures (a + b)[p].src != (a + b)[q].src || (a + b)[p].dst != (a + b)[q].dst
    {
      if p < |a| <= q { assert a[p] in a && b[q - |a|] in b; }
    }
  }

  // Listing a compiled matrix as edges and compiling again gives it back,
  // and the listing names each pair once.
  lemma CooRoundTrip(n: nat, es: seq<Edge>)
    requires InRange(es, n)
    ensures BuildCsr(n, ToCoo(BuildCsr(n, es), n, n)) == BuildCsr(n, es)
    ensures Simple(ToCoo(BuildCsr(n, es), n, n)) && InRange(ToCoo(BuildCsr(n, es), n, n), n)
    ensures forall i: nat, j: nat :: Joined(ToCoo(BuildCsr(n, es), n, n), i, j) <==> Joined(es, i, j)
  {
    CooShape(n, es, n);
    var coo := ToCoo(BuildCsr(n, es), n, n);
    forall i: nat, j: nat
      ensures Joined(coo, i, j) <==> Joined(es, i, j)
      ensures i < n && j < n ==> Total(coo, i, j) == Total(es, i, j)
    {
      SimpleTotal(coo, i, j);
      if Joined(es, i, j) {
        var e := Edge(i, j, Total(es, i, j));
        var p :| 0 <= p < |es| && es[p].src == i && es[p].dst == j;
        assert es[p] in es;
        var q :| 0 <= q < |coo| && coo[q] == e;
      } else {
        NotJoinedTotal(es, i, j);
      }
      if Joined(coo, i, j) {
        var p :| 0 <= p < |coo| && coo[p].src == i && coo[p].dst == j;
        assert coo[p] in coo;
      }
    }
    MatrixCongruence(coo, es, n);
  }

  lemma {:induction false} NotJoinedTotal(es: seq<Edge>, i: nat, j: nat)
    requires !Joined(es, i, j)
    ensures Total(es, i, j) == 0.0
  {
    if es == [] {
    } else {
      assert forall p :: 0 <= p < |es| ==> es[p].src != i || es[p].dst != j;
      NotJoinedTotal(es[..|es| - 1], i, j);
    }
  }

  ghost predicate Repeats(es: seq<Edge>, i: nat, j: nat) {
    exists p, q :: 0 <= p < q < |es| && es[p].src == i == es[q].src && es[p].dst == j == es[q].dst
  }

  lemma {:induction false} CooTotal(n: nat, es: seq<Edge>, i: nat, j: nat)
    requires InRange(es, n)
    ensures var coo := ToCoo(BuildCsr(n, es), n, n);
            && Total(coo, i, j) == Total(es, i, j) && (Joined(coo, i, j) <==> Joined(es, i, j)) && !Repeats(coo, i, j)
  {
    var coo := ToCoo(BuildCsr(n, es), n, n);
    CooRoundTrip(n, es);
    CooShape(n, es, n);
    SimpleTotal(coo, i, j);
    if Joined(es, i, j) {
      var e := Edge(i, j, Total(es, i, j));
      assert e in coo;
    } else {
      NotJoinedTotal(es, i, j);
    }
  }
}
