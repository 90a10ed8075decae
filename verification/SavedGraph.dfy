/** Saving a graph, loading saved data with its checks, and compaction as the
    round trip it is. */
module SavedGraph {
  import opened Wrappers
  import opened Sparse
  import opened Graph

  // The saved dictionary. What a file holds need not be a matrix at all, so
  // its indices are integers and its shape is a pair of its own.
  datatype SaveData = SaveData(
    nodeToIdx: map<NodeId, nat>,
    idxToNode: seq<NodeId>,
    nodeType: seq<NodeKind>,
    nodeLabel: seq<string>,
    nodeSpecificity: seq<real>,
    adjData: seq<real>,
    adjIndices: seq<int>,
    adjIndptr: seq<int>,
    rows: nat,
    cols: nat,
    entityFreq: map<string, nat>,
    entityIndex: Index)

  datatype Corruption = BadMatrix | BadNodeType | BadIdxToNode | BadNodeLabel

  // The full check: row starts ascend from 0 to no more than what is stored,
  // and every stored column is a column.
  predicate FormatOk(d: SaveData) {
    && |d.adjIndptr| == d.rows + 1 && d.adjIndptr[0] == 0
    && |d.adjIndices| == |d.adjData|
    && (forall i, j :: 0 <= i <= j <= d.rows ==> d.adjIndptr[i] <= d.adjIndptr[j] <= |d.adjIndices|)
    && (forall k :: 0 <= k < d.adjIndptr[d.rows] ==> 0 <= d.adjIndices[k] < d.cols)
  }

  // What is stored behind the last row is dropped.
  function Matrix(d: SaveData): (m: Csr)
    requires FormatOk(d)
    ensures |m.indptr| == d.rows + 1 && |m.indices| == |m.data| == d.adjIndptr[d.rows]
  {
    var stored := d.adjIndptr[d.rows];
    Csr(seq(d.rows + 1, i requires 0 <= i <= d.rows => d.adjIndptr[i]),
        seq(stored, k requires 0 <= k < stored => d.adjIndices[k]),
        d.adjData[..stored])
  }

  // The four checks in order; the node dictionary and the specificities are
  // taken over as they are.
  function Load(d: SaveData): Result<Graph, Corruption> {
    if !FormatOk(d) then Err(BadMatrix)
    else if |d.nodeType| != d.rows then Err(BadNodeType)
    else if |d.idxToNode| != d.rows then Err(BadIdxToNode)
    else if |d.nodeLabel| != d.rows then Err(BadNodeLabel)
    else Ok(Graph(d.nodeToIdx, d.idxToNode, d.nodeType, d.nodeLabel, d.nodeSpecificity, [], map[],
                  Some(Matrix(d)), false, d.entityFreq, d.entityIndex, 0, true))
  }

  // Saving compiles first.
  function Save(g: Graph): SaveData
    requires g.Valid() && g.Shaped()
  {
    var c := Compile(g);
    var m := c.adj.value;
    SaveData(c.nodeToIdx, c.idxToNode, c.kind, c.labels, c.spec,
             m.data, m.indices, m.indptr, |m.indptr| - 1, |m.indptr| - 1, c.freq, c.index)
  }

  // The checks let through exactly the data whose matrix has a row per node
  // and columns within the saved shape; the matrix of an accepted file is one
  // that spreading can walk if and only if no stored column lies beyond the
  // nodes, which a square shape makes sure of.
  lemma LoadedUsableIff(d: SaveData)
    requires Load(d).Ok?
    ensures var g := Load(d).value;
            && (g.Shaped() <==> forall k :: 0 <= k < d.adjIndptr[d.rows] ==> d.adjIndices[k] < d.rows)
            && (d.rows == d.cols ==> g.Shaped())
  {
    var m := Matrix(d);
    assert forall k :: 0 <= k < |m.indices| ==> m.indices[k] == d.adjIndices[k];
  }

  // Two nodes, and a matrix saved as three columns wide.
  const WIDE_DATA := SaveData(
    map[ValueId("0") := 0, ValueId("1") := 1], [ValueId("0"), ValueId("1")], [ValueKind, ValueKind], ["", ""],
    [0.0, 0.0], [1.0], [2], [0, 1, 1], 2, 3, map[], map[])

  // The checks let it through, and its entry lies beyond the nodes.
  lemma WideDataIsAccepted()
    ensures Load(WIDE_DATA).Ok? && !Load(WIDE_DATA).value.Shaped()
  {
    var d := WIDE_DATA;
    assert d.adjIndptr == [0, 1, 1] && d.adjIndices == [2] && d.adjIndices[0] >= d.rows;
    assert FormatOk(d);
    LoadedUsableIff(d);
  }

  lemma MatrixOfSaved(g: Graph)
    requires g.Valid() && g.Shaped()
    ensures FormatOk(Save(g)) && Matrix(Save(g)) == Compile(g).adj.value
  {
    hide Graph.Valid, BuildCsr, Compile;
    var d, m := Save(g), Compile(g).adj.value;
    assert m.Valid(Compile(g).Size());
    forall k | 0 <= k < d.adjIndptr[d.rows]
      ensures 0 <= d.adjIndices[k] < d.cols
    {
      assert d.adjIndices[k] == m.indices[k];
    }
  }

  // Loading what was saved never raises, and gives back the nodes, the counts,
  // the index and the compiled matrix, with empty edge buffers.
  lemma SaveLoadRoundTrip(g: Graph)
    requires g.Valid() && g.Shaped()
    ensures var c := Compile(g);
            Load(Save(g)) == Ok(c.(edges := [], positions := map[], generation := 0, built := true))
  {
    MatrixOfSaved(g);
  }

  // Compaction keeps what the loaded graph holds, and the generation counter.
  lemma CompactIsReload(g: Graph)
    requires g.Valid() && g.Shaped() && g.built
    ensures Load(Save(g)).Ok?
    ensures Compact(g) == Load(Save(g)).value.(generation := g.generation + 1)
  {
    SaveLoadRoundTrip(g);
  }
}
