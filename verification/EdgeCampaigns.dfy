/** How far a campaign reaches: whose rows a write adds, exactly which rows and
    edges a rollback takes, and that no campaign's undoing touches another's. */
module EdgeCampaigns {
  import opened EdgeWriter

  // A row of the campaign, and an edge that such a row owns.
  predicate OfCampaign(p: Provenance, ref: Ref) {
    p.source.EdgeCampaign? && p.sourceRef.Some? && p.sourceRef.value == ref
  }

  predicate WrittenBy(db: Db, e: Edge, ref: Ref) {
    e.provenance.Some? && e.provenance.value in db.provenance && OfCampaign(db.provenance[e.provenance.value], ref)
  }

  // ----- one rollback -----

  // Rows of another source or reference, and edges not owned by a row that
  // goes, stay as they are; nothing else stays.
  lemma RollbackScope(db: Db, ref: Ref)
    ensures var after := Rollback(db, ref);
            && after.atoms == db.atoms && after.next == db.next
            && (forall i :: i in after.provenance <==> i in db.provenance && !OfCampaign(db.provenance[i], ref))
            && (forall i :: i in after.provenance ==> after.provenance[i] == db.provenance[i])
            && (forall i :: i in after.edges <==> i in db.edges && !WrittenBy(db, db.edges[i], ref))
            && forall i :: i in after.edges ==> after.edges[i] == db.edges[i]
  {
  }

  // So where every owned edge has its row, an edge stays exactly if it has no
  // owner or its owner's row stays.
  lemma RollbackByRow(db: Db, ref: Ref, i: Id)
    requires Referenced(db) && i in db.edges
    ensures var after, owner := Rollback(db, ref), db.edges[i].provenance;
            i in after.edges <==> owner.None? || owner.value in after.provenance
  {
    RollbackScope(db, ref);
  }

  lemma UndoTwice(db: Db, ref: Ref)
    ensures Rollback(Rollback(db, ref), ref) == Rollback(db, ref)
  {
    hide Rollback;
    var once := Rollback(db, ref);
    RollbackScope(db, ref);
    RollbackScope(once, ref);
    SameRows(Rollback(once, ref), once);
  }

  lemma SameRows(a: Db, b: Db)
    requires a.atoms == b.atoms && a.next == b.next
    requires a.provenance.Keys == b.provenance.Keys
    requires forall i :: i in a.provenance ==> a.provenance[i] == b.provenance[i]
    requires a.edges.Keys == b.edges.Keys && forall i :: i in a.edges ==> a.edges[i] == b.edges[i]
    ensures a == b
  {
    assert a.provenance == b.provenance && a.edges == b.edges;
  }

  lemma StillWritten(db: Db, ref: Ref, other: Ref)
    requires ref != other
    ensures forall e :: WrittenBy(Rollback(db, ref), e, other) <==> WrittenBy(db, e, other)
  {
    hide Rollback;
    RollbackScope(db, ref);
  }

  // Campaigns may be undone in any order.
  lemma UndoCommutes(db: Db, ref: Ref, other: Ref)
    ensures Rollback(Rollback(db, ref), other) == Rollback(Rollback(db, other), ref)
  {
    hide Rollback, WrittenBy, OfCampaign;
    if ref != other {
      var a, b := Rollback(db, ref), Rollback(db, other);
      RollbackScope(db, ref);
      RollbackScope(db, other);
      RollbackScope(a, other);
      RollbackScope(b, ref);
      StillWritten(db, ref, other);
      StillWritten(db, other, ref);
      SameRows(Rollback(a, other), Rollback(b, ref));
    }
  }

  // ----- one write -----

  // What a batch adds is the campaign's: each new edge leads from the atom of a
  // new row of its own.
  ghost predicate AddsOwned(db: Db, after: Db, ref: Ref) {
    && (forall i :: i in db.provenance ==> i in after.provenance && after.provenance[i] == db.provenance[i])
    && (forall i :: i in after.provenance && i !in db.provenance ==> OfCampaign(after.provenance[i], ref))
    && (forall i :: i in db.edges ==> i in after.edges && SameOwner(db.edges[i], after.edges[i]))
    && forall i :: i in after.edges && i !in db.edges ==> NewOwned(db, after, ref, after.edges[i])
  }

  predicate SameOwner(e: Edge, f: Edge) {
    e.(weight := f.weight) == f
  }

  predicate NewOwned(db: Db, after: Db, ref: Ref, e: Edge) {
    && WrittenBy(after, e, ref) && e.provenance.value !in db.provenance
    && after.provenance[e.provenance.value].atomId == e.src && e.kind == Relates
  }

  lemma LineOwned(db: Db, ref: Ref, line: Line)
    requires Used(db)
    ensures AddsOwned(db, ApplyLine(db, ref, line), ref)
  {
  }

  lemma AddsOwnedNext(db: Db, mid: Db, after: Db, ref: Ref)
    requires AddsOwned(db, mid, ref) && AddsOwned(mid, after, ref)
    ensures AddsOwned(db, after, ref)
  {
    forall i | i in after.edges && i !in db.edges
      ensures NewOwned(db, after, ref, after.edges[i])
    {
      if i in mid.edges { assert NewOwned(db, mid, ref, mid.edges[i]) && SameOwner(mid.edges[i], after.edges[i]); }
    }
    forall i | i in db.edges
      ensures i in after.edges && SameOwner(db.edges[i], after.edges[i])
    {
      assert SameOwner(db.edges[i], mid.edges[i]) && SameOwner(mid.edges[i], after.edges[i]);
    }
  }

  lemma {:induction false} WriteOwned(db: Db, ref: Ref, lines: seq<Line>)
    requires Unique(db) && Used(db)
    ensures AddsOwned(db, Apply(db, ref, lines), ref)
  {
    hide ApplyLine, Unique, Used, AddsOwned;
    if lines == [] {
      assert AddsOwned(db, db, ref) by { NothingAdded(db, ref); }
    } else {
      var front, last := lines[..|lines| - 1], lines[|lines| - 1];
      var mid := Apply(db, ref, front);
      WriteOwned(db, ref, front);
      ApplyKeeps(db, ref, front);
      LineOwned(mid, ref, last);
      AddsOwnedNext(db, mid, ApplyLine(mid, ref, last), ref);
    }
  }

  lemma NothingAdded(db: Db, ref: Ref)
    ensures AddsOwned(db, db, ref)
  {
  }

  // ----- runs -----

  ghost predicate Whole(db: Db) {
    Unique(db) && Used(db) && Referenced(db)
  }

  // What campaign `ref` has in db it still has in after; only weights may differ.
  ghost predicate Keeps(db: Db, after: Db, ref: Ref) {
    && (forall i :: i in db.provenance && OfCampaign(db.provenance[i], ref) ==>
          i in after.provenance && after.provenance[i] == db.provenance[i])
    && forall i :: i in db.edges && WrittenBy(db, db.edges[i], ref) ==>
         i in after.edges && WrittenBy(after, after.edges[i], ref) && SameOwner(db.edges[i], after.edges[i])
  }

  lemma StepKeeps(db: Db, op: Op, ref: Ref)
    requires Whole(db) && op != Undo(ref)
    ensures Keeps(db, Run(db, [op]), ref)
    ensures op.Undo? ==> forall i :: i in db.edges && WrittenBy(db, db.edges[i], ref) ==>
              Run(db, [op]).edges[i] == db.edges[i]
  {
    hide Unique, Used, Apply, Rollback;
    assert [op][..0] == [] && Run(db, []) == db;
    match op
    case Write(other, lines) => WriteOwned(db, other, lines);
    case Undo(other) => RollbackScope(db, other);
  }

  lemma KeepsOn(db: Db, mid: Db, after: Db, ref: Ref)
    requires Keeps(db, mid, ref) && Keeps(mid, after, ref)
    ensures Keeps(db, after, ref)
  {
    hide WrittenBy;
  }

  lemma {:induction false} RunSplit(db: Db, ops: seq<Op>, op: Op)
    ensures Run(db, ops + [op]) == Run(Run(db, ops), [op])
  {
    hide Apply, Rollback;
    assert (ops + [op])[..|ops|] == ops && [op][..0] == [];
    assert Run(Run(db, ops), []) == Run(db, ops);
  }

  // Over any run that does not undo the campaign itself, whatever else is
  // written and undone, every row and edge written under it stays.
  lemma {:induction false} OthersKeep(db: Db, ops: seq<Op>, ref: Ref)
    requires Whole(db) && Undo(ref) !in ops
    ensures Keeps(db, Run(db, ops), ref)
  {
    hide Run, Keeps, Whole;
    if ops == [] {
      assert Keeps(db, Run(db, ops), ref) by { NothingRun(db, ops, ref); }
    } else {
      var front, last := ops[..|ops| - 1], ops[|ops| - 1];
      assert ops == front + [last];
      OthersKeep(db, front, ref);
      WholeRun(db, front);
      StepKeeps(Run(db, front), last, ref);
      RunSplit(db, front, last);
      KeepsOn(db, Run(db, front), Run(db, ops), ref);
    }
  }

  lemma NothingRun(db: Db, ops: seq<Op>, ref: Ref)
    requires ops == []
    ensures Keeps(db, Run(db, ops), ref)
  {
  }

  lemma WholeRun(db: Db, ops: seq<Op>)
    requires Whole(db)
    ensures Whole(Run(db, ops))
  {
    hide Unique, Used, Referenced, Run;
    RunKeeps(db, ops);
  }

  // Undoing one campaign leaves every row and edge of another unchanged, to
  // its weight, and nothing of its own.
  lemma UndoIsScoped(db: Db, ops: seq<Op>, ref: Ref, other: Ref)
    requires Whole(db) && other != ref
    ensures var before, after := Run(db, ops), Run(db, ops + [Undo(ref)]);
            && (forall i :: i in before.provenance && OfCampaign(before.provenance[i], other) ==>
                  i in after.provenance && after.provenance[i] == before.provenance[i])
            && (forall i :: i in before.edges && WrittenBy(before, before.edges[i], other) ==>
                  i in after.edges && after.edges[i] == before.edges[i])
            && (forall i :: i in after.provenance ==> !OfCampaign(after.provenance[i], ref))
            && forall i :: i in after.edges ==> !WrittenBy(after, after.edges[i], ref)
  {
    hide Whole, Run;
    var before := Run(db, ops);
    WholeRun(db, ops);
    RunSplit(db, ops, Undo(ref));
    StepKeeps(before, Undo(ref), other);
    assert Run(before, [Undo(ref)]) == Rollback(before, ref) by { OneUndo(before, ref); }
    RollbackScope(before, ref);
  }

  lemma OneUndo(db: Db, ref: Ref)
    ensures Run(db, [Undo(ref)]) == Rollback(db, ref)
  {
    hide Rollback;
    assert [Undo(ref)][..0] == [] && Run(db, []) == db;
  }

  // A write of the row's campaign, not undone since.
  ghost predicate Traced(ops: seq<Op>, p: Provenance, k: nat) {
    && k < |ops| && ops[k].Write? && OfCampaign(p, ops[k].ref)
    && forall m :: k < m < |ops| ==> ops[m] != Undo(ops[k].ref)
  }

  // Every row a run adds comes from a write that was not undone since.
  lemma {:induction false} RowsTraced(db: Db, ops: seq<Op>, i: Id)
    requires Whole(db) && i !in db.provenance && i in Run(db, ops).provenance
    ensures exists k: nat :: Traced(ops, Run(db, ops).provenance[i], k)
  {
    hide Unique, Used, Referenced, Apply, Rollback, OfCampaign;
    if ops == [] {
    } else {
      var front, last := ops[..|ops| - 1], ops[|ops| - 1];
      var mid, n := Run(db, front), |ops| - 1;
      WholeRun(db, front);
      assert ops == front + [last];
      match last {
        case Write(ref, lines) =>
          WriteOwned(mid, ref, lines);
          if i !in mid.provenance { assert Traced(ops, Run(db, ops).provenance[i], n); }
        case Undo(ref) =>
          RollbackScope(mid, ref);
      }
      if i in mid.provenance {
        RowsTraced(db, front, i);
        var k: nat :| Traced(front, mid.provenance[i], k);
        assert ops[k] == front[k] && last != Undo(front[k].ref);
        assert Traced(ops, mid.provenance[i], k);
      }
    }
  }

  // ----- the report -----

  function HowMany(lines: seq<Line>, p: Line -> bool): nat {
    if lines == [] then 0 else HowMany(lines[..|lines| - 1], p) + if p(lines[|lines| - 1]) then 1 else 0
  }

  predicate ToKeep(line: Line) {
    line.Verdict? && line.keep
  }

  // A verdict to keep that names a missing atom, or one atom twice.
  predicate Misses(atoms: set<Id>, line: Line) {
    ToKeep(line) && (line.memId !in atoms || line.chunkId !in atoms || line.memId == line.chunkId)
  }

  // The report counts the malformed, the rejected and those that name a missing
  // atom, and every other line as written or updated.
  lemma {:induction false} ReportCounts(db: Db, ref: Ref, lines: seq<Line>, r: Report)
    requires Unique(db) && Used(db) && Tallies(r, db, ref, lines)
    ensures r.malformed == HowMany(lines, (l: Line) => l.Malformed?)
    ensures r.rejected == HowMany(lines, (l: Line) => l.Verdict? && !l.keep)
    ensures r.skippedMissingAtom == HowMany(lines, (l: Line) => Misses(db.atoms, l))
    ensures r.written + r.updated == HowMany(lines, (l: Line) => ToKeep(l) && !Misses(db.atoms, l))
    ensures r.written == |Apply(db, ref, lines).edges| - |db.edges|
  {
    hide Unique, Used, Apply;
    CountsAre(db, ref, lines);
    WrittenAreRows(db, ref, lines);
  }

  lemma {:induction false} CountsAre(db: Db, ref: Ref, lines: seq<Line>)
    ensures Count(db, ref, lines, WasMalformed) == HowMany(lines, (l: Line) => l.Malformed?)
    ensures Count(db, ref, lines, Rejected) == HowMany(lines, (l: Line) => l.Verdict? && !l.keep)
    ensures Count(db, ref, lines, SkippedMissingAtom) == HowMany(lines, (l: Line) => Misses(db.atoms, l))
    ensures Count(db, ref, lines, Written) + Count(db, ref, lines, Updated) ==
            HowMany(lines, (l: Line) => ToKeep(l) && !Misses(db.atoms, l))
    ensures Apply(db, ref, lines).atoms == db.atoms
  {
    hide Linked, Found;
    if lines == [] {
    } else {
      CountsAre(db, ref, lines[..|lines| - 1]);
    }
  }
}
