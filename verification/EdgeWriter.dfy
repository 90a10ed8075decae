/** Campaigns of relates edges: verdicts in, owned edges out, scoped rollback. */
module EdgeWriter {
  import opened Basics
  import opened Wrappers

  type Id = nat

  type Ref = nat

  datatype EdgeType = Relates | Other

  datatype Source = EdgeCampaign | Elsewhere

  datatype Edge = Edge(src: Id, dst: Id, kind: EdgeType, weight: real, provenance: Option<Id>)

  datatype Provenance = Provenance(atomId: Id, source: Source, sourceRef: Option<Ref>)

  // A verdict line, or one that lacks a field or has one of the wrong type.
  datatype Line = Verdict(memId: Id, chunkId: Id, keep: bool, confidence: real) | Malformed

  // The tables by row id, and the next fresh id.
  datatype Db = Db(atoms: set<Id>, edges: map<Id, Edge>, provenance: map<Id, Provenance>, next: Id)

  datatype Report = Report(written: nat, updated: nat, rejected: nat, skippedMissingAtom: nat, malformed: nat) {
    function Total(): nat {
      written + updated + rejected + skippedMissingAtom + malformed
    }
  }

  // ----- one line -----

  predicate Links(e: Edge, src: Id, dst: Id) {
    e.kind == Relates && e.src == src && e.dst == dst
  }

  predicate Linked(edges: map<Id, Edge>, src: Id, dst: Id) {
    exists i :: i in edges && Links(edges[i], src, dst)
  }

  // A verdict to keep, between two different atoms that exist.
  predicate Accepted(atoms: set<Id>, line: Line) {
    line.Verdict? && line.keep && line.memId in atoms && line.chunkId in atoms && line.memId != line.chunkId
  }

  // The row the lookup returns: the first in id order.
  predicate IsFound(edges: map<Id, Edge>, src: Id, dst: Id, i: Id) {
    i in edges && Links(edges[i], src, dst) && forall j :: j in edges && Links(edges[j], src, dst) ==> i <= j
  }

  lemma {:induction false} SomeFound(edges: map<Id, Edge>, src: Id, dst: Id, i: Id)
    requires i in edges && Links(edges[i], src, dst)
    ensures exists f :: f in edges && IsFound(edges, src, dst, f)
  {
    if j :| j in edges && Links(edges[j], src, dst) && j < i {
      SomeFound(edges, src, dst, j);
    } else {
      assert IsFound(edges, src, dst, i);
    }
  }

  function Found(edges: map<Id, Edge>, src: Id, dst: Id): (i: Id)
    requires Linked(edges, src, dst)
    ensures IsFound(edges, src, dst, i)
  {
    assert exists f :: f in edges && IsFound(edges, src, dst, f) by {
      var i :| i in edges && Links(edges[i], src, dst);
      SomeFound(edges, src, dst, i);
    }
    var f :| f in edges && IsFound(edges, src, dst, f);
    f
  }

  function ApplyLine(db: Db, ref: Ref, line: Line): Db {
    if !Accepted(db.atoms, line) then db
    else if Linked(db.edges, line.chunkId, line.memId) then
      var i := Found(db.edges, line.chunkId, line.memId);
      db.(edges := db.edges[i := db.edges[i].(weight := line.confidence)])
    else
      var edge := Edge(line.chunkId, line.memId, Relates, line.confidence, Some(db.next));
      Db(db.atoms, db.edges[db.next + 1 := edge],
         db.provenance[db.next := Provenance(line.chunkId, EdgeCampaign, Some(ref))], db.next + 2)
  }

  function Apply(db: Db, ref: Ref, lines: seq<Line>): Db {
    if lines == [] then db else ApplyLine(Apply(db, ref, lines[..|lines| - 1]), ref, lines[|lines| - 1])
  }

  // ----- uniqueness -----

  ghost predicate Unique(db: Db) {
    forall i, j ::
      i in db.edges && j in db.edges && db.edges[i].kind == Relates && db.edges[j].kind == Relates && i != j ==>
      db.edges[i].src != db.edges[j].src || db.edges[i].dst != db.edges[j].dst
  }

  // Every id in use is below the next fresh one.
  ghost predicate Used(db: Db) {
    && (forall i :: i in db.edges ==>
          i < db.next && (db.edges[i].provenance.Some? ==> db.edges[i].provenance.value < db.next))
    && (forall i :: i in db.provenance ==> i < db.next)
  }

  lemma {:induction false} LineKeeps(db: Db, ref: Ref, line: Line)
    requires Unique(db) && Used(db)
    ensures Unique(ApplyLine(db, ref, line)) && Used(ApplyLine(db, ref, line))
  {
  }

  lemma {:induction false} ApplyKeeps(db: Db, ref: Ref, lines: seq<Line>)
    requires Unique(db) && Used(db)
    ensures Unique(Apply(db, ref, lines)) && Used(Apply(db, ref, lines))
  {
    hide Unique, Used, ApplyLine;
    if lines == [] {
    } else {
      ApplyKeeps(db, ref, lines[..|lines| - 1]);
      LineKeeps(Apply(db, ref, lines[..|lines| - 1]), ref, lines[|lines| - 1]);
    }
  }

  // ----- rollback -----

  predicate Owned(p: Provenance, ref: Ref) {
    p.source == EdgeCampaign && p.sourceRef == Some(ref)
  }

  function OwnedIds(db: Db, ref: Ref): (r: set<Id>)
    ensures forall i :: i in r <==> i in db.provenance && Owned(db.provenance[i], ref)
  {
    set i | i in db.provenance && Owned(db.provenance[i], ref)
  }

  predicate EdgeOwned(e: Edge, ids: set<Id>) {
    e.provenance.Some? && e.provenance.value in ids
  }

  function Rollback(db: Db, ref: Ref): Db {
    var ids := OwnedIds(db, ref);
    Db(db.atoms, map i | i in db.edges && !EdgeOwned(db.edges[i], ids) :: db.edges[i], db.provenance - ids, db.next)
  }

  lemma {:induction false} RollbackKeeps(db: Db, ref: Ref)
    requires Unique(db) && Used(db)
    ensures Unique(Rollback(db, ref)) && Used(Rollback(db, ref))
  {
  }

  // Every edge's provenance row exists.
  ghost predicate Referenced(db: Db) {
    forall i :: i in db.edges && db.edges[i].provenance.Some? ==> db.edges[i].provenance.value in db.provenance
  }

  lemma {:induction false} ReferencesKept(db: Db, ref: Ref, lines: seq<Line>)
    requires Referenced(db)
    ensures Referenced(Apply(db, ref, lines)) && Referenced(Rollback(db, ref))
  {
    if lines == [] {
    } else {
      hide Linked, Found, Accepted;
      ReferencesKept(db, ref, lines[..|lines| - 1]);
    }
  }

  // ----- runs of campaigns -----

  datatype Op = Write(ref: Ref, lines: seq<Line>) | Undo(ref: Ref)

  function Run(db: Db, ops: seq<Op>): Db {
    if ops == [] then db
    else
      var before := Run(db, ops[..|ops| - 1]);
      match ops[|ops| - 1]
      case Write(ref, lines) => Apply(before, ref, lines)
      case Undo(ref) => Rollback(before, ref)
  }

  // Over any run relates edges stay unique per pair, and no edge outlives the
  // provenance row that owns it.
  lemma {:induction false} RunKeeps(db: Db, ops: seq<Op>)
    requires Unique(db) && Used(db) && Referenced(db)
    ensures Unique(Run(db, ops)) && Used(Run(db, ops)) && Referenced(Run(db, ops))
  {
    hide Unique, Used, Rollback, Apply, Referenced;
    if ops == [] {
    } else {
      var before := Run(db, ops[..|ops| - 1]);
      RunKeeps(db, ops[..|ops| - 1]);
      match ops[|ops| - 1]
      case Write(ref, lines) =>
        ApplyKeeps(before, ref, lines);
        ReferencesKept(before, ref, lines);
      case Undo(ref) =>
        RollbackKeeps(before, ref);
        ReferencesKept(before, ref, []);
    }
  }

  // ----- what a batch leaves -----

  // The last accepted confidence for a pair.
  function LastWeight(atoms: set<Id>, lines: seq<Line>, src: Id, dst: Id): Option<real> {
    if lines == [] then None
    else
      var line := lines[|lines| - 1];
      if Accepted(atoms, line) && line.chunkId == src && line.memId == dst then Some(line.confidence)
      else LastWeight(atoms, lines[..|lines| - 1], src, dst)
  }

  ghost predicate Fits(db: Db, after: Db, lines: seq<Line>, i: Id)
    requires i in after.edges
  {
    var e := after.edges[i];
    var w := if e.kind == Relates then LastWeight(db.atoms, lines, e.src, e.dst) else None;
    if w.Some? then e.weight == w.value && (i in db.edges ==> e == db.edges[i].(weight := w.value))
    else i in db.edges && e == db.edges[i]
  }

  // Rows below the old next id are the old rows; the rest are the batch's own.
  ghost predicate Grown(db: Db, after: Db, ref: Ref) {
    && after.atoms == db.atoms && db.next <= after.next
    && (forall i :: i in db.edges ==> i in after.edges)
    && (forall i :: i in after.edges && i !in db.edges ==>
         after.edges[i].provenance.Some? && after.edges[i].provenance.value >= db.next
         && after.edges[i].provenance.value in after.provenance)
    && (forall i :: i in db.provenance ==> i in after.provenance && after.provenance[i] == db.provenance[i])
    && (forall i :: i in after.provenance && i !in db.provenance ==> Owned(after.provenance[i], ref) && i >= db.next)
  }

  ghost predicate Settled(db: Db, after: Db, lines: seq<Line>) {
    && (forall i :: i in after.edges ==> Fits(db, after, lines, i))
    && (forall s, d :: LastWeight(db.atoms, lines, s, d).Some? ==> Linked(after.edges, s, d))
  }

  lemma {:induction false} GrownNext(db: Db, mid: Db, ref: Ref, line: Line)
    requires Used(db) && Used(mid) && Grown(db, mid, ref)
    ensures Grown(db, ApplyLine(mid, ref, line), ref)
  {
  }

  lemma {:induction false} FitsNext(db: Db, mid: Db, ref: Ref, lines: seq<Line>, line: Line, i: Id)
    requires Unique(mid) && Used(db) && Used(mid) && mid.atoms == db.atoms && db.next <= mid.next
    requires Settled(db, mid, lines) && i in ApplyLine(mid, ref, line).edges
    ensures Fits(db, ApplyLine(mid, ref, line), lines + [line], i)
  {
    assert (lines + [line])[..|lines|] == lines;
  }

  lemma {:induction false} LinkedNext(mid: Db, ref: Ref, line: Line, src: Id, dst: Id)
    requires Used(mid)
    requires Linked(mid.edges, src, dst) || (Accepted(mid.atoms, line) && line.chunkId == src && line.memId == dst)
    ensures Linked(ApplyLine(mid, ref, line).edges, src, dst)
  {
    var after := ApplyLine(mid, ref, line);
    if Linked(mid.edges, src, dst) {
      var i :| i in mid.edges && Links(mid.edges[i], src, dst);
      assert i in after.edges && Links(after.edges[i], src, dst);
    } else {
      assert Links(after.edges[mid.next + 1], src, dst);
    }
  }

  lemma {:induction false} SettledNext(db: Db, mid: Db, ref: Ref, lines: seq<Line>, line: Line)
    requires Unique(mid) && Used(db) && Used(mid) && mid.atoms == db.atoms && db.next <= mid.next
    requires Settled(db, mid, lines)
    ensures Settled(db, ApplyLine(mid, ref, line), lines + [line])
  {
    hide Unique, Used, ApplyLine, Linked, Fits;
    var after := ApplyLine(mid, ref, line);
    assert (lines + [line])[..|lines|] == lines;
    forall i | i in after.edges
      ensures Fits(db, after, lines + [line], i)
    {
      FitsNext(db, mid, ref, lines, line, i);
    }
    forall s, d | LastWeight(db.atoms, lines + [line], s, d).Some?
      ensures Linked(after.edges, s, d)
    {
      LinkedNext(mid, ref, line, s, d);
    }
  }

  // Every edge carries the last accepted confidence of its pair, or is as it was.
  lemma {:induction false} ApplySettles(db: Db, ref: Ref, lines: seq<Line>)
    requires Unique(db) && Used(db)
    ensures Settled(db, Apply(db, ref, lines), lines) && Grown(db, Apply(db, ref, lines), ref)
  {
    if lines == [] {
      assert forall i :: i in db.edges ==> Fits(db, db, lines, i);
    } else {
      hide Unique, Used, ApplyLine, Settled;
      var front, last := lines[..|lines| - 1], lines[|lines| - 1];
      var mid := Apply(db, ref, front);
      ApplySettles(db, ref, front);
      ApplyKeeps(db, ref, front);
      GrownNext(db, mid, ref, last);
      SettledNext(db, mid, ref, front, last);
      assert lines == front + [last];
    }
  }

  // Writing the same verdicts again, under any ref, changes nothing.
  lemma {:induction false} RerunIsIdle(db: Db, ref: Ref, again: Ref, lines: seq<Line>)
    requires Unique(db) && Used(db)
    ensures var once := Apply(db, ref, lines); Apply(once, again, lines) == once
  {
    ApplyKeeps(db, ref, lines);
    ApplySettles(db, ref, lines);
    var once := Apply(db, ref, lines);
    IdleUpto(db, once, again, lines, |lines|);
    assert lines[..|lines|] == lines;
    var twice := Apply(once, again, lines);
    ApplySettles(once, again, lines);
    SameEdges(db, once, twice, lines);
  }

  // No line of the rerun inserts.
  lemma {:induction false} IdleUpto(db: Db, once: Db, again: Ref, lines: seq<Line>, n: nat)
    requires n <= |lines| && Unique(once) && Used(once) && once.atoms == db.atoms && Settled(db, once, lines)
    ensures var t := Apply(once, again, lines[..n]);
            t.edges.Keys == once.edges.Keys && t.provenance == once.provenance && t.next == once.next &&
            t.atoms == once.atoms
    ensures forall i :: i in once.edges ==>
              var e := Apply(once, again, lines[..n]).edges[i];
              e.kind == once.edges[i].kind && e.src == once.edges[i].src && e.dst == once.edges[i].dst
  {
    hide Unique, Used, Fits, LastWeight;
    if n == 0 {
    } else {
      assert lines[..n][..n - 1] == lines[..n - 1];
      IdleUpto(db, once, again, lines, n - 1);
      var line, t := lines[n - 1], Apply(once, again, lines[..n - 1]);
      if Accepted(once.atoms, line) {
        AcceptedLasts(once.atoms, lines, n - 1);
        assert Linked(once.edges, line.chunkId, line.memId);
        var i :| i in once.edges && Links(once.edges[i], line.chunkId, line.memId);
        assert i in t.edges && Links(t.edges[i], line.chunkId, line.memId);
      }
    }
  }

  lemma {:induction false} AcceptedLasts(atoms: set<Id>, lines: seq<Line>, n: nat)
    requires n < |lines| && Accepted(atoms, lines[n])
    ensures LastWeight(atoms, lines, lines[n].chunkId, lines[n].memId).Some?
  {
    if n == |lines| - 1 {
    } else {
      assert lines[..|lines| - 1][n] == lines[n];
      AcceptedLasts(atoms, lines[..|lines| - 1], n);
    }
  }

  lemma {:induction false} SameEdges(db: Db, once: Db, twice: Db, lines: seq<Line>)
    requires Settled(db, once, lines) && Settled(once, twice, lines)
    requires once.atoms == db.atoms && twice.edges.Keys == once.edges.Keys
    ensures twice.edges == once.edges
  {
    hide LastWeight, Linked;
    forall i | i in once.edges
      ensures twice.edges[i] == once.edges[i]
    {
      assert Fits(db, once, lines, i) && Fits(once, twice, lines, i);
    }
  }

  // ----- writing, then rolling back -----

  ghost predicate FreshRef(db: Db, ref: Ref) {
    forall i :: i in db.provenance ==> !Owned(db.provenance[i], ref)
  }

  // Undoing a fresh campaign restores every row, but for the weights that it
  // gave to edges already there: exactly their last accepted confidence.
  lemma {:induction false} UndoRestores(db: Db, ref: Ref, lines: seq<Line>)
    requires Unique(db) && Used(db) && FreshRef(db, ref)
    ensures var after := Rollback(Apply(db, ref, lines), ref);
            && after.atoms == db.atoms && after.provenance == db.provenance && after.edges.Keys == db.edges.Keys
            && forall i :: i in db.edges ==>
                 var e := db.edges[i];
                 var w := if e.kind == Relates then LastWeight(db.atoms, lines, e.src, e.dst) else None;
                 after.edges[i] == (if w.Some? then e.(weight := w.value) else e)
  {
    hide Unique, LastWeight, Linked;
    ApplySettles(db, ref, lines);
    var mid := Apply(db, ref, lines);
    UndoKeys(db, mid, ref, lines);
    forall i | i in db.edges
      ensures Fits(db, mid, lines, i)
    {
    }
  }

  lemma {:induction false} UndoKeys(db: Db, mid: Db, ref: Ref, lines: seq<Line>)
    requires Used(db) && FreshRef(db, ref) && Grown(db, mid, ref) && Settled(db, mid, lines)
    ensures var after := Rollback(mid, ref);
            && after.atoms == db.atoms && after.provenance == db.provenance && after.edges.Keys == db.edges.Keys
            && forall i :: i in db.edges ==> after.edges[i] == mid.edges[i]
  {
    hide LastWeight, Linked;
    var ids := OwnedIds(mid, ref);
    forall i | i in db.edges
      ensures !EdgeOwned(mid.edges[i], ids)
    {
      assert Fits(db, mid, lines, i);
    }
    assert mid.provenance - ids == db.provenance;
  }

  // ----- the writer over its store -----

  datatype Outcome = Written | Updated | Rejected | SkippedMissingAtom | WasMalformed

  function OutcomeOf(db: Db, line: Line): Outcome {
    if line.Malformed? then WasMalformed
    else if !line.keep then Rejected
    else if !Accepted(db.atoms, line) then SkippedMissingAtom
    else if Linked(db.edges, line.chunkId, line.memId) then Updated
    else Written
  }

  function Count(db: Db, ref: Ref, lines: seq<Line>, o: Outcome): nat {
    if lines == [] then 0
    else
      var front := lines[..|lines| - 1];
      Count(db, ref, front, o) + if OutcomeOf(Apply(db, ref, front), lines[|lines| - 1]) == o then 1 else 0
  }

  ghost predicate Tallies(r: Report, db: Db, ref: Ref, lines: seq<Line>) {
    && r.written == Count(db, ref, lines, Written) && r.updated == Count(db, ref, lines, Updated)
    && r.rejected == Count(db, ref, lines, Rejected)
    && r.skippedMissingAtom == Count(db, ref, lines, SkippedMissingAtom)
    && r.malformed == Count(db, ref, lines, WasMalformed)
  }

  // One edge row more for each verdict reported written.
  lemma {:induction false} WrittenAreRows(db: Db, ref: Ref, lines: seq<Line>)
    requires Unique(db) && Used(db)
    ensures |Apply(db, ref, lines).edges| == |db.edges| + Count(db, ref, lines, Written)
    ensures |Apply(db, ref, lines).provenance| == |db.provenance| + Count(db, ref, lines, Written)
  {
    hide Unique, Used;
    if lines == [] {
    } else {
      var front := lines[..|lines| - 1];
      WrittenAreRows(db, ref, front);
      ApplyKeeps(db, ref, front);
      RowsOf(Apply(db, ref, front), ref, lines[|lines| - 1]);
    }
  }

  lemma {:induction false} RowsOf(db: Db, ref: Ref, line: Line)
    requires Used(db)
    ensures var more := if OutcomeOf(db, line) == Written then 1 else 0;
            && |ApplyLine(db, ref, line).edges| == |db.edges| + more
            && |ApplyLine(db, ref, line).provenance| == |db.provenance| + more
  {
    hide Linked, Found;
    if Accepted(db.atoms, line) {
      if Linked(db.edges, line.chunkId, line.memId) {
        var i := Found(db.edges, line.chunkId, line.memId);
        Resized(db.edges, i, db.edges[i].(weight := line.confidence));
      } else {
        Resized(db.edges, db.next + 1, Edge(line.chunkId, line.memId, Relates, line.confidence, Some(db.next)));
        Resized(db.provenance, db.next, Provenance(line.chunkId, EdgeCampaign, Some(ref)));
      }
    }
  }

  lemma {:induction false} Resized<K, V>(m: map<K, V>, k: K, v: V)
    ensures |m[k := v]| == |m| + if k in m then 0 else 1
  {
    assert m[k := v].Keys == m.Keys + {k};
    assert |m.Keys| == |m| && |m[k := v].Keys| == |m[k := v]|;
  }

  function Bump(r: Report, o: Outcome): Report {
    match o
    case Written => r.(written := r.written + 1)
    case Updated => r.(updated := r.updated + 1)
    case Rejected => r.(rejected := r.rejected + 1)
    case SkippedMissingAtom => r.(skippedMissingAtom := r.skippedMissingAtom + 1)
    case WasMalformed => r.(malformed := r.malformed + 1)
  }

  lemma {:induction false} CountNext(db: Db, ref: Ref, lines: seq<Line>, line: Line, o: Outcome)
    ensures Count(db, ref, lines + [line], o) ==
            Count(db, ref, lines, o) + if OutcomeOf(Apply(db, ref, lines), line) == o then 1 else 0
  {
    hide Apply, ApplyLine, OutcomeOf;
    assert (lines + [line])[..|lines|] == lines;
  }

  lemma {:induction false} ApplyNext(db: Db, ref: Ref, lines: seq<Line>, line: Line)
    ensures Apply(db, ref, lines + [line]) == ApplyLine(Apply(db, ref, lines), ref, line)
  {
    hide ApplyLine;
    assert (lines + [line])[..|lines|] == lines;
  }

  lemma {:induction false} TallyNext(db: Db, ref: Ref, lines: seq<Line>, line: Line, r: Report)
    requires Tallies(r, db, ref, lines)
    ensures var more := Bump(r, OutcomeOf(Apply(db, ref, lines), line));
            Tallies(more, db, ref, lines + [line]) && more.Total() == r.Total() + 1
  {
    hide Apply, ApplyLine, OutcomeOf, Count;
    CountNext(db, ref, lines, line, Written);
    CountNext(db, ref, lines, line, Updated);
    CountNext(db, ref, lines, line, Rejected);
    CountNext(db, ref, lines, line, SkippedMissingAtom);
    CountNext(db, ref, lines, line, WasMalformed);
  }

  class Store {
    var atoms: set<Id>
    var edges: map<Id, Edge>
    var provenance: map<Id, Provenance>
    var next: Id

    ghost function Contents(): Db
      reads this
    {
      Db(atoms, edges, provenance, next)
    }

    // One transaction: a database error at line `failAt` leaves nothing behind.
    method WriteVerdicts(lines: seq<Line>, ref: Ref, failAt: Option<nat>) returns (r: Option<Report>)
      modifies this
      ensures r.None? <==> failAt.Some? && failAt.value < |lines|
      ensures r.None? ==> Contents() == old(Contents())
      ensures r.Some? ==> Contents() == Apply(old(Contents()), ref, lines)
      ensures r.Some? ==> Tallies(r.value, old(Contents()), ref, lines) && r.value.Total() == |lines|
    {
      var db, report := Batch(Db(atoms, edges, provenance, next), lines, ref, failAt);
      if report.Some? {
        atoms, edges, provenance, next := db.atoms, db.edges, db.provenance, db.next;
      }
      return report;
    }

    static method Batch(start: Db, lines: seq<Line>, ref: Ref, failAt: Option<nat>) returns (db: Db, r: Option<Report>)
      ensures r.None? <==> failAt.Some? && failAt.value < |lines|
      ensures r.Some? ==> db == Apply(start, ref, lines)
      ensures r.Some? ==> Tallies(r.value, start, ref, lines) && r.value.Total() == |lines|
    {
      hide *;
      db := start;
      var report := Report(0, 0, 0, 0, 0);
      NoLines(start, ref);
      assert lines[..0] == [];
      for n := 0 to |lines|
        invariant failAt.Some? ==> n <= failAt.value
        invariant db == Apply(start, ref, lines[..n])
        invariant Tallies(report, start, ref, lines[..n]) && report.Total() == n
      {
        if failAt == Some(n) { return start, None; }
        assert lines[..n + 1] == lines[..n] + [lines[n]];
        TallyNext(start, ref, lines[..n], lines[n], report);
        ApplyNext(start, ref, lines[..n], lines[n]);
        db, report := WriteOne(db, ref, lines[n], report);
      }
      assert lines[..|lines|] == lines;
      return db, Some(report);
    }

    static method WriteOne(db: Db, ref: Ref, line: Line, report: Report) returns (after: Db, r: Report)
      ensures after == ApplyLine(db, ref, line)
      ensures r == Bump(report, OutcomeOf(db, line))
    {
      after := db;
      if line.Malformed? { return db, report.(malformed := report.malformed + 1); }
      if !line.keep { return db, report.(rejected := report.rejected + 1); }
      if |db.atoms * {line.memId, line.chunkId}| != 2 {
        TwoExist(db.atoms, line.memId, line.chunkId);
        return db, report.(skippedMissingAtom := report.skippedMissingAtom + 1);
      }
      TwoExist(db.atoms, line.memId, line.chunkId);
      if Linked(db.edges, line.chunkId, line.memId) {
        var i := Found(db.edges, line.chunkId, line.memId);
        after := db.(edges := db.edges[i := db.edges[i].(weight := line.confidence)]);
        return after, report.(updated := report.updated + 1);
      }
      var provId := db.next;
      var edgeId := db.next + 1;
      after := Db(db.atoms,
                  db.edges[edgeId := Edge(line.chunkId, line.memId, Relates, line.confidence, Some(provId))],
                  db.provenance[provId := Provenance(line.chunkId, EdgeCampaign, Some(ref))],
                  db.next + 2);
      return after, report.(written := report.written + 1);
    }

    method RollbackCampaign(ref: Ref) returns (edgesDeleted: nat, provenanceDeleted: nat)
      modifies this
      ensures Contents() == Rollback(old(Contents()), ref)
      ensures edgesDeleted == |old(edges)| - |edges| && provenanceDeleted == |old(provenance)| - |provenance|
    {
      var db := Db(atoms, edges, provenance, next);
      var ids := OwnedIds(db, ref);
      edgesDeleted, provenanceDeleted := 0, |ids|;
      LeftOver(provenance, ids);
      var kept := map i | i in edges && !EdgeOwned(edges[i], ids) :: edges[i];
      if ids != {} {
        KeptFewer(edges, kept);
        edgesDeleted := |edges| - |kept|;
        edges := kept;
        provenance := provenance - ids;
      } else {
        assert kept == edges;
        assert provenance - ids == provenance;
      }
    }
  }

  lemma {:induction false} NoLines(db: Db, ref: Ref)
    ensures Apply(db, ref, []) == db && Tallies(Report(0, 0, 0, 0, 0), db, ref, []) &&
            Report(0, 0, 0, 0, 0).Total() == 0
  {
  }

  // The lookup counts rows whose id is one of the two.
  lemma {:induction false} TwoExist(atoms: set<Id>, a: Id, b: Id)
    ensures |atoms * {a, b}| == 2 <==> a in atoms && b in atoms && a != b
  {
    var both := atoms * {a, b};
    if a in atoms && b in atoms {
      assert both == {a, b};
    } else if a in atoms {
      assert both == {a};
    } else if b in atoms {
      assert both == {b};
    } else {
      assert both == {};
    }
  }

  lemma {:induction false} LeftOver<K, V>(m: map<K, V>, ids: set<K>)
    requires ids <= m.Keys
    ensures |m - ids| == |m| - |ids|
  {
    assert (m - ids).Keys == m.Keys - ids;
    assert |m.Keys| == |m| && |(m - ids).Keys| == |m - ids|;
  }

  lemma {:induction false} KeptFewer<K, V>(m: map<K, V>, kept: map<K, V>)
    requires kept.Keys <= m.Keys
    ensures |kept| <= |m|
  {
    SubsetSize(kept.Keys, m.Keys);
    assert |m.Keys| == |m| && |kept.Keys| == |kept|;
  }
}
