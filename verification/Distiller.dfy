/** Turning transcript spans into atoms so that replays add nothing. */
module Distiller {
  import opened Wrappers
  import opened Text

  type Id = nat

  // A span reference: session, offset and text digest.
  type Ref = nat

  datatype Atom = Atom(text: string, live: bool, importance: real)

  // `origin` is the row's source, session and agent.
  datatype Row = Row(atomId: Id, origin: nat, ref: Option<Ref>)

  // The tables; provenance rows in the order written.
  datatype Db = Db(atoms: map<Id, Atom>, rows: seq<Row>, next: Id)

  // `emit` is the composed body of an explicit emit.
  datatype Span = Span(ref: Option<Ref>, trusted: bool, origin: nat, text: string, emit: Option<string>)

  datatype Summary = Errored | Answer(text: Option<string>)

  // A span with what the model answers for it and the atom that deduplication
  // finds near the answer, should it be asked.
  datatype Item = Item(span: Span, summary: Summary, near: Option<Id>)

  datatype Outcome = Inserted | Bumped | PassedThrough | Skipped

  const IMPORTANCE_BUMP: real := 0.05
  const IMPORTANCE_CAP: real := 1.0

  // ----- store helpers -----

  function ExistingBySourceRef(rows: seq<Row>, ref: Ref): (r: Option<Id>)
    ensures r.None? <==> forall row :: row in rows ==> row.ref != Some(ref)
    ensures r.Some? ==> exists row :: row in rows && row.ref == Some(ref) && row.atomId == r.value
  {
    if rows == [] then None
    else if rows[0].ref == Some(ref) then Some(rows[0].atomId)
    else
      assert rows == [rows[0]] + rows[1..];
      ExistingBySourceRef(rows[1..], ref)
  }

  function Raised(importance: real): real {
    if importance + IMPORTANCE_BUMP < IMPORTANCE_CAP then importance + IMPORTANCE_BUMP else IMPORTANCE_CAP
  }

  function Accrue(db: Db, id: Id): Db {
    if id in db.atoms && db.atoms[id].live then
      db.(atoms := db.atoms[id := db.atoms[id].(importance := Raised(db.atoms[id].importance))])
    else db
  }

  function Attach(db: Db, id: Id, span: Span): Db {
    var row := Row(id, span.origin, span.ref);
    if span.ref.None? || row in db.rows then db else db.(rows := db.rows + [row])
  }

  function Insert(db: Db, span: Span, text: string): Db {
    Db(db.atoms[db.next := Atom(text, true, 0.0)], db.rows + [Row(db.next, span.origin, span.ref)], db.next + 1)
  }

  // ----- one span -----

  predicate Blank(s: string) {
    LeftStrip(s) == []
  }

  predicate HasTrustedRef(span: Span) {
    span.trusted && span.ref.Some?
  }

  function Known(db: Db, span: Span): Option<Id> {
    if HasTrustedRef(span) then ExistingBySourceRef(db.rows, span.ref.value) else None
  }

  function SummaryText(s: Summary): Option<string> {
    if s.Errored? || s.text.None? || Blank(s.text.value) then None else Some(RightStrip(LeftStrip(s.text.value)))
  }

  // Deduplication only ever names a live atom.
  function NearLive(db: Db, near: Option<Id>): Option<Id> {
    if near.Some? && near.value in db.atoms && db.atoms[near.value].live then near else None
  }

  function OutcomeOf(db: Db, item: Item): Outcome {
    var span := item.span;
    if Blank(span.text) then Skipped
    else if span.emit.Some? then
      if Known(db, span).Some? || span.emit.value == "" then Skipped else PassedThrough
    else if Known(db, span).Some? then Bumped
    else if SummaryText(item.summary).None? then Skipped
    else if NearLive(db, item.near).Some? then Bumped
    else Inserted
  }

  function Process(db: Db, item: Item): Db {
    var span := item.span;
    match OutcomeOf(db, item)
    case Skipped => db
    case PassedThrough => Insert(db, span, span.emit.value)
    case Inserted => Insert(db, span, SummaryText(item.summary).value)
    case Bumped =>
      if Known(db, span).Some? then Accrue(db, Known(db, span).value)
      else Attach(Accrue(db, NearLive(db, item.near).value), NearLive(db, item.near).value, span)
  }

  // Any sequence of calls is one list of items.
  function Distill(db: Db, items: seq<Item>): Db {
    if items == [] then db else Process(Distill(db, items[..|items| - 1]), items[|items| - 1])
  }

  lemma {:induction false} DistillAppend(db: Db, a: seq<Item>, b: seq<Item>)
    ensures Distill(db, a + b) == Distill(Distill(db, a), b)
  {
    hide Process;
    if b == [] {
      assert a + b == a;
    } else {
      assert (a + b)[..|a + b| - 1] == a + b[..|b| - 1];
      DistillAppend(db, a, b[..|b| - 1]);
    }
  }

  // ----- importance -----

  ghost predicate InRange(db: Db) {
    forall i :: i in db.atoms ==> 0.0 <= db.atoms[i].importance <= IMPORTANCE_CAP
  }

  ghost predicate Sane(db: Db) {
    && (forall i :: i in db.atoms ==> i < db.next)
    && (forall r :: r in db.rows ==> r.atomId < db.next)
    && forall i, j :: 0 <= i < j < |db.rows| ==> db.rows[i] != db.rows[j]
  }

  ghost predicate NeverFalls(db: Db, after: Db) {
    forall i :: i in db.atoms ==>
      i in after.atoms && after.atoms[i].importance >= db.atoms[i].importance && after.atoms[i].text == db.atoms[i].text
  }

  // A bump lowers an importance exactly when it lay above the cap.
  lemma {:induction false} BumpFallsIff(importance: real)
    ensures Raised(importance) < importance <==> importance > IMPORTANCE_CAP
    ensures importance < IMPORTANCE_CAP ==> importance < Raised(importance) <= IMPORTANCE_CAP
  {
  }

  lemma {:induction false} ProcessKeeps(db: Db, item: Item)
    requires InRange(db) && Sane(db)
    ensures var after := Process(db, item); InRange(after) && Sane(after) && NeverFalls(db, after)
  {
    hide ExistingBySourceRef, SummaryText, Blank;
  }

  // Over any run importance stays in range and never falls, no text changes,
  // and no provenance row is written twice.
  lemma {:induction false} DistillKeeps(db: Db, items: seq<Item>)
    requires InRange(db) && Sane(db)
    ensures var after := Distill(db, items); InRange(after) && Sane(after) && NeverFalls(db, after)
  {
    hide Process, Sane, InRange;
    if items == [] {
    } else {
      DistillKeeps(db, items[..|items| - 1]);
      ProcessKeeps(Distill(db, items[..|items| - 1]), items[|items| - 1]);
    }
  }

  // ----- one atom a reference -----

  ghost predicate HasRef(db: Db, ref: Ref) {
    exists row :: row in db.rows && row.ref == Some(ref)
  }

  predicate Creates(db: Db, item: Item) {
    OutcomeOf(db, item) == Inserted || OutcomeOf(db, item) == PassedThrough
  }

  // The trusted references that created an atom, in order.
  function Created(db: Db, items: seq<Item>): seq<Ref> {
    if items == [] then []
    else
      var front, last := items[..|items| - 1], items[|items| - 1];
      Created(db, front) +
      if Creates(Distill(db, front), last) && HasTrustedRef(last.span) then [last.span.ref.value] else []
  }

  lemma {:induction false} ProcessRefs(db: Db, item: Item)
    ensures forall ref :: HasRef(db, ref) ==> HasRef(Process(db, item), ref)
    ensures HasTrustedRef(item.span) && Creates(db, item) ==> !HasRef(db, item.span.ref.value)
    ensures HasTrustedRef(item.span) && (Creates(db, item) || OutcomeOf(db, item) == Bumped) ==>
              HasRef(Process(db, item), item.span.ref.value)
  {
    hide SummaryText, Blank;
    var after := Process(db, item);
    assert forall row :: row in db.rows ==> row in after.rows;
    if HasTrustedRef(item.span) {
      var ref := item.span.ref.value;
      match OutcomeOf(db, item)
      case Bumped =>
        if Known(db, item.span).None? {
          assert Row(NearLive(db, item.near).value, item.span.origin, item.span.ref) in after.rows;
        }
      case Skipped =>
      case _ =>
        assert after.rows[|after.rows| - 1] in after.rows;
    }
  }

  // Over any run no trusted reference creates two atoms, and none creates one
  // that the store already knew.
  lemma {:induction false} CreatesOnce(db: Db, items: seq<Item>)
    ensures forall i, j :: 0 <= i < j < |Created(db, items)| ==> Created(db, items)[i] != Created(db, items)[j]
    ensures forall ref :: ref in Created(db, items) ==> !HasRef(db, ref) && HasRef(Distill(db, items), ref)
    ensures forall ref :: HasRef(db, ref) ==> HasRef(Distill(db, items), ref)
  {
    hide Process, OutcomeOf, HasRef, HasTrustedRef;
    if items == [] {
    } else {
      var front := items[..|items| - 1];
      CreatesOnce(db, front);
      ProcessRefs(Distill(db, front), items[|items| - 1]);
    }
  }

  // ----- replay -----

  // The model answers a span as it did before, unless it failed then or fails now.
  ghost predicate SameAnswer(first: Item, again: Item) {
    && again.span == first.span
    && (first.summary.Errored? || again.summary.Errored? || again.summary == first.summary)
  }

  ghost predicate SameAnswers(first: seq<Item>, again: seq<Item>) {
    |first| == |again| && forall i :: 0 <= i < |first| ==> SameAnswer(first[i], again[i])
  }

  // What a pass leaves of one span: its reference recorded, or nothing to store.
  ghost predicate Handled(db: Db, item: Item) {
    || (HasTrustedRef(item.span) && HasRef(db, item.span.ref.value))
    || Blank(item.span.text)
    || (if item.span.emit.Some? then item.span.emit.value == "" else SummaryText(item.summary).None?)
  }

  lemma {:induction false} ProcessHandles(db: Db, item: Item)
    requires HasTrustedRef(item.span)
    ensures Handled(Process(db, item), item)
  {
    hide Blank, SummaryText, Process, HasRef;
    ProcessRefs(db, item);
    if OutcomeOf(db, item) == Skipped { KnownHasRef(db, item.span); }
  }

  lemma {:induction false} KnownHasRef(db: Db, span: Span)
    requires HasTrustedRef(span)
    ensures Known(db, span).Some? <==> HasRef(db, span.ref.value)
  {
  }

  lemma {:induction false} HandledLater(db: Db, later: Db, item: Item)
    requires Handled(db, item) && forall ref :: HasRef(db, ref) ==> HasRef(later, ref)
    ensures Handled(later, item)
  {
    hide HasRef, Blank, SummaryText;
  }

  // In any run, whatever comes in between, a span met again creates an atom
  // only where summarising failed before.
  lemma {:induction false} RepeatCreatesOnlyErrored(db: Db, items: seq<Item>, p: nat, q: nat)
    requires p < q < |items| && HasTrustedRef(items[p].span) && SameAnswer(items[p], items[q])
    requires Creates(Distill(db, items[..q]), items[q])
    ensures items[p].summary.Errored? && items[p].span.emit.None?
  {
    hide Distill, HasRef, Blank, SummaryText;
    var done, now := Distill(db, items[..p + 1]), Distill(db, items[..q]);
    DistillNext(db, items, p);
    ProcessHandles(Distill(db, items[..p]), items[p]);
    assert items[..q] == items[..p + 1] + items[p + 1..q];
    DistillAppend(db, items[..p + 1], items[p + 1..q]);
    CreatesOnce(done, items[p + 1..q]);
    HandledLater(done, now, items[p]);
    KnownHasRef(now, items[p].span);
    ErroredHasNoText(items[p].summary, items[q].summary);
  }

  lemma {:induction false} DistillNext(db: Db, items: seq<Item>, p: nat)
    requires p < |items|
    ensures Distill(db, items[..p + 1]) == Process(Distill(db, items[..p]), items[p])
  {
    hide Process;
    assert items[..p + 1][..p] == items[..p];
  }

  // Replaying a source, any items later, creates an atom only where
  // summarising failed before.
  lemma {:induction false} ReplayCreatesOnlyErrored(db: Db, items: seq<Item>, between: seq<Item>, again: seq<Item>,
                                                    i: nat)
    requires i < |items| && HasTrustedRef(items[i].span) && SameAnswers(items, again)
    requires Creates(Distill(db, items + between + again[..i]), again[i])
    ensures items[i].summary.Errored? && items[i].span.emit.None?
  {
    hide Distill, HasRef, Blank, SummaryText, Creates;
    var run, q := items + between + again, |items| + |between| + i;
    assert run[..q] == items + between + again[..i];
    assert run[i] == items[i] && run[q] == again[i];
    RepeatCreatesOnlyErrored(db, run, i, q);
  }

  lemma {:induction false} ErroredHasNoText(first: Summary, again: Summary)
    ensures SummaryText(Errored).None?
    ensures first == again ==> SummaryText(first) == SummaryText(again)
  {
  }

  // A pass in which no summary failed is final: its replay writes no atom,
  // whatever was distilled in between.
  lemma {:induction false} ReplayIsIdle(db: Db, items: seq<Item>, between: seq<Item>, again: seq<Item>)
    requires (forall item :: item in items ==> HasTrustedRef(item.span)) && SameAnswers(items, again)
    requires forall item :: item in items ==> item.span.emit.Some? || !item.summary.Errored?
    ensures Distill(db, items + between + again).atoms.Keys == Distill(db, items + between).atoms.Keys
  {
    hide Distill;
    assert again[..|again|] == again;
    IdleUpto(db, items, between, again, |again|);
  }

  lemma {:induction false} IdleUpto(db: Db, items: seq<Item>, between: seq<Item>, again: seq<Item>, n: nat)
    requires (forall item :: item in items ==> HasTrustedRef(item.span)) && SameAnswers(items, again) && n <= |again|
    requires forall item :: item in items ==> item.span.emit.Some? || !item.summary.Errored?
    ensures Distill(db, items + between + again[..n]).atoms.Keys == Distill(db, items + between).atoms.Keys
  {
    hide Process, Distill, HasTrustedRef, OutcomeOf;
    if n == 0 {
      assert items + between + again[..0] == items + between;
    } else {
      IdleUpto(db, items, between, again, n - 1);
      assert items[n - 1] in items;
      var run := items + between + again[..n];
      var now := Distill(db, items + between + again[..n - 1]);
      assert run[..|run| - 1] == items + between + again[..n - 1] && run[|run| - 1] == again[n - 1];
      assert run[..|run|] == run;
      DistillNext(db, run, |run| - 1);
      if Creates(now, again[n - 1]) { ReplayCreatesOnlyErrored(db, items, between, again, n - 1); }
      NoNewAtoms(now, again[n - 1]);
    }
  }

  lemma {:induction false} NoNewAtoms(db: Db, item: Item)
    ensures !Creates(db, item) ==> Process(db, item).atoms.Keys == db.atoms.Keys
  {
    hide ExistingBySourceRef, SummaryText, Blank;
  }

  // ----- the distiller over its store -----

  datatype Tally = Tally(inserted: nat, bumped: nat, passthrough: nat, skipped: nat, atomIds: seq<Id>) {
    function Total(): nat {
      inserted + bumped + passthrough + skipped
    }
  }

  function Counted(t: Tally, o: Outcome, id: Id): Tally {
    match o
    case Inserted => t.(inserted := t.inserted + 1, atomIds := t.atomIds + [id])
    case PassedThrough => t.(passthrough := t.passthrough + 1, atomIds := t.atomIds + [id])
    case Bumped => t.(bumped := t.bumped + 1)
    case Skipped => t.(skipped := t.skipped + 1)
  }

  function Tallied(db: Db, items: seq<Item>): Tally {
    if items == [] then Tally(0, 0, 0, 0, [])
    else
      var front, last := items[..|items| - 1], items[|items| - 1];
      var mid := Distill(db, front);
      Counted(Tallied(db, front), OutcomeOf(mid, last), mid.next)
  }

  function IdsOf(ids: seq<Id>): set<Id> {
    set i | i in ids
  }

  // The tally so far, against the atoms before and after.
  ghost predicate TallyOk(t: Tally, db: Db, after: Db, n: nat) {
    && t.Total() == n && |t.atomIds| == t.inserted + t.passthrough
    && after.atoms.Keys == db.atoms.Keys + IdsOf(t.atomIds) && IdsOf(t.atomIds) !! db.atoms.Keys
  }

  lemma {:induction false} TallyNothing(db: Db)
    ensures TallyOk(Tallied(db, []), db, Distill(db, []), 0)
  {
    assert IdsOf([]) == {};
  }

  lemma {:induction false} TallyNext(db: Db, items: seq<Item>)
    requires items != []
    ensures var mid, last := Distill(db, items[..|items| - 1]), items[|items| - 1];
            && Distill(db, items) == Process(mid, last)
            && Tallied(db, items) == Counted(Tallied(db, items[..|items| - 1]), OutcomeOf(mid, last), mid.next)
  {
    hide Process, OutcomeOf, Counted;
  }

  // Every span is counted once, and the ids reported are the atoms added.
  lemma {:induction false} TalliedMeaning(db: Db, items: seq<Item>)
    requires InRange(db) && Sane(db)
    ensures TallyOk(Tallied(db, items), db, Distill(db, items), |items|)
  {
    hide *;
    if items == [] {
      TallyNothing(db);
    } else {
      var front := items[..|items| - 1];
      TalliedMeaning(db, front);
      DistillKeeps(db, front);
      CountedStep(db, Distill(db, front), items[|items| - 1], Tallied(db, front), |front|);
      TallyNext(db, items);
    }
  }

  lemma {:induction false} CountedStep(db: Db, mid: Db, item: Item, t: Tally, n: nat)
    requires Sane(mid) && TallyOk(t, db, mid, n)
    ensures TallyOk(Counted(t, OutcomeOf(mid, item), mid.next), db, Process(mid, item), n + 1)
  {
    hide ExistingBySourceRef, SummaryText, Blank, OutcomeOf;
    NoNewAtoms(mid, item);
    var u := Counted(t, OutcomeOf(mid, item), mid.next);
    if Creates(mid, item) {
      assert IdsOf(u.atomIds) == IdsOf(t.atomIds) + {mid.next};
    }
  }

  class Ambient {
    var atoms: map<Id, Atom>
    var rows: seq<Row>
    var next: Id
    var result: Tally

    ghost function Contents(): Db
      reads this
    {
      Db(atoms, rows, next)
    }

    method AccrueImportance(id: Id)
      modifies this`atoms
      ensures Contents() == Accrue(old(Contents()), id)
    {
      if id in atoms && atoms[id].live {
        atoms := atoms[id := atoms[id].(importance := Raised(atoms[id].importance))];
      }
    }

    method AttachProvenanceIfAbsent(id: Id, span: Span)
      modifies this`rows
      ensures Contents() == Attach(old(Contents()), id, span)
    {
      if span.ref.None? { return; }
      var row := Row(id, span.origin, span.ref);
      if row in rows { return; }
      rows := rows + [row];
    }

    method InsertAtom(span: Span, text: string) returns (id: Id)
      modifies this`atoms, this`rows, this`next
      ensures Contents() == Insert(old(Contents()), span, text) && id == old(next)
    {
      id := next;
      atoms := atoms[id := Atom(text, true, 0.0)];
      rows := rows + [Row(id, span.origin, span.ref)];
      next := next + 1;
    }

    // A span under the distill policy that is not blank and not an emit.
    method DistillSpan(item: Item)
      requires !Blank(item.span.text) && item.span.emit.None?
      modifies this
      ensures Contents() == Process(old(Contents()), item)
      ensures result == Counted(old(result), OutcomeOf(old(Contents()), item), old(next))
    {
      hide ExistingBySourceRef, SummaryText, Blank;
      var span := item.span;
      var existing := if HasTrustedRef(span) then ExistingBySourceRef(rows, span.ref.value) else None;
      if existing.Some? {
        AccrueImportance(existing.value);
        result := result.(bumped := result.bumped + 1);
        return;
      }
      var text := SummaryText(item.summary);
      if text.None? {
        result := result.(skipped := result.skipped + 1);
        return;
      }
      var near := NearLive(Db(atoms, rows, next), item.near);
      if near.Some? {
        AccrueImportance(near.value);
        AttachProvenanceIfAbsent(near.value, span);
        result := result.(bumped := result.bumped + 1);
        return;
      }
      var id := InsertAtom(span, text.value);
      result := result.(inserted := result.inserted + 1, atomIds := result.atomIds + [id]);
    }

    method PassthroughSpan(item: Item)
      requires !Blank(item.span.text) && item.span.emit.Some?
      modifies this
      ensures Contents() == Process(old(Contents()), item)
      ensures result == Counted(old(result), OutcomeOf(old(Contents()), item), old(next))
    {
      hide ExistingBySourceRef, SummaryText, Blank;
      var span := item.span;
      if HasTrustedRef(span) && ExistingBySourceRef(rows, span.ref.value).Some? {
        result := result.(skipped := result.skipped + 1);
        return;
      }
      if span.emit.value == "" {
        result := result.(skipped := result.skipped + 1);
        return;
      }
      var id := InsertAtom(span, span.emit.value);
      result := result.(passthrough := result.passthrough + 1, atomIds := result.atomIds + [id]);
    }

    // One call over the spans of all its deltas, in order.
    method Run(items: seq<Item>)
      modifies this
      ensures Contents() == Distill(old(Contents()), items)
      ensures result == Tallied(old(Contents()), items)
    {
      hide Process, OutcomeOf, Counted;
      result := Tally(0, 0, 0, 0, []);
      ghost var before := Contents();
      for n := 0 to |items|
        invariant Contents() == Distill(before, items[..n])
        invariant result == Tallied(before, items[..n])
      {
        assert items[..n + 1][..n] == items[..n];
        One(items[n]);
      }
      assert items[..|items|] == items;
    }

    method One(item: Item)
      modifies this
      ensures Contents() == Process(old(Contents()), item)
      ensures result == Counted(old(result), OutcomeOf(old(Contents()), item), old(next))
    {
      if Blank(item.span.text) {
        result := result.(skipped := result.skipped + 1);
      } else if item.span.emit.Some? {
        PassthroughSpan(item);
      } else {
        DistillSpan(item);
      }
    }
  }
}
