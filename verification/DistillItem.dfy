/** What one span does to the store, said of the store and the span alone: when
    it is skipped, bumps, inserts or passes through, and everything that changes. */
module DistillItem {
  import opened Wrappers
  import opened Text
  import opened Distiller

  // ----- when -----

  ghost predicate AllSpace(s: string) {
    forall c :: c in s ==> Space(c)
  }

  // The text without the spaces around it.
  ghost predicate Stripped(t: string, s: string) {
    && (t != "" ==> !Space(t[0]) && !Space(t[|t| - 1]))
    && exists before, after :: AllSpace(before) && AllSpace(after) && s == before + t + after
  }

  // A trusted reference that some row already carries.
  ghost predicate Seen(db: Db, span: Span) {
    span.trusted && span.ref.Some? && exists k :: 0 <= k < |db.rows| && db.rows[k].ref == span.ref
  }

  ghost predicate Answers(s: Summary) {
    s.Answer? && s.text.Some? && !AllSpace(s.text.value)
  }

  ghost predicate NearIsLive(db: Db, item: Item) {
    item.near.Some? && item.near.value in db.atoms && db.atoms[item.near.value].live
  }

  lemma {:induction false} BlankIff(s: string)
    ensures Blank(s) <==> AllSpace(s)
  {
    if s == [] {
    } else {
      assert s == [s[0]] + s[1..];
      if Space(s[0]) { BlankIff(s[1..]); } else { assert s[0] in s; }
    }
  }

  lemma {:induction false} KnownIff(db: Db, span: Span)
    ensures Known(db, span).Some? <==> Seen(db, span)
  {
    if Seen(db, span) {
      var k :| 0 <= k < |db.rows| && db.rows[k].ref == span.ref;
      assert db.rows[k] in db.rows;
    }
  }

  lemma AnswersIff(s: Summary)
    ensures SummaryText(s).Some? <==> Answers(s)
  {
    hide Blank, AllSpace;
    if s.Answer? && s.text.Some? { BlankIff(s.text.value); }
  }

  // The four outcomes: each span has the one its text, reference, answer and
  // nearest atom decide.
  lemma OutcomeIff(db: Db, item: Item)
    ensures var span, o := item.span, OutcomeOf(db, item);
            var spoken := !AllSpace(span.text);
            && (o == Bumped <==> spoken && span.emit.None? &&
                                 (Seen(db, span) || (Answers(item.summary) && NearIsLive(db, item))))
            && (o == Inserted <==> spoken && span.emit.None? && !Seen(db, span) && Answers(item.summary) &&
                                   !NearIsLive(db, item))
            && (o == PassedThrough <==> spoken && span.emit.Some? && span.emit.value != "" && !Seen(db, span))
  {
    hide Blank, AllSpace, Seen, Known, SummaryText, Answers;
    BlankIff(item.span.text);
    KnownIff(db, item.span);
    AnswersIff(item.summary);
  }

  // ----- what -----

  // The atom a bump reaches: the one of the first row with the reference, or
  // the near one.
  ghost predicate Reached(db: Db, item: Item, id: Id) {
    if Seen(db, item.span) then
      exists k :: 0 <= k < |db.rows| && db.rows[k].ref == item.span.ref && db.rows[k].atomId == id &&
                  forall j :: 0 <= j < k ==> db.rows[j].ref != item.span.ref
    else item.near == Some(id)
  }

  // Only the one atom may change, and only if it is live: by a twentieth more
  // importance, up to 1.
  ghost predicate OnlyRaises(db: Db, after: Db, id: Id) {
    && after.next == db.next && after.atoms.Keys == db.atoms.Keys
    && (forall i :: i in db.atoms && (i != id || !db.atoms[i].live) ==> after.atoms[i] == db.atoms[i])
    && (id in db.atoms && db.atoms[id].live ==>
          var a, b := db.atoms[id], after.atoms[id];
          b.text == a.text && b.live && b.importance == if a.importance + 0.05 > 1.0 then 1.0 else a.importance + 0.05)
  }

  // One live atom is added, with its row.
  ghost predicate OnlyAdds(db: Db, after: Db, span: Span, text: string) {
    && after.atoms == db.atoms[db.next := Atom(text, true, 0.0)] && after.next == db.next + 1
    && after.rows == db.rows + [Row(db.next, span.origin, span.ref)]
  }

  lemma {:induction false} FirstHolder(rows: seq<Row>, ref: Ref, id: Id)
    ensures ExistingBySourceRef(rows, ref) == Some(id) ==>
              exists k :: 0 <= k < |rows| && rows[k].ref == Some(ref) && rows[k].atomId == id &&
                          forall j :: 0 <= j < k ==> rows[j].ref != Some(ref)
  {
    if rows == [] || rows[0].ref == Some(ref) {
    } else {
      var rest := rows[1..];
      FirstHolder(rest, ref, id);
      if ExistingBySourceRef(rest, ref) == Some(id) {
        var k :| 0 <= k < |rest| && rest[k].ref == Some(ref) && rest[k].atomId == id &&
                 forall j :: 0 <= j < k ==> rest[j].ref != Some(ref);
        var n := k + 1;
        assert rows[n] == rest[k] && forall j :: 0 < j < n ==> rows[j] == rest[j - 1];
      }
    }
  }

  lemma {:induction false} StripSpaces(s: string) returns (before: string, after: string)
    ensures AllSpace(before) && AllSpace(after) && s == before + RightStrip(LeftStrip(s)) + after
  {
    var left := LeftStrip(s);
    before := LeftSpaces(s);
    after := RightSpaces(left);
    assert before + (RightStrip(left) + after) == before + RightStrip(left) + after;
  }

  lemma {:induction false} LeftSpaces(s: string) returns (before: string)
    ensures AllSpace(before) && s == before + LeftStrip(s)
  {
    if s != [] && Space(s[0]) {
      var more := LeftSpaces(s[1..]);
      before := [s[0]] + more;
      assert s == [s[0]] + s[1..];
    } else {
      before := [];
    }
  }

  lemma {:induction false} RightSpaces(s: string) returns (after: string)
    ensures AllSpace(after) && s == RightStrip(s) + after
    ensures RightStrip(s) != "" ==> !Space(RightStrip(s)[|RightStrip(s)| - 1]) && RightStrip(s)[0] == s[0]
  {
    if s != [] && Space(s[|s| - 1]) {
      var more := RightSpaces(s[..|s| - 1]);
      after := more + [s[|s| - 1]];
      assert s == s[..|s| - 1] + [s[|s| - 1]];
    } else {
      after := [];
    }
  }

  lemma StrippedText(s: string)
    ensures Stripped(RightStrip(LeftStrip(s)), s)
  {
    hide AllSpace;
    var before, after := StripSpaces(s);
    var t := RightStrip(LeftStrip(s));
    if t != "" {
      var rest := RightSpaces(LeftStrip(s));
    }
  }

  // A skipped span changes nothing; a bump raises the atom it reaches and, for
  // a near atom, records the reference once; an insertion adds the stripped
  // answer, an emit its composed body.
  lemma ProcessDoes(db: Db, item: Item)
    ensures var span, after := item.span, Process(db, item);
            match OutcomeOf(db, item)
            case Skipped => after == db
            case PassedThrough => OnlyAdds(db, after, span, span.emit.value)
            case Inserted => exists text :: Stripped(text, item.summary.text.value) && OnlyAdds(db, after, span, text)
            case Bumped =>
              exists id :: Reached(db, item, id) && OnlyRaises(db, after, id) && Records(db, after, item, id)
  {
    hide Blank, Stripped, LeftStrip, RightStrip, ExistingBySourceRef;
    OutcomeIff(db, item);
    match OutcomeOf(db, item)
    case Skipped =>
    case PassedThrough =>
    case Inserted => StrippedText(item.summary.text.value);
    case Bumped =>
      KnownIff(db, item.span);
      var id := BumpReaches(db, item);
      assert OnlyRaises(db, Process(db, item), id) && Records(db, Process(db, item), item, id);
  }

  // The row a near duplicate leaves, if it has a reference and is new.
  ghost predicate Records(db: Db, after: Db, item: Item, id: Id) {
    var row := Row(id, item.span.origin, item.span.ref);
    after.rows == if Seen(db, item.span) || item.span.ref.None? || row in db.rows then db.rows else db.rows + [row]
  }

  lemma BumpReaches(db: Db, item: Item) returns (id: Id)
    requires OutcomeOf(db, item) == Bumped
    ensures Reached(db, item, id)
    ensures Known(db, item.span).Some? ==> id == Known(db, item.span).value
    ensures Known(db, item.span).None? ==> item.near == Some(id) && NearLive(db, item.near) == Some(id)
  {
    hide Blank, SummaryText, ExistingBySourceRef;
    KnownIff(db, item.span);
    if Known(db, item.span).Some? {
      id := Known(db, item.span).value;
      FirstHolder(db.rows, item.span.ref.value, id);
    } else {
      id := item.near.value;
    }
  }

  // ----- over a run -----

  lemma ReachedOnce(db: Db, item: Item, id: Id, other: Id)
    requires Reached(db, item, id) && Reached(db, item, other)
    ensures id == other
  {
  }

  ghost predicate Bumps(db: Db, item: Item, id: Id) {
    && !AllSpace(item.span.text) && item.span.emit.None?
    && (Seen(db, item.span) || (Answers(item.summary) && NearIsLive(db, item)))
    && Reached(db, item, id)
  }

  // How many of the items bump the atom, each in the store it meets.
  ghost function TimesBumped(db: Db, items: seq<Item>, id: Id): nat {
    if items == [] then 0
    else
      var front, last := items[..|items| - 1], items[|items| - 1];
      TimesBumped(db, front, id) + if Bumps(Distill(db, front), last, id) then 1 else 0
  }

  // An atom as some number of bumps leaves it.
  ghost predicate RaisedTo(a: Atom, b: Atom, n: nat) {
    && b.text == a.text && b.live
    && b.importance == if a.importance + n as real * 0.05 > 1.0 then 1.0 else a.importance + n as real * 0.05
  }

  lemma RaisedOnce(a: Atom, b: Atom, c: Atom, n: nat)
    requires RaisedTo(a, b, n) && a.importance <= 1.0 && c.text == b.text && c.live
    requires c.importance == if b.importance + 0.05 > 1.0 then 1.0 else b.importance + 0.05
    ensures RaisedTo(a, c, n + 1)
  {
  }

  lemma OneStep(db: Db, item: Item, id: Id)
    requires id in db.atoms && db.atoms[id].live && Sane(db)
    ensures var after := Process(db, item);
            && id in after.atoms
            && if Bumps(db, item, id) then OnlyRaises(db, after, id) else after.atoms[id] == db.atoms[id]
  {
    hide Process, AllSpace, Seen, Answers, NearIsLive, Stripped, OutcomeOf, Reached;
    ProcessDoes(db, item);
    OutcomeIff(db, item);
    assert id != db.next;
    if OutcomeOf(db, item) == Bumped {
      var at :| Reached(db, item, at) && OnlyRaises(db, Process(db, item), at);
      if Reached(db, item, id) { ReachedOnce(db, item, id, at); }
    }
  }

  // After any run a live atom keeps its text and stands a twentieth higher for
  // each bump that reached it, up to 1.
  lemma {:induction false} ImportanceCounts(db: Db, items: seq<Item>, id: Id)
    requires InRange(db) && Sane(db) && id in db.atoms && db.atoms[id].live
    ensures var after := Distill(db, items);
            id in after.atoms && RaisedTo(db.atoms[id], after.atoms[id], TimesBumped(db, items, id))
  {
    hide Process, Sane, InRange, Bumps, RaisedTo;
    if items == [] {
      assert RaisedTo(db.atoms[id], db.atoms[id], 0) by { NotRaised(db, id); }
    } else {
      var front, last := items[..|items| - 1], items[|items| - 1];
      var mid, n := Distill(db, front), TimesBumped(db, front, id);
      ImportanceCounts(db, front, id);
      DistillKeeps(db, front);
      assert mid.atoms[id].live by { StillLive(db.atoms[id], mid.atoms[id], n); }
      OneStep(mid, last, id);
      if Bumps(mid, last, id) {
        assert db.atoms[id].importance <= 1.0 by { AtMostOne(db, id); }
        RaisedOnce(db.atoms[id], mid.atoms[id], Process(mid, last).atoms[id], n);
      }
    }
  }

  lemma StillLive(a: Atom, b: Atom, n: nat)
    requires RaisedTo(a, b, n)
    ensures b.live
  {
  }

  lemma AtMostOne(db: Db, id: Id)
    requires InRange(db) && id in db.atoms
    ensures db.atoms[id].importance <= 1.0
  {
  }

  lemma NotRaised(db: Db, id: Id)
    requires InRange(db) && id in db.atoms && db.atoms[id].live
    ensures RaisedTo(db.atoms[id], db.atoms[id], 0)
  {
  }

  // How many of the items end so, each in the store it meets.
  function Occurs(db: Db, items: seq<Item>, o: Outcome): nat {
    if items == [] then 0
    else
      var front, last := items[..|items| - 1], items[|items| - 1];
      Occurs(db, front, o) + if OutcomeOf(Distill(db, front), last) == o then 1 else 0
  }

  // Each counter of the report counts its own outcome.
  lemma {:induction false} CountersMeaning(db: Db, items: seq<Item>)
    ensures var t := Tallied(db, items);
            && t.inserted == Occurs(db, items, Inserted) && t.bumped == Occurs(db, items, Bumped)
            && t.passthrough == Occurs(db, items, PassedThrough) && t.skipped == Occurs(db, items, Skipped)
  {
    hide OutcomeOf, Distill;
    if items == [] {
    } else {
      CountersMeaning(db, items[..|items| - 1]);
    }
  }
}
