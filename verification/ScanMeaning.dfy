/** What a scan returns, said of the single attempts: the leftmost matches, one
    after the other, with no success in between. */
module ScanMeaning {
  import opened Wrappers
  import opened RegexSyntax
  import opened RegexGuard
  import opened MegaScan

  // Where the search stands; right after an empty match only a match that moves
  // on counts.
  datatype Cursor = Cursor(pos: nat, again: bool)

  predicate Counts(a: Cursor, p: nat, m: Match) {
    a.again && p == a.pos ==> m.pos != p
  }

  ghost predicate Nowhere(u: Unicode, text: string, ops: seq<Op>, ic: bool, a: Cursor, p: nat) {
    forall m :: m in Attempt(u, text, ops, ic, p) ==> !Counts(a, p, m)
  }

  // The first way to match at p that counts.
  ghost predicate First(u: Unicode, text: string, ops: seq<Op>, ic: bool, a: Cursor, p: nat, m: Match) {
    var ms := Attempt(u, text, ops, ic, p);
    exists k :: 0 <= k < |ms| && ms[k] == m && Counts(a, p, m) && forall j :: 0 <= j < k ==> !Counts(a, p, ms[j])
  }

  ghost predicate Clear(u: Unicode, text: string, ops: seq<Op>, ic: bool, a: Cursor, end: nat) {
    forall p: nat :: a.pos <= p < end ==> Nowhere(u, text, ops, ic, a, p)
  }

  function Past(f: Found): Cursor {
    Cursor(f.m.pos, f.m.pos == f.start)
  }

  // The first match is at the leftmost position that has one, and the search
  // goes on where it ends.
  ghost predicate Leftmost(u: Unicode, text: string, ops: seq<Op>, ic: bool, a: Cursor, r: seq<Found>)
    decreases |r|
  {
    if r == [] then Clear(u, text, ops, ic, a, |text| + 1)
    else
      && a.pos <= r[0].start <= |text| && First(u, text, ops, ic, a, r[0].start, r[0].m)
      && Clear(u, text, ops, ic, a, r[0].start)
      && Leftmost(u, text, ops, ic, Past(r[0]), r[1..])
  }

  lemma {:induction false} AcceptedIsFirst(u: Unicode, text: string, ops: seq<Op>, ic: bool, a: Cursor, ms: seq<Match>,
                                           done: nat)
    requires done <= |ms| && ms == Attempt(u, text, ops, ic, a.pos)
    requires forall j :: 0 <= j < done ==> !Counts(a, a.pos, ms[j])
    ensures var m := Accepted(ms[done..], a.pos, a.again);
            if m.Some? then First(u, text, ops, ic, a, a.pos, m.value) else Nowhere(u, text, ops, ic, a, a.pos)
    decreases |ms| - done
  {
    hide Attempt;
    if done == |ms| {
    } else {
      assert ms[done..][0] == ms[done] && ms[done..][1..] == ms[done + 1..];
      if !Counts(a, a.pos, ms[done]) { AcceptedIsFirst(u, text, ops, ic, a, ms, done + 1); }
    }
  }

  lemma FirstForward(u: Unicode, text: string, ops: seq<Op>, ic: bool, a: Cursor, p: nat, m: Match)
    requires p <= |text| && First(u, text, ops, ic, a, p, m)
    ensures p <= m.pos <= |text| && Counts(a, p, m)
  {
    hide MatchSeq;
    MatchSeqForward(u, text, ops, ic, Match(p, map[], None));
  }

  // The scan finds the leftmost matches.
  lemma {:induction false} ScanLeftmost(u: Unicode, text: string, ops: seq<Op>, ic: bool, a: Cursor)
    requires a.pos <= |text| + 1
    ensures Leftmost(u, text, ops, ic, a, Scan(u, text, ops, ic, a.pos, a.again))
    decreases if a.pos <= |text| then |text| - a.pos + 1 else 0, if a.again then 0 else 1
  {
    hide Attempt, First, Nowhere, Clear;
    if a.pos > |text| {
      NothingBefore(u, text, ops, ic, a);
    } else {
      var ms := Attempt(u, text, ops, ic, a.pos);
      AcceptedIsFirst(u, text, ops, ic, a, ms, 0);
      assert ms[0..] == ms;
      var m := Accepted(ms, a.pos, a.again);
      if m.None? {
        ScanLeftmost(u, text, ops, ic, Cursor(a.pos + 1, false));
        Skip(u, text, ops, ic, a, Scan(u, text, ops, ic, a.pos + 1, false));
      } else {
        var f := Found(a.pos, m.value);
        FirstForward(u, text, ops, ic, a, a.pos, m.value);
        var rest := Scan(u, text, ops, ic, Past(f).pos, Past(f).again);
        ScanLeftmost(u, text, ops, ic, Past(f));
        NothingBefore(u, text, ops, ic, a);
        assert ([f] + rest)[0] == f && ([f] + rest)[1..] == rest;
      }
    }
  }

  lemma NothingBefore(u: Unicode, text: string, ops: seq<Op>, ic: bool, a: Cursor)
    ensures forall end: nat :: end <= a.pos ==> Clear(u, text, ops, ic, a, end)
  {
  }

  lemma ClearSooner(u: Unicode, text: string, ops: seq<Op>, ic: bool, a: Cursor, end: nat)
    requires Nowhere(u, text, ops, ic, a, a.pos) && Clear(u, text, ops, ic, Cursor(a.pos + 1, false), end)
    ensures Clear(u, text, ops, ic, a, end)
  {
    forall p: nat | a.pos <= p < end
      ensures Nowhere(u, text, ops, ic, a, p)
    {
      if p > a.pos { assert Nowhere(u, text, ops, ic, Cursor(a.pos + 1, false), p); }
    }
  }

  lemma Skip(u: Unicode, text: string, ops: seq<Op>, ic: bool, a: Cursor, r: seq<Found>)
    requires a.pos <= |text| && Nowhere(u, text, ops, ic, a, a.pos)
    requires Leftmost(u, text, ops, ic, Cursor(a.pos + 1, false), r)
    ensures Leftmost(u, text, ops, ic, a, r)
  {
    hide Nowhere, Clear, Attempt;
    ClearSooner(u, text, ops, ic, a, if r == [] then |text| + 1 else r[0].start);
    if r != [] { assert First(u, text, ops, ic, a, r[0].start, r[0].m); }
  }

  lemma FirstOnce(u: Unicode, text: string, ops: seq<Op>, ic: bool, a: Cursor, p: nat, m: Match, n: Match)
    requires First(u, text, ops, ic, a, p, m) && First(u, text, ops, ic, a, p, n)
    ensures m == n
  {
    hide Attempt;
  }

  lemma FirstIsThere(u: Unicode, text: string, ops: seq<Op>, ic: bool, a: Cursor, p: nat, m: Match)
    requires First(u, text, ops, ic, a, p, m)
    ensures !Nowhere(u, text, ops, ic, a, p)
  {
    hide Attempt;
  }

  lemma FirstIsLeft(u: Unicode, text: string, ops: seq<Op>, ic: bool, a: Cursor, p: nat, m: Match, end: nat)
    requires First(u, text, ops, ic, a, p, m) && a.pos <= p && Clear(u, text, ops, ic, a, end)
    ensures end <= p
  {
    hide First, Nowhere;
    FirstIsThere(u, text, ops, ic, a, p, m);
  }

  lemma {:induction false} LeftmostOnce(u: Unicode, text: string, ops: seq<Op>, ic: bool, a: Cursor, r: seq<Found>,
                                        s: seq<Found>)
    requires Leftmost(u, text, ops, ic, a, r) && Leftmost(u, text, ops, ic, a, s)
    ensures r == s
    decreases |r|
  {
    hide First, Clear;
    if r != [] {
      FirstIsLeft(u, text, ops, ic, a, r[0].start, r[0].m, if s == [] then |text| + 1 else s[0].start);
    }
    if s != [] {
      FirstIsLeft(u, text, ops, ic, a, s[0].start, s[0].m, if r == [] then |text| + 1 else r[0].start);
    }
    if r == [] || s == [] {
    } else {
      FirstOnce(u, text, ops, ic, a, r[0].start, r[0].m, s[0].m);
      LeftmostOnce(u, text, ops, ic, Past(r[0]), r[1..], s[1..]);
      assert r == [r[0]] + r[1..] && s == [s[0]] + s[1..] && r[0] == s[0];
    }
  }

  // And nothing else is what a scan returns.
  lemma ScanIff(u: Unicode, text: string, ops: seq<Op>, ic: bool, r: seq<Found>)
    ensures r == Scan(u, text, ops, ic, 0, false) <==> Leftmost(u, text, ops, ic, Cursor(0, false), r)
  {
    hide Leftmost, Scan;
    ScanLeftmost(u, text, ops, ic, Cursor(0, false));
    if Leftmost(u, text, ops, ic, Cursor(0, false), r) {
      LeftmostOnce(u, text, ops, ic, Cursor(0, false), r, Scan(u, text, ops, ic, 0, false));
    }
  }

  // ----- what follows for the spans -----

  ghost predicate Apart(r: seq<Found>) {
    forall i, j :: 0 <= i < j < |r| ==> r[i].m.pos <= r[j].start
  }

  predicate Holds(f: Found, p: nat) {
    f.start <= p && (p == f.start || p < f.m.pos)
  }

  ghost predicate Forward(text: string, from: nat, r: seq<Found>) {
    forall f :: f in r ==> from <= f.start <= f.m.pos <= |text|
  }

  lemma ApartCons(text: string, from: nat, f: Found, rest: seq<Found>)
    requires from <= f.start <= f.m.pos <= |text| && Apart(rest) && Forward(text, f.m.pos, rest)
    ensures Apart([f] + rest) && Forward(text, from, [f] + rest)
  {
    var r := [f] + rest;
    forall i, j | 0 <= i < j < |r|
      ensures r[i].m.pos <= r[j].start
    {
      assert r[j] == rest[j - 1] && r[j] in rest;
      if i > 0 { assert r[i] == rest[i - 1]; }
    }
  }

  // Matches do not overlap.
  lemma {:induction false} SpansApart(u: Unicode, text: string, ops: seq<Op>, ic: bool, a: Cursor, r: seq<Found>)
    requires Leftmost(u, text, ops, ic, a, r)
    ensures Apart(r) && Forward(text, a.pos, r)
    decreases |r|
  {
    hide First, Clear;
    if r == [] {
    } else {
      hide Apart, Forward;
      FirstForward(u, text, ops, ic, a, r[0].start, r[0].m);
      SpansApart(u, text, ops, ic, Past(r[0]), r[1..]);
      assert r == [r[0]] + r[1..];
      ApartCons(text, a.pos, r[0], r[1..]);
    }
  }

  // Every position where the pattern matches lies in a match or starts one.
  lemma {:induction false} SuccessIsFound(u: Unicode, text: string, ops: seq<Op>, ic: bool, a: Cursor, r: seq<Found>,
                                          p: nat)
    requires Leftmost(u, text, ops, ic, a, r) && !Nowhere(u, text, ops, ic, a, p) && a.pos <= p <= |text|
    ensures exists f :: f in r && Holds(f, p)
    decreases |r|
  {
    hide First, Nowhere, Attempt;
    if r == [] {
    } else {
      assert r == [r[0]] + r[1..];
      assert r[0].start <= p;
      if !Holds(r[0], p) {
        FirstForward(u, text, ops, ic, a, r[0].start, r[0].m);
        StillSomewhere(u, text, ops, ic, a, Past(r[0]), p);
        SuccessIsFound(u, text, ops, ic, Past(r[0]), r[1..], p);
      } else {
        assert r[0] in r;
      }
    }
  }

  lemma StillSomewhere(u: Unicode, text: string, ops: seq<Op>, ic: bool, a: Cursor, b: Cursor, p: nat)
    requires !Nowhere(u, text, ops, ic, a, p) && (b.again ==> p != b.pos)
    ensures !Nowhere(u, text, ops, ic, b, p)
  {
    hide Attempt;
  }
}
