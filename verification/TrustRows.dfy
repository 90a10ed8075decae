/** What each row of an assessment says: its confidence as a weighted sum of
    agreement, lead and freshness, when that sum is capped, and how it moves
    with age and lead. */
module TrustRows {
  import opened Basics
  import opened Wrappers
  import opened Supersession
  import opened Trust

  // ----- the weighted sum -----

  predicate Primaries(signals: set<Signal>) {
    Bm25 in signals && Dense in signals
  }

  // 0.9 when both primary signals agree, 0.5 for one, 0.1 more for a facet.
  function AgreementPart(signals: set<Signal>): real {
    if Facet in signals then
      if Primaries(signals) then 1.0 else if Bm25 in signals || Dense in signals then 0.6 else 0.1
    else
      if Primaries(signals) then 0.9 else if Bm25 in signals || Dense in signals then 0.5 else 0.0
  }

  // The lead of the first result over the second; a first result that is alone
  // counts fully, all others half.
  ghost predicate LeadPart(exp: real -> real, reranked: Ranked, i: nat, part: real)
    requires i < |reranked|
  {
    if i > 0 then part == 0.5
    else if |reranked| == 1 then part == 1.0
    else part == Max(0.5, 1.0 - exp(-Max(0.0, reranked[0].1 - reranked[1].1) / 1.5))
  }

  // Half is kept for ever, the other half fades over 180 days; an atom dated in
  // the future is as fresh as one dated now.
  ghost predicate TimePart(exp: real -> real, now: int, effectiveTime: int, part: real) {
    && (now <= effectiveTime ==> part == 0.5 + 0.5 * exp(0.0))
    && (now > effectiveTime ==> part == 0.5 + 0.5 * exp(-((now - effectiveTime) as real) / 15_552_000.0))
  }

  ghost predicate Weighs(q: Recall, exp: real -> real, i: nat, w: real)
    requires i < |q.reranked| && q.reranked[i].0 in q.store.atoms
  {
    exists lead: real, time: real ::
      && LeadPart(exp, q.reranked, i, lead)
      && TimePart(exp, q.now, q.store.atoms[q.reranked[i].0].effectiveTime, time)
      && w == 0.5 * AgreementPart(SignalsOf(q, q.reranked[i].0)) + 0.3 * lead + 0.2 * time
  }

  lemma TimeMeaning(exp: real -> real, now: int, effectiveTime: int)
    requires IsExp(exp)
    ensures TimePart(exp, now, effectiveTime, TemporalScore(exp, now - effectiveTime))
  {
    hide IsExp;
    if now > effectiveTime {
      SamePower(now - effectiveTime);
    } else {
      NoAge();
    }
  }

  lemma SamePower(age: int)
    ensures -(age as real) / (TRUST_TAU as real) == -(age as real) / 15_552_000.0
  {
    assert TRUST_TAU == 15_552_000;
  }

  lemma NoAge()
    ensures -(0 as real) / (TRUST_TAU as real) == 0.0
  {
  }

  lemma LeadMeaning(exp: real -> real, reranked: Ranked, i: nat)
    requires i < |reranked|
    ensures LeadPart(exp, reranked, i, GapScore(exp, i == 0, if i == 0 then TopGap(reranked) else None))
  {
  }

  lemma ConfidenceWeighs(q: Recall, exp: real -> real, i: nat)
    requires IsExp(exp) && i < |q.reranked| && q.reranked[i].0 in q.store.atoms
    ensures Weighs(q, exp, i, ConfidenceOf(q, exp, i))
  {
    hide IsExp, GapScore, TemporalScore, Confidence, LeadPart, TimePart;
    var id := q.reranked[i].0;
    var gap, age := if i == 0 then TopGap(q.reranked) else None, q.now - q.store.atoms[id].effectiveTime;
    ClampIsIdle(exp, SignalsOf(q, id), i == 0, gap, age);
    LeadMeaning(exp, q.reranked, i);
    TimeMeaning(exp, q.now, q.store.atoms[id].effectiveTime);
    var lead, time := GapScore(exp, i == 0, gap), TemporalScore(exp, age);
    assert LeadPart(exp, q.reranked, i, lead) && TimePart(exp, q.now, q.store.atoms[id].effectiveTime, time);
    assert Agreement(SignalsOf(q, id)) == AgreementPart(SignalsOf(q, id));
  }

  // The parts have one value each, so the sum has.
  lemma WeighsOnce(q: Recall, exp: real -> real, i: nat, w: real, u: real)
    requires i < |q.reranked| && q.reranked[i].0 in q.store.atoms && Weighs(q, exp, i, w) && Weighs(q, exp, i, u)
    ensures w == u
  {
  }

  // ----- the rows -----

  // Imported in full by a bulk import, and found by at most one of keyword,
  // meaning and facet; the auxiliary vector signal reads as meaning.
  predicate Alone(signals: set<Signal>) {
    && !(Bm25 in signals && Facet in signals)
    && !(Bm25 in signals && (Dense in signals || OpenAi in signals))
    && !(Facet in signals && (Dense in signals || OpenAi in signals))
  }

  predicate Suspect(q: Recall, id: Id)
    requires id in q.store.atoms
  {
    && q.store.atoms[id].kind == DocumentChunk && SourcesOf(q.store, id) == {BulkImport}
    && Alone(SignalsOf(q, id))
  }

  lemma SuspectIsUncorroborated(q: Recall, id: Id)
    requires id in q.store.atoms
    ensures Suspect(q, id) <==>
            UncorroboratedCorpus(q.store.atoms[id].kind, SourcesOf(q.store, id), SignalsOf(q, id))
  {
    hide SourcesOf, SignalsOf;
    FamilyCount(SignalsOf(q, id));
    OnlyImports(SourcesOf(q.store, id));
  }

  lemma OnlyImports(sources: set<Source>)
    ensures sources == {BulkImport} <==> sources != {} && sources <= {BulkImport}
  {
  }

  function Only(t: Signal, on: bool): set<Signal> {
    if on then {t} else {}
  }

  lemma ThreeApart(b: bool, d: bool, f: bool)
    ensures |Only(Bm25, b) + Only(Dense, d) + Only(Facet, f)| ==
            (if b then 1 else 0) + (if d then 1 else 0) + if f then 1 else 0
  {
    var x, y, z := Only(Bm25, b), Only(Dense, d), Only(Facet, f);
    assert |x + y| == |x| + |y| && |x + y + z| == |x + y| + |z|;
  }

  lemma FamiliesApart(signals: set<Signal>)
    ensures Families(signals) == Only(Bm25, Bm25 in signals) + Only(Dense, Dense in signals || OpenAi in signals) +
                                 Only(Facet, Facet in signals)
  {
    var all := Only(Bm25, Bm25 in signals) + Only(Dense, Dense in signals || OpenAi in signals) +
               Only(Facet, Facet in signals);
    forall t: Signal
      ensures t in Families(signals) <==> t in all
    {
      match t case Bm25 => case Dense => case Facet => case OpenAi =>
    }
  }

  lemma FamilyCount(signals: set<Signal>)
    ensures |Families(signals)| < 2 <==> Alone(signals)
  {
    hide Families, Only;
    var b, d, f := Bm25 in signals, Dense in signals || OpenAi in signals, Facet in signals;
    FamiliesApart(signals);
    ThreeApart(b, d, f);
  }

  // The sum, but no more than 0.4.
  ghost predicate Capped(q: Recall, exp: real -> real, i: nat, confidence: real)
    requires i < |q.reranked| && q.reranked[i].0 in q.store.atoms
  {
    exists w :: Weighs(q, exp, i, w) && confidence == if w > 0.4 then 0.4 else w
  }

  // A live row carries the sum, or at most 0.4 of it if the atom is suspect; a
  // replaced row at most 0.4; and a row is trusted from 0.6 on.
  ghost predicate RowSays(q: Recall, exp: real -> real, i: nat, v: Verdict)
    requires i < |q.reranked|
  {
    var id := q.reranked[i].0;
    && (v.atomId, v.score) == q.reranked[i] && id in q.store.atoms
    && (v.shouldTrust <==> v.confidence >= 0.6)
    && match q.store.atoms[id].status
       case Live =>
         && v.supersededBy == None
         && v.why == (if Suspect(q, id) then Uncorroborated else Evidence)
         && if Suspect(q, id) then Capped(q, exp, i, v.confidence) else Weighs(q, exp, i, v.confidence)
       case Superseded =>
         && v.supersededBy.Some? && v.why.Replaced? && Capped(q, exp, i, v.confidence)
       case _ => false
  }

  lemma JudgeSays(q: Recall, exp: real -> real, i: nat)
    requires IsExp(exp) && i < |q.reranked| && Judge(q, exp, i).Ok? && Judge(q, exp, i).value.Some?
    ensures RowSays(q, exp, i, Judge(q, exp, i).value.value)
  {
    hide IsExp, Weighs, ConfidenceOf, Suspect, UncorroboratedCorpus, LiveEnd, Pins, Forks;
    ConfidenceWeighs(q, exp, i);
    SuspectIsUncorroborated(q, q.reranked[i].0);
  }

  ghost predicate SaysSome(q: Recall, exp: real -> real, k: nat, v: Verdict) {
    exists i: nat :: k <= i < |q.reranked| && RowSays(q, exp, i, v)
  }

  predicate LiveResult(q: Recall, i: nat)
    requires i < |q.reranked|
  {
    q.reranked[i].0 in q.store.atoms && q.store.atoms[q.reranked[i].0].status == Live
  }

  ghost predicate SaidBy(q: Recall, exp: real -> real, i: nat, out: seq<Verdict>)
    requires i < |q.reranked|
  {
    exists k: nat :: k < |out| && k <= i && RowSays(q, exp, i, out[k])
  }

  // Every row of every assessment says what its result earns, and every live
  // result has its row.
  lemma AssessmentSays(q: Recall, exp: real -> real, out: seq<Verdict>)
    requires IsExp(exp) && Assessed(q, exp, |q.reranked|) == Ok(out)
    ensures forall k: nat :: k < |out| ==> SaysSome(q, exp, k, out[k])
    ensures forall i: nat :: i < |q.reranked| && LiveResult(q, i) ==> SaidBy(q, exp, i, out)
  {
    hide Judge, RowSays, IsExp, Assessed;
    AssessmentSound(q, exp, out);
    var kept := Kept(q, exp, |q.reranked|);
    forall k: nat | k < |out|
      ensures SaysSome(q, exp, k, out[k])
    {
      var i := kept[k];
      JudgeSays(q, exp, i);
      RisesPast(kept, k);
      assert RowSays(q, exp, i, out[k]);
    }
    forall i: nat | i < |q.reranked| && LiveResult(q, i)
      ensures SaidBy(q, exp, i, out)
    {
      LiveIsKept(q, exp, out, kept, i);
      var k :| 0 <= k < |kept| && kept[k] == i;
      JudgeSays(q, exp, i);
      RisesPast(kept, k);
      assert RowSays(q, exp, i, out[k]);
    }
  }

  lemma {:induction false} RisesPast(kept: seq<nat>, k: nat)
    requires k < |kept| && forall a, b :: 0 <= a < b < |kept| ==> kept[a] < kept[b]
    ensures k <= kept[k]
  {
    if k == 0 {
    } else {
      RisesPast(kept, k - 1);
    }
  }

  lemma LiveIsKept(q: Recall, exp: real -> real, out: seq<Verdict>, kept: seq<nat>, i: nat)
    requires i < |q.reranked| && LiveResult(q, i)
    requires From(q, exp, out, kept, |q.reranked|)
    ensures i in kept
  {
    hide LiveVerdict;
    assert Judge(q, exp, i) != Ok(None);
  }

  // ----- who is trusted -----

  lemma WeighsAtLeast(q: Recall, exp: real -> real, i: nat, w: real)
    requires IsExp(exp) && i < |q.reranked| && q.reranked[i].0 in q.store.atoms && Weighs(q, exp, i, w)
    ensures 0.5 * AgreementPart(SignalsOf(q, q.reranked[i].0)) + 0.25 <= w
    ensures w <= 0.5 * AgreementPart(SignalsOf(q, q.reranked[i].0)) + 0.5
  {
    hide IsExp, ConfidenceOf, AgreementPart, Weighs;
    ConfidenceWeighs(q, exp, i);
    WeighsOnce(q, exp, i, w, ConfidenceOf(q, exp, i));
    PartsBound(q, exp, i);
  }

  lemma PartsBound(q: Recall, exp: real -> real, i: nat)
    requires IsExp(exp) && i < |q.reranked| && q.reranked[i].0 in q.store.atoms
    ensures 0.5 * AgreementPart(SignalsOf(q, q.reranked[i].0)) + 0.25 <= ConfidenceOf(q, exp, i)
    ensures ConfidenceOf(q, exp, i) <= 0.5 * AgreementPart(SignalsOf(q, q.reranked[i].0)) + 0.5
  {
    hide IsExp, GapScore, TemporalScore, Confidence;
    var id := q.reranked[i].0;
    var gap, age := if i == 0 then TopGap(q.reranked) else None, q.now - q.store.atoms[id].effectiveTime;
    ClampIsIdle(exp, SignalsOf(q, id), i == 0, gap, age);
    SubScores(exp, i == 0, gap, age);
    assert Agreement(SignalsOf(q, id)) == AgreementPart(SignalsOf(q, id));
  }

  // A live atom found by both primary signals is trusted, however old, however
  // tight the lead; one found by neither is not, nor is a suspect or replaced one.
  lemma WhoIsTrusted(q: Recall, exp: real -> real, i: nat, v: Verdict)
    requires IsExp(exp) && i < |q.reranked| && RowSays(q, exp, i, v)
    ensures var signals := SignalsOf(q, v.atomId);
            && (LiveResult(q, i) && Primaries(signals) ==> v.shouldTrust && v.why == Evidence)
            && (Bm25 !in signals && Dense !in signals ==> !v.shouldTrust)
            && (Suspect(q, v.atomId) || !LiveResult(q, i) ==> !v.shouldTrust)
  {
    hide IsExp, Weighs, SignalsOf;
    forall w | Weighs(q, exp, i, w)
      ensures 0.5 * AgreementPart(SignalsOf(q, v.atomId)) + 0.25 <= w
      ensures w <= 0.5 * AgreementPart(SignalsOf(q, v.atomId)) + 0.5
    {
      WeighsAtLeast(q, exp, i, w);
    }
  }

  // ----- age and lead -----

  ghost predicate Increasing(exp: real -> real) {
    forall x, y :: x < y ==> exp(x) < exp(y)
  }

  lemma Later(exp: real -> real, now: int, later: int, effectiveTime: int, part: real, faded: real)
    requires Increasing(exp) && now < later
    requires TimePart(exp, now, effectiveTime, part) && TimePart(exp, later, effectiveTime, faded)
    ensures if effectiveTime < later then faded < part else faded == part
  {
    var a, b := (now - effectiveTime) as real, (later - effectiveTime) as real;
    if now > effectiveTime {
      assert -b / 15_552_000.0 < -a / 15_552_000.0;
    } else if later > effectiveTime {
      assert -b / 15_552_000.0 < 0.0;
    }
  }

  // The same results assessed later: the confidence of a row no cap holds down
  // falls, unless its atom is still dated in the future, and no row's rises.
  lemma AgeLowers(q: Recall, exp: real -> real, later: int, i: nat, v: Verdict, u: Verdict)
    requires Increasing(exp) && i < |q.reranked| && q.now < later
    requires RowSays(q, exp, i, v) && RowSays(q.(now := later), exp, i, u)
    ensures u.confidence <= v.confidence && (u.shouldTrust ==> v.shouldTrust)
    ensures LiveResult(q, i) && !Suspect(q, v.atomId) ==>
              (u.confidence < v.confidence <==> q.store.atoms[v.atomId].effectiveTime < later)
  {
    hide Increasing, Weighs, AgreementPart;
    var r := q.(now := later);
    var id := q.reranked[i].0;
    assert Suspect(r, id) <==> Suspect(q, id);
    forall w, x | Weighs(q, exp, i, w) && Weighs(r, exp, i, x)
      ensures if q.store.atoms[id].effectiveTime < later then x < w else x == w
    {
      LaterWeighs(q, exp, later, i, w, x);
    }
  }

  lemma LaterWeighs(q: Recall, exp: real -> real, later: int, i: nat, w: real, x: real)
    requires Increasing(exp) && i < |q.reranked| && q.reranked[i].0 in q.store.atoms && q.now < later
    requires Weighs(q, exp, i, w) && Weighs(q.(now := later), exp, i, x)
    ensures if q.store.atoms[q.reranked[i].0].effectiveTime < later then x < w else x == w
  {
    hide Increasing, LeadPart, TimePart, AgreementPart;
    var r, time := q.(now := later), q.store.atoms[q.reranked[i].0].effectiveTime;
    var l, t :| LeadPart(exp, q.reranked, i, l) && TimePart(exp, q.now, time, t) &&
                w == 0.5 * AgreementPart(SignalsOf(q, q.reranked[i].0)) + 0.3 * l + 0.2 * t;
    var m, s :| LeadPart(exp, q.reranked, i, m) && TimePart(exp, later, time, s) &&
                x == 0.5 * AgreementPart(SignalsOf(r, q.reranked[i].0)) + 0.3 * m + 0.2 * s;
    LeadOnce(exp, q.reranked, i, l, m);
    Later(exp, q.now, later, time, t, s);
  }

  lemma LeadOnce(exp: real -> real, reranked: Ranked, i: nat, l: real, m: real)
    requires i < |reranked| && LeadPart(exp, reranked, i, l) && LeadPart(exp, reranked, i, m)
    ensures l == m
  {
  }

  lemma WiderLead(exp: real -> real, reranked: Ranked, more: Ranked, l: real, m: real)
    requires Increasing(exp) && 0 < |reranked| == |more| && more[1..] == reranked[1..]
    requires reranked[0].1 <= more[0].1
    requires LeadPart(exp, reranked, 0, l) && LeadPart(exp, more, 0, m)
    ensures l <= m
  {
    if |reranked| > 1 {
      assert more[1..][0] == more[1] && reranked[1..][0] == reranked[1];
      var a, b := Max(0.0, reranked[0].1 - reranked[1].1), Max(0.0, more[0].1 - more[1].1);
      assert a <= b && -b / 1.5 <= -a / 1.5;
      assert exp(-b / 1.5) <= exp(-a / 1.5);
    }
  }

  // A first result that scores higher, all else alike, is as confident or more.
  lemma LeadLifts(q: Recall, exp: real -> real, score: real, v: Verdict, u: Verdict)
    requires Increasing(exp) && 0 < |q.reranked| && q.reranked[0].1 <= score
    requires RowSays(q, exp, 0, v)
    requires RowSays(q.(reranked := q.reranked[0 := (q.reranked[0].0, score)]), exp, 0, u)
    ensures v.confidence <= u.confidence && (v.shouldTrust ==> u.shouldTrust)
  {
    hide Increasing, Weighs, AgreementPart;
    var r, id := q.(reranked := q.reranked[0 := (q.reranked[0].0, score)]), q.reranked[0].0;
    assert r.reranked[0].0 == id && (Suspect(r, id) <==> Suspect(q, id));
    forall w, x | Weighs(q, exp, 0, w) && Weighs(r, exp, 0, x)
      ensures w <= x
    {
      LeadWeighs(q, exp, score, w, x);
    }
  }

  lemma LeadWeighs(q: Recall, exp: real -> real, score: real, w: real, x: real)
    requires Increasing(exp) && 0 < |q.reranked| && q.reranked[0].1 <= score && q.reranked[0].0 in q.store.atoms
    requires Weighs(q, exp, 0, w) && Weighs(q.(reranked := q.reranked[0 := (q.reranked[0].0, score)]), exp, 0, x)
    ensures w <= x
  {
    hide Increasing, LeadPart, TimePart, AgreementPart;
    var more := q.reranked[0 := (q.reranked[0].0, score)];
    var r, id, time := q.(reranked := more), q.reranked[0].0, q.store.atoms[q.reranked[0].0].effectiveTime;
    assert more[0].0 == id && SignalsOf(r, id) == SignalsOf(q, id);
    var l, t :| LeadPart(exp, q.reranked, 0, l) && TimePart(exp, q.now, time, t) &&
                w == 0.5 * AgreementPart(SignalsOf(q, id)) + 0.3 * l + 0.2 * t;
    var m, s :| LeadPart(exp, more, 0, m) && TimePart(exp, q.now, time, s) &&
                x == 0.5 * AgreementPart(SignalsOf(r, id)) + 0.3 * m + 0.2 * s;
    TimeOnce(exp, q.now, time, t, s);
    WiderLead(exp, q.reranked, more, l, m);
  }

  lemma TimeOnce(exp: real -> real, now: int, effectiveTime: int, t: real, s: real)
    requires TimePart(exp, now, effectiveTime, t) && TimePart(exp, now, effectiveTime, s)
    ensures t == s
  {
  }

  // A lone live result found by both primary signals, dated now: 0.95, trusted.
  lemma FreshAgreement(exp: real -> real, id: Id, score: real, kind: Kind, now: int)
    requires IsExp(exp) && exp(0.0) == 1.0
    ensures var st := Store(map[id := Atom(Live, now, kind)], {}, map[]);
            var q := Recall([(id, score)], map[id := {Bm25, Dense}], st, now);
            Assessed(q, exp, 1) == Ok([Verdict(id, score, 0.95, true, Evidence, None)])
  {
    hide IsExp, LiveVerdict, Weighs, RowSays, Judge;
    var st := Store(map[id := Atom(Live, now, kind)], {}, map[]);
    var q := Recall([(id, score)], map[id := {Bm25, Dense}], st, now);
    var v := LiveVerdict(q, exp, 0);
    LiveJudged(q, exp);
    assert Assessed(q, exp, 0) == Ok([]) && [] + [v] == [v];
    assert Assessed(q, exp, 1) == Ok([v]);
    JudgeSays(q, exp, 0);
    assert Weighs(q, exp, 0, 0.95) by { FreshWeighs(q, exp); }
    FreshRow(q, exp, v);
  }

  lemma LiveJudged(q: Recall, exp: real -> real)
    requires 0 < |q.reranked| && LiveResult(q, 0)
    ensures Judge(q, exp, 0) == Ok(Some(LiveVerdict(q, exp, 0)))
  {
    hide LiveVerdict;
  }

  lemma FreshRow(q: Recall, exp: real -> real, v: Verdict)
    requires 0 < |q.reranked| && LiveResult(q, 0) && SignalsOf(q, q.reranked[0].0) == {Bm25, Dense}
    requires RowSays(q, exp, 0, v) && Weighs(q, exp, 0, 0.95)
    ensures v == Verdict(q.reranked[0].0, q.reranked[0].1, 0.95, true, Evidence, None)
  {
    hide Weighs;
    forall w | Weighs(q, exp, 0, w)
      ensures w == 0.95
    {
      WeighsOnce(q, exp, 0, w, 0.95);
    }
  }

  lemma FreshWeighs(q: Recall, exp: real -> real)
    requires |q.reranked| == 1 && q.reranked[0].0 in q.store.atoms && exp(0.0) == 1.0
    requires q.store.atoms[q.reranked[0].0].effectiveTime == q.now
    requires SignalsOf(q, q.reranked[0].0) == {Bm25, Dense}
    ensures Weighs(q, exp, 0, 0.95)
  {
    assert LeadPart(exp, q.reranked, 0, 1.0) && TimePart(exp, q.now, q.now, 1.0);
    assert 0.5 * AgreementPart({Bm25, Dense}) + 0.3 * 1.0 + 0.2 * 1.0 == 0.95;
  }
}
