/** Best-first order of scored rows, and the k best of them. */
module Ranking {
  // A row position and its score.
  datatype Hit = Hit(key: nat, score: real)

  // Higher score first, then the earlier row.
  predicate Before(a: Hit, b: Hit) {
    a.score > b.score || (a.score == b.score && a.key < b.key)
  }

  predicate Sorted(s: seq<Hit>) {
    forall i, j :: 0 <= i < j < |s| ==> Before(s[i], s[j])
  }

  predicate DistinctKeys(s: seq<Hit>) {
    forall i, j :: 0 <= i < j < |s| ==> s[i].key != s[j].key
  }

  function Insert(x: Hit, s: seq<Hit>): seq<Hit> {
    if s == [] || Before(x, s[0]) then [x] + s else [s[0]] + Insert(x, s[1..])
  }

  function Sort(hits: seq<Hit>): seq<Hit> {
    if hits == [] then [] else Insert(hits[|hits| - 1], Sort(hits[..|hits| - 1]))
  }

  function Take(s: seq<Hit>, k: nat): seq<Hit> {
    if |s| <= k then s else s[..k]
  }

  lemma {:induction false} InsertMeaning(x: Hit, s: seq<Hit>)
    requires Sorted(s) && (forall h :: h in s ==> h.key != x.key)
    ensures Sorted(Insert(x, s)) && |Insert(x, s)| == |s| + 1
    ensures forall h :: h in Insert(x, s) <==> h == x || h in s
  {
    if s == [] || Before(x, s[0]) {
    } else {
      assert s == [s[0]] + s[1..];
      InsertMeaning(x, s[1..]);
      var r := Insert(x, s[1..]);
      assert forall h :: h in r ==> Before(s[0], h);
    }
  }

  lemma {:induction false} SortMeaning(hits: seq<Hit>)
    requires DistinctKeys(hits)
    ensures Sorted(Sort(hits)) && |Sort(hits)| == |hits|
    ensures forall h :: h in Sort(hits) <==> h in hits
  {
    if hits == [] {
    } else {
      var init, last := hits[..|hits| - 1], hits[|hits| - 1];
      assert hits == init + [last];
      SortMeaning(init);
      assert forall h :: h in init ==> h.key != last.key;
      InsertMeaning(last, Sort(init));
    }
  }

  // ----- the streaming top k -----

  // What the heap keeps after one more hit: it grows to k, and from then on
  // the new hit replaces the worst if it comes before it.
  function Offer(best: seq<Hit>, k: nat, x: Hit): seq<Hit> {
    if |best| < k then Insert(x, best)
    else if best != [] && Before(x, best[|best| - 1]) then Insert(x, best[..|best| - 1])
    else best
  }

  lemma {:induction false} TakeInsertFront(x: Hit, s: seq<Hit>, k: nat)
    requires Sorted(s) && k > 0 && s != [] && Before(x, s[0])
    ensures Take([x] + s, k) == Offer(Take(s, k), k, x)
  {
    if |s| >= k {
      var best := s[..k];
      assert Before(x, best[k - 1]) && best[..k - 1] == s[..k - 1];
      assert ([x] + s)[..k] == [x] + s[..k - 1];
    }
  }

  lemma {:induction false} TakeInsert(x: Hit, s: seq<Hit>, k: nat)
    requires Sorted(s)
    ensures Take(Insert(x, s), k) == Offer(Take(s, k), k, x)
  {
    if k == 0 || s == [] {
    } else if Before(x, s[0]) {
      TakeInsertFront(x, s, k);
    } else {
      hide Offer;
      var rest, t := s[1..], Take(s[1..], k - 1);
      TakeInsert(x, rest, k - 1);
      assert Take(s, k) == [s[0]] + t;
      assert Take([s[0]] + Insert(x, rest), k) == [s[0]] + Take(Insert(x, rest), k - 1);
      OfferCons(s[0], t, k, x);
    }
  }

  lemma {:induction false} OfferCons(h: Hit, t: seq<Hit>, k: nat, x: Hit)
    requires k >= 1 && !Before(x, h) && Sorted([h] + t) && |t| <= k - 1
    ensures Offer([h] + t, k, x) == [h] + Offer(t, k - 1, x)
  {
    var s := [h] + t;
    assert s[1..] == t;
    if |s| >= k && t != [] {
      assert s[|s| - 1] == t[|t| - 1];
      assert s[..|s| - 1] == [h] + t[..|t| - 1] && s[..|s| - 1][1..] == t[..|t| - 1];
    }
  }

  // Streaming over all hits keeps exactly the first k of the full sort.
  lemma {:induction false} StreamStep(hits: seq<Hit>, x: Hit, k: nat)
    requires DistinctKeys(hits + [x])
    ensures Take(Sort(hits + [x]), k) == Offer(Take(Sort(hits), k), k, x)
  {
    assert (hits + [x])[..|hits|] == hits;
    assert DistinctKeys(hits) by {
      assert forall i :: 0 <= i < |hits| ==> (hits + [x])[i] == hits[i];
    }
    SortMeaning(hits);
    TakeInsert(x, Sort(hits), k);
  }

  // ----- what a top k is -----

  // Best-first by score, k of the hits or all of them, and nothing omitted
  // scores higher than anything kept.
  ghost predicate TopScores(r: seq<Hit>, hits: seq<Hit>, k: nat) {
    && |r| == (if |hits| < k then |hits| else k)
    && DistinctKeys(r) && (forall h :: h in r ==> h in hits)
    && (forall i, j :: 0 <= i < j < |r| ==> r[i].score >= r[j].score)
    && (forall h, g :: h in r && g in hits && g !in r ==> h.score >= g.score)
  }

  lemma {:induction false} SortIsTop(hits: seq<Hit>, k: nat)
    requires DistinctKeys(hits)
    ensures TopScores(Take(Sort(hits), k), hits, k)
  {
    SortMeaning(hits);
    var s, r := Sort(hits), Take(Sort(hits), k);
    assert forall i :: 0 <= i < |r| ==> r[i] == s[i] && s[i] in s;
    forall h, g | h in r && g in hits && g !in r
      ensures h.score >= g.score
    {
      LaterIsWorse(s, k, h, g);
    }
  }

  lemma {:induction false} LaterIsWorse(s: seq<Hit>, k: nat, h: Hit, g: Hit)
    requires Sorted(s) && h in Take(s, k) && g in s && g !in Take(s, k)
    ensures h.score >= g.score
  {
    var r := Take(s, k);
    var i :| 0 <= i < |r| && r[i] == h;
    var j :| 0 <= j < |s| && s[j] == g;
    assert forall a :: 0 <= a < |r| ==> r[a] == s[a] && r[a] != g;
    assert i < |r| <= j;
    assert s[i] == h && Before(s[i], s[j]);
  }
}
