/** The recall payload: ranked entries under a token budget, readable back. */
module Payload {
  import opened Wrappers
  import opened Text

  // A recall result with the atom fields the payload renders. `head` is the
  // date, confidence and gist; `provenance` the text of the provenance line.
  datatype Recalled = Recalled(atomId: string, head: string, text: string, provenance: string,
                           shouldTrust: Option<bool>, supersededBy: Option<string>)

  const CHARS_PER_TOKEN: nat := 3
  const HANDLE_SCHEME: string := "p3://"
  const BODY_INDENT: string := "  "
  const SENTINEL_LOW_CONFIDENCE: string := "low confidence: no trusted match"
  const SENTINEL_BUDGET_TOO_SMALL: string := "recall: token budget too small"
  const ENTRY_SEPARATOR: string := "\n\n"
  const MAX_LOW_CONF_HANDLES: nat := 3

  function EstimateTokens(text: string): (tokens: nat)
    ensures 3 * (tokens - 1) < |text| <= 3 * tokens
  {
    (|text| + CHARS_PER_TOKEN - 1) / CHARS_PER_TOKEN
  }

  // ----- furniture and bodies -----

  function OneLine(line: string): string {
    Join(" ", SplitLines(line))
  }

  function BodyLines(text: string): seq<string> {
    if SplitLines(text) == [] then [""] else SplitLines(text)
  }

  function Indented(ls: seq<string>): seq<string> {
    seq(|ls|, i requires 0 <= i < |ls| => BODY_INDENT + ls[i])
  }

  function IndentBody(text: string): string {
    Join(NL, Indented(BodyLines(text)))
  }

  predicate Trusted(r: Recalled) {
    r.shouldTrust == Some(true)
  }

  predicate Replaced(r: Recalled) {
    r.supersededBy.Some? && r.supersededBy.value != ""
  }

  function SuccessorNote(r: Recalled): string {
    if Replaced(r) then ", superseded by " + HANDLE_SCHEME + r.supersededBy.value else ""
  }

  function HandleLine(r: Recalled): string {
    OneLine(HANDLE_SCHEME + r.atomId + " | " + r.head)
  }

  function ProvenanceLine(r: Recalled): string {
    OneLine("source " + r.provenance + SuccessorNote(r))
  }

  function Tier0Handle(r: Recalled): string {
    OneLine(HandleLine(r) + (if r.shouldTrust == Some(false) then " [untrusted]" else "") + SuccessorNote(r))
  }

  function Tier1Entry(r: Recalled): string {
    HandleLine(r) + NL + IndentBody(r.text) + NL + ProvenanceLine(r)
  }

  // A result at its best: its body if trusted, else a labelled handle.
  function BareEntry(r: Recalled): string {
    if Trusted(r) then Tier1Entry(r) else Tier0Handle(r)
  }

  // ----- the budget -----

  type Enricher = Recalled -> seq<string>

  // The best-fitting entry: lines shed from the end, the body never touched.
  method EnrichedEntry(r: Recalled, enricher: Enricher, remaining: int) returns (entry: string)
    ensures entry == Tier1Entry(r) ||
            exists m :: 1 <= m <= |enricher(r)| && entry == Tier1Entry(r) + NL + Join(NL, enricher(r)[..m])
    ensures entry != Tier1Entry(r) ==> EstimateTokens(entry) <= remaining
  {
    entry := Tier1Entry(r);
    var extra := enricher(r);
    assert extra == enricher(r)[..|extra|];
    while extra != []
      invariant |extra| <= |enricher(r)| && extra == enricher(r)[..|extra|]
    {
      var candidate := entry + NL + Join(NL, extra);
      if EstimateTokens(candidate) <= remaining { return candidate; }
      extra := extra[..|extra| - 1];
    }
  }

  // An entry that holds a result whole.
  ghost predicate Whole(entry: string, r: Recalled, enricher: Option<Enricher>) {
    || entry == BareEntry(r)
    || (Trusted(r) && enricher.Some? &&
        exists m :: 1 <= m <= |enricher.value(r)| && entry == Tier1Entry(r) + NL + Join(NL, enricher.value(r)[..m]))
  }

  // The first k results whole and then handles, one entry a result, in rank order.
  ghost predicate Delivers(entries: seq<string>, results: seq<Recalled>, enricher: Option<Enricher>, k: nat) {
    && k <= |entries| <= |results|
    && (forall i :: 0 <= i < k ==> Whole(entries[i], results[i], enricher))
    && (forall i :: k <= i < |entries| ==> entries[i] == Tier0Handle(results[i]))
  }

  predicate Fits(parts: seq<string>, budget: int) {
    EstimateTokens(Join(ENTRY_SEPARATOR, parts)) <= budget
  }

  method HandleTail(fitted: seq<string>, remaining: seq<Recalled>, budget: int) returns (out: seq<string>)
    requires Fits(fitted, budget)
    ensures |out| <= |remaining| && forall i :: 0 <= i < |out| ==> out[i] == Tier0Handle(remaining[i])
    ensures Fits(fitted + out, budget)
    ensures |out| < |remaining| ==> !Fits(fitted + out + [Tier0Handle(remaining[|out|])], budget)
  {
    hide Fits, Tier0Handle, Join;
    out := [];
    assert fitted + out == fitted;
    for n := 0 to |remaining|
      invariant |out| == n && forall i :: 0 <= i < n ==> out[i] == Tier0Handle(remaining[i])
      invariant Fits(fitted + out, budget)
    {
      var handle := Tier0Handle(remaining[n]);
      var trial := fitted + out + [handle];
      if !Fits(trial, budget) { return; }
      assert trial == fitted + (out + [handle]);
      out := out + [handle];
    }
  }

  datatype Delivery = Delivery(text: string, tokens: nat, lowConfidence: bool)

  datatype Error = NegativeBudget

  // What a payload in trusted mode is: ranked entries as long as they fit, the
  // next handle not fitting; with no entry at all a sentinel, or nothing.
  ghost predicate TrustedPayload(p: Delivery, entries: seq<string>, k: nat, results: seq<Recalled>, budget: int,
                                 enricher: Option<Enricher>) {
    && !p.lowConfidence && Delivers(entries, results, enricher, k) && Fits(entries, budget)
    && (|entries| < |results| ==> !Fits(entries + [Tier0Handle(results[|entries|])], budget))
    && (enricher.None? && k < |results| ==> !Fits(entries[..k] + [BareEntry(results[k])], budget))
    && p.text == (if entries != [] then Join(ENTRY_SEPARATOR, entries)
                  else if EstimateTokens(SENTINEL_BUDGET_TOO_SMALL) <= budget then SENTINEL_BUDGET_TOO_SMALL else "")
  }

  // The other mode: the sentinel and a few handles, never a body.
  ghost predicate WeakPayload(p: Delivery, n: nat, results: seq<Recalled>, budget: int) {
    && p.lowConfidence && n <= |results| && n <= MAX_LOW_CONF_HANDLES
    && if EstimateTokens(SENTINEL_LOW_CONFIDENCE) > budget then p.text == "" && n == 0
       else
         && p.text == Join(NL, [SENTINEL_LOW_CONFIDENCE] + Handles(results[..n]))
         && (n < |results| && n < MAX_LOW_CONF_HANDLES ==>
              EstimateTokens(Join(NL, [SENTINEL_LOW_CONFIDENCE] + Handles(results[..n]) + [Tier0Handle(results[n])]))
                > budget)
  }

  function Handles(results: seq<Recalled>): seq<string> {
    seq(|results|, i requires 0 <= i < |results| => Tier0Handle(results[i]))
  }

  method AssemblePayload(results: seq<Recalled>, tokenBudget: int, enricher: Option<Enricher>)
    returns (r: Result<Delivery, Error>, ghost entries: seq<string>, ghost k: nat)
    ensures r.Err? <==> tokenBudget < 0
    ensures r.Ok? ==> EstimateTokens(r.value.text) == r.value.tokens <= tokenBudget
    ensures r.Ok? && (exists x :: x in results && Trusted(x)) ==>
            TrustedPayload(r.value, entries, k, results, tokenBudget, enricher)
    ensures r.Ok? && !(exists x :: x in results && Trusted(x)) ==> WeakPayload(r.value, k, results, tokenBudget)
  {
    entries, k := [], 0;
    if tokenBudget < 0 { return Err(NegativeBudget), [], 0; }
    if !exists x :: x in results && Trusted(x) {
      var weak, n := LowConfidencePayload(results, tokenBudget);
      return Ok(weak), [], n;
    }
    var chosen: seq<string>;
    chosen, k := FillEntries(results, tokenBudget, enricher);
    entries := chosen;
    var payload := FinishPayload(results, chosen, tokenBudget);
    return Ok(Delivery(payload, EstimateTokens(payload), false)), entries, k;
  }

  // The loop over ranked results.
  method FillEntries(results: seq<Recalled>, tokenBudget: int, enricher: Option<Enricher>)
    returns (entries: seq<string>, ghost k: nat)
    requires tokenBudget >= 0
    ensures Delivers(entries, results, enricher, k) && Fits(entries, tokenBudget)
    ensures |entries| < |results| ==> !Fits(entries + [Tier0Handle(results[|entries|])], tokenBudget)
    ensures enricher.None? && k < |results| ==> !Fits(entries[..k] + [BareEntry(results[k])], tokenBudget)
  {
    hide Fits, Whole, Tier0Handle, Tier1Entry, BareEntry, Join;
    entries, k := [], 0;
    NothingFits(tokenBudget);
    for n := 0 to |results|
      invariant k == |entries| == n && Fits(entries, tokenBudget)
      invariant forall i :: 0 <= i < n ==> Whole(entries[i], results[i], enricher)
    {
      var entry := NextEntry(results[n], entries, tokenBudget, enricher);
      if !Fits(entries + [entry], tokenBudget) {
        var tail := HandleTail(entries, results[n..], tokenBudget);
        assert (entries + tail)[..n] == entries;
        entries := entries + tail;
        return;
      }
      entries := entries + [entry];
      k := n + 1;
    }
  }

  lemma {:induction false} NothingFits(budget: int)
    requires budget >= 0
    ensures Fits([], budget)
  {
  }

  method NextEntry(r: Recalled, entries: seq<string>, tokenBudget: int, enricher: Option<Enricher>)
    returns (entry: string)
    ensures Whole(entry, r, enricher)
    ensures enricher.None? ==> entry == BareEntry(r)
  {
    if !Trusted(r) {
      entry := Tier0Handle(r);
    } else if enricher.Some? {
      var used := if entries == [] then 0 else EstimateTokens(Join(ENTRY_SEPARATOR, entries));
      var sep := if entries == [] then 0 else EstimateTokens(ENTRY_SEPARATOR);
      entry := EnrichedEntry(r, enricher.value, tokenBudget - used - sep);
    } else {
      entry := Tier1Entry(r);
    }
  }

  method FinishPayload(results: seq<Recalled>, entries: seq<string>, tokenBudget: int) returns (payload: string)
    requires results != [] && tokenBudget >= 0 && Fits(entries, tokenBudget)
    requires entries == [] ==> !Fits([Tier0Handle(results[0])], tokenBudget)
    ensures EstimateTokens(payload) <= tokenBudget
    ensures payload == (if entries != [] then Join(ENTRY_SEPARATOR, entries)
                        else if EstimateTokens(SENTINEL_BUDGET_TOO_SMALL) > tokenBudget then ""
                        else SENTINEL_BUDGET_TOO_SMALL)
  {
    if entries != [] {
      payload := Join(ENTRY_SEPARATOR, entries);
    } else {
      var handle := Tier0Handle(results[0]);
      assert Join(ENTRY_SEPARATOR, [handle]) == handle;
      if EstimateTokens(handle) <= tokenBudget {
        payload := handle;
      } else if EstimateTokens(SENTINEL_BUDGET_TOO_SMALL) <= tokenBudget {
        payload := SENTINEL_BUDGET_TOO_SMALL;
      } else {
        payload := "";
      }
    }
  }

  method LowConfidencePayload(results: seq<Recalled>, tokenBudget: int) returns (p: Delivery, ghost n: nat)
    requires tokenBudget >= 0
    ensures WeakPayload(p, n, results, tokenBudget) && EstimateTokens(p.text) == p.tokens <= tokenBudget
  {
    hide Tier0Handle, Join;
    n := 0;
    if EstimateTokens(SENTINEL_LOW_CONFIDENCE) > tokenBudget { return Delivery("", 0, true), 0; }
    var lines := [SENTINEL_LOW_CONFIDENCE];
    var limit := if |results| < MAX_LOW_CONF_HANDLES then |results| else MAX_LOW_CONF_HANDLES;
    SingleJoin(NL, SENTINEL_LOW_CONFIDENCE);
    for i := 0 to limit
      invariant n == i && lines == [SENTINEL_LOW_CONFIDENCE] + Handles(results[..i])
      invariant EstimateTokens(Join(NL, lines)) <= tokenBudget
    {
      var handle := Tier0Handle(results[i]);
      if EstimateTokens(Join(NL, lines + [handle])) > tokenBudget { break; }
      assert Handles(results[..i + 1]) == Handles(results[..i]) + [handle];
      lines := lines + [handle];
      n := i + 1;
    }
    var text := Join(NL, lines);
    return Delivery(text, EstimateTokens(text), true), n;
  }

  lemma {:induction false} SingleJoin(sep: string, part: string)
    ensures Join(sep, [part]) == part
  {
  }
}
