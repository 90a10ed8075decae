/** First-character analysis of parsed patterns. A bail is None. */
module RegexGuard {
  import opened Wrappers
  import opened RegexSyntax

  const MAX_RANGE_EXPAND := 512

  // Strings rather than characters, as a case mapping may give several.
  datatype FirstSet = FirstSet(chars: set<string>, classes: set<CharClass>) {
    function Union(other: FirstSet): FirstSet {
      FirstSet(chars + other.chars, classes + other.classes)
    }
  }

  const NOTHING := FirstSet({}, {})

  // The characters a class body written from the set accepts.
  predicate Denotes(u: Unicode, f: FirstSet, x: char) {
    (exists s :: s in f.chars && x in s) || (exists k :: k in f.classes && ClassMatches(u, k, x))
  }

  function CasePair(u: Unicode, c: char): set<string> {
    {[c], u.lower(c), u.upper(c)}
  }

  function CharSet(u: Unicode, c: char, ic: bool): set<string> {
    if ic then CasePair(u, c) else {[c]}
  }

  function RangeSet(u: Unicode, lo: char, hi: char, ic: bool): set<string> {
    set c: char, s: string | lo <= c <= hi && s in CharSet(u, c, ic) :: s
  }

  function FirstOfItem(u: Unicode, item: Item, ic: bool): Option<FirstSet> {
    match item
    case One(c) => Some(FirstSet(CharSet(u, c, ic), {}))
    case Range(lo, hi) =>
      if hi as int - lo as int + 1 > MAX_RANGE_EXPAND then None else Some(FirstSet(RangeSet(u, lo, hi, ic), {}))
    case Class(Plain(k)) => Some(FirstSet({}, {k}))
    case _ => None
  }

  function FirstOfItems(u: Unicode, items: seq<Item>, ic: bool): Option<FirstSet> {
    if items == [] then Some(NOTHING)
    else
      var before := FirstOfItems(u, items[..|items| - 1], ic);
      var last := FirstOfItem(u, items[|items| - 1], ic);
      if before.None? || last.None? then None else Some(before.value.Union(last.value))
  }

  function FirstOf(u: Unicode, ops: seq<Op>, ic: bool): Option<FirstSet>
    decreases ops, 1
  {
    if ops == [] then None
    else
      match ops[0]
      case At(_) => FirstOf(u, ops[1..], ic)
      case Assert(_, _) => FirstOf(u, ops[1..], ic)
      case AssertNot(_, _) => FirstOf(u, ops[1..], ic)
      case Literal(c) => Some(FirstSet(CharSet(u, c, ic), {}))
      case In(items) => FirstOfItems(u, items, ic)
      case Subpattern(_, add, del, body) => FirstOf(u, body, SubIgnoreCase(ic, add, del))
      case Branch(alternatives) => FirstOfBranches(u, alternatives, ic)
      case Repeat(_, lo, _, body) =>
        var f := FirstOf(u, body, ic);
        if f.None? || lo >= 1 then f
        else
          var rest := FirstOf(u, ops[1..], ic);
          if rest.None? then None else Some(f.value.Union(rest.value))
      case AtomicGroup(body) => FirstOf(u, body, ic)
      case _ => None
  }

  function FirstOfBranches(u: Unicode, alternatives: seq<Alternative>, ic: bool): Option<FirstSet>
    decreases alternatives, 0
  {
    if alternatives == [] then Some(NOTHING)
    else
      var f := FirstOf(u, alternatives[0].ops, ic);
      var rest := FirstOfBranches(u, alternatives[1..], ic);
      if f.None? || rest.None? then None else Some(f.value.Union(rest.value))
  }

  // ----- the first literals and classes, before any spelling -----

  // A literal and whether it ignores case where it stands.
  datatype Lit = Lit(c: char, ic: bool)

  datatype Heads = Heads(lits: set<Lit>, classes: set<CharClass>) {
    function Union(other: Heads): Heads {
      Heads(lits + other.lits, classes + other.classes)
    }
  }

  const NO_HEADS := Heads({}, {})

  // x matches one of the literals, under its own flag, or one of the classes.
  predicate Begins(u: Unicode, h: Heads, x: char) {
    || (exists l :: l in h.lits && LiteralMatches(u, l.c, l.ic, x))
    || (exists k :: k in h.classes && ClassMatches(u, k, x))
  }

  function HeadsOfItem(item: Item, ic: bool): Option<Heads> {
    match item
    case One(c) => Some(Heads({Lit(c, ic)}, {}))
    case Range(lo, hi) =>
      if hi as int - lo as int + 1 > MAX_RANGE_EXPAND then None
      else Some(Heads((set c: char | lo <= c <= hi :: Lit(c, ic)), {}))
    case Class(Plain(k)) => Some(Heads({}, {k}))
    case _ => None
  }

  function HeadsOfItems(items: seq<Item>, ic: bool): Option<Heads> {
    if items == [] then Some(NO_HEADS)
    else
      var before := HeadsOfItems(items[..|items| - 1], ic);
      var last := HeadsOfItem(items[|items| - 1], ic);
      if before.None? || last.None? then None else Some(before.value.Union(last.value))
  }

  function HeadsOf(ops: seq<Op>, ic: bool): Option<Heads>
    decreases ops, 1
  {
    if ops == [] then None
    else
      match ops[0]
      case At(_) => HeadsOf(ops[1..], ic)
      case Assert(_, _) => HeadsOf(ops[1..], ic)
      case AssertNot(_, _) => HeadsOf(ops[1..], ic)
      case Literal(c) => Some(Heads({Lit(c, ic)}, {}))
      case In(items) => HeadsOfItems(items, ic)
      case Subpattern(_, add, del, body) => HeadsOf(body, SubIgnoreCase(ic, add, del))
      case Branch(alternatives) => HeadsOfBranches(alternatives, ic)
      case Repeat(_, lo, _, body) =>
        var h := HeadsOf(body, ic);
        if h.None? || lo >= 1 then h
        else
          var rest := HeadsOf(ops[1..], ic);
          if rest.None? then None else Some(h.value.Union(rest.value))
      case AtomicGroup(body) => HeadsOf(body, ic)
      case _ => None
  }

  function HeadsOfBranches(alternatives: seq<Alternative>, ic: bool): Option<Heads>
    decreases alternatives, 0
  {
    if alternatives == [] then Some(NO_HEADS)
    else
      var h := HeadsOf(alternatives[0].ops, ic);
      var rest := HeadsOfBranches(alternatives[1..], ic);
      if h.None? || rest.None? then None else Some(h.value.Union(rest.value))
  }

  // ----- the collected set spells out the heads -----

  ghost predicate SpelledBy(u: Unicode, lits: set<Lit>, s: string) {
    exists l :: l in lits && s in CharSet(u, l.c, l.ic)
  }

  ghost predicate Spells(u: Unicode, f: Option<FirstSet>, h: Option<Heads>) {
    && f.Some? == h.Some?
    && (f.Some? ==>
          f.value.classes == h.value.classes && forall s :: s in f.value.chars <==> SpelledBy(u, h.value.lits, s))
  }

  lemma {:induction false} SpellsUnion(u: Unicode, f: FirstSet, g: FirstSet, h: Heads, j: Heads)
    requires Spells(u, Some(f), Some(h)) && Spells(u, Some(g), Some(j))
    ensures Spells(u, Some(f.Union(g)), Some(h.Union(j)))
  {
    forall s
      ensures SpelledBy(u, h.lits + j.lits, s) <==> SpelledBy(u, h.lits, s) || SpelledBy(u, j.lits, s)
    {
      if SpelledBy(u, h.lits, s) { var l :| l in h.lits && s in CharSet(u, l.c, l.ic); assert l in h.lits + j.lits; }
      if SpelledBy(u, j.lits, s) { var l :| l in j.lits && s in CharSet(u, l.c, l.ic); assert l in h.lits + j.lits; }
    }
  }

  lemma {:induction false} SpellsLiteral(u: Unicode, c: char, ic: bool)
    ensures Spells(u, Some(FirstSet(CharSet(u, c, ic), {})), Some(Heads({Lit(c, ic)}, {})))
  {
    hide CharSet;
    assert Lit(c, ic) in {Lit(c, ic)};
  }

  lemma {:induction false} SpellsItem(u: Unicode, item: Item, ic: bool)
    ensures Spells(u, FirstOfItem(u, item, ic), HeadsOfItem(item, ic))
  {
    hide CharSet;
    match item
    case One(c) => SpellsLiteral(u, c, ic);
    case Range(lo, hi) =>
      var lits := set c: char | lo <= c <= hi :: Lit(c, ic);
      forall s
        ensures s in RangeSet(u, lo, hi, ic) <==> SpelledBy(u, lits, s)
      {
        if s in RangeSet(u, lo, hi, ic) {
          var c: char :| lo <= c <= hi && s in CharSet(u, c, ic);
          assert Lit(c, ic) in lits && s in CharSet(u, Lit(c, ic).c, Lit(c, ic).ic);
        }
      }
    case _ =>
  }

  lemma {:induction false} SpellsItems(u: Unicode, items: seq<Item>, ic: bool)
    ensures Spells(u, FirstOfItems(u, items, ic), HeadsOfItems(items, ic))
  {
    if items == [] {
    } else {
      hide FirstOfItem, HeadsOfItem, SpelledBy;
      var init, last := items[..|items| - 1], items[|items| - 1];
      SpellsItems(u, init, ic);
      SpellsItem(u, last, ic);
      if FirstOfItems(u, init, ic).Some? && FirstOfItem(u, last, ic).Some? {
        SpellsUnion(u, FirstOfItems(u, init, ic).value, FirstOfItem(u, last, ic).value,
                    HeadsOfItems(init, ic).value, HeadsOfItem(last, ic).value);
      }
    }
  }

  // The analysis bails on the same sequences as the heads, and what it collects
  // is the case pairs of the literals and the classes.
  lemma {:induction false} SpellsSeq(u: Unicode, ops: seq<Op>, ic: bool)
    ensures Spells(u, FirstOf(u, ops, ic), HeadsOf(ops, ic))
    decreases ops, 1
  {
    if ops == [] {
    } else {
      hide FirstOfItems, HeadsOfItems, CharSet, SpelledBy;
      match ops[0]
      case At(_) => SpellsSeq(u, ops[1..], ic);
      case Assert(_, _) => SpellsSeq(u, ops[1..], ic);
      case AssertNot(_, _) => SpellsSeq(u, ops[1..], ic);
      case Literal(c) => SpellsLiteral(u, c, ic);
      case In(items) => SpellsItems(u, items, ic);
      case Subpattern(_, add, del, body) => SpellsSeq(u, body, SubIgnoreCase(ic, add, del));
      case Branch(alternatives) => SpellsBranches(u, alternatives, ic);
      case AtomicGroup(body) => SpellsSeq(u, body, ic);
      case Repeat(_, lo, _, body) =>
        SpellsSeq(u, body, ic);
        SpellsSeq(u, ops[1..], ic);
        if FirstOf(u, body, ic).Some? && FirstOf(u, ops[1..], ic).Some? {
          SpellsUnion(u, FirstOf(u, body, ic).value, FirstOf(u, ops[1..], ic).value,
                      HeadsOf(body, ic).value, HeadsOf(ops[1..], ic).value);
        }
      case _ =>
    }
  }

  lemma {:induction false} SpellsBranches(u: Unicode, alternatives: seq<Alternative>, ic: bool)
    ensures Spells(u, FirstOfBranches(u, alternatives, ic), HeadsOfBranches(alternatives, ic))
    decreases alternatives, 0
  {
    if alternatives == [] {
    } else {
      hide SpelledBy;
      var ops, rest := alternatives[0].ops, alternatives[1..];
      SpellsSeq(u, ops, ic);
      SpellsBranches(u, rest, ic);
      if FirstOf(u, ops, ic).Some? && FirstOfBranches(u, rest, ic).Some? {
        SpellsUnion(u, FirstOf(u, ops, ic).value, FirstOfBranches(u, rest, ic).value,
                    HeadsOf(ops, ic).value, HeadsOfBranches(rest, ic).value);
      }
    }
  }

  // ----- positions only move forward -----

  predicate Bounded(text: string, p: nat, ms: seq<Match>) {
    forall m :: m in ms ==> p <= m.pos <= |text|
  }

  lemma {:induction false} MatchOpForward(u: Unicode, text: string, op: Op, ic: bool, m: Match)
    requires m.pos <= |text|
    ensures Bounded(text, m.pos, MatchOp(u, text, op, ic, m))
    decreases op, 0
  {
    match op
    case Subpattern(group, add, del, body) => MatchSeqForward(u, text, body, SubIgnoreCase(ic, add, del), m);
    case Branch(alternatives) => MatchBranchesForward(u, text, alternatives, ic, m);
    case Repeat(greed, lo, hi, body) =>
      MatchRepeatForward(u, text, body, lo, hi, greed.Possessive? || greed.Greedy?, ic, m);
    case AtomicGroup(body) => MatchSeqForward(u, text, body, ic, m);
    case _ =>
  }

  lemma {:induction false} MatchSeqForward(u: Unicode, text: string, ops: seq<Op>, ic: bool, m: Match)
    requires m.pos <= |text|
    ensures Bounded(text, m.pos, MatchSeq(u, text, ops, ic, m))
    decreases ops, 1, 0
  {
    if ops != [] {
      MatchOpForward(u, text, ops[0], ic, m);
      MatchEachForward(u, text, ops[1..], ic, MatchOp(u, text, ops[0], ic, m), m.pos);
    }
  }

  lemma {:induction false} MatchEachForward(u: Unicode, text: string, ops: seq<Op>, ic: bool, ms: seq<Match>, p: nat)
    requires Bounded(text, p, ms)
    ensures Bounded(text, p, MatchEach(u, text, ops, ic, ms))
    decreases ops, 2, |ms|
  {
    if ms == [] {
    } else {
      MatchSeqForward(u, text, ops, ic, ms[0]);
      MatchEachForward(u, text, ops, ic, ms[1..], p);
    }
  }

  lemma {:induction false} MatchBranchesForward(u: Unicode, text: string, alternatives: seq<Alternative>, ic: bool,
                                                m: Match)
    requires m.pos <= |text|
    ensures Bounded(text, m.pos, MatchBranches(u, text, alternatives, ic, m))
    decreases alternatives, 3
  {
    if alternatives == [] {
    } else {
      MatchSeqForward(u, text, alternatives[0].ops, ic, m);
      MatchBranchesForward(u, text, alternatives[1..], ic, m);
    }
  }

  lemma {:induction false} MatchRepeatForward(u: Unicode, text: string, body: seq<Op>, lo: nat, hi: Option<nat>,
                                              greedy: bool,
                                              ic: bool, m: Match)
    requires m.pos <= |text|
    ensures Bounded(text, m.pos, MatchRepeat(u, text, body, lo, hi, greedy, ic, m))
    decreases body, 4, lo, Left(text, m), 0
  {
    MatchSeqForward(u, text, body, ic, m);
    var once := MatchSeq(u, text, body, ic, m);
    if lo > 0 {
      RepeatEachForward(u, text, body, lo - 1, Fewer(hi), greedy, ic, once, |text|, m.pos);
    } else if hi != Some(0) && m.pos < |text| {
      RepeatEachForward(u, text, body, 0, Fewer(hi), greedy, ic, Progressing(text, m.pos, once), Left(text, m) - 1,
                        m.pos);
    }
  }

  lemma {:induction false} RepeatEachForward(u: Unicode, text: string, body: seq<Op>, lo: nat, hi: Option<nat>,
                                             greedy: bool,
                                             ic: bool, ms: seq<Match>, bound: nat, p: nat)
    requires Bounded(text, p, ms) && forall m :: m in ms ==> Left(text, m) <= bound
    ensures Bounded(text, p, RepeatEach(u, text, body, lo, hi, greedy, ic, ms, bound))
    decreases body, 4, lo, bound, 1, |ms|
  {
    if ms == [] {
    } else {
      MatchRepeatForward(u, text, body, lo, hi, greedy, ic, ms[0]);
      RepeatEachForward(u, text, body, lo, hi, greedy, ic, ms[1..], bound, p);
    }
  }

  // ----- soundness -----

  // Every match in the list consumed a character that one of the heads
  // matches.
  ghost predicate Starts(u: Unicode, text: string, f: Heads, p: nat, ms: seq<Match>) {
    forall m :: m in ms ==> p < |text| && Begins(u, f, text[p]) && p < m.pos <= |text|
  }

  lemma {:induction false} ItemSound(u: Unicode, item: Item, ic: bool, x: char)
    requires HeadsOfItem(item, ic).Some? && ItemMatches(u, item, ic, x)
    ensures Begins(u, HeadsOfItem(item, ic).value, x)
  {
    match item
    case One(c) => assert Lit(c, ic) in HeadsOfItem(item, ic).value.lits;
    case Range(lo, hi) =>
      var c: char :| lo <= c <= hi && LiteralMatches(u, c, ic, x);
      assert Lit(c, ic) in HeadsOfItem(item, ic).value.lits;
    case _ =>
  }

  lemma {:induction false} BeginsUnion(u: Unicode, f: Heads, g: Heads, x: char)
    ensures Begins(u, f.Union(g), x) <==> Begins(u, f, x) || Begins(u, g, x)
  {
  }

  lemma {:induction false} ItemsSound(u: Unicode, items: seq<Item>, ic: bool, x: char)
    requires HeadsOfItems(items, ic).Some?
    requires exists i :: 0 <= i < |items| && ItemMatches(u, items[i], ic, x)
    ensures Begins(u, HeadsOfItems(items, ic).value, x)
  {
    var init, last := items[..|items| - 1], items[|items| - 1];
    BeginsUnion(u, HeadsOfItems(init, ic).value, HeadsOfItem(last, ic).value, x);
    if ItemMatches(u, last, ic, x) {
      ItemSound(u, last, ic, x);
    } else {
      var i :| 0 <= i < |items| && ItemMatches(u, items[i], ic, x);
      assert init[i] == items[i];
      ItemsSound(u, init, ic, x);
    }
  }

  lemma {:induction false} NegatedBails(items: seq<Item>, ic: bool)
    requires items != [] && items[0].Negate?
    ensures HeadsOfItems(items, ic).None?
    decreases |items|
  {
    if |items| > 1 { NegatedBails(items[..|items| - 1], ic); }
  }

  lemma InSound(u: Unicode, items: seq<Item>, ic: bool, x: char)
    requires HeadsOfItems(items, ic).Some? && InMatches(u, items, ic, x)
    ensures Begins(u, HeadsOfItems(items, ic).value, x)
  {
    if items != [] && items[0].Negate? { NegatedBails(items, ic); } else { ItemsSound(u, items, ic, x); }
  }

  // Consuming a first character is not undone by what follows.
  lemma StartsEach(u: Unicode, text: string, f: Heads, p: nat, ops: seq<Op>, ic: bool, ms: seq<Match>)
    requires Starts(u, text, f, p, ms)
    ensures Starts(u, text, f, p, MatchEach(u, text, ops, ic, ms))
  {
    assert Bounded(text, p + 1, ms);
    MatchEachForward(u, text, ops, ic, ms, p + 1);
    if ms == [] { assert MatchEach(u, text, ops, ic, ms) == []; } else { assert ms[0] in ms; }
  }

  lemma StartsRepeat(u: Unicode, text: string, f: Heads, p: nat, body: seq<Op>, lo: nat, hi: Option<nat>, greedy: bool,
                     ic: bool, ms: seq<Match>, bound: nat)
    requires Starts(u, text, f, p, ms) && forall m :: m in ms ==> Left(text, m) <= bound
    ensures Starts(u, text, f, p, RepeatEach(u, text, body, lo, hi, greedy, ic, ms, bound))
  {
    assert Bounded(text, p + 1, ms);
    RepeatEachForward(u, text, body, lo, hi, greedy, ic, ms, bound, p + 1);
    if ms == [] { assert RepeatEach(u, text, body, lo, hi, greedy, ic, ms, bound) == []; } else { assert ms[0] in ms; }
  }

  lemma StartsWider(u: Unicode, text: string, f: Heads, g: Heads, p: nat, ms: seq<Match>)
    requires Starts(u, text, f, p, ms)
    ensures Starts(u, text, f.Union(g), p, ms) && Starts(u, text, g.Union(f), p, ms)
  {
    if p < |text| {
      BeginsUnion(u, f, g, text[p]);
      BeginsUnion(u, g, f, text[p]);
    }
  }

  lemma {:induction false} EachFrom(u: Unicode, text: string, ops: seq<Op>, ic: bool, ms: seq<Match>, r: Match)
    returns (m: Match)
    requires r in MatchEach(u, text, ops, ic, ms)
    ensures m in ms && r in MatchSeq(u, text, ops, ic, m)
    decreases |ms|
  {
    if r in MatchSeq(u, text, ops, ic, ms[0]) { m := ms[0]; } else { m := EachFrom(u, text, ops, ic, ms[1..], r); }
  }

  // The rest of a sequence after zero-width or consuming partial matches.
  lemma StartsMixed(u: Unicode, text: string, f: Heads, ops: seq<Op>, ic: bool, ms: seq<Match>, p: nat)
    requires forall m :: m in ms ==> Starts(u, text, f, p, [m]) || Starts(u, text, f, p, MatchSeq(u, text, ops, ic, m))
    ensures Starts(u, text, f, p, MatchEach(u, text, ops, ic, ms))
  {
    forall r | r in MatchEach(u, text, ops, ic, ms)
      ensures p < |text| && Begins(u, f, text[p]) && p < r.pos <= |text|
    {
      var m := EachFrom(u, text, ops, ic, ms, r);
      if Starts(u, text, f, p, [m]) {
        assert m in [m];
        MatchSeqForward(u, text, ops, ic, m);
      }
    }
  }

  // A bail-free analysis is sound: every match of the sequence, anywhere in
  // any text, consumes a first character that one of the heads
  // matches.
  lemma {:induction false} FirstSound(u: Unicode, text: string, ops: seq<Op>, ic: bool, m: Match)
    requires HeadsOf(ops, ic).Some? && m.pos <= |text|
    ensures Starts(u, text, HeadsOf(ops, ic).value, m.pos, MatchSeq(u, text, ops, ic, m))
    decreases ops, 1
  {
    var f, ms := HeadsOf(ops, ic).value, MatchOp(u, text, ops[0], ic, m);
    match ops[0]
    case At(_) => FirstSound(u, text, ops[1..], ic, m); StartsMixed(u, text, f, ops[1..], ic, ms, m.pos);
    case Assert(_, _) => AfterZeroWidth(u, text, ops, ic, m);
    case AssertNot(_, _) => FirstSound(u, text, ops[1..], ic, m); StartsMixed(u, text, f, ops[1..], ic, ms, m.pos);
    case Literal(c) =>
      assert Lit(c, ic) in f.lits;
      StartsEach(u, text, f, m.pos, ops[1..], ic, ms);
    case In(items) =>
      if ms != [] { InSound(u, items, ic, text[m.pos]); }
      StartsEach(u, text, f, m.pos, ops[1..], ic, ms);
    case Subpattern(_, add, del, body) =>
      FirstSound(u, text, body, SubIgnoreCase(ic, add, del), m);
      StartsEach(u, text, f, m.pos, ops[1..], ic, ms);
    case Branch(alternatives) =>
      BranchesSound(u, text, alternatives, ic, m);
      StartsEach(u, text, f, m.pos, ops[1..], ic, ms);
    case AtomicGroup(body) =>
      FirstSound(u, text, body, ic, m);
      StartsEach(u, text, f, m.pos, ops[1..], ic, ms);
    case Repeat(greed, lo, hi, body) =>
      RepeatSound(u, text, body, lo, hi, greed.Possessive? || greed.Greedy?, ic, m);
      var g := HeadsOf(body, ic).value;
      if lo >= 1 {
        StartsEach(u, text, f, m.pos, ops[1..], ic, ms);
      } else {
        FirstSound(u, text, ops[1..], ic, m);
        var h := HeadsOf(ops[1..], ic).value;
        StartsWider(u, text, h, g, m.pos, MatchSeq(u, text, ops[1..], ic, m));
        forall r | r in ms
          ensures Starts(u, text, f, m.pos, [r]) || Starts(u, text, f, m.pos, MatchSeq(u, text, ops[1..], ic, r))
        {
          if r != m { StartsWider(u, text, g, h, m.pos, [r]); }
        }
        StartsMixed(u, text, f, ops[1..], ic, ms, m.pos);
      }
  }

  lemma {:induction false} AfterZeroWidth(u: Unicode, text: string, ops: seq<Op>, ic: bool, m: Match)
    requires HeadsOf(ops, ic).Some? && m.pos <= |text| && ops[0].Assert?
    ensures Starts(u, text, HeadsOf(ops, ic).value, m.pos, MatchSeq(u, text, ops, ic, m))
    decreases ops, 0
  {
    var f, ms := HeadsOf(ops, ic).value, MatchOp(u, text, ops[0], ic, m);
    forall r | r in ms
      ensures Starts(u, text, f, m.pos, MatchSeq(u, text, ops[1..], ic, r))
    {
      FirstSound(u, text, ops[1..], ic, r);
    }
    StartsMixed(u, text, f, ops[1..], ic, ms, m.pos);
  }

  lemma {:induction false} BranchesSound(u: Unicode, text: string, alternatives: seq<Alternative>, ic: bool, m: Match)
    requires HeadsOfBranches(alternatives, ic).Some? && m.pos <= |text|
    ensures Starts(u, text, HeadsOfBranches(alternatives, ic).value, m.pos, MatchBranches(u, text, alternatives, ic, m))
    decreases alternatives, 0
  {
    if alternatives == [] {
    } else {
      FirstSound(u, text, alternatives[0].ops, ic, m);
      BranchesSound(u, text, alternatives[1..], ic, m);
      var f, g := HeadsOf(alternatives[0].ops, ic).value, HeadsOfBranches(alternatives[1..], ic).value;
      StartsWider(u, text, f, g, m.pos, MatchSeq(u, text, alternatives[0].ops, ic, m));
      StartsWider(u, text, g, f, m.pos, MatchBranches(u, text, alternatives[1..], ic, m));
    }
  }

  // A repetition either does nothing, which it may only do when it is
  // optional, or starts with its body.
  lemma {:induction false} RepeatSound(u: Unicode, text: string, body: seq<Op>, lo: nat, hi: Option<nat>, greedy: bool,
                                       ic: bool, m: Match)
    requires HeadsOf(body, ic).Some? && m.pos <= |text|
    ensures var f, rs := HeadsOf(body, ic).value, MatchRepeat(u, text, body, lo, hi, greedy, ic, m);
            && (lo >= 1 ==> Starts(u, text, f, m.pos, rs))
            && forall r :: r in rs ==> (r == m && lo == 0) || Starts(u, text, f, m.pos, [r])
    decreases body, 2
  {
    var f, once := HeadsOf(body, ic).value, MatchSeq(u, text, body, ic, m);
    FirstSound(u, text, body, ic, m);
    if lo > 0 {
      StartsRepeat(u, text, f, m.pos, body, lo - 1, Fewer(hi), greedy, ic, once, |text|);
    } else if hi != Some(0) && m.pos < |text| {
      var moved := Progressing(text, m.pos, once);
      StartsRepeat(u, text, f, m.pos, body, 0, Fewer(hi), greedy, ic, moved, Left(text, m) - 1);
    }
  }
}
