/** The guard put before a union of patterns, and what scanning with it finds. */
module MegaScan {
  import opened Wrappers
  import opened RegexSyntax
  import opened RegexGuard

  // ----- pruning -----

  predicate IsAlnumString(u: Unicode, s: string) {
    s != [] && forall i :: 0 <= i < |s| ==> u.isAlnum(s[i])
  }

  predicate IsDigitString(u: Unicode, s: string) {
    s != [] && forall i :: 0 <= i < |s| ==> u.isDigit(s[i])
  }

  function PruneWord(u: Unicode, f: FirstSet): FirstSet {
    if Word in f.classes
    then FirstSet((set s | s in f.chars && !(IsAlnumString(u, s) || s == "_")), f.classes - {Digit})
    else f
  }

  function PruneDigit(u: Unicode, f: FirstSet): FirstSet {
    if Digit in f.classes then FirstSet((set s | s in f.chars && !IsDigitString(u, s)), f.classes) else f
  }

  function Prune(u: Unicode, f: FirstSet): FirstSet {
    PruneDigit(u, PruneWord(u, f))
  }

  // A decimal digit is alphanumeric.
  ghost predicate DecimalIsAlnum(u: Unicode) {
    forall c :: u.isDecimal(c) ==> u.isAlnum(c)
  }

  ghost predicate SameDenotation(u: Unicode, f: FirstSet, g: FirstSet) {
    forall x :: Denotes(u, f, x) <==> Denotes(u, g, x)
  }

  // Only digit characters outside the decimal class can be lost, and only
  // when the digit class is present without the word class: each such
  // character must be covered by the space class or by a kept string.
  ghost predicate DigitsCovered(u: Unicode, f: FirstSet) {
    Word in f.classes || Digit !in f.classes ||
    forall s, c :: s in f.chars && IsDigitString(u, s) && c in s ==>
      || u.isDecimal(c)
      || (Space in f.classes && u.isSpace(c))
      || exists t :: t in f.chars && !IsDigitString(u, t) && c in t
  }

  lemma PruneWordKeeps(u: Unicode, f: FirstSet)
    requires DecimalIsAlnum(u)
    ensures SameDenotation(u, PruneWord(u, f), f)
  {
    var g := PruneWord(u, f);
    if Word in f.classes {
      assert Word in g.classes;
      forall x
        ensures Denotes(u, f, x) <==> Denotes(u, g, x)
      {
        if Denotes(u, f, x) && !u.IsWord(x) {
          if exists s :: s in f.chars && x in s {
            var s :| s in f.chars && x in s;
            assert !IsAlnumString(u, s) && s in g.chars;
          }
        }
        if u.IsWord(x) { assert ClassMatches(u, Word, x); }
      }
    }
  }

  lemma PruneDigitKeepsIff(u: Unicode, f: FirstSet)
    requires Word !in f.classes
    ensures SameDenotation(u, PruneDigit(u, f), f) <==> DigitsCovered(u, f)
  {
    var g := PruneDigit(u, f);
    if Digit in f.classes {
      if DigitsCovered(u, f) {
        forall x
          ensures Denotes(u, f, x) <==> Denotes(u, g, x)
        {
          DigitCovered(u, f, x);
        }
      } else {
        var s, c :| s in f.chars && IsDigitString(u, s) && c in s && !u.isDecimal(c) &&
                    !(Space in f.classes && u.isSpace(c)) &&
                    !exists t :: t in f.chars && !IsDigitString(u, t) && c in t;
        assert Denotes(u, f, c) && !Denotes(u, g, c);
      }
    }
  }

  lemma DigitCovered(u: Unicode, f: FirstSet, x: char)
    requires Digit in f.classes && Word !in f.classes && DigitsCovered(u, f)
    ensures Denotes(u, f, x) <==> Denotes(u, PruneDigit(u, f), x)
  {
    var g := PruneDigit(u, f);
    if exists s :: s in f.chars && x in s {
      var s :| s in f.chars && x in s;
      if IsDigitString(u, s) {
        if u.isDecimal(x) {
          assert ClassMatches(u, Digit, x);
        } else if Space in f.classes && u.isSpace(x) {
          assert ClassMatches(u, Space, x);
        } else {
          var t :| t in f.chars && !IsDigitString(u, t) && x in t;
          assert t in g.chars;
        }
      } else {
        assert s in g.chars;
      }
    }
  }

  // Pruning loses no character exactly when the dropped digits are covered.
  lemma PruneKeepsIff(u: Unicode, f: FirstSet)
    requires DecimalIsAlnum(u)
    ensures SameDenotation(u, Prune(u, f), f) <==> DigitsCovered(u, f)
  {
    if Word in f.classes {
      PruneWordKeeps(u, f);
      assert Digit !in PruneWord(u, f).classes;
    } else {
      PruneDigitKeepsIff(u, f);
    }
  }

  // ----- the guard -----

  // A class body with exactly the characters and classes of the set, in some order.
  ghost predicate Renders(items: seq<Item>, f: FirstSet) {
    && (forall k :: Class(Plain(k)) in items <==> k in f.classes)
    && (forall c :: Item.One(c) in items <==> exists s :: s in f.chars && c in s)
    && (forall i :: 0 <= i < |items| ==> items[i].One? || (items[i].Class? && items[i].category.Plain?))
  }

  function FirstOfAll(u: Unicode, patterns: seq<seq<Op>>, ic: bool): Option<FirstSet> {
    if patterns == [] then Some(NOTHING)
    else
      var before := FirstOfAll(u, patterns[..|patterns| - 1], ic);
      var last := FirstOf(u, patterns[|patterns| - 1], ic);
      if before.None? || last.None? then None else Some(before.value.Union(last.value))
  }

  // The unpruned set behind the guard, if there is a guard at all.
  function GuardSource(u: Unicode, patterns: seq<seq<Op>>, ic: bool): Option<FirstSet> {
    var f := FirstOfAll(u, patterns, ic);
    if patterns == [] || f.None? || f.value == NOTHING then None else f
  }

  function HeadsOfAll(patterns: seq<seq<Op>>, ic: bool): Option<Heads> {
    if patterns == [] then Some(NO_HEADS)
    else
      var before := HeadsOfAll(patterns[..|patterns| - 1], ic);
      var last := HeadsOf(patterns[|patterns| - 1], ic);
      if before.None? || last.None? then None else Some(before.value.Union(last.value))
  }

  lemma {:induction false} SpellsAll(u: Unicode, patterns: seq<seq<Op>>, ic: bool)
    ensures Spells(u, FirstOfAll(u, patterns, ic), HeadsOfAll(patterns, ic))
  {
    if patterns == [] {
    } else {
      hide SpelledBy, FirstOf, HeadsOf;
      var init, last := patterns[..|patterns| - 1], patterns[|patterns| - 1];
      SpellsAll(u, init, ic);
      SpellsSeq(u, last, ic);
      if FirstOfAll(u, init, ic).Some? && FirstOf(u, last, ic).Some? {
        SpellsUnion(u, FirstOfAll(u, init, ic).value, FirstOf(u, last, ic).value,
                    HeadsOfAll(init, ic).value, HeadsOf(last, ic).value);
      }
    }
  }

  // The guard as the class body of a lookahead; None means compile unguarded.
  ghost predicate IsGuard(u: Unicode, patterns: seq<seq<Op>>, ic: bool, guard: Option<seq<Item>>) {
    var f := GuardSource(u, patterns, ic);
    if f.None? then guard.None? else guard.Some? && Renders(guard.value, Prune(u, f.value))
  }

  // What a class body written from the set accepts under the union's own flag.
  ghost predicate Admits(u: Unicode, ic: bool, f: FirstSet, x: char) {
    (exists s :: s in f.chars && Spelled(u, ic, s, x)) || (exists k :: k in f.classes && ClassMatches(u, k, x))
  }

  ghost predicate Spelled(u: Unicode, ic: bool, s: string, x: char) {
    exists c :: c in s && LiteralMatches(u, c, ic, x)
  }

  lemma {:induction false} RenderedMatches(u: Unicode, items: seq<Item>, f: FirstSet, ic: bool, x: char)
    requires Renders(items, f)
    ensures InMatches(u, items, ic, x) <==> Admits(u, ic, f, x)
  {
    if Admits(u, ic, f, x) {
      if exists s :: s in f.chars && Spelled(u, ic, s, x) {
        var s :| s in f.chars && Spelled(u, ic, s, x);
        var c :| c in s && LiteralMatches(u, c, ic, x);
        assert Item.One(c) in items;
        var i :| 0 <= i < |items| && items[i] == Item.One(c);
        assert ItemMatches(u, items[i], ic, x);
      } else {
        var k :| k in f.classes && ClassMatches(u, k, x);
        var i :| 0 <= i < |items| && items[i] == Class(Plain(k));
        assert ItemMatches(u, items[i], ic, x);
      }
    }
    if InMatches(u, items, ic, x) { MatchedIsAdmitted(u, items, f, ic, x); }
  }

  lemma {:induction false} MatchedIsAdmitted(u: Unicode, items: seq<Item>, f: FirstSet, ic: bool, x: char)
    requires Renders(items, f) && InMatches(u, items, ic, x)
    ensures Admits(u, ic, f, x)
  {
    assert items == [] || !items[0].Negate?;
    var i :| 0 <= i < |items| && ItemMatches(u, items[i], ic, x);
    assert items[i] in items;
    match items[i]
    case One(c) =>
      var s :| s in f.chars && c in s;
      assert Spelled(u, ic, s, x);
    case Class(Plain(k)) => assert k in f.classes;
  }

  // ----- what the guard must admit, and when it does -----

  // Every character that a first literal matches, under the literal's own flag,
  // is admitted by the kept set under the union's flag.
  ghost predicate LiteralsAdmitted(u: Unicode, h: Heads, ic: bool, kept: FirstSet) {
    forall l, x :: l in h.lits && LiteralMatches(u, l.c, l.ic, x) ==> Admits(u, ic, kept, x)
  }

  // A space, or a variant of a string that pruning keeps.
  ghost predicate Spared(u: Unicode, ic: bool, f: FirstSet, kept: set<string>, x: char) {
    (Space in f.classes && u.isSpace(x)) || exists s :: s in kept && Spelled(u, ic, s, x)
  }

  // Beside the word class only strings that are no word are kept, so a variant
  // of a literal that is itself no word character must be spared.
  ghost predicate WordCovers(u: Unicode, h: Heads, ic: bool, f: FirstSet) {
    forall l, x :: l in h.lits && LiteralMatches(u, l.c, l.ic, x) && !u.IsWord(x) ==>
      Spared(u, ic, f, (set s | s in f.chars && !(IsAlnumString(u, s) || s == "_")), x)
  }

  // Beside the digit class only strings that are no digits are kept, so a
  // variant that is no decimal digit must be spared.
  ghost predicate DigitCovers(u: Unicode, h: Heads, ic: bool, f: FirstSet) {
    forall l, x :: l in h.lits && LiteralMatches(u, l.c, l.ic, x) && !u.isDecimal(x) ==>
      Spared(u, ic, f, (set s | s in f.chars && !IsDigitString(u, s)), x)
  }

  // Otherwise nothing is pruned, and only a literal that ignores case in a union
  // that does not can have a variant outside its case pair.
  ghost predicate FoldsCovered(u: Unicode, h: Heads, ic: bool, f: FirstSet) {
    ic || forall l, x :: l in h.lits && l.ic && u.foldEq(l.c, x) && x != l.c ==> Denotes(u, f, x)
  }

  // The condition of the branch that pruning takes.
  ghost predicate Covered(u: Unicode, h: Heads, ic: bool, f: FirstSet) {
    if Word in f.classes then WordCovers(u, h, ic, f)
    else if Digit in f.classes then DigitCovers(u, h, ic, f)
    else FoldsCovered(u, h, ic, f)
  }

  lemma {:induction false} KeptByWord(u: Unicode, ic: bool, f: FirstSet, x: char)
    requires Word in f.classes && DecimalIsAlnum(u)
    ensures Admits(u, ic, Prune(u, f), x) <==>
            u.IsWord(x) || Spared(u, ic, f, (set s | s in f.chars && !(IsAlnumString(u, s) || s == "_")), x)
  {
    hide IsAlnumString, Spelled;
    var kept := set s | s in f.chars && !(IsAlnumString(u, s) || s == "_");
    assert Prune(u, f) == FirstSet(kept, f.classes - {Digit});
    if u.IsWord(x) { assert ClassMatches(u, Word, x); }
    if Space in f.classes && u.isSpace(x) { assert ClassMatches(u, Space, x); }
  }

  lemma {:induction false} KeptByDigit(u: Unicode, ic: bool, f: FirstSet, x: char)
    requires Word !in f.classes && Digit in f.classes
    ensures Admits(u, ic, Prune(u, f), x) <==>
            u.isDecimal(x) || Spared(u, ic, f, (set s | s in f.chars && !IsDigitString(u, s)), x)
  {
    hide IsDigitString, Spelled;
    var kept := set s | s in f.chars && !IsDigitString(u, s);
    assert Prune(u, f) == FirstSet(kept, f.classes);
    if u.isDecimal(x) { assert ClassMatches(u, Digit, x); }
    if Space in f.classes && u.isSpace(x) { assert ClassMatches(u, Space, x); }
  }

  lemma {:induction false} KeptWhole(u: Unicode, h: Heads, ic: bool, f: FirstSet, l: Lit, x: char)
    requires Word !in f.classes && Digit !in f.classes && Spells(u, Some(f), Some(h))
    requires l in h.lits && LiteralMatches(u, l.c, l.ic, x)
    ensures Admits(u, ic, Prune(u, f), x) <==> ic || !l.ic || x == l.c || Denotes(u, f, x)
  {
    assert Prune(u, f) == f;
    OwnSpelling(u, h, ic, f, l, x);
    if !ic && Denotes(u, f, x) && exists s :: s in f.chars && x in s {
      var s :| s in f.chars && x in s;
      assert LiteralMatches(u, x, ic, x) && Spelled(u, ic, s, x);
    }
  }

  // A literal is spelled in the set, so its own variants are admitted whenever
  // the union ignores case as it does.
  lemma {:induction false} OwnSpelling(u: Unicode, h: Heads, ic: bool, f: FirstSet, l: Lit, x: char)
    requires Spells(u, Some(f), Some(h)) && l in h.lits && LiteralMatches(u, l.c, l.ic, x)
    ensures [l.c] in f.chars && (ic || !l.ic || x == l.c ==> Spelled(u, ic, [l.c], x))
  {
    assert [l.c] in CharSet(u, l.c, l.ic) && SpelledBy(u, h.lits, [l.c]);
    if ic || !l.ic || x == l.c { assert l.c in [l.c] && LiteralMatches(u, l.c, ic, x); }
  }

  // The guard admits every variant of every first literal exactly under the
  // condition of the branch that pruning takes.
  lemma {:induction false} CoveredIff(u: Unicode, h: Heads, ic: bool, f: FirstSet)
    requires DecimalIsAlnum(u) && Spells(u, Some(f), Some(h))
    ensures LiteralsAdmitted(u, h, ic, Prune(u, f)) <==> Covered(u, h, ic, f)
  {
    hide Admits, Prune, Spared, Spells, Denotes;
    forall l, x | l in h.lits && LiteralMatches(u, l.c, l.ic, x)
      ensures if Word in f.classes then
                Admits(u, ic, Prune(u, f), x) <==>
                u.IsWord(x) || Spared(u, ic, f, (set s | s in f.chars && !(IsAlnumString(u, s) || s == "_")), x)
              else if Digit in f.classes then
                Admits(u, ic, Prune(u, f), x) <==>
                u.isDecimal(x) || Spared(u, ic, f, (set s | s in f.chars && !IsDigitString(u, s)), x)
              else Admits(u, ic, Prune(u, f), x) <==> ic || !l.ic || x == l.c || Denotes(u, f, x)
    {
      if Word in f.classes {
        KeptByWord(u, ic, f, x);
      } else if Digit in f.classes {
        KeptByDigit(u, ic, f, x);
      } else {
        KeptWhole(u, h, ic, f, l, x);
      }
    }
  }

  // Patterns whose flags are the union's, whose first digits are decimal and
  // whose first letters fold to letters: the condition holds.
  lemma {:induction false} OrdinaryIsCovered(u: Unicode, h: Heads, ic: bool, f: FirstSet)
    requires Spells(u, Some(f), Some(h))
    requires forall l :: l in h.lits ==> (l.ic ==> ic) && (u.isDigit(l.c) ==> u.isDecimal(l.c))
    requires forall l, x :: l in h.lits && l.ic && u.foldEq(l.c, x) ==>
               (u.IsWord(l.c) ==> u.IsWord(x)) && (u.isDecimal(l.c) ==> u.isDecimal(x))
    ensures Covered(u, h, ic, f)
  {
    hide Spells;
    forall l, x | l in h.lits && LiteralMatches(u, l.c, l.ic, x)
      ensures Word in f.classes && !u.IsWord(x) ==>
                Spared(u, ic, f, (set s | s in f.chars && !(IsAlnumString(u, s) || s == "_")), x)
      ensures Digit in f.classes && !u.isDecimal(x) ==>
                Spared(u, ic, f, (set s | s in f.chars && !IsDigitString(u, s)), x)
    {
      OwnSpelling(u, h, ic, f, l, x);
      assert [l.c][0] == l.c;
      if !u.IsWord(x) { assert !IsAlnumString(u, [l.c]) && [l.c] != "_"; }
      if !u.isDecimal(x) { assert !IsDigitString(u, [l.c]); }
    }
  }

  // ----- the union of the patterns -----

  // Group numbers move up by the groups of the earlier alternatives; a
  // back-reference is plain text and keeps its number.
  function Renumber(ops: seq<Op>, shift: nat): seq<Op>
    decreases ops, 1
  {
    if ops == [] then [] else [RenumberOp(ops[0], shift)] + Renumber(ops[1..], shift)
  }

  function RenumberOp(op: Op, shift: nat): Op
    decreases op, 0
  {
    match op
    case Assert(back, body) => Assert(back, Renumber(body, shift))
    case AssertNot(back, body) => AssertNot(back, Renumber(body, shift))
    case Subpattern(group, add, del, body) =>
      Subpattern(if group.Some? then Some(group.value + shift) else None, add, del, Renumber(body, shift))
    case Branch(alternatives) => Branch(RenumberAll(alternatives, shift))
    case Repeat(greed, lo, hi, body) => Repeat(greed, lo, hi, Renumber(body, shift))
    case AtomicGroup(body) => AtomicGroup(Renumber(body, shift))
    case _ => op
  }

  function RenumberAll(alternatives: seq<Alternative>, shift: nat): seq<Alternative>
    decreases alternatives, 0
  {
    if alternatives == [] then []
    else [Alternative(Renumber(alternatives[0].ops, shift))] + RenumberAll(alternatives[1..], shift)
  }

  lemma {:induction false} HeadsRenumbered(ops: seq<Op>, shift: nat, ic: bool)
    ensures HeadsOf(Renumber(ops, shift), ic) == HeadsOf(ops, ic)
    decreases ops, 1
  {
    if ops == [] {
    } else {
      assert Renumber(ops, shift)[1..] == Renumber(ops[1..], shift);
      HeadsRenumbered(ops[1..], shift, ic);
      match ops[0]
      case Subpattern(_, add, del, body) => HeadsRenumbered(body, shift, SubIgnoreCase(ic, add, del));
      case Branch(alternatives) => HeadsRenumberedAll(alternatives, shift, ic);
      case Repeat(_, _, _, body) => HeadsRenumbered(body, shift, ic);
      case AtomicGroup(body) => HeadsRenumbered(body, shift, ic);
      case _ =>
    }
  }

  lemma {:induction false} HeadsRenumberedAll(alternatives: seq<Alternative>, shift: nat, ic: bool)
    ensures HeadsOfBranches(RenumberAll(alternatives, shift), ic) == HeadsOfBranches(alternatives, ic)
    decreases alternatives, 0
  {
    if alternatives == [] {
    } else {
      assert RenumberAll(alternatives, shift)[1..] == RenumberAll(alternatives[1..], shift);
      HeadsRenumbered(alternatives[0].ops, shift, ic);
      HeadsRenumberedAll(alternatives[1..], shift, ic);
    }
  }

  // Pattern i becomes `(?:...)` with its one group numbered i + 1.
  function Alternatives(patterns: seq<seq<Op>>): seq<Alternative> {
    seq(|patterns|, i requires 0 <= i < |patterns| =>
          Alternative([Subpattern(None, false, false, Renumber(patterns[i], i))]))
  }

  function Unguarded(patterns: seq<seq<Op>>): seq<Op> {
    [Branch(Alternatives(patterns))]
  }

  function Guarded(items: seq<Item>, patterns: seq<seq<Op>>): seq<Op> {
    [Assert(0, [In(items)]), Subpattern(None, false, false, [Branch(Alternatives(patterns))])]
  }

  function Compiled(guard: Option<seq<Item>>, patterns: seq<seq<Op>>): seq<Op> {
    if guard.Some? then Guarded(guard.value, patterns) else Unguarded(patterns)
  }

  // ----- scanning -----

  function Attempt(u: Unicode, text: string, ops: seq<Op>, ic: bool, start: nat): seq<Match> {
    MatchSeq(u, text, ops, ic, Match(start, map[], None))
  }

  // The first success that is not empty where an empty match must not repeat.
  function Accepted(ms: seq<Match>, start: nat, mustAdvance: bool): Option<Match> {
    if ms == [] then None
    else if mustAdvance && ms[0].pos == start then Accepted(ms[1..], start, mustAdvance)
    else Some(ms[0])
  }

  datatype Found = Found(start: nat, m: Match)

  // `finditer`: matches from left to right, each with its span, its captures
  // and the group that names its branch.
  function Scan(u: Unicode, text: string, ops: seq<Op>, ic: bool, from: nat, mustAdvance: bool): seq<Found>
    decreases if from <= |text| then |text| - from + 1 else 0, if mustAdvance then 0 else 1
  {
    if from > |text| then []
    else
      var m := Accepted(Attempt(u, text, ops, ic, from), from, mustAdvance);
      if m.None? || m.value.pos < from then Scan(u, text, ops, ic, from + 1, false)
      else if m.value.pos == from then
        (if mustAdvance then [] else [Found(from, m.value)] + Scan(u, text, ops, ic, from, true))
      else [Found(from, m.value)] + Scan(u, text, ops, ic, m.value.pos, false)
  }

  lemma {:induction false} ScanCongruence(u: Unicode, text: string, a: seq<Op>, b: seq<Op>, ic: bool, from: nat,
                                          mustAdvance: bool)
    requires forall p: nat :: p <= |text| ==> Attempt(u, text, a, ic, p) == Attempt(u, text, b, ic, p)
    ensures Scan(u, text, a, ic, from, mustAdvance) == Scan(u, text, b, ic, from, mustAdvance)
    decreases if from <= |text| then |text| - from + 1 else 0, if mustAdvance then 0 else 1
  {
    hide Attempt;
    if from > |text| {
    } else {
      var m := Accepted(Attempt(u, text, a, ic, from), from, mustAdvance);
      if m.None? || m.value.pos < from {
        ScanCongruence(u, text, a, b, ic, from + 1, false);
      } else if m.value.pos == from {
        if !mustAdvance { ScanCongruence(u, text, a, b, ic, from, true); }
      } else {
        ScanCongruence(u, text, a, b, ic, m.value.pos, false);
      }
    }
  }

  // ----- equivalence -----

  lemma {:induction false} HeadsOfAllWithin(u: Unicode, patterns: seq<seq<Op>>, ic: bool, i: nat, x: char)
    requires i < |patterns| && HeadsOfAll(patterns, ic).Some?
    ensures HeadsOf(patterns[i], ic).Some?
    ensures Begins(u, HeadsOf(patterns[i], ic).value, x) ==> Begins(u, HeadsOfAll(patterns, ic).value, x)
    decreases |patterns|
  {
    var init, last := patterns[..|patterns| - 1], patterns[|patterns| - 1];
    BeginsUnion(u, HeadsOfAll(init, ic).value, HeadsOf(last, ic).value, x);
    if i < |init| { HeadsOfAllWithin(u, init, ic, i, x); }
  }

  lemma {:induction false} BranchFrom(u: Unicode, text: string, alternatives: seq<Alternative>, ic: bool, m: Match,
                                      r: Match)
    returns (i: nat)
    requires r in MatchBranches(u, text, alternatives, ic, m)
    ensures i < |alternatives| && r in MatchSeq(u, text, alternatives[i].ops, ic, m)
  {
    if r in MatchSeq(u, text, alternatives[0].ops, ic, m) {
      i := 0;
    } else {
      var j := BranchFrom(u, text, alternatives[1..], ic, m, r);
      i := j + 1;
    }
  }

  lemma SingleOp(u: Unicode, text: string, op: Op, ic: bool, m: Match)
    ensures MatchSeq(u, text, [op], ic, m) == MatchOp(u, text, op, ic, m)
  {
    EachNothing(u, text, ic, MatchOp(u, text, op, ic, m));
    assert [op][1..] == [];
  }

  lemma {:induction false} EachNothing(u: Unicode, text: string, ic: bool, ms: seq<Match>)
    ensures MatchEach(u, text, [], ic, ms) == ms
    decreases |ms|
  {
    if ms == [] {
    } else {
      EachNothing(u, text, ic, ms[1..]);
    }
  }

  lemma NoCapture(start: nat, ms: seq<Match>)
    ensures CaptureAll(None, start, ms) == ms
  {
  }

  // Wherever the union matches, it consumes a character that a head matches.
  lemma {:induction false} UnionStarts(u: Unicode, text: string, patterns: seq<seq<Op>>, ic: bool, m: Match, r: Match)
    requires HeadsOfAll(patterns, ic).Some? && m.pos <= |text|
    requires r in MatchSeq(u, text, Unguarded(patterns), ic, m)
    ensures m.pos < |text| && Begins(u, HeadsOfAll(patterns, ic).value, text[m.pos])
  {
    var alternatives := Alternatives(patterns);
    SingleOp(u, text, Branch(alternatives), ic, m);
    var i := BranchFrom(u, text, alternatives, ic, m, r);
    var body := Renumber(patterns[i], i);
    SingleOp(u, text, Subpattern(None, false, false, body), ic, m);
    NoCapture(m.pos, MatchSeq(u, text, body, ic, m));
    HeadsRenumbered(patterns[i], i, ic);
    HeadsOfAllWithin(u, patterns, ic, i, 'a');
    FirstSound(u, text, body, ic, m);
    HeadsOfAllWithin(u, patterns, ic, i, text[m.pos]);
  }

  lemma GuardTransparent(u: Unicode, text: string, items: seq<Item>, patterns: seq<seq<Op>>, ic: bool, m: Match)
    requires m.pos < |text| && InMatches(u, items, ic, text[m.pos])
    ensures MatchSeq(u, text, Guarded(items, patterns), ic, m) == MatchSeq(u, text, Unguarded(patterns), ic, m)
  {
    var guard := Assert(0, [In(items)]);
    var rest := Subpattern(None, false, false, [Branch(Alternatives(patterns))]);
    SingleOp(u, text, In(items), ic, m);
    assert MatchOp(u, text, guard, ic, m) == [m];
    assert Guarded(items, patterns)[1..] == [rest];
    SingleOp(u, text, rest, ic, m);
    NoCapture(m.pos, MatchSeq(u, text, Unguarded(patterns), ic, m));
    var all := MatchSeq(u, text, [rest], ic, m);
    assert MatchEach(u, text, [rest], ic, [m]) == all + MatchEach(u, text, [rest], ic, [m][1..]);
  }

  lemma GuardRejects(u: Unicode, text: string, items: seq<Item>, patterns: seq<seq<Op>>, ic: bool, m: Match)
    requires !(m.pos < |text| && InMatches(u, items, ic, text[m.pos]))
    ensures MatchSeq(u, text, Guarded(items, patterns), ic, m) == []
  {
    SingleOp(u, text, In(items), ic, m);
    assert MatchOp(u, text, Assert(0, [In(items)]), ic, m) == [];
  }

  // The exact condition, for the patterns of a union with a guard.
  ghost predicate UnionCovered(u: Unicode, patterns: seq<seq<Op>>, ic: bool) {
    GuardSource(u, patterns, ic).Some? ==>
      && HeadsOfAll(patterns, ic).Some?
      && Covered(u, HeadsOfAll(patterns, ic).value, ic, GuardSource(u, patterns, ic).value)
  }

  lemma {:induction false} BegunIsAdmitted(u: Unicode, h: Heads, ic: bool, f: FirstSet, x: char)
    requires DecimalIsAlnum(u) && Spells(u, Some(f), Some(h)) && Covered(u, h, ic, f) && Begins(u, h, x)
    ensures Admits(u, ic, Prune(u, f), x)
  {
    CoveredIff(u, h, ic, f);
    hide Covered, Spells;
    if exists l :: l in h.lits && LiteralMatches(u, l.c, l.ic, x) {
    } else {
      var k :| k in h.classes && ClassMatches(u, k, x);
      assert k in f.classes;
      if k == Digit && Word in f.classes {
        assert ClassMatches(u, Word, x) && Word in Prune(u, f).classes;
      } else {
        assert k in Prune(u, f).classes;
      }
    }
  }

  lemma {:induction false} AttemptsAgree(u: Unicode, text: string, items: seq<Item>, patterns: seq<seq<Op>>, ic: bool,
                                         p: nat)
    requires DecimalIsAlnum(u) && p <= |text|
    requires GuardSource(u, patterns, ic).Some? && UnionCovered(u, patterns, ic)
    requires Renders(items, Prune(u, GuardSource(u, patterns, ic).value))
    ensures Attempt(u, text, Guarded(items, patterns), ic, p) == Attempt(u, text, Unguarded(patterns), ic, p)
  {
    hide Covered, Spells, Begins, Admits, Renders, Prune;
    var m, f := Match(p, map[], None), GuardSource(u, patterns, ic).value;
    var plain := Attempt(u, text, Unguarded(patterns), ic, p);
    SpellsAll(u, patterns, ic);
    if plain != [] {
      UnionStarts(u, text, patterns, ic, m, plain[0]);
      BegunIsAdmitted(u, HeadsOfAll(patterns, ic).value, ic, f, text[p]);
      RenderedMatches(u, items, Prune(u, f), ic, text[p]);
    }
    if p < |text| && InMatches(u, items, ic, text[p]) {
      GuardTransparent(u, text, items, patterns, ic, m);
    } else {
      GuardRejects(u, text, items, patterns, ic, m);
    }
  }

  // The same matches in the same order: spans, captures and branches.
  ghost predicate ScansAlike(u: Unicode, text: string, patterns: seq<seq<Op>>, ic: bool, guard: Option<seq<Item>>) {
    Scan(u, text, Compiled(guard, patterns), ic, 0, false) == Scan(u, text, Unguarded(patterns), ic, 0, false)
  }

  // With or without a guard, on every text the scan finds the same.
  lemma {:induction false} ScanEquivalence(u: Unicode, text: string, patterns: seq<seq<Op>>, ic: bool,
                                           guard: Option<seq<Item>>)
    requires DecimalIsAlnum(u) && IsGuard(u, patterns, ic, guard) && UnionCovered(u, patterns, ic)
    ensures ScansAlike(u, text, patterns, ic, guard)
  {
    if guard.Some? {
      forall p: nat | p <= |text|
        ensures Attempt(u, text, Guarded(guard.value, patterns), ic, p) == Attempt(u, text, Unguarded(patterns), ic, p)
      {
        AttemptsAgree(u, text, guard.value, patterns, ic, p);
      }
      ScanCongruence(u, text, Guarded(guard.value, patterns), Unguarded(patterns), ic, 0, false);
    }
  }

  // ----- the converse -----

  // A one-character text that some pattern matches and the guard does not admit
  // is found without the guard and lost with it.
  lemma {:induction false} UnadmittedIsLost(u: Unicode, patterns: seq<seq<Op>>, ic: bool, items: seq<Item>, i: nat,
                                            x: char)
    requires IsGuard(u, patterns, ic, Some(items)) && i < |patterns|
    requires Attempt(u, [x], Renumber(patterns[i], i), ic, 0) != []
    requires !Admits(u, ic, Prune(u, GuardSource(u, patterns, ic).value), x)
    ensures Scan(u, [x], Unguarded(patterns), ic, 0, false) != [] &&
            Scan(u, [x], Guarded(items, patterns), ic, 0, false) == []
  {
    hide Admits, Prune, Renders;
    RenderedMatches(u, items, Prune(u, GuardSource(u, patterns, ic).value), ic, x);
    GuardRejects(u, [x], items, patterns, ic, Match(0, map[], None));
    GuardRejects(u, [x], items, patterns, ic, Match(1, map[], None));
    assert Scan(u, [x], Guarded(items, patterns), ic, 1, false) == [] by {
      EndFindsNothing(u, [x], Guarded(items, patterns), ic);
    }
    BranchTaken(u, [x], patterns, ic, i, Match(0, map[], None));
  }

  lemma {:induction false} EndFindsNothing(u: Unicode, text: string, ops: seq<Op>, ic: bool)
    requires Attempt(u, text, ops, ic, |text|) == []
    ensures Scan(u, text, ops, ic, |text|, false) == []
  {
    assert Accepted([], |text|, false) == None;
    assert Scan(u, text, ops, ic, |text| + 1, false) == [];
  }

  lemma {:induction false} BranchTaken(u: Unicode, text: string, patterns: seq<seq<Op>>, ic: bool, i: nat, m: Match)
    requires i < |patterns| && MatchSeq(u, text, Renumber(patterns[i], i), ic, m) != []
    ensures MatchSeq(u, text, Unguarded(patterns), ic, m) != []
  {
    var alternatives := Alternatives(patterns);
    SingleOp(u, text, Branch(alternatives), ic, m);
    var body := Renumber(patterns[i], i);
    SingleOp(u, text, Subpattern(None, false, false, body), ic, m);
    NoCapture(m.pos, MatchSeq(u, text, body, ic, m));
    BranchSucceeds(u, text, alternatives, ic, i, m);
  }

  lemma {:induction false} BranchSucceeds(u: Unicode, text: string, alternatives: seq<Alternative>, ic: bool, i: nat,
                                          m: Match)
    requires i < |alternatives| && MatchSeq(u, text, alternatives[i].ops, ic, m) != []
    ensures MatchBranches(u, text, alternatives, ic, m) != []
    decreases i
  {
    if i == 0 {
    } else {
      BranchSucceeds(u, text, alternatives[1..], ic, i - 1, m);
    }
  }

  // ----- patterns of one literal or class: the condition is exact -----

  // `(c)`, or `((?i:c))` and `((?-i:c))` where the literal's flag differs.
  function LiteralPattern(l: Lit, ic: bool): seq<Op> {
    [Subpattern(Some(1), false, false, [Subpattern(None, l.ic && !ic, !l.ic && ic, [Literal(l.c)])])]
  }

  function ClassPattern(k: CharClass): seq<Op> {
    [Subpattern(Some(1), false, false, [In([Class(Plain(k))])])]
  }

  ghost predicate OneLetter(patterns: seq<seq<Op>>, ic: bool) {
    forall i :: 0 <= i < |patterns| ==> IsLiteralPattern(patterns[i], ic) || exists k :: patterns[i] == ClassPattern(k)
  }

  ghost predicate IsLiteralPattern(p: seq<Op>, ic: bool) {
    exists l :: p == LiteralPattern(l, ic)
  }

  lemma {:induction false} LiteralPatternMatches(u: Unicode, l: Lit, ic: bool, i: nat, x: char)
    requires LiteralMatches(u, l.c, l.ic, x)
    ensures Attempt(u, [x], Renumber(LiteralPattern(l, ic), i), ic, 0) != []
  {
    var m := Match(0, map[], None);
    var inner: seq<Op> := [Literal(l.c)];
    var scoped := Subpattern(None, l.ic && !ic, !l.ic && ic, inner);
    var outer := Subpattern(Some(1 + i), false, false, [scoped]);
    RenumberedLiteral(l, ic, i);
    SingleOp(u, [x], Literal(l.c), l.ic, m);
    SingleOp(u, [x], scoped, ic, m);
    SingleOp(u, [x], outer, ic, m);
    assert MatchOp(u, [x], Literal(l.c), l.ic, m) == [m.(pos := 1)];
  }

  lemma {:induction false} RenumberedLiteral(l: Lit, ic: bool, i: nat)
    ensures Renumber(LiteralPattern(l, ic), i) ==
            [Subpattern(Some(1 + i), false, false, [Subpattern(None, l.ic && !ic, !l.ic && ic, [Literal(l.c)])])]
  {
    var inner: seq<Op> := [Literal(l.c)];
    var scoped: seq<Op> := [Subpattern(None, l.ic && !ic, !l.ic && ic, inner)];
    assert inner[1..] == [] && scoped[1..] == [] && LiteralPattern(l, ic)[1..] == [];
    assert Renumber(inner, i) == inner;
    assert Renumber(scoped, i) == scoped;
  }

  lemma {:induction false} LiteralPatternHeads(l: Lit, ic: bool)
    ensures HeadsOf(LiteralPattern(l, ic), ic) == Some(Heads({l}, {}))
  {
    var inner: seq<Op> := [Literal(l.c)];
    var scoped: seq<Op> := [Subpattern(None, l.ic && !ic, !l.ic && ic, inner)];
    assert HeadsOf(inner, l.ic) == Some(Heads({l}, {}));
    assert HeadsOf(scoped, ic) == HeadsOf(inner, l.ic);
  }

  lemma {:induction false} ClassPatternHeads(k: CharClass, ic: bool)
    ensures HeadsOf(ClassPattern(k), ic) == Some(Heads({}, {k}))
  {
    var items := [Class(Plain(k))];
    assert items[..0] == [] && NO_HEADS.Union(Heads({}, {k})) == Heads({}, {k});
    assert HeadsOfItems(items, ic) == Some(Heads({}, {k}));
    var body: seq<Op> := [In(items)];
    assert HeadsOf(body, ic) == HeadsOfItems(items, ic);
  }

  lemma {:induction false} LitFrom(patterns: seq<seq<Op>>, ic: bool, l: Lit) returns (i: nat)
    requires OneLetter(patterns, ic) && HeadsOfAll(patterns, ic).Some? && l in HeadsOfAll(patterns, ic).value.lits
    ensures i < |patterns| && patterns[i] == LiteralPattern(l, ic)
  {
    hide HeadsOf, LiteralPattern, ClassPattern;
    var n := |patterns| - 1;
    if l in HeadsOf(patterns[n], ic).value.lits {
      i := n;
      if IsLiteralPattern(patterns[n], ic) {
        var own :| patterns[n] == LiteralPattern(own, ic);
        LiteralPatternHeads(own, ic);
      } else {
        var k :| patterns[n] == ClassPattern(k);
        ClassPatternHeads(k, ic);
      }
    } else {
      i := LitFrom(patterns[..n], ic, l);
    }
  }

  // A first literal with a variant that the guard does not admit, as a pattern
  // of its own: the text of that variant is lost.
  lemma {:induction false} UnadmittedLiteral(u: Unicode, patterns: seq<seq<Op>>, ic: bool, items: seq<Item>, i: nat,
                                             l: Lit, x: char)
    requires IsGuard(u, patterns, ic, Some(items)) && i < |patterns| && patterns[i] == LiteralPattern(l, ic)
    requires LiteralMatches(u, l.c, l.ic, x) && !Admits(u, ic, Prune(u, GuardSource(u, patterns, ic).value), x)
    ensures Scan(u, [x], Unguarded(patterns), ic, 0, false) != [] &&
            Scan(u, [x], Guarded(items, patterns), ic, 0, false) == []
  {
    hide *;
    LiteralPatternMatches(u, l, ic, i, x);
    UnadmittedIsLost(u, patterns, ic, items, i, x);
  }

  // Over patterns of one letter the guard is invisible on every text if and
  // only if the condition holds.
  lemma {:induction false} OneLetterIff(u: Unicode, patterns: seq<seq<Op>>, ic: bool, guard: Option<seq<Item>>)
    requires DecimalIsAlnum(u) && OneLetter(patterns, ic) && IsGuard(u, patterns, ic, guard)
    ensures (forall text :: ScansAlike(u, text, patterns, ic, guard)) <==> UnionCovered(u, patterns, ic)
  {
    hide Scan, Covered, LiteralPattern, OneLetter, Prune, Spells, Admits, Renders;
    if UnionCovered(u, patterns, ic) {
      forall text
        ensures ScansAlike(u, text, patterns, ic, guard)
      {
        ScanEquivalence(u, text, patterns, ic, guard);
      }
    } else {
      SpellsAll(u, patterns, ic);
      SpellsSome(u, FirstOfAll(u, patterns, ic), HeadsOfAll(patterns, ic));
      var f, h := GuardSource(u, patterns, ic).value, HeadsOfAll(patterns, ic).value;
      CoveredIff(u, h, ic, f);
      var l, x :| l in h.lits && LiteralMatches(u, l.c, l.ic, x) && !Admits(u, ic, Prune(u, f), x);
      var i := LitFrom(patterns, ic, l);
      UnadmittedLiteral(u, patterns, ic, guard.value, i, l, x);
      assert !ScansAlike(u, [x], patterns, ic, guard);
    }
  }

  lemma {:induction false} SpellsSome(u: Unicode, f: Option<FirstSet>, h: Option<Heads>)
    requires Spells(u, f, h)
    ensures f.Some? == h.Some?
  {
  }
}
