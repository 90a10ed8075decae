/** What the matcher does with words, repetitions of one character, groups and
    lookaround, said of the text alone. */
module RegexLaws {
  import opened Wrappers
  import opened RegexSyntax

  // ----- words -----

  function Letters(w: string): seq<Op> {
    seq(|w|, i requires 0 <= i < |w| => Literal(w[i]))
  }

  // The text reads w at p.
  ghost predicate Here(u: Unicode, text: string, w: string, ic: bool, p: nat) {
    p + |w| <= |text| && forall i :: 0 <= i < |w| ==> LiteralMatches(u, w[i], ic, text[p + i])
  }

  lemma HereNext(u: Unicode, text: string, w: string, ic: bool, p: nat)
    requires w != ""
    ensures Here(u, text, w, ic, p) <==>
            p < |text| && LiteralMatches(u, w[0], ic, text[p]) && Here(u, text, w[1..], ic, p + 1)
  {
    if p < |text| && LiteralMatches(u, w[0], ic, text[p]) && Here(u, text, w[1..], ic, p + 1) {
      forall i | 0 <= i < |w|
        ensures LiteralMatches(u, w[i], ic, text[p + i])
      {
        if i > 0 { assert w[1..][i - 1] == w[i] && text[p + 1 + (i - 1)] == text[p + i]; }
      }
    }
    if Here(u, text, w, ic, p) {
      assert LiteralMatches(u, w[0], ic, text[p + 0]);
      forall i | 0 <= i < |w| - 1
        ensures LiteralMatches(u, w[1..][i], ic, text[p + 1 + i])
      {
        var j := i + 1;
        assert LiteralMatches(u, w[j], ic, text[p + j]);
      }
    }
  }

  lemma EachOne(u: Unicode, text: string, ops: seq<Op>, ic: bool, m: Match)
    ensures MatchEach(u, text, ops, ic, [m]) == MatchSeq(u, text, ops, ic, m)
    ensures MatchEach(u, text, ops, ic, []) == []
  {
    assert [m][1..] == [];
  }

  lemma OneOp(u: Unicode, text: string, op: Op, ic: bool, m: Match)
    ensures |MatchOp(u, text, op, ic, m)| <= 1 ==> MatchSeq(u, text, [op], ic, m) == MatchOp(u, text, op, ic, m)
  {
    assert [op][1..] == [];
    var ms := MatchOp(u, text, op, ic, m);
    if |ms| == 1 {
      assert ms == [ms[0]];
      EachOne(u, text, [], ic, ms[0]);
    } else if |ms| == 0 {
      EachOne(u, text, [], ic, m);
    }
  }

  // A word matches exactly where the text reads it, and takes its length.
  lemma {:induction false} WordMatches(u: Unicode, text: string, w: string, ic: bool, m: Match)
    ensures MatchSeq(u, text, Letters(w), ic, m) ==
            if m.pos <= |text| && Here(u, text, w, ic, m.pos) then [m.(pos := m.pos + |w|)]
            else if w == "" then [m] else []
    decreases |w|
  {
    if w == "" {
    } else {
      HereNext(u, text, w, ic, m.pos);
      assert Letters(w)[1..] == Letters(w[1..]);
      var ms := MatchOp(u, text, Literal(w[0]), ic, m);
      EachOne(u, text, Letters(w[1..]), ic, m.(pos := m.pos + 1));
      WordMatches(u, text, w[1..], ic, m.(pos := m.pos + 1));
    }
  }

  // ----- one character, repeated -----

  predicate TakesOne(op: Op) {
    op.Literal? || op.NotLiteral? || op.AnyChar? || op.In?
  }

  predicate Takes(u: Unicode, op: Op, ic: bool, x: char)
    requires TakesOne(op)
  {
    match op
    case Literal(c) => x == c || (ic && u.foldEq(c, x))
    case NotLiteral(c) => x != c && !(ic && u.foldEq(c, x))
    case AnyChar => x != '\n'
    case In(items) => InMatches(u, items, ic, x)
  }

  // How many characters from p on it takes.
  function RunOf(u: Unicode, text: string, op: Op, ic: bool, p: nat): nat
    requires TakesOne(op)
    decreases if p < |text| then |text| - p else 0
  {
    if p < |text| && Takes(u, op, ic, text[p]) then 1 + RunOf(u, text, op, ic, p + 1) else 0
  }

  lemma OneTaken(u: Unicode, text: string, op: Op, ic: bool, m: Match)
    requires TakesOne(op)
    ensures MatchSeq(u, text, [op], ic, m) ==
            if m.pos < |text| && Takes(u, op, ic, text[m.pos]) then [m.(pos := m.pos + 1)] else []
  {
    OneOp(u, text, op, ic, m);
  }

  // The numbers of rounds, the preferred first.
  function Rounds(lo: nat, top: nat, greedy: bool, m: Match): (r: seq<Match>)
  {
    if top < lo then []
    else seq(top - lo + 1, i requires 0 <= i <= top - lo => m.(pos := m.pos + if greedy then top - i else lo + i))
  }

  function Least(a: nat, hi: Option<nat>): nat {
    if hi.Some? && hi.value < a then hi.value else a
  }

  lemma Advance(lo: nat, top: nat, greedy: bool, m: Match)
    requires top >= 1
    ensures var next := m.(pos := m.pos + 1);
            && (lo >= 1 ==> Rounds(lo - 1, top - 1, greedy, next) == Rounds(lo, top, greedy, m))
            && Rounds(0, top, greedy, m) ==
               (if greedy then Rounds(0, top - 1, greedy, next) + [m] else [m] + Rounds(0, top - 1, greedy, next))
  {
    assert m.(pos := m.pos) == m;
  }

  lemma EachRound(u: Unicode, text: string, body: seq<Op>, lo: nat, hi: Option<nat>, greedy: bool, ic: bool, m: Match,
                  bound: nat)
    requires Left(text, m) <= bound
    ensures RepeatEach(u, text, body, lo, hi, greedy, ic, [m], bound) ==
            MatchRepeat(u, text, body, lo, hi, greedy, ic, m)
    ensures RepeatEach(u, text, body, lo, hi, greedy, ic, [], bound) == []
  {
    assert [m][1..] == [];
  }

  lemma StillOnce(text: string, p: nat, once: seq<Match>, next: Match)
    requires once == [] || (once == [next] && p < next.pos <= |text|)
    ensures Progressing(text, p, once) == once
  {
    if once != [] { assert once[1..] == []; }
  }

  predicate TakenAt(u: Unicode, text: string, op: Op, ic: bool, p: nat)
    requires TakesOne(op)
  {
    p < |text| && Takes(u, op, ic, text[p])
  }

  // A round that must be taken, and one that may.
  lemma MustRound(u: Unicode, text: string, op: Op, lo: nat, hi: Option<nat>, greedy: bool, ic: bool, m: Match)
    requires TakesOne(op) && lo > 0
    ensures MatchRepeat(u, text, [op], lo, hi, greedy, ic, m) ==
            if TakenAt(u, text, op, ic, m.pos)
            then MatchRepeat(u, text, [op], lo - 1, Fewer(hi), greedy, ic, m.(pos := m.pos + 1)) else []
  {
    hide MatchSeq, Takes;
    OneTaken(u, text, op, ic, m);
    EachRound(u, text, [op], lo - 1, Fewer(hi), greedy, ic, m.(pos := m.pos + 1), |text|);
  }

  lemma MayRound(u: Unicode, text: string, op: Op, hi: Option<nat>, greedy: bool, ic: bool, m: Match)
    requires TakesOne(op)
    ensures var more := MatchRepeat(u, text, [op], 0, Fewer(hi), greedy, ic, m.(pos := m.pos + 1));
            MatchRepeat(u, text, [op], 0, hi, greedy, ic, m) ==
            if hi == Some(0) || !TakenAt(u, text, op, ic, m.pos) then [m]
            else if greedy then more + [m] else [m] + more
  {
    hide MatchSeq, Takes;
    if hi != Some(0) && m.pos < |text| {
      OneTaken(u, text, op, ic, m);
      StillOnce(text, m.pos, MatchSeq(u, text, [op], ic, m), m.(pos := m.pos + 1));
      EachRound(u, text, [op], 0, Fewer(hi), greedy, ic, m.(pos := m.pos + 1), Left(text, m) - 1);
    }
  }

  // A repetition of one character matches every number of rounds from lo to
  // the length of the run, or to hi, most first if greedy and fewest first if not.
  lemma {:induction false} RepeatedCharacter(u: Unicode, text: string, op: Op, lo: nat, hi: Option<nat>, greedy: bool,
                                             ic: bool, m: Match)
    requires TakesOne(op) && (hi.Some? ==> lo <= hi.value)
    ensures MatchRepeat(u, text, [op], lo, hi, greedy, ic, m) ==
            Rounds(lo, Least(RunOf(u, text, op, ic, m.pos), hi), greedy, m)
    decreases lo, Left(text, m)
  {
    hide MatchRepeat, Takes, Rounds;
    var next, top := m.(pos := m.pos + 1), Least(RunOf(u, text, op, ic, m.pos), hi);
    NoRound(greedy, m);
    if lo > 0 {
      MustRound(u, text, op, lo, hi, greedy, ic, m);
      if TakenAt(u, text, op, ic, m.pos) {
        RepeatedCharacter(u, text, op, lo - 1, Fewer(hi), greedy, ic, next);
        Advance(lo, top, greedy, m);
      }
    } else {
      MayRound(u, text, op, hi, greedy, ic, m);
      if hi != Some(0) && TakenAt(u, text, op, ic, m.pos) {
        RepeatedCharacter(u, text, op, 0, Fewer(hi), greedy, ic, next);
        Advance(0, top, greedy, m);
      }
    }
  }

  lemma NoRound(greedy: bool, m: Match)
    ensures Rounds(0, 0, greedy, m) == [m] && forall lo: nat :: lo > 0 ==> Rounds(lo, 0, greedy, m) == []
  {
    assert m.(pos := m.pos) == m;
  }

  // As an operation: greedy and lazy list them all, possessive keeps the most.
  lemma RepeatLaw(u: Unicode, text: string, op: Op, greed: Greed, lo: nat, hi: Option<nat>, ic: bool, m: Match)
    requires TakesOne(op) && (hi.Some? ==> lo <= hi.value)
    ensures var top := Least(RunOf(u, text, op, ic, m.pos), hi);
            MatchOp(u, text, Repeat(greed, lo, hi, [op]), ic, m) ==
            match greed
            case Greedy => Rounds(lo, top, true, m)
            case Lazy => Rounds(lo, top, false, m)
            case Possessive => if top < lo then [] else [m.(pos := m.pos + top)]
  {
    RepeatedCharacter(u, text, op, lo, hi, !greed.Lazy?, ic, m);
  }

  // ----- groups and lookaround -----

  lemma GroupOfWord(u: Unicode, text: string, w: string, g: nat, ic: bool, m: Match)
    requires w != ""
    ensures MatchOp(u, text, Subpattern(Some(g), false, false, Letters(w)), ic, m) ==
            if Here(u, text, w, ic, m.pos)
            then [Match(m.pos + |w|, m.captures[g := (m.pos, m.pos + |w|)], Some(g))] else []
  {
    hide MatchSeq, Here;
    WordMatches(u, text, w, ic, m);
    assert Here(u, text, w, ic, m.pos) ==> m.pos <= |text| by { HereInside(u, text, w, ic, m.pos); }
  }

  lemma HereInside(u: Unicode, text: string, w: string, ic: bool, p: nat)
    ensures Here(u, text, w, ic, p) ==> p + |w| <= |text|
  {
  }

  lemma BackTo(u: Unicode, text: string, g: nat, s: nat, e: nat, ic: bool, m: Match)
    requires g in m.captures && m.captures[g] == (s, e) && s <= e <= |text|
    ensures MatchSeq(u, text, [GroupRef(g)], ic, m) ==
            if Here(u, text, text[s..e], ic, m.pos) then [m.(pos := m.pos + e - s)] else []
  {
    hide Here, SameText;
    OneOp(u, text, GroupRef(g), ic, m);
    SameIsHere(u, text, text[s..e], ic, m.pos);
  }

  // A group over a word and a reference back to it match the word twice, and
  // the group holds the first.
  lemma WordTwice(u: Unicode, text: string, w: string, g: nat, ic: bool, m: Match)
    requires w != ""
    ensures var n, p := |w|, m.pos;
            MatchSeq(u, text, [Subpattern(Some(g), false, false, Letters(w)), GroupRef(g)], ic, m) ==
            if Here(u, text, w, ic, p) && Here(u, text, text[p..p + n], ic, p + n)
            then [Match(p + 2 * n, m.captures[g := (p, p + n)], Some(g))] else []
  {
    var n, p := |w|, m.pos;
    var ops := [Subpattern(Some(g), false, false, Letters(w)), GroupRef(g)];
    hide MatchOp, Here;
    assert ops[1..] == [GroupRef(g)];
    GroupOfWord(u, text, w, g, ic, m);
    HereInside(u, text, w, ic, p);
    var c := Match(p + n, m.captures[g := (p, p + n)], Some(g));
    EachOne(u, text, [GroupRef(g)], ic, c);
    if Here(u, text, w, ic, p) { BackTo(u, text, g, p, p + n, ic, c); }
  }

  lemma SameIsHere(u: Unicode, text: string, w: string, ic: bool, p: nat)
    ensures Here(u, text, w, ic, p) <==> p + |w| <= |text| && SameText(u, ic, w, text[p..p + |w|])
  {
  }

  // Looking ahead at a word, or back over it, takes no character.
  lemma LookLaw(u: Unicode, text: string, w: string, back: nat, ic: bool, m: Match)
    requires m.pos <= |text|
    ensures MatchOp(u, text, Assert(back, Letters(w)), ic, m) ==
            if back <= m.pos && Here(u, text, w, ic, m.pos - back) then [m] else []
    ensures MatchOp(u, text, AssertNot(back, Letters(w)), ic, m) ==
            if back <= m.pos && Here(u, text, w, ic, m.pos - back) then [] else [m]
  {
    if back <= m.pos {
      var at := m.(pos := m.pos - back);
      WordMatches(u, text, w, ic, at);
      assert at.(pos := at.pos + |w|).(pos := m.pos) == m;
    }
  }
}
