/** Which branch a match of the union belongs to, and the entities read off it. */
module MegaExtract {
  import opened Wrappers
  import opened RegexSyntax
  import opened RegexGuard
  import opened MegaScan

  // ----- the groups a sequence can close -----

  function GroupsOf(ops: seq<Op>): set<nat>
    decreases ops, 1
  {
    if ops == [] then {} else GroupsOfOp(ops[0]) + GroupsOf(ops[1..])
  }

  function GroupsOfOp(op: Op): set<nat>
    decreases op, 0
  {
    match op
    case Assert(_, body) => GroupsOf(body)
    case AssertNot(_, body) => GroupsOf(body)
    case Subpattern(group, _, _, body) => GroupsOf(body) + if group.Some? then {group.value} else {}
    case Branch(alternatives) => GroupsOfAll(alternatives)
    case Repeat(_, _, _, body) => GroupsOf(body)
    case AtomicGroup(body) => GroupsOf(body)
    case _ => {}
  }

  function GroupsOfAll(alternatives: seq<Alternative>): set<nat>
    decreases alternatives, 0
  {
    if alternatives == [] then {} else GroupsOf(alternatives[0].ops) + GroupsOfAll(alternatives[1..])
  }

  // From the captures of m, only these groups were closed, and the group
  // closed last is captured.
  predicate Closes(groups: set<nat>, m: Match, r: Match) {
    && r.captures.Keys <= m.captures.Keys + groups
    && (r.last == m.last || (r.last.Some? && r.last.value in groups && r.last.value in r.captures))
    && m.captures.Keys <= r.captures.Keys && (Marked(m) ==> Marked(r))
  }

  // A group is closed last exactly if some group was closed.
  predicate Marked(m: Match) {
    m.last.None? <==> m.captures.Keys == {}
  }

  ghost predicate AllClose(groups: set<nat>, m: Match, ms: seq<Match>) {
    forall r :: r in ms ==> Closes(groups, m, r)
  }

  lemma CaptureCloses(groups: set<nat>, group: Option<nat>, m: Match, ms: seq<Match>)
    requires AllClose(groups, m, ms)
    ensures AllClose(groups + (if group.Some? then {group.value} else {}), m, CaptureAll(group, m.pos, ms))
  {
    var rs := CaptureAll(group, m.pos, ms);
    forall r | r in rs
      ensures Closes(groups + (if group.Some? then {group.value} else {}), m, r)
    {
      var i :| 0 <= i < |rs| && rs[i] == r;
      assert ms[i] in ms && Closes(groups, m, ms[i]);
    }
  }

  lemma {:induction false} OpCloses(u: Unicode, text: string, op: Op, ic: bool, m: Match)
    ensures AllClose(GroupsOfOp(op), m, MatchOp(u, text, op, ic, m))
    decreases op, 0
  {
    match op
    case Assert(back, body) =>
      if m.pos >= back {
        var at := m.(pos := m.pos - back);
        SeqCloses(u, text, body, ic, at);
        var ms := MatchSeq(u, text, body, ic, at);
        assert ms != [] ==> Closes(GroupsOf(body), at, ms[0]);
      }
    case Subpattern(group, add, del, body) =>
      SeqCloses(u, text, body, SubIgnoreCase(ic, add, del), m);
      CaptureCloses(GroupsOf(body), group, m, MatchSeq(u, text, body, SubIgnoreCase(ic, add, del), m));
    case Branch(alternatives) => BranchesClose(u, text, alternatives, ic, m);
    case Repeat(greed, lo, hi, body) => RepeatCloses(u, text, body, lo, hi, greed.Possessive? || greed.Greedy?, ic, m);
    case AtomicGroup(body) => SeqCloses(u, text, body, ic, m);
    case _ =>
  }

  lemma {:induction false} SeqCloses(u: Unicode, text: string, ops: seq<Op>, ic: bool, m: Match)
    ensures AllClose(GroupsOf(ops), m, MatchSeq(u, text, ops, ic, m))
    decreases ops, 1, 0
  {
    if ops != [] {
      OpCloses(u, text, ops[0], ic, m);
      EachCloses(u, text, ops[1..], ic, MatchOp(u, text, ops[0], ic, m), GroupsOfOp(ops[0]), m);
    }
  }

  lemma {:induction false} EachCloses(u: Unicode, text: string, ops: seq<Op>, ic: bool, ms: seq<Match>,
                                      before: set<nat>, m: Match)
    requires AllClose(before, m, ms)
    ensures AllClose(before + GroupsOf(ops), m, MatchEach(u, text, ops, ic, ms))
    decreases ops, 2, |ms|
  {
    if ms == [] {
    } else {
      assert ms[0] in ms;
      SeqCloses(u, text, ops, ic, ms[0]);
      EachCloses(u, text, ops, ic, ms[1..], before, m);
    }
  }

  lemma {:induction false} BranchesClose(u: Unicode, text: string, alternatives: seq<Alternative>, ic: bool, m: Match)
    ensures AllClose(GroupsOfAll(alternatives), m, MatchBranches(u, text, alternatives, ic, m))
    decreases alternatives, 3
  {
    if alternatives == [] {
    } else {
      SeqCloses(u, text, alternatives[0].ops, ic, m);
      BranchesClose(u, text, alternatives[1..], ic, m);
    }
  }

  lemma {:induction false} RepeatCloses(u: Unicode, text: string, body: seq<Op>, lo: nat, hi: Option<nat>, greedy: bool,
                                        ic: bool, m: Match)
    ensures AllClose(GroupsOf(body), m, MatchRepeat(u, text, body, lo, hi, greedy, ic, m))
    decreases body, 4, lo, Left(text, m), 0
  {
    hide MatchSeq, GroupsOf, RepeatEach, Progressing;
    SeqCloses(u, text, body, ic, m);
    var once := MatchSeq(u, text, body, ic, m);
    if lo > 0 {
      RepeatEachCloses(u, text, body, lo - 1, Fewer(hi), greedy, ic, once, |text|, m);
    } else if hi != Some(0) && m.pos < |text| {
      RepeatEachCloses(u, text, body, 0, Fewer(hi), greedy, ic, Progressing(text, m.pos, once), Left(text, m) - 1, m);
    }
  }

  lemma {:induction false} RepeatEachCloses(u: Unicode, text: string, body: seq<Op>, lo: nat, hi: Option<nat>,
                                            greedy: bool,
                                            ic: bool, ms: seq<Match>, bound: nat, m: Match)
    requires AllClose(GroupsOf(body), m, ms) && forall r :: r in ms ==> Left(text, r) <= bound
    ensures AllClose(GroupsOf(body), m, RepeatEach(u, text, body, lo, hi, greedy, ic, ms, bound))
    decreases body, 4, lo, bound, 1, |ms|
  {
    if ms == [] {
    } else {
      assert ms[0] in ms;
      RepeatCloses(u, text, body, lo, hi, greedy, ic, ms[0]);
      RepeatEachCloses(u, text, body, lo, hi, greedy, ic, ms[1..], bound, m);
    }
  }

  lemma {:induction false} GroupsRenumbered(ops: seq<Op>, shift: nat)
    ensures forall g :: g in GroupsOf(Renumber(ops, shift)) <==> g >= shift && g - shift in GroupsOf(ops)
    decreases ops, 1
  {
    hide GroupsOfOp, RenumberOp;
    if ops == [] {
    } else {
      var rest := Renumber(ops[1..], shift);
      assert Renumber(ops, shift) == [RenumberOp(ops[0], shift)] + rest;
      assert Renumber(ops, shift)[1..] == rest;
      GroupsRenumberedOp(ops[0], shift);
      GroupsRenumbered(ops[1..], shift);
    }
  }

  lemma {:induction false} GroupsRenumberedOp(op: Op, shift: nat)
    ensures forall g :: g in GroupsOfOp(RenumberOp(op, shift)) <==> g >= shift && g - shift in GroupsOfOp(op)
    decreases op, 0
  {
    match op
    case Assert(_, body) => GroupsRenumbered(body, shift);
    case AssertNot(_, body) => GroupsRenumbered(body, shift);
    case Subpattern(_, _, _, body) => GroupsRenumbered(body, shift);
    case Branch(alternatives) => GroupsRenumberedAll(alternatives, shift);
    case Repeat(_, _, _, body) => GroupsRenumbered(body, shift);
    case AtomicGroup(body) => GroupsRenumbered(body, shift);
    case _ =>
  }

  lemma {:induction false} GroupsRenumberedAll(alternatives: seq<Alternative>, shift: nat)
    ensures forall g :: g in GroupsOfAll(RenumberAll(alternatives, shift)) <==>
            g >= shift && g - shift in GroupsOfAll(alternatives)
    decreases alternatives, 0
  {
    hide GroupsOf, Renumber;
    if alternatives == [] {
    } else {
      assert RenumberAll(alternatives, shift)[1..] == RenumberAll(alternatives[1..], shift);
      GroupsRenumbered(alternatives[0].ops, shift);
      GroupsRenumberedAll(alternatives[1..], shift);
    }
  }

  // ----- branches -----

  // Every pattern has the one capturing group that construction insists on.
  ghost predicate SingleGroups(patterns: seq<seq<Op>>) {
    forall i :: 0 <= i < |patterns| ==> GroupsOf(patterns[i]) == {1}
  }

  // A match of the union that closed a group closed the group of the branch
  // that matched, and that group is the only one captured.
  lemma UnionBranch(u: Unicode, text: string, patterns: seq<seq<Op>>, ic: bool, p: nat, r: Match) returns (i: nat)
    requires SingleGroups(patterns) && r in Attempt(u, text, Unguarded(patterns), ic, p)
    ensures i < |patterns|
    ensures r in MatchSeq(u, text, Renumber(patterns[i], i), ic, Match(p, map[], None))
    ensures r.captures.Keys <= {i + 1}
    ensures r.last == if i + 1 in r.captures then Some(i + 1) else None
  {
    var m := Match(p, map[], None);
    var alternatives := Alternatives(patterns);
    SingleOp(u, text, Branch(alternatives), ic, m);
    i := BranchFrom(u, text, alternatives, ic, m, r);
    var body := Renumber(patterns[i], i);
    SingleOp(u, text, Subpattern(None, false, false, body), ic, m);
    NoCapture(m.pos, MatchSeq(u, text, body, ic, m));
    SeqCloses(u, text, body, ic, m);
    GroupsRenumbered(patterns[i], i);
    assert Closes(GroupsOf(body), m, r);
  }

  lemma {:induction false} AcceptedIn(ms: seq<Match>, start: nat, mustAdvance: bool)
    ensures Accepted(ms, start, mustAdvance).Some? ==> Accepted(ms, start, mustAdvance).value in ms
    decreases |ms|
  {
    if ms != [] && mustAdvance && ms[0].pos == start { AcceptedIn(ms[1..], start, mustAdvance); }
  }

  lemma {:induction false} ScanAttempts(u: Unicode, text: string, ops: seq<Op>, ic: bool, from: nat, mustAdvance: bool)
    ensures forall f :: f in Scan(u, text, ops, ic, from, mustAdvance) ==>
              from <= f.start <= |text| && f.start <= f.m.pos && f.m in Attempt(u, text, ops, ic, f.start)
    decreases if from <= |text| then |text| - from + 1 else 0, if mustAdvance then 0 else 1
  {
    hide Attempt;
    if from > |text| {
    } else {
      var ms := Attempt(u, text, ops, ic, from);
      var m := Accepted(ms, from, mustAdvance);
      AcceptedIn(ms, from, mustAdvance);
      if m.None? || m.value.pos < from {
        ScanAttempts(u, text, ops, ic, from + 1, false);
      } else if m.value.pos == from {
        if !mustAdvance { ScanAttempts(u, text, ops, ic, from, true); }
      } else {
        ScanAttempts(u, text, ops, ic, m.value.pos, false);
      }
    }
  }

  // Each match of a scan over the union names its branch by its last group.
  lemma ScanBranches(u: Unicode, text: string, patterns: seq<seq<Op>>, ic: bool, f: Found) returns (i: nat)
    requires SingleGroups(patterns) && f in Scan(u, text, Unguarded(patterns), ic, 0, false)
    ensures i < |patterns|
    ensures f.m in MatchSeq(u, text, Renumber(patterns[i], i), ic, Match(f.start, map[], None))
    ensures f.m.last == if i + 1 in f.m.captures then Some(i + 1) else None
  {
    ScanAttempts(u, text, Unguarded(patterns), ic, 0, false);
    i := UnionBranch(u, text, patterns, ic, f.start, f.m);
  }

  // ----- the derivation of the guard, step by step -----

  class Collector {
    var chars: set<string>
    var classes: set<CharClass>

    constructor ()
      ensures chars == {} && classes == {}
    {
      chars, classes := {}, {};
    }

    ghost function Content(): FirstSet
      reads this
    {
      FirstSet(chars, classes)
    }

    // False stands for the bail, after which the sets are discarded.
    method CollectIn(u: Unicode, items: seq<Item>, ic: bool) returns (ok: bool)
      modifies this
      ensures ok <==> FirstOfItems(u, items, ic).Some?
      ensures ok ==> Content() == old(Content()).Union(FirstOfItems(u, items, ic).value)
    {
      for i := 0 to |items|
        invariant FirstOfItems(u, items[..i], ic).Some?
        invariant Content() == old(Content()).Union(FirstOfItems(u, items[..i], ic).value)
      {
        assert items[..i + 1][..i] == items[..i];
        var f := FirstOfItem(u, items[i], ic);
        if f.None? {
          PrefixBails(u, items, ic, i + 1);
          return false;
        }
        chars, classes := chars + f.value.chars, classes + f.value.classes;
      }
      assert items[..|items|] == items;
      ok := true;
    }
  }

  lemma {:induction false} PrefixBails(u: Unicode, items: seq<Item>, ic: bool, i: nat)
    requires i <= |items| && FirstOfItems(u, items[..i], ic).None?
    ensures FirstOfItems(u, items, ic).None?
    decreases |items|
  {
    if i < |items| {
      assert items[..|items| - 1][..i] == items[..i];
      PrefixBails(u, items[..|items| - 1], ic, i);
    } else {
      assert items[..i] == items;
    }
  }

  function Joined(acc: FirstSet, rest: Option<FirstSet>): Option<FirstSet> {
    if rest.None? then None else Some(acc.Union(rest.value))
  }

  lemma UnionLaws(a: FirstSet, b: FirstSet, c: FirstSet)
    ensures a.Union(b).Union(c) == a.Union(b.Union(c)) && NOTHING.Union(a) == a && a.Union(NOTHING) == a
  {
  }

  lemma JoinedLaws(a: FirstSet, b: FirstSet, rest: Option<FirstSet>)
    ensures Joined(NOTHING, rest) == rest
    ensures Joined(a, Joined(b, rest)) == Joined(a.Union(b), rest)
  {
    if rest.Some? {
      UnionLaws(rest.value, b, a);
      UnionLaws(a, b, rest.value);
    }
  }

  method FirstOfSeq(u: Unicode, ops: seq<Op>, ic: bool) returns (r: Option<FirstSet>)
    ensures r == FirstOf(u, ops, ic)
    decreases ops
  {
    var acc := NOTHING;
    assert ops[0..] == ops;
    JoinedLaws(acc, acc, FirstOf(u, ops, ic));
    for i := 0 to |ops|
      invariant FirstOf(u, ops, ic) == Joined(acc, FirstOf(u, ops[i..], ic))
    {
      assert ops[i..][0] == ops[i] && ops[i..][1..] == ops[i + 1..];
      match ops[i]
      case At(_) =>
      case Assert(_, _) =>
      case AssertNot(_, _) =>
      case Literal(c) => return Some(acc.Union(FirstSet(CharSet(u, c, ic), {})));
      case In(items) =>
        var sets := new Collector();
        sets.chars, sets.classes := acc.chars, acc.classes;
        var ok := sets.CollectIn(u, items, ic);
        return if ok then Some(FirstSet(sets.chars, sets.classes)) else None;
      case Subpattern(_, add, del, body) =>
        var f := FirstOfSeq(u, body, SubIgnoreCase(ic, add, del));
        return Joined(acc, f);
      case Branch(alternatives) =>
        var f := FirstOfAlternatives(u, alternatives, ic);
        return Joined(acc, f);
      case AtomicGroup(body) =>
        var f := FirstOfSeq(u, body, ic);
        return Joined(acc, f);
      case Repeat(_, lo, _, body) =>
        var f := FirstOfSeq(u, body, ic);
        if f.None? || lo >= 1 { return Joined(acc, f); }
        JoinedLaws(acc, f.value, FirstOf(u, ops[i + 1..], ic));
        acc := acc.Union(f.value);
      case _ => return None;
    }
    r := None;
  }

  method FirstOfAlternatives(u: Unicode, alternatives: seq<Alternative>, ic: bool) returns (r: Option<FirstSet>)
    ensures r == FirstOfBranches(u, alternatives, ic)
    decreases alternatives
  {
    var acc := NOTHING;
    assert alternatives[0..] == alternatives;
    JoinedLaws(acc, acc, FirstOfBranches(u, alternatives, ic));
    for i := 0 to |alternatives|
      invariant FirstOfBranches(u, alternatives, ic) == Joined(acc, FirstOfBranches(u, alternatives[i..], ic))
    {
      assert alternatives[i..][0] == alternatives[i] && alternatives[i..][1..] == alternatives[i + 1..];
      var f := FirstOfSeq(u, alternatives[i].ops, ic);
      if f.None? { return None; }
      JoinedLaws(acc, f.value, FirstOfBranches(u, alternatives[i + 1..], ic));
      acc := acc.Union(f.value);
    }
    assert alternatives[|alternatives|..] == [];
    UnionLaws(acc, acc, acc);
    r := Some(acc);
  }

  // Patterns that fail to parse count as None and disable the guard.
  method FirstCharsetGuard(u: Unicode, parsed: seq<Option<seq<Op>>>, ic: bool) returns (guard: Option<seq<Item>>)
    ensures (exists i :: 0 <= i < |parsed| && parsed[i].None?) ==> guard.None?
    ensures (forall i :: 0 <= i < |parsed| ==> parsed[i].Some?) ==>
              IsGuard(u, seq(|parsed|, i requires 0 <= i < |parsed| && parsed[i].Some? => parsed[i].value), ic, guard)
  {
    ghost var patterns: seq<seq<Op>> := [];
    var acc := NOTHING;
    for i := 0 to |parsed|
      invariant |patterns| == i && forall j :: 0 <= j < i ==> parsed[j] == Some(patterns[j])
      invariant FirstOfAll(u, patterns, ic) == Some(acc)
    {
      if parsed[i].None? { return None; }
      var f := FirstOfSeq(u, parsed[i].value, ic);
      ghost var longer := patterns + [parsed[i].value];
      assert longer[..i] == patterns;
      if f.None? {
        if forall j :: 0 <= j < |parsed| ==> parsed[j].Some? {
          var all := seq(|parsed|, j requires 0 <= j < |parsed| && parsed[j].Some? => parsed[j].value);
          assert all[..i + 1] == longer;
          LongerBails(u, all, ic, i + 1);
        }
        return None;
      }
      patterns, acc := longer, acc.Union(f.value);
    }
    if parsed == [] || acc == NOTHING {
      if forall j :: 0 <= j < |parsed| ==> parsed[j].Some? {
        assert patterns == seq(|parsed|, j requires 0 <= j < |parsed| && parsed[j].Some? => parsed[j].value);
      }
      return None;
    }
    var items := RenderClass(Prune(u, acc));
    assert patterns == seq(|parsed|, j requires 0 <= j < |parsed| && parsed[j].Some? => parsed[j].value);
    guard := Some(items);
  }

  lemma {:induction false} LongerBails(u: Unicode, patterns: seq<seq<Op>>, ic: bool, i: nat)
    requires i <= |patterns| && FirstOfAll(u, patterns[..i], ic).None?
    ensures FirstOfAll(u, patterns, ic).None?
    decreases |patterns|
  {
    if i < |patterns| {
      assert patterns[..|patterns| - 1][..i] == patterns[..i];
      LongerBails(u, patterns[..|patterns| - 1], ic, i);
    } else {
      assert patterns[..i] == patterns;
    }
  }

  // Writes the class body: the classes, then the characters of every string.
  method RenderClass(f: FirstSet) returns (items: seq<Item>)
    ensures Renders(items, f)
  {
    items := [];
    var classes, chars := f.classes, f.chars;
    while classes != {}
      invariant classes <= f.classes && Renders(items, FirstSet({}, f.classes - classes))
      decreases classes
    {
      var k :| k in classes;
      classes := classes - {k};
      AppendClass(items, FirstSet({}, f.classes - classes - {k}), k);
      items := items + [Class(Plain(k))];
      assert f.classes - classes == f.classes - classes - {k} + {k};
    }
    while chars != {}
      invariant chars <= f.chars && Renders(items, FirstSet(f.chars - chars, f.classes))
      decreases chars
    {
      var s :| s in chars;
      var more := seq(|s|, i requires 0 <= i < |s| => Item.One(s[i]));
      AppendString(items, FirstSet(f.chars - chars, f.classes), s, more);
      chars := chars - {s};
      items := items + more;
      assert f.chars - chars == f.chars - (chars + {s}) + {s};
    }
    assert f.chars - chars == f.chars && f.classes - {} == f.classes;
  }

  lemma AppendClass(items: seq<Item>, f: FirstSet, k: CharClass)
    requires Renders(items, f)
    ensures Renders(items + [Class(Plain(k))], FirstSet(f.chars, f.classes + {k}))
  {
  }

  lemma AppendString(items: seq<Item>, f: FirstSet, s: string, more: seq<Item>)
    requires Renders(items, f)
    requires |more| == |s| && forall i :: 0 <= i < |s| ==> more[i] == Item.One(s[i])
    ensures Renders(items + more, FirstSet(f.chars + {s}, f.classes))
  {
    forall c
      ensures Item.One(c) in more <==> c in s
    {
      if c in s { var i :| 0 <= i < |s| && s[i] == c; assert more[i] == Item.One(c); }
    }
  }

  // ----- lost matches -----

  // Superscript two is a digit to the pruning step and not to the class.
  const SUPERSCRIPT_TABLE := Unicode(c => [c], c => [c], (c, x) => c == x,
                                     c => c == '²', c => c == '²', c => false, c => false)

  // A pattern for a superscript two and one for a digit.
  const SUPERSCRIPT_PATTERNS: seq<seq<Op>> := [LiteralPattern(Lit('²', false), false), ClassPattern(Digit)]

  // The long s folds to s and is neither its lower nor its upper case.
  const LONG_S_TABLE := Unicode(c => [c], c => if c == 's' then "S" else [c],
                                (c, x) => c == x || (c == 's' && x == 'ſ'),
                                c => true, c => false, c => false, c => false)

  // `((?i:s))` in a union that minds case.
  const LONG_S_PATTERNS: seq<seq<Op>> := [LiteralPattern(Lit('s', true), false)]

  // The combining iota folds to iota and is no word character.
  const IOTA_TABLE := Unicode(c => [c], c => [c], (c, x) => c == x || (c == 'ι' && x == '\U{0345}'),
                              c => c == 'ι', c => false, c => false, c => false)

  // A pattern for iota and one for a word character, both ignoring case.
  const IOTA_PATTERNS: seq<seq<Op>> := [LiteralPattern(Lit('ι', true), true), ClassPattern(Word)]

  // The text is found without the guard and lost with it.
  ghost predicate Loses(u: Unicode, patterns: seq<seq<Op>>, ic: bool, text: string) {
    && SingleGroups(patterns) && DecimalIsAlnum(u) && GuardSource(u, patterns, ic).Some?
    && forall items :: IsGuard(u, patterns, ic, Some(items)) ==>
         Scan(u, text, Unguarded(patterns), ic, 0, false) != [] &&
         Scan(u, text, Guarded(items, patterns), ic, 0, false) == []
  }

  lemma {:induction false} LiteralPatternGroup(l: Lit, ic: bool)
    ensures GroupsOf(LiteralPattern(l, ic)) == {1}
  {
    var inner: seq<Op> := [Literal(l.c)];
    var scoped: seq<Op> := [Subpattern(None, l.ic && !ic, !l.ic && ic, inner)];
    assert inner[1..] == [] && scoped[1..] == [] && LiteralPattern(l, ic)[1..] == [];
    assert GroupsOf(inner) == {} && GroupsOf(scoped) == {};
  }

  lemma {:induction false} ClassPatternGroup(k: CharClass)
    ensures GroupsOf(ClassPattern(k)) == {1}
  {
    var inner: seq<Op> := [In([Class(Plain(k))])];
    assert inner[1..] == [] && ClassPattern(k)[1..] == [] && GroupsOf(inner) == {};
  }

  lemma {:induction false} LiteralFirst(u: Unicode, l: Lit, ic: bool)
    ensures FirstOf(u, LiteralPattern(l, ic), ic) == Some(FirstSet(CharSet(u, l.c, l.ic), {}))
  {
    hide CharSet;
    var inner: seq<Op> := [Literal(l.c)];
    var scoped: seq<Op> := [Subpattern(None, l.ic && !ic, !l.ic && ic, inner)];
    assert FirstOf(u, inner, l.ic) == Some(FirstSet(CharSet(u, l.c, l.ic), {}));
    assert FirstOf(u, scoped, ic) == FirstOf(u, inner, l.ic);
  }

  lemma {:induction false} ClassFirst(u: Unicode, k: CharClass, ic: bool)
    ensures FirstOf(u, ClassPattern(k), ic) == Some(FirstSet({}, {k}))
  {
    var items := [Class(Plain(k))];
    UnionLaws(FirstSet({}, {k}), NOTHING, NOTHING);
    assert items[..0] == [] && FirstOfItems(u, items, ic) == Some(FirstSet({}, {k}));
    var body: seq<Op> := [In(items)];
    assert FirstOf(u, body, ic) == FirstOfItems(u, items, ic);
  }

  lemma {:induction false} OnePatternSource(u: Unicode, l: Lit, ic: bool)
    ensures GuardSource(u, [LiteralPattern(l, ic)], ic) == Some(FirstSet(CharSet(u, l.c, l.ic), {}))
  {
    var one := [LiteralPattern(l, ic)];
    LiteralFirst(u, l, ic);
    assert [l.c] in CharSet(u, l.c, l.ic);
    hide CharSet, FirstOf, LiteralPattern;
    var f := FirstSet(CharSet(u, l.c, l.ic), {});
    UnionLaws(f, f, f);
    assert one[..0] == [] && one[0] == LiteralPattern(l, ic);
    assert FirstOfAll(u, one, ic) == Some(NOTHING.Union(f));
  }

  lemma {:induction false} TwoPatternSource(u: Unicode, l: Lit, k: CharClass, ic: bool)
    ensures GuardSource(u, [LiteralPattern(l, ic), ClassPattern(k)], ic) == Some(FirstSet(CharSet(u, l.c, l.ic), {k}))
  {
    var both := [LiteralPattern(l, ic), ClassPattern(k)];
    OnePatternSource(u, l, ic);
    ClassFirst(u, k, ic);
    hide CharSet, FirstOf, LiteralPattern, ClassPattern;
    var one, f := [LiteralPattern(l, ic)], FirstSet(CharSet(u, l.c, l.ic), {});
    assert both[..1] == one && both[1] == ClassPattern(k);
    assert FirstOfAll(u, one, ic) == Some(f);
    assert f.Union(FirstSet({}, {k})) == FirstSet(CharSet(u, l.c, l.ic), {k});
    assert FirstOfAll(u, both, ic) == Some(f.Union(FirstSet({}, {k})));
  }

  // Digits: the superscript is dropped beside the digit class, which does not
  // hold it.
  lemma {:induction false} SuperscriptIsLost()
    ensures Loses(SUPERSCRIPT_TABLE, SUPERSCRIPT_PATTERNS, false, "²")
  {
    hide LiteralPattern, ClassPattern, Scan, GuardSource;
    var u, l := SUPERSCRIPT_TABLE, Lit('²', false);
    LiteralPatternGroup(l, false);
    ClassPatternGroup(Digit);
    TwoPatternSource(u, l, Digit, false);
    var f := FirstSet({"²"}, {Digit});
    assert CharSet(u, l.c, l.ic) == {"²"} && IsDigitString(u, "²") && Prune(u, f) == FirstSet({}, {Digit});
    forall items | IsGuard(u, SUPERSCRIPT_PATTERNS, false, Some(items))
      ensures Scan(u, "²", Unguarded(SUPERSCRIPT_PATTERNS), false, 0, false) != []
      ensures Scan(u, "²", Guarded(items, SUPERSCRIPT_PATTERNS), false, 0, false) == []
    {
      UnadmittedLiteral(u, SUPERSCRIPT_PATTERNS, false, items, 0, l, '²');
    }
  }

  // Scoped flags: the guard holds the case pair of s, in a class that minds case.
  lemma {:induction false} ScopedFoldIsLost()
    ensures Loses(LONG_S_TABLE, LONG_S_PATTERNS, false, "ſ")
  {
    hide LiteralPattern, ClassPattern, Scan, GuardSource;
    var u, l := LONG_S_TABLE, Lit('s', true);
    LiteralPatternGroup(l, false);
    OnePatternSource(u, l, false);
    var f := FirstSet({"s", "S"}, {});
    assert CharSet(u, l.c, l.ic) == {"s", "S"} && Prune(u, f) == f;
    forall items | IsGuard(u, LONG_S_PATTERNS, false, Some(items))
      ensures Scan(u, "ſ", Unguarded(LONG_S_PATTERNS), false, 0, false) != []
      ensures Scan(u, "ſ", Guarded(items, LONG_S_PATTERNS), false, 0, false) == []
    {
      UnadmittedLiteral(u, LONG_S_PATTERNS, false, items, 0, l, 'ſ');
    }
  }

  // Words: iota is dropped beside the word class, which does not hold every
  // character that iota matches when case is ignored.
  lemma {:induction false} WordFoldIsLost()
    ensures Loses(IOTA_TABLE, IOTA_PATTERNS, true, "\U{0345}")
  {
    hide LiteralPattern, ClassPattern, Scan, GuardSource;
    var u, l := IOTA_TABLE, Lit('ι', true);
    LiteralPatternGroup(l, true);
    ClassPatternGroup(Word);
    TwoPatternSource(u, l, Word, true);
    var f := FirstSet({"ι"}, {Word});
    assert CharSet(u, l.c, l.ic) == {"ι"} && IsAlnumString(u, "ι") && Prune(u, f) == FirstSet({}, {Word});
    forall items | IsGuard(u, IOTA_PATTERNS, true, Some(items))
      ensures Scan(u, "\U{0345}", Unguarded(IOTA_PATTERNS), true, 0, false) != []
      ensures Scan(u, "\U{0345}", Guarded(items, IOTA_PATTERNS), true, 0, false) == []
    {
      UnadmittedLiteral(u, IOTA_PATTERNS, true, items, 0, l, '\U{0345}');
    }
  }
}
