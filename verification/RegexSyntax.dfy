/** Parsed regular expressions in the shape of the standard parser's output,
    and a backtracking matcher that lists the ways a sequence can match, most
    preferred first. Characters are judged by a table of Unicode facts. */
module RegexSyntax {
  import opened Wrappers

  // `lower` and `upper` may give several characters; `foldEq(c, x)` says that
  // a literal c matches x when case is ignored.
  datatype Unicode = Unicode(
    lower: char -> string,
    upper: char -> string,
    foldEq: (char, char) -> bool,
    isAlnum: char -> bool,
    isDigit: char -> bool,
    isDecimal: char -> bool,
    isSpace: char -> bool)
  {
    predicate IsWord(c: char) {
      isAlnum(c) || c == '_'
    }
  }

  datatype CharClass = Digit | Word | Space

  datatype Category = Plain(cls: CharClass) | Negated(cls: CharClass)

  datatype Item = One(c: char) | Range(lo: char, hi: char) | Class(category: Category) | Negate | OtherItem

  // `End` is the dollar sign, which also holds before a final line break.
  datatype Anchor = BeginString | End | EndString | Boundary | NonBoundary

  datatype Greed = Greedy | Lazy | Possessive

  // A lookbehind steps back over `back` characters before its body matches.
  datatype Op =
    | Literal(c: char)
    | NotLiteral(c: char)
    | AnyChar
    | In(items: seq<Item>)
    | At(anchor: Anchor)
    | Assert(back: nat, body: seq<Op>)
    | AssertNot(back: nat, body: seq<Op>)
    | Subpattern(group: Option<nat>, addIgnoreCase: bool, delIgnoreCase: bool, body: seq<Op>)
    | Branch(alternatives: seq<Alternative>)
    | Repeat(greed: Greed, lo: nat, hi: Option<nat>, body: seq<Op>)
    | AtomicGroup(body: seq<Op>)
    | GroupRef(target: nat)

  datatype Alternative = Alternative(ops: seq<Op>)

  function SubIgnoreCase(ic: bool, add: bool, del: bool): bool {
    if del then false else ic || add
  }

  // ----- single characters -----

  predicate LiteralMatches(u: Unicode, c: char, ic: bool, x: char) {
    c == x || (ic && u.foldEq(c, x))
  }

  predicate ClassMatches(u: Unicode, k: CharClass, x: char) {
    match k
    case Digit => u.isDecimal(x)
    case Word => u.IsWord(x)
    case Space => u.isSpace(x)
  }

  predicate ItemMatches(u: Unicode, item: Item, ic: bool, x: char) {
    match item
    case One(c) => LiteralMatches(u, c, ic, x)
    case Range(lo, hi) => exists c: char :: lo <= c <= hi && LiteralMatches(u, c, ic, x)
    case Class(Plain(k)) => ClassMatches(u, k, x)
    case Class(Negated(k)) => !ClassMatches(u, k, x)
    case Negate => false
    case OtherItem => false
  }

  // A class body; a leading negation turns the rest around.
  predicate InMatches(u: Unicode, items: seq<Item>, ic: bool, x: char) {
    if items != [] && items[0].Negate? then !exists i :: 1 <= i < |items| && ItemMatches(u, items[i], ic, x)
    else exists i :: 0 <= i < |items| && ItemMatches(u, items[i], ic, x)
  }

  // ----- the matcher -----

  // A position, the captured spans, and the group closed last.
  datatype Match = Match(pos: nat, captures: map<nat, (nat, nat)>, last: Option<nat>)

  predicate AnchorHolds(u: Unicode, text: string, a: Anchor, pos: nat) {
    var before := 0 < pos <= |text| && u.IsWord(text[pos - 1]);
    var after := pos < |text| && u.IsWord(text[pos]);
    match a
    case BeginString => pos == 0
    case End => pos == |text| || (pos + 1 == |text| && text[pos] == '\n')
    case EndString => pos == |text|
    case Boundary => before != after
    case NonBoundary => before == after
  }

  function First(ms: seq<Match>): seq<Match> {
    if ms == [] then [] else [ms[0]]
  }

  function Capture(group: Option<nat>, start: nat, m: Match): Match {
    if group.None? then m else m.(captures := m.captures[group.value := (start, m.pos)], last := group)
  }

  function CaptureAll(group: Option<nat>, start: nat, ms: seq<Match>): seq<Match> {
    seq(|ms|, i requires 0 <= i < |ms| => Capture(group, start, ms[i]))
  }

  predicate SameText(u: Unicode, ic: bool, captured: string, here: string) {
    |captured| == |here| && forall i :: 0 <= i < |captured| ==> LiteralMatches(u, captured[i], ic, here[i])
  }

  // The iterations that moved on; one that did not is not taken.
  function Progressing(text: string, pos: nat, ms: seq<Match>): (r: seq<Match>)
    ensures forall m :: m in r ==> m in ms && pos < m.pos <= |text|
  {
    if ms == [] then []
    else
      (if pos < ms[0].pos <= |text| then [ms[0]] else []) + Progressing(text, pos, ms[1..])
  }

  function Left(text: string, m: Match): nat {
    if m.pos <= |text| then |text| - m.pos else 0
  }

  function MatchOp(u: Unicode, text: string, op: Op, ic: bool, m: Match): seq<Match>
    decreases op, 0
  {
    match op
    case Literal(c) => if m.pos < |text| && LiteralMatches(u, c, ic, text[m.pos]) then [m.(pos := m.pos + 1)] else []
    case NotLiteral(c) =>
      if m.pos < |text| && !LiteralMatches(u, c, ic, text[m.pos]) then [m.(pos := m.pos + 1)] else []
    case AnyChar => if m.pos < |text| && text[m.pos] != '\n' then [m.(pos := m.pos + 1)] else []
    case In(items) => if m.pos < |text| && InMatches(u, items, ic, text[m.pos]) then [m.(pos := m.pos + 1)] else []
    case At(a) => if AnchorHolds(u, text, a, m.pos) then [m] else []
    case Assert(back, body) =>
      if m.pos < back then []
      else
        var ms := MatchSeq(u, text, body, ic, m.(pos := m.pos - back));
        if ms == [] then [] else [ms[0].(pos := m.pos)]
    case AssertNot(back, body) =>
      if m.pos >= back && MatchSeq(u, text, body, ic, m.(pos := m.pos - back)) != [] then [] else [m]
    case Subpattern(group, add, del, body) =>
      CaptureAll(group, m.pos, MatchSeq(u, text, body, SubIgnoreCase(ic, add, del), m))
    case Branch(alternatives) => MatchBranches(u, text, alternatives, ic, m)
    case Repeat(greed, lo, hi, body) =>
      if greed.Possessive? then First(MatchRepeat(u, text, body, lo, hi, true, ic, m))
      else MatchRepeat(u, text, body, lo, hi, greed.Greedy?, ic, m)
    case AtomicGroup(body) => First(MatchSeq(u, text, body, ic, m))
    case GroupRef(g) =>
      if g !in m.captures then []
      else
        var (s, e) := m.captures[g];
        if s <= e <= |text| && m.pos + e - s <= |text| && SameText(u, ic, text[s..e], text[m.pos..m.pos + e - s])
        then [m.(pos := m.pos + e - s)] else []
  }

  function MatchSeq(u: Unicode, text: string, ops: seq<Op>, ic: bool, m: Match): seq<Match>
    decreases ops, 1, 0
  {
    if ops == [] then [m] else MatchEach(u, text, ops[1..], ic, MatchOp(u, text, ops[0], ic, m))
  }

  // The rest of a sequence from each partial match in turn.
  function MatchEach(u: Unicode, text: string, ops: seq<Op>, ic: bool, ms: seq<Match>): seq<Match>
    decreases ops, 2, |ms|
  {
    if ms == [] then []
    else MatchSeq(u, text, ops, ic, ms[0]) + MatchEach(u, text, ops, ic, ms[1..])
  }

  function MatchBranches(u: Unicode, text: string, alternatives: seq<Alternative>, ic: bool, m: Match): seq<Match>
    decreases alternatives, 3
  {
    if alternatives == [] then []
    else MatchSeq(u, text, alternatives[0].ops, ic, m) + MatchBranches(u, text, alternatives[1..], ic, m)
  }

  function Fewer(hi: Option<nat>): Option<nat> {
    if hi.Some? && hi.value > 0 then Some(hi.value - 1) else hi
  }

  function MatchRepeat(u: Unicode, text: string, body: seq<Op>, lo: nat, hi: Option<nat>, greedy: bool, ic: bool,
                       m: Match)
    : seq<Match>
    decreases body, 4, lo, Left(text, m), 0
  {
    var once := MatchSeq(u, text, body, ic, m);
    if lo > 0 then RepeatEach(u, text, body, lo - 1, Fewer(hi), greedy, ic, once, |text|)
    else if hi == Some(0) || m.pos >= |text| then [m]
    else
      var more := RepeatEach(u, text, body, 0, Fewer(hi), greedy, ic, Progressing(text, m.pos, once),
                             Left(text, m) - 1);
      if greedy then more + [m] else [m] + more
  }

  // Further iterations from each match in turn; `bound` limits the text left.
  function RepeatEach(u: Unicode, text: string, body: seq<Op>, lo: nat, hi: Option<nat>, greedy: bool, ic: bool,
                      ms: seq<Match>, bound: nat): seq<Match>
    requires forall m :: m in ms ==> Left(text, m) <= bound
    decreases body, 4, lo, bound, 1, |ms|
  {
    if ms == [] then []
    else
      MatchRepeat(u, text, body, lo, hi, greedy, ic, ms[0]) +
      RepeatEach(u, text, body, lo, hi, greedy, ic, ms[1..], bound)
  }
}
