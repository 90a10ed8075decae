/** Finding a stored chunk in its file, up to whitespace. */
module Enrich {
  import opened Wrappers
  import opened Text

  // ----- normalisation, as the regular expression does it -----

  // Every run of whitespace becomes one space.
  function Collapse(s: string): string
    decreases |s|
  {
    if s == [] then []
    else if Space(s[0]) then SP + Collapse(LeftStrip(s[1..]))
    else [s[0]] + Collapse(s[1..])
  }

  function Norm(s: string): string {
    RightStrip(LeftStrip(Collapse(s)))
  }

  // ----- the same by words -----

  function WordsFrom(s: string, cur: string): seq<string>
    decreases |s|
  {
    if s == [] then if cur == [] then [] else [cur]
    else if Space(s[0]) then (if cur == [] then [] else [cur]) + WordsFrom(s[1..], [])
    else WordsFrom(s[1..], cur + [s[0]])
  }

  function Words(s: string): seq<string> {
    WordsFrom(s, [])
  }

  ghost predicate Solid(s: string) {
    forall c :: c in s ==> !Space(c)
  }

  lemma {:induction false} WordsSkip(s: string)
    ensures WordsFrom(LeftStrip(s), []) == WordsFrom(s, [])
  {
    if s == [] || !Space(s[0]) {
    } else {
      WordsSkip(s[1..]);
    }
  }

  lemma {:induction false} CollapseHead(s: string)
    requires s != [] && !Space(s[0])
    ensures Collapse(s) != [] && !Space(Collapse(s)[0]) && LeftStrip(Collapse(s)) == Collapse(s)
  {
  }

  lemma {:induction false} RightStripSolid(s: string)
    requires Solid(s)
    ensures RightStrip(s) == s && LeftStrip(s) == s
  {
    if s != [] { assert s[0] in s && s[|s| - 1] in s; }
  }

  lemma {:induction false} RightStripTail(a: string, b: string)
    requires RightStrip(b) != []
    ensures RightStrip(a + b) == a + RightStrip(b)
    decreases |b|
  {
    assert b != [] && (a + b)[|a + b| - 1] == b[|b| - 1];
    if !Space(b[|b| - 1]) {
    } else {
      assert (a + b)[..|a + b| - 1] == a + b[..|b| - 1];
      RightStripTail(a, b[..|b| - 1]);
    }
  }

  lemma {:induction false} RightStripHead(s: string)
    requires s != [] && !Space(s[0])
    ensures RightStrip(s) != []
  {
    if !Space(s[|s| - 1]) {
    } else {
      RightStripHead(s[..|s| - 1]);
    }
  }

  lemma {:induction false} WordsHead(s: string, cur: string)
    requires cur != [] || (s != [] && !Space(s[0]))
    ensures WordsFrom(s, cur) != []
    decreases |s|
  {
    if s == [] || Space(s[0]) {
    } else {
      WordsHead(s[1..], cur + [s[0]]);
    }
  }

  lemma {:induction false} LeftStripSolid(a: string, b: string)
    requires Solid(a) && a != []
    ensures LeftStrip(a + b) == a + b
  {
    assert (a + b)[0] == a[0] && a[0] in a;
  }

  // A finished word, a space, and a rest that opens with a word.
  lemma {:induction false} WordThenRest(cur: string, rest: string)
    requires Solid(cur) && cur != [] && rest != [] && !Space(rest[0])
    requires Norm(rest) == Join(SP, WordsFrom(rest, []))
    ensures RightStrip(LeftStrip(cur + (SP + Collapse(rest)))) == Join(SP, [cur] + WordsFrom(rest, []))
  {
    hide WordsFrom, Join;
    LeftStripSolid(cur, SP + Collapse(rest));
    CollapseHead(rest);
    RightStripHead(Collapse(rest));
    RightStripTail(cur + SP, Collapse(rest));
    assert cur + (SP + Collapse(rest)) == cur + SP + Collapse(rest);
    WordsHead(rest, []);
    JoinCons(SP, cur, WordsFrom(rest, []));
  }

  lemma {:induction false} JoinCons(sep: string, a: string, parts: seq<string>)
    requires parts != []
    ensures Join(sep, [a] + parts) == a + sep + Join(sep, parts)
  {
    assert ([a] + parts)[1..] == parts;
  }

  lemma {:induction false} WordThenNothing(cur: string)
    requires Solid(cur)
    ensures RightStrip(LeftStrip(cur + SP)) == cur
  {
    RightStripSolid(cur);
    if cur != [] {
      LeftStripSolid(cur, SP);
      assert (cur + SP)[..|cur|] == cur;
    } else {
      assert cur + SP == SP && SP[1..] == [];
    }
  }

  // The words read so far and the rest to collapse make the words joined.
  lemma {:induction false} StripIsWords(s: string, cur: string)
    requires Solid(cur)
    ensures RightStrip(LeftStrip(cur + Collapse(s))) == Join(SP, WordsFrom(s, cur))
    decreases |s|
  {
    hide RightStrip;
    if s == [] {
      RightStripSolid(cur);
      assert cur + [] == cur;
    } else if !Space(s[0]) {
      StripIsWords(s[1..], cur + [s[0]]);
      assert cur + ([s[0]] + Collapse(s[1..])) == cur + [s[0]] + Collapse(s[1..]);
    } else {
      var rest := LeftStrip(s[1..]);
      WordsSkip(s[1..]);
      StripIsWords(rest, []);
      assert [] + Collapse(rest) == Collapse(rest);
      if cur == [] {
        assert [] + (SP + Collapse(rest)) == SP + Collapse(rest) && (SP + Collapse(rest))[1..] == Collapse(rest);
        assert LeftStrip(SP + Collapse(rest)) == LeftStrip(Collapse(rest));
        assert WordsFrom(s, []) == [] + WordsFrom(s[1..], []) == WordsFrom(rest, []);
      } else if rest == [] {
        WordThenNothing(cur);
        assert Collapse(s) == SP + [] == SP;
        assert WordsFrom(rest, []) == [];
        assert WordsFrom(s, cur) == [cur];
      } else {
        WordThenRest(cur, rest);
      }
    }
  }

  // Normalising is joining the words by single spaces.
  lemma {:induction false} NormIsWords(s: string)
    ensures Norm(s) == Join(SP, Words(s))
  {
    StripIsWords(s, []);
    assert [] + Collapse(s) == Collapse(s);
  }

  lemma {:induction false} WordsAppend(a: string, sep: char, b: string, cur: string)
    requires Space(sep)
    ensures WordsFrom(a + [sep] + b, cur) == WordsFrom(a, cur) + WordsFrom(b, [])
    decreases |a|
  {
    if a == [] {
      assert (a + [sep] + b)[0] == sep && (a + [sep] + b)[1..] == b;
    } else {
      assert (a + [sep] + b)[0] == a[0] && (a + [sep] + b)[1..] == a[1..] + [sep] + b;
      if Space(a[0]) {
        WordsAppend(a[1..], sep, b, []);
      } else {
        WordsAppend(a[1..], sep, b, cur + [a[0]]);
      }
    }
  }

  // ----- windows of lines -----

  function AllWords(ls: seq<string>): seq<string> {
    if ls == [] then [] else Words(ls[0]) + AllWords(ls[1..])
  }

  lemma {:induction false} JoinedWords(ls: seq<string>)
    ensures Words(Join(NL, ls)) == AllWords(ls)
  {
    if ls == [] {
    } else if |ls| == 1 {
      assert AllWords(ls[1..]) == [];
    } else {
      JoinedWords(ls[1..]);
      assert ls[0] + NL + Join(NL, ls[1..]) == ls[0] + ['\n'] + Join(NL, ls[1..]);
      WordsAppend(ls[0], '\n', Join(NL, ls[1..]), []);
    }
  }

  lemma {:induction false} AllWordsAppend(a: seq<string>, b: seq<string>)
    ensures AllWords(a + b) == AllWords(a) + AllWords(b)
  {
    if a == [] {
      assert a + b == b;
    } else {
      assert (a + b)[0] == a[0] && (a + b)[1..] == a[1..] + b;
      AllWordsAppend(a[1..], b);
    }
  }

  // Lines [start, end) joined by newlines and normalised.
  function Window(lines: seq<string>, start: nat, end: nat): string
    requires start <= end <= |lines|
  {
    Norm(Join(NL, lines[start..end]))
  }

  lemma {:induction false} WindowIs(lines: seq<string>, start: nat, end: nat)
    requires start <= end <= |lines|
    ensures Window(lines, start, end) == Join(SP, AllWords(lines[start..end]))
  {
    NormIsWords(Join(NL, lines[start..end]));
    JoinedWords(lines[start..end]);
  }

  function Glue(a: string, b: string): string {
    if b == [] then a else if a == [] then b else a + SP + b
  }

  ghost predicate Worded(ws: seq<string>) {
    forall w :: w in ws ==> w != []
  }

  lemma {:induction false} WordsWorded(s: string, cur: string)
    ensures Worded(WordsFrom(s, cur))
    decreases |s|
  {
    if s == [] {
    } else {
      if Space(s[0]) { WordsWorded(s[1..], []); } else { WordsWorded(s[1..], cur + [s[0]]); }
    }
  }

  lemma {:induction false} AllWorded(ls: seq<string>)
    ensures Worded(AllWords(ls))
  {
    if ls == [] {
    } else {
      WordsWorded(ls[0], []);
      AllWorded(ls[1..]);
    }
  }

  lemma {:induction false} JoinGlue(u: seq<string>, v: seq<string>)
    requires Worded(u) && Worded(v)
    ensures Join(SP, u + v) == Glue(Join(SP, u), Join(SP, v))
    ensures Join(SP, u) == [] <==> u == []
  {
    if u == [] {
      assert u + v == v;
    } else {
      assert u[0] in u;
      assert Join(SP, u) != [];
      if v == [] {
        assert u + v == u;
      } else {
        assert v[0] in v;
        assert Join(SP, v) != [];
        JoinAppend(SP, u, v);
      }
    }
  }

  // Normalising respects concatenation by lines.
  lemma {:induction false} WindowGlue(lines: seq<string>, start: nat, mid: nat, end: nat)
    requires start <= mid <= end <= |lines|
    ensures Window(lines, start, end) == Glue(Window(lines, start, mid), Window(lines, mid, end))
  {
    hide Window;
    WindowIs(lines, start, mid);
    WindowIs(lines, mid, end);
    WindowIs(lines, start, end);
    assert lines[start..end] == lines[start..mid] + lines[mid..end];
    AllWordsAppend(lines[start..mid], lines[mid..end]);
    AllWorded(lines[start..mid]);
    AllWorded(lines[mid..end]);
    JoinGlue(AllWords(lines[start..mid]), AllWords(lines[mid..end]));
  }

  lemma {:induction false} WindowOne(lines: seq<string>, k: nat)
    requires k < |lines|
    ensures Window(lines, k, k + 1) == Norm(lines[k]) && Window(lines, k, k) == []
  {
    assert lines[k..k + 1] == [lines[k]] && lines[k..k] == [];
  }

  // What the loop does to its accumulator.
  lemma {:induction false} AccumulateIsGlue(acc: string, piece: string)
    requires acc == [] || (!Space(acc[0]))
    requires piece == [] || (!Space(piece[0]) && !Space(piece[|piece| - 1]))
    ensures (if piece != [] then RightStrip(LeftStrip(acc + SP + piece)) else acc) == Glue(acc, piece)
  {
    if piece != [] {
      var all := acc + SP + piece;
      assert all[|all| - 1] == piece[|piece| - 1];
      if acc == [] {
        assert all[1..] == piece;
      } else {
        assert all[0] == acc[0];
      }
    }
  }

  lemma {:induction false} NormTrimmed(s: string)
    ensures Norm(s) == [] || (!Space(Norm(s)[0]) && !Space(Norm(s)[|Norm(s)| - 1]))
  {
    RightTrimmed(LeftStrip(Collapse(s)));
  }

  lemma {:induction false} RightTrimmed(s: string)
    ensures RightStrip(s) == [] || (RightStrip(s)[0] == s[0] && !Space(RightStrip(s)[|RightStrip(s)| - 1]))
    ensures |RightStrip(s)| <= |s|
  {
    if s == [] || !Space(s[|s| - 1]) {
    } else {
      RightTrimmed(s[..|s| - 1]);
    }
  }

  // ----- the scan -----

  const MAX_FILE_BYTES: nat := 5 * 1024 * 1024

  // An open file: its size, and its text if it reads and decodes.
  datatype Handle = Handle(size: nat, decoded: Option<string>)

  ghost predicate Spans(lines: seq<string>, start: nat, end: nat, target: string) {
    start <= end < |lines| && Window(lines, start, end + 1) == target
  }

  ghost predicate NoSpanFrom(lines: seq<string>, start: nat, target: string) {
    forall end: nat :: !Spans(lines, start, end, target)
  }

  // A window that stopped being a prefix never becomes the target.
  lemma {:induction false} PrefixBreak(lines: seq<string>, start: nat, end: nat, later: nat, target: string)
    requires start < end && end <= later + 1 <= |lines| && !(Window(lines, start, end) <= target)
    ensures !Spans(lines, start, later, target)
  {
    hide Window;
    WindowGlue(lines, start, end, later + 1);
  }

  lemma {:induction false} BlankFirst(lines: seq<string>, start: nat, end: nat, target: string)
    requires Spans(lines, start, end, target) && target != []
    ensures exists s: nat :: start <= s <= end && Norm(lines[s]) != [] && Spans(lines, s, end, target)
    decreases end - start
  {
    hide Window, Norm;
    WindowGlue(lines, start, start + 1, end + 1);
    WindowOne(lines, start);
    if Norm(lines[start]) != [] {
    } else {
      assert start < end;
      BlankFirst(lines, start + 1, end, target);
    }
  }

  // 1-indexed and inclusive.
  method LocateChunk(chunkText: string, fh: Handle) returns (r: Option<(nat, nat)>)
    ensures fh.size > MAX_FILE_BYTES || fh.decoded.None? || Norm(chunkText) == [] ==> r.None?
    ensures r.Some? ==>
              var lines, (a, b) := SplitLines(fh.decoded.value), r.value;
              && 1 <= a <= b && Spans(lines, a - 1, b - 1, Norm(chunkText)) && Norm(lines[a - 1]) != []
              && (forall s: nat, e: nat :: Spans(lines, s, e, Norm(chunkText)) && Norm(lines[s]) != [] ==>
                   a - 1 < s || (a - 1 == s && b - 1 <= e))
    ensures r.None? && fh.size <= MAX_FILE_BYTES && fh.decoded.Some? && Norm(chunkText) != [] ==>
              forall s: nat, e: nat :: !Spans(SplitLines(fh.decoded.value), s, e, Norm(chunkText))
  {
    if fh.size > MAX_FILE_BYTES || fh.decoded.None? { return None; }
    var lines := SplitLines(fh.decoded.value);
    var target := Norm(chunkText);
    if target == [] { return None; }
    r := Scan(lines, target);
  }

  method Scan(lines: seq<string>, target: string) returns (r: Option<(nat, nat)>)
    requires target != []
    ensures r.Some? ==>
              var (a, b) := r.value;
              && 1 <= a <= b && Spans(lines, a - 1, b - 1, target) && Norm(lines[a - 1]) != []
              && (forall s: nat, e: nat :: Spans(lines, s, e, target) && Norm(lines[s]) != [] ==>
                   a - 1 < s || (a - 1 == s && b - 1 <= e))
    ensures r.None? ==> forall s: nat, e: nat :: !Spans(lines, s, e, target)
  {
    hide Norm, Spans, NoSpanFrom;
    for start := 0 to |lines|
      invariant forall s: nat :: s < start && Norm(lines[s]) != [] ==> NoSpanFrom(lines, s, target)
    {
      if Norm(lines[start]) != [] {
        var end := ScanFrom(lines, start, target);
        if end.Some? {
          Earliest(lines, start, end.value, target);
          r := Some((start + 1, end.value + 1));
          return;
        }
      }
    }
    NoneAtAll(lines, target);
    r := None;
  }

  lemma {:induction false} Earliest(lines: seq<string>, start: nat, end: nat, target: string)
    requires start < |lines| && (forall s: nat :: s < start && Norm(lines[s]) != [] ==> NoSpanFrom(lines, s, target))
    requires forall e: nat :: e < end ==> !Spans(lines, start, e, target)
    ensures forall s: nat, e: nat :: Spans(lines, s, e, target) && Norm(lines[s]) != [] ==>
              start < s || (start == s && end <= e)
  {
    hide Norm, Window;
  }

  lemma {:induction false} NoneAtAll(lines: seq<string>, target: string)
    requires target != [] && forall s: nat :: s < |lines| && Norm(lines[s]) != [] ==> NoSpanFrom(lines, s, target)
    ensures forall s: nat, e: nat :: !Spans(lines, s, e, target)
  {
    hide Norm, Window;
    forall s: nat, e: nat
      ensures !Spans(lines, s, e, target)
    {
      if Spans(lines, s, e, target) { BlankFirst(lines, s, e, target); }
    }
  }

  method ScanFrom(lines: seq<string>, start: nat, target: string) returns (r: Option<nat>)
    requires start < |lines|
    ensures r.Some? ==> start <= r.value && Spans(lines, start, r.value, target)
    ensures r.Some? ==> forall e: nat :: e < r.value ==> !Spans(lines, start, e, target)
    ensures r.None? ==> NoSpanFrom(lines, start, target)
  {
    hide Norm, Window, RightStrip, LeftStrip, Glue;
    var acc := "";
    WindowOne(lines, start);
    for end := start to |lines|
      invariant acc == Window(lines, start, end)
      invariant forall e: nat :: e < end ==> !Spans(lines, start, e, target)
    {
      var piece := Norm(lines[end]);
      WindowGlue(lines, start, end, end + 1);
      WindowOne(lines, end);
      NormTrimmed(lines[end]);
      NormTrimmed(Join(NL, lines[start..end]));
      WindowNorm(lines, start, end);
      AccumulateIsGlue(acc, piece);
      acc := if piece != [] then RightStrip(LeftStrip(acc + SP + piece)) else acc;
      if acc == target { return Some(end); }
      if |acc| > |target| || (acc != [] && !(acc <= target)) {
        forall e: nat
          ensures !Spans(lines, start, e, target)
        {
          if end <= e < |lines| { PrefixBreak(lines, start, end + 1, e, target); }
        }
        return None;
      }
    }
    return None;
  }

  lemma {:induction false} WindowNorm(lines: seq<string>, start: nat, end: nat)
    requires start <= end <= |lines|
    ensures Window(lines, start, end) == Norm(Join(NL, lines[start..end]))
  {
  }
}
