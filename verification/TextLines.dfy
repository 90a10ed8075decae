/** What splitting a text into lines means, said of the text alone: a text is
    written line by line, each with its line break, in exactly one way. */
module TextLines {
  import opened Text

  const LINE_BREAKS: string := "\n\U{B}\U{C}\r\U{1C}\U{1D}\U{1E}\U{85}\U{2028}\U{2029}"
  const OTHER_SPACES: string := "\t \U{1F}\U{A0}\U{1680}\U{202F}\U{205F}\U{3000}"

  // The ten line breaks are spaces; the others are eight and the typographic ones.
  lemma BreaksAndSpaces(c: char)
    ensures Break(c) <==> c in LINE_BREAKS
    ensures Space(c) <==> Break(c) || c in OTHER_SPACES || '\U{2000}' <= c <= '\U{200A}'
  {
  }

  // A line and the break that ends it; the last line may have none.
  datatype Ruled = Ruled(line: string, end: string)

  const CR: string := "\r"
  const CRLF: string := "\r\n"

  predicate BreakText(b: string) {
    b == CRLF || (|b| == 1 && Break(b[0]))
  }

  predicate OpensWithNewline(s: string) {
    s != "" && s[0] == '\n'
  }

  function Written(rs: seq<Ruled>): string {
    if rs == [] then "" else rs[0].line + (rs[0].end + Written(rs[1..]))
  }

  function Lines(rs: seq<Ruled>): seq<string> {
    seq(|rs|, i requires 0 <= i < |rs| => rs[i].line)
  }

  // A carriage return with a newline right after it would be one break, and a
  // last line with neither text nor break is no line.
  ghost predicate Laid(rs: seq<Ruled>) {
    rs == [] ||
    (&& Unbroken(rs[0].line) && Laid(rs[1..])
     && if rs[0].end == "" then |rs| == 1 && rs[0].line != ""
        else BreakText(rs[0].end) && !(rs[0].end == CR && OpensWithNewline(Written(rs[1..]))))
  }

  // ----- both ways -----

  lemma BreakAhead(b: string, rest: string)
    requires BreakText(b) && !(b == CR && OpensWithNewline(rest))
    ensures b + rest != [] && Break((b + rest)[0]) && BreakLength(b + rest) == |b| && (b + rest)[|b|..] == rest
  {
  }

  lemma {:induction false} SplitWritten(rs: seq<Ruled>)
    requires Laid(rs)
    ensures SplitLines(Written(rs)) == Lines(rs)
  {
    if rs == [] {
    } else {
      var line, end, rest := rs[0].line, rs[0].end, Written(rs[1..]);
      SplitPrefix(line, end + rest, []);
      assert [] + line == line && Lines(rs) == [line] + Lines(rs[1..]);
      if end == "" {
        assert rs[1..] == [] && end + rest == "";
      } else {
        SplitWritten(rs[1..]);
        BreakAhead(end, rest);
      }
    }
  }

  function Ruling(s: string, cur: string): seq<Ruled>
    decreases |s|
  {
    if s == [] then if cur == [] then [] else [Ruled(cur, "")]
    else if Break(s[0]) then [Ruled(cur, s[..BreakLength(s)])] + Ruling(s[BreakLength(s)..], [])
    else Ruling(s[1..], cur + [s[0]])
  }

  lemma {:induction false} RulingLaid(s: string, cur: string)
    requires Unbroken(cur)
    ensures Laid(Ruling(s, cur)) && Written(Ruling(s, cur)) == cur + s
    decreases |s|
  {
    if s == [] {
      if cur != [] { assert [Ruled(cur, "")][1..] == []; }
    } else {
      if Break(s[0]) {
        var n := BreakLength(s);
        RulingLaid(s[n..], []);
        var rest := Ruling(s[n..], []);
        assert [] + s[n..] == s[n..] && ([Ruled(cur, s[..n])] + rest)[1..] == rest;
        assert s[..n] + s[n..] == s;
      } else {
        RulingLaid(s[1..], cur + [s[0]]);
        assert cur + [s[0]] + s[1..] == cur + s;
      }
    }
  }

  // The lines of a text are those it is written with.
  ghost predicate LinesOf(ls: seq<string>, s: string) {
    exists rs :: Laid(rs) && s == Written(rs) && ls == Lines(rs)
  }

  lemma SplitLinesIff(s: string, ls: seq<string>)
    ensures ls == SplitLines(s) <==> LinesOf(ls, s)
  {
    hide SplitLines, Laid, Written, Lines;
    forall rs | Laid(rs) && s == Written(rs)
      ensures Lines(rs) == SplitLines(s)
    {
      SplitWritten(rs);
    }
    RulingLaid(s, []);
    assert [] + s == s && Laid(Ruling(s, [])) && Written(Ruling(s, [])) == s;
  }

  // Unbroken lines joined by any one line break come back.
  lemma JoinedLines(ls: seq<string>, b: string)
    requires AllUnbroken(ls) && BreakText(b) && ls != [] && ls[|ls| - 1] != ""
    ensures SplitLines(Join(b, ls)) == ls
  {
    hide Laid, Written;
    JoinedLaid(ls, b);
    JoinedText(ls, b);
    SplitWritten(JoinedBy(ls, b));
    assert Lines(JoinedBy(ls, b)) == ls;
  }

  function JoinedBy(ls: seq<string>, b: string): seq<Ruled> {
    seq(|ls|, i requires 0 <= i < |ls| => Ruled(ls[i], if i < |ls| - 1 then b else ""))
  }

  lemma JoinOpens(ls: seq<string>, b: string)
    requires AllUnbroken(ls) && BreakText(b) && b == CR && ls != []
    ensures !OpensWithNewline(Join(b, ls))
  {
    assert Break('\n') && ls[0] in ls;
    if ls[0] != "" { assert ls[0][0] in ls[0] && Join(b, ls)[0] == ls[0][0]; }
  }

  lemma {:induction false} JoinedText(ls: seq<string>, b: string)
    requires ls != []
    ensures Written(JoinedBy(ls, b)) == Join(b, ls)
  {
    var rs := JoinedBy(ls, b);
    if |ls| == 1 {
      assert rs[1..] == [];
    } else {
      JoinedText(ls[1..], b);
      assert rs[1..] == JoinedBy(ls[1..], b);
    }
  }

  lemma {:induction false} JoinedLaid(ls: seq<string>, b: string)
    requires AllUnbroken(ls) && BreakText(b) && ls != [] && ls[|ls| - 1] != ""
    ensures Laid(JoinedBy(ls, b))
  {
    hide Unbroken, OpensWithNewline, BreakText, Written;
    var rs := JoinedBy(ls, b);
    assert Unbroken(ls[0]) by { assert ls[0] in ls; }
    if |ls| == 1 {
      assert rs[1..] == [];
    } else {
      JoinedLaid(ls[1..], b);
      JoinedText(ls[1..], b);
      assert rs[1..] == JoinedBy(ls[1..], b);
      if b == CR { JoinOpens(ls[1..], b); }
      NotEmpty(b);
    }
  }

  lemma NotEmpty(b: string)
    requires BreakText(b)
    ensures b != ""
  {
  }

  // ----- what survives -----

  function Concatenated(ls: seq<string>): string {
    if ls == [] then "" else ls[0] + Concatenated(ls[1..])
  }

  // The characters that break no line, in order.
  function Characters(s: string): string {
    if s == [] then "" else (if Break(s[0]) then "" else [s[0]]) + Characters(s[1..])
  }

  lemma {:induction false} CharactersAppend(a: string, b: string)
    ensures Characters(a + b) == Characters(a) + Characters(b)
  {
    if a == [] {
      assert a + b == b;
    } else {
      assert (a + b)[1..] == a[1..] + b;
      CharactersAppend(a[1..], b);
    }
  }

  lemma {:induction false} UnbrokenCharacters(s: string)
    requires Unbroken(s)
    ensures Characters(s) == s
  {
    if s == [] {
    } else {
      UnbrokenCharacters(s[1..]);
      assert !Break(s[0]);
    }
  }

  lemma BreakCharacters(b: string)
    requires b == "" || BreakText(b)
    ensures Characters(b) == ""
  {
    if b == CRLF {
      assert b[1..] == "\n" && b[1..][1..] == "" && Break(b[0]) && Break(b[1..][0]);
    } else if b != "" {
      assert b[1..] == "";
    }
  }

  lemma {:induction false} WrittenCharacters(rs: seq<Ruled>)
    requires Laid(rs)
    ensures Concatenated(Lines(rs)) == Characters(Written(rs))
  {
    if rs == [] {
    } else {
      var line, end, rest := rs[0].line, rs[0].end, Written(rs[1..]);
      WrittenCharacters(rs[1..]);
      assert Lines(rs)[1..] == Lines(rs[1..]);
      CharactersAppend(line, end + rest);
      CharactersAppend(end, rest);
      UnbrokenCharacters(line);
      BreakCharacters(end);
    }
  }

  // Splitting loses the line breaks and nothing else.
  lemma SplitKeepsCharacters(s: string)
    ensures Concatenated(SplitLines(s)) == Characters(s)
  {
    hide Laid, Written, Lines, Concatenated, Characters, SplitLines;
    SplitLinesIff(s, SplitLines(s));
    var rs :| Laid(rs) && s == Written(rs) && SplitLines(s) == Lines(rs);
    WrittenCharacters(rs);
  }
}
