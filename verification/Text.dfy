/** Line splitting and joining of strings. */
module Text {
  // The line boundaries of str.splitlines, "\r\n" counting as one.
  predicate Break(c: char) {
    c as int in {10, 11, 12, 13, 28, 29, 30, 0x85, 0x2028, 0x2029}
  }

  predicate Space(c: char) {
    var n := c as int;
    n in {32, 0x85, 0xA0, 0x1680, 0x2028, 0x2029, 0x202F, 0x205F, 0x3000} || 9 <= n <= 13 || 28 <= n <= 31 ||
      0x2000 <= n <= 0x200A
  }

  const SP: string := " "

  function LeftStrip(s: string): (r: string)
    ensures |r| <= |s| && (r != [] ==> !Space(r[0]))
  {
    if s != [] && Space(s[0]) then LeftStrip(s[1..]) else s
  }

  function RightStrip(s: string): string {
    if s != [] && Space(s[|s| - 1]) then RightStrip(s[..|s| - 1]) else s
  }

  const NL: string := "\n"

  function BreakLength(s: string): (n: nat)
    requires s != [] && Break(s[0])
    ensures 1 <= n <= |s|
  {
    if |s| >= 2 && s[0] as int == 13 && s[1] as int == 10 then 2 else 1
  }

  // `cur` is the line read so far; a trailing break opens no further line.
  function SplitFrom(s: string, cur: string): seq<string>
    decreases |s|
  {
    if s == [] then if cur == [] then [] else [cur]
    else if Break(s[0]) then [cur] + SplitFrom(s[BreakLength(s)..], [])
    else SplitFrom(s[1..], cur + [s[0]])
  }

  function SplitLines(s: string): seq<string> {
    SplitFrom(s, [])
  }

  ghost predicate Unbroken(s: string) {
    forall c :: c in s ==> !Break(c)
  }

  ghost predicate AllUnbroken(ls: seq<string>) {
    forall l :: l in ls ==> Unbroken(l)
  }

  lemma {:induction false} SplitUnbroken(s: string, cur: string)
    requires Unbroken(cur)
    ensures AllUnbroken(SplitFrom(s, cur))
    decreases |s|
  {
    if s == [] {
    } else {
      if Break(s[0]) {
        SplitUnbroken(s[BreakLength(s)..], []);
      } else {
        SplitUnbroken(s[1..], cur + [s[0]]);
      }
    }
  }

  // The first line of a text that opens with an unbroken prefix keeps it.
  lemma {:induction false} SplitHead(s: string, cur: string)
    requires cur != []
    ensures SplitFrom(s, cur) != [] && cur <= SplitFrom(s, cur)[0]
    decreases |s|
  {
    if s == [] || Break(s[0]) {
    } else {
      SplitHead(s[1..], cur + [s[0]]);
    }
  }

  lemma {:induction false} SplitPrefix(a: string, b: string, cur: string)
    requires Unbroken(a)
    ensures SplitFrom(a + b, cur) == SplitFrom(b, cur + a)
    decreases |a|
  {
    if a == [] {
      assert a + b == b && cur + a == cur;
    } else {
      assert (a + b)[0] == a[0] && (a + b)[1..] == a[1..] + b;
      assert !Break(a[0]);
      SplitPrefix(a[1..], b, cur + [a[0]]);
      assert cur + [a[0]] + a[1..] == cur + a;
    }
  }

  function Join(sep: string, parts: seq<string>): string {
    if parts == [] then ""
    else if |parts| == 1 then parts[0]
    else parts[0] + sep + Join(sep, parts[1..])
  }

  lemma {:induction false} JoinAppend(sep: string, parts: seq<string>, more: seq<string>)
    requires parts != [] && more != []
    ensures Join(sep, parts + more) == Join(sep, parts) + sep + Join(sep, more)
  {
    if |parts| == 1 {
      assert (parts + more)[0] == parts[0] && (parts + more)[1..] == more;
    } else {
      assert (parts + more)[0] == parts[0] && (parts + more)[1..] == parts[1..] + more;
      JoinAppend(sep, parts[1..], more);
    }
  }

  lemma {:induction false} JoinUnbroken(sep: string, parts: seq<string>)
    requires Unbroken(sep) && AllUnbroken(parts)
    ensures Unbroken(Join(sep, parts))
  {
    if |parts| <= 1 {
    } else {
      assert parts[0] in parts;
      JoinUnbroken(sep, parts[1..]);
    }
  }

  // ----- splitting on the newline alone -----

  function SplitNewline(s: string, cur: string): seq<string> {
    if s == [] then [cur]
    else if s[0] == '\n' then [cur] + SplitNewline(s[1..], [])
    else SplitNewline(s[1..], cur + [s[0]])
  }

  ghost predicate NoNewline(s: string) {
    '\n' !in s
  }

  ghost predicate NoneNewline(ls: seq<string>) {
    forall l :: l in ls ==> NoNewline(l)
  }

  lemma {:induction false} NewlineHead(a: string, rest: string, cur: string)
    requires NoNewline(a)
    ensures SplitNewline(a + NL + rest, cur) == [cur + a] + SplitNewline(rest, [])
    ensures SplitNewline(a, cur) == [cur + a]
    decreases |a|
  {
    if a == [] {
      assert (a + NL + rest)[0] == '\n' && (a + NL + rest)[1..] == rest && cur + a == cur;
    } else {
      assert (a + NL + rest)[0] == a[0] && (a + NL + rest)[1..] == a[1..] + NL + rest;
      NewlineHead(a[1..], rest, cur + [a[0]]);
      assert cur + [a[0]] + a[1..] == cur + a;
    }
  }

  // Joining lines and splitting again gives the lines.
  lemma {:induction false} JoinSplit(ls: seq<string>)
    requires ls != [] && NoneNewline(ls)
    ensures SplitNewline(Join(NL, ls), []) == ls
  {
    assert ls[0] in ls;
    if |ls| == 1 {
      NewlineHead(ls[0], "", []);
      assert [] + ls[0] == ls[0];
    } else {
      JoinSplit(ls[1..]);
      NewlineHead(ls[0], Join(NL, ls[1..]), []);
      assert [] + ls[0] == ls[0];
      assert ls == [ls[0]] + ls[1..];
    }
  }
}
