/** Reading a payload back: entries by blank lines, bodies by their indent. */
module PayloadParse {
  import opened Wrappers
  import opened Text
  import opened TextLines
  import opened Payload

  datatype Body = Body(lines: seq<string>, provenance: string)

  // One entry as a reader sees it.
  datatype Item = Item(handle: string, body: Option<Body>)

  // The physical lines of one entry.
  datatype Block = Block(lines: seq<string>)

  function WholeItem(r: Recalled): Item {
    if Trusted(r) then Item(HandleLine(r), Some(Body(BodyLines(r.text), ProvenanceLine(r)))) else HandleItem(r)
  }

  function HandleItem(r: Recalled): Item {
    Item(Tier0Handle(r), None)
  }

  function BlockOf(i: Item): Block {
    if i.body.None? then Block([i.handle])
    else Block([i.handle] + Indented(i.body.value.lines) + [i.body.value.provenance])
  }

  // ----- the reader -----

  function GroupFrom(ls: seq<string>, cur: seq<string>): seq<Block>
    decreases |ls|
  {
    if ls == [] then [Block(cur)]
    else if ls[0] == "" then [Block(cur)] + GroupFrom(ls[1..], [])
    else GroupFrom(ls[1..], cur + [ls[0]])
  }

  function Dedent(l: string): string {
    if |l| >= 2 then l[2..] else []
  }

  function Dedented(ls: seq<string>): seq<string> {
    seq(|ls|, i requires 0 <= i < |ls| => Dedent(ls[i]))
  }

  function ReadBlock(b: Block): Item {
    var ls := b.lines;
    if |ls| >= 3 then Item(ls[0], Some(Body(Dedented(ls[1..|ls| - 1]), ls[|ls| - 1])))
    else Item(if ls == [] then "" else ls[0], None)
  }

  function ReadBlocks(blocks: seq<Block>): seq<Item> {
    seq(|blocks|, i requires 0 <= i < |blocks| => ReadBlock(blocks[i]))
  }

  function ReadPayload(text: string): seq<Item> {
    ReadBlocks(GroupFrom(SplitNewline(text, []), []))
  }

  // ----- furniture is one line, and says what it names -----

  ghost predicate Plain(l: string) {
    NoNewline(l) && l != ""
  }

  lemma {:induction false} OneLineUnbroken(line: string)
    ensures Unbroken(OneLine(line))
  {
    SplitUnbroken(line, []);
    JoinUnbroken(" ", SplitLines(line));
  }

  lemma {:induction false} OneLineKeepsHead(head: string, rest: string)
    requires Unbroken(head) && head != []
    ensures head <= OneLine(head + rest)
  {
    SplitPrefix(head, rest, []);
    assert [] + head == head;
    SplitHead(rest, head);
    JoinKeepsHead(" ", SplitLines(head + rest));
  }

  lemma {:induction false} JoinKeepsHead(sep: string, parts: seq<string>)
    requires parts != []
    ensures parts[0] <= Join(sep, parts)
  {
  }

  // A handle line opens with its atom's address, whatever the store holds.
  lemma {:induction false} HandleNames(r: Recalled)
    requires Unbroken(r.atomId)
    ensures HANDLE_SCHEME + r.atomId + " | " <= HandleLine(r)
    ensures HANDLE_SCHEME + r.atomId + " | " <= Tier0Handle(r)
  {
    hide OneLine;
    var head := HANDLE_SCHEME + r.atomId + " | ";
    OneLineKeepsHead(head, r.head);
    OneLineUnbroken(head + r.head);
    var tail := (if r.shouldTrust == Some(false) then " [untrusted]" else "") + SuccessorNote(r);
    OneLineKeepsHead(HandleLine(r), tail);
    assert HandleLine(r) + (if r.shouldTrust == Some(false) then " [untrusted]" else "") + SuccessorNote(r)
        == HandleLine(r) + tail;
  }

  lemma {:induction false} OneLineKeeps(line: string)
    requires Unbroken(line)
    ensures OneLine(line) == line
  {
    SplitPrefix(line, [], []);
    assert line + [] == line && [] + line == line;
  }

  // A handle says that its result is untrusted, and what replaced it.
  lemma {:induction false} HandleLabels(r: Recalled)
    requires Unbroken(SuccessorNote(r))
    ensures Tier0Handle(r) ==
            HandleLine(r) + (if r.shouldTrust == Some(false) then " [untrusted]" else "") + SuccessorNote(r)
  {
    hide OneLine;
    OneLineUnbroken(HANDLE_SCHEME + r.atomId + " | " + r.head);
    OneLineKeeps(HandleLine(r) + (if r.shouldTrust == Some(false) then " [untrusted]" else "") + SuccessorNote(r));
  }

  lemma {:induction false} UnbrokenPlain(l: string)
    requires Unbroken(l)
    ensures NoNewline(l)
  {
    assert Break('\n');
  }

  lemma {:induction false} FurniturePlain(r: Recalled)
    ensures Plain(HandleLine(r)) && Plain(Tier0Handle(r)) && Plain(ProvenanceLine(r))
  {
    hide OneLine;
    var rest := r.atomId + " | " + r.head;
    assert HANDLE_SCHEME + r.atomId + " | " + r.head == HANDLE_SCHEME + rest;
    OneLineKeepsHead(HANDLE_SCHEME, rest);
    OneLineUnbroken(HANDLE_SCHEME + rest);
    UnbrokenPlain(HandleLine(r));
    var tail := (if r.shouldTrust == Some(false) then " [untrusted]" else "") + SuccessorNote(r);
    assert HandleLine(r) + (if r.shouldTrust == Some(false) then " [untrusted]" else "") + SuccessorNote(r)
        == HandleLine(r) + tail;
    OneLineKeepsHead(HandleLine(r), tail);
    OneLineUnbroken(HandleLine(r) + tail);
    UnbrokenPlain(Tier0Handle(r));
    ProvenancePlain(r);
  }

  lemma {:induction false} ProvenancePlain(r: Recalled)
    ensures Plain(ProvenanceLine(r))
  {
    hide OneLine;
    var rest := r.provenance + SuccessorNote(r);
    assert "source " + r.provenance + SuccessorNote(r) == "source " + rest;
    OneLineKeepsHead("source ", rest);
    OneLineUnbroken("source " + rest);
    UnbrokenPlain(ProvenanceLine(r));
  }

  // ----- an entry is its block's lines -----

  ghost predicate BlockOk(b: Block) {
    b.lines != [] && forall l :: l in b.lines ==> Plain(l)
  }

  lemma {:induction false} IndentPlain(text: string)
    ensures forall l :: l in Indented(BodyLines(text)) ==> Plain(l)
  {
    SplitUnbroken(text, []);
    var ls := BodyLines(text);
    forall l | l in Indented(ls)
      ensures Plain(l)
    {
      var i :| 0 <= i < |ls| && Indented(ls)[i] == l;
      assert ls[i] in ls;
      UnbrokenPlain(ls[i]);
    }
  }

  lemma {:induction false} WholeBlockOk(r: Recalled)
    ensures BlockOk(BlockOf(WholeItem(r))) && BlockOk(BlockOf(HandleItem(r)))
  {
    hide HandleLine, Tier0Handle, ProvenanceLine, Indented, BodyLines;
    FurniturePlain(r);
    IndentPlain(r.text);
  }

  lemma {:induction false} EntryIsBlock(r: Recalled)
    ensures BareEntry(r) == Join(NL, BlockOf(WholeItem(r)).lines)
    ensures Tier0Handle(r) == Join(NL, BlockOf(HandleItem(r)).lines)
  {
    hide HandleLine, Tier0Handle, ProvenanceLine;
    if Trusted(r) {
      var h, body, p := HandleLine(r), Indented(BodyLines(r.text)), ProvenanceLine(r);
      JoinAppend(NL, [h], body + [p]);
      JoinAppend(NL, body, [p]);
      assert [h] + (body + [p]) == [h] + body + [p];
    }
  }

  lemma {:induction false} ReadBlockBack(i: Item)
    requires i.body.Some? ==> i.body.value.lines != []
    ensures ReadBlock(BlockOf(i)) == i
  {
    if i.body.Some? {
      var body := i.body.value.lines;
      var ls := BlockOf(i).lines;
      assert ls[1..|ls| - 1] == Indented(body);
      assert Dedented(Indented(body)) == body;
    }
  }

  // ----- the payload is its blocks' lines, a blank line between -----

  function Flat(blocks: seq<Block>): seq<string>
    requires blocks != []
  {
    if |blocks| == 1 then blocks[0].lines else blocks[0].lines + [""] + Flat(blocks[1..])
  }

  function TextsOf(blocks: seq<Block>): seq<string> {
    seq(|blocks|, i requires 0 <= i < |blocks| => Join(NL, blocks[i].lines))
  }

  ghost predicate BlocksOk(blocks: seq<Block>) {
    blocks != [] && forall b :: b in blocks ==> BlockOk(b)
  }

  lemma {:induction false} FlatJoin(blocks: seq<Block>)
    requires BlocksOk(blocks)
    ensures Flat(blocks) != [] && Join(ENTRY_SEPARATOR, TextsOf(blocks)) == Join(NL, Flat(blocks))
  {
    assert blocks[0] in blocks;
    if |blocks| <= 1 {
    } else {
      var first, rest := blocks[0].lines, blocks[1..];
      FlatJoin(rest);
      assert TextsOf(blocks)[0] == Join(NL, first) && TextsOf(blocks)[1..] == TextsOf(rest);
      JoinAppend(NL, first, [""] + Flat(rest));
      JoinAppend(NL, [""], Flat(rest));
      assert first + ([""] + Flat(rest)) == Flat(blocks);
      assert Join(NL, [""]) == "";
      assert ENTRY_SEPARATOR == NL + ("" + NL);
    }
  }

  lemma {:induction false} FlatNoNewline(blocks: seq<Block>)
    requires BlocksOk(blocks)
    ensures NoneNewline(Flat(blocks))
  {
    assert blocks[0] in blocks;
    if |blocks| <= 1 {
    } else {
      FlatNoNewline(blocks[1..]);
    }
  }

  lemma {:induction false} GroupHead(ls: seq<string>, rest: seq<string>, cur: seq<string>)
    requires forall l :: l in ls ==> l != ""
    ensures GroupFrom(ls + [""] + rest, cur) == [Block(cur + ls)] + GroupFrom(rest, [])
    ensures GroupFrom(ls, cur) == [Block(cur + ls)]
    decreases |ls|
  {
    if ls == [] {
      assert (ls + [""] + rest)[0] == "" && (ls + [""] + rest)[1..] == rest && cur + ls == cur;
    } else {
      assert ls[0] in ls;
      assert (ls + [""] + rest)[0] == ls[0] && (ls + [""] + rest)[1..] == ls[1..] + [""] + rest;
      assert forall l :: l in ls[1..] ==> l in ls;
      GroupHead(ls[1..], rest, cur + [ls[0]]);
      assert cur + [ls[0]] + ls[1..] == cur + ls;
    }
  }

  lemma {:induction false} GroupFlat(blocks: seq<Block>)
    requires BlocksOk(blocks)
    ensures GroupFrom(Flat(blocks), []) == blocks
  {
    assert blocks[0] in blocks;
    var first := blocks[0].lines;
    assert [] + first == first;
    if |blocks| == 1 {
      GroupHead(first, [], []);
    } else {
      GroupFlat(blocks[1..]);
      GroupHead(first, Flat(blocks[1..]), []);
      assert blocks == [blocks[0]] + blocks[1..];
    }
  }

  // ----- round trip -----

  // What a trusted payload without an enricher is meant to say.
  function Items(results: seq<Recalled>, k: nat, n: nat): (items: seq<Item>)
    requires k <= n <= |results|
    ensures |items| == n
  {
    seq(n, i requires 0 <= i < n => if i < k then WholeItem(results[i]) else HandleItem(results[i]))
  }

  function BlocksOf(items: seq<Item>): seq<Block> {
    seq(|items|, i requires 0 <= i < |items| => BlockOf(items[i]))
  }

  lemma {:induction false} DeliveredTexts(entries: seq<string>, results: seq<Recalled>, k: nat)
    requires Delivers(entries, results, None, k)
    ensures entries == TextsOf(BlocksOf(Items(results, k, |entries|)))
  {
    var blocks := BlocksOf(Items(results, k, |entries|));
    forall i | 0 <= i < |entries|
      ensures entries[i] == TextsOf(blocks)[i]
    {
      EntryIsBlock(results[i]);
    }
  }

  lemma {:induction false} ItemsOk(results: seq<Recalled>, k: nat, n: nat)
    requires k <= n <= |results| && n > 0
    ensures BlocksOk(BlocksOf(Items(results, k, n)))
    ensures ReadBlocks(BlocksOf(Items(results, k, n))) == Items(results, k, n)
  {
    hide BlockOk, BlockOf, ReadBlock;
    var items, blocks := Items(results, k, n), BlocksOf(Items(results, k, n));
    forall i | 0 <= i < n
      ensures BlockOk(blocks[i]) && ReadBlock(blocks[i]) == items[i]
    {
      WholeBlockOk(results[i]);
      ReadBlockBack(items[i]);
    }
  }

  // A trusted payload reads back as exactly its ranked entries: each handle,
  // each body line for line, each provenance line, whatever line breaks the
  // stored text holds.
  lemma {:induction false} ReadsBack(p: Delivery, entries: seq<string>, k: nat, results: seq<Recalled>, budget: int)
    requires TrustedPayload(p, entries, k, results, budget, None) && entries != []
    ensures ReadPayload(p.text) == Items(results, k, |entries|)
  {
    hide BlockOk, BlockOf, ReadBlock, Fits, Tier0Handle, BareEntry, GroupFrom, SplitNewline, Join, ReadBlocks;
    var blocks := BlocksOf(Items(results, k, |entries|));
    DeliveredTexts(entries, results, k);
    ItemsOk(results, k, |entries|);
    FlatJoin(blocks);
    FlatNoNewline(blocks);
    JoinSplit(Flat(blocks));
    GroupFlat(blocks);
  }

  // ----- what is read, said of the stored fields -----

  // One furniture line: the lines of the text with a space for each break.
  ghost predicate Flattened(line: string, text: string) {
    exists ls :: LinesOf(ls, text) && line == Join(" ", ls)
  }

  function NoteText(r: Recalled): string {
    if r.supersededBy == None || r.supersededBy == Some("") then ""
    else ", superseded by p3://" + r.supersededBy.value
  }

  ghost predicate SaysHandle(h: string, r: Recalled) {
    Flattened(h, "p3://" + r.atomId + " | " + r.head)
  }

  // A handle alone also says whether its result is untrusted and what replaced it.
  ghost predicate SaysAlone(h: string, r: Recalled) {
    exists base :: SaysHandle(base, r) &&
      Flattened(h, base + (if r.shouldTrust == Some(false) then " [untrusted]" else "") + NoteText(r))
  }

  // The stored text line for line; an empty text is one empty line.
  ghost predicate SaysBody(ls: seq<string>, text: string) {
    if text == "" then ls == [""] else LinesOf(ls, text)
  }

  ghost predicate SaysWhole(item: Item, r: Recalled) {
    && item.body.Some? && SaysHandle(item.handle, r) && SaysBody(item.body.value.lines, r.text)
    && Flattened(item.body.value.provenance, "source " + r.provenance + NoteText(r))
  }

  lemma {:induction false} OneLineFlattens(line: string)
    ensures Flattened(OneLine(line), line)
  {
    hide LinesOf, SplitLines;
    SplitLinesIff(line, SplitLines(line));
  }

  lemma {:induction false} HandleSays(r: Recalled)
    ensures SaysHandle(HandleLine(r), r) && SaysAlone(Tier0Handle(r), r)
  {
    hide OneLine, Flattened;
    OneLineFlattens("p3://" + r.atomId + " | " + r.head);
    var base := HandleLine(r);
    OneLineFlattens(base + (if r.shouldTrust == Some(false) then " [untrusted]" else "") + NoteText(r));
    assert SuccessorNote(r) == NoteText(r);
  }

  lemma {:induction false} BodySays(text: string)
    ensures SaysBody(BodyLines(text), text)
  {
    hide LinesOf;
    SplitLinesIff(text, SplitLines(text));
    if text != [] { SplitSome(text, []); }
  }

  lemma {:induction false} SplitSome(s: string, cur: string)
    requires s != [] || cur != []
    ensures SplitFrom(s, cur) != []
    decreases |s|
  {
    if s == [] || Break(s[0]) {
    } else {
      SplitSome(s[1..], cur + [s[0]]);
    }
  }

  lemma {:induction false} WholeSays(r: Recalled)
    requires Trusted(r)
    ensures SaysWhole(WholeItem(r), r)
  {
    hide OneLine, Flattened, SaysBody, BodyLines, HandleLine, SaysHandle;
    HandleSays(r);
    BodySays(r.text);
    OneLineFlattens("source " + r.provenance + NoteText(r));
    assert SuccessorNote(r) == NoteText(r);
  }

  // Read back, the payload says of the first k results all that is stored of
  // the trusted ones, bodies line for line, and of every other its handle.
  lemma {:induction false} EntriesReadBack(p: Delivery, entries: seq<string>, k: nat, results: seq<Recalled>,
                                           budget: int)
    requires TrustedPayload(p, entries, k, results, budget, None) && entries != []
    ensures var items := ReadPayload(p.text);
            && |items| == |entries| <= |results|
            && (forall i :: 0 <= i < k && results[i].shouldTrust == Some(true) ==> SaysWhole(items[i], results[i]))
            && forall i :: 0 <= i < |items| && (i >= k || results[i].shouldTrust != Some(true)) ==>
                 items[i].body == None && SaysAlone(items[i].handle, results[i])
  {
    hide Fits, Tier0Handle, BareEntry, ReadPayload, SaysWhole, SaysAlone, BodyLines, HandleLine;
    ReadsBack(p, entries, k, results, budget);
    forall i | 0 <= i < |entries|
      ensures i < k && Trusted(results[i]) ==> SaysWhole(WholeItem(results[i]), results[i])
      ensures SaysAlone(HandleItem(results[i]).handle, results[i])
    {
      HandleSays(results[i]);
      if Trusted(results[i]) { WholeSays(results[i]); }
    }
  }

  ghost predicate Glued(b: string, parts: seq<string>) {
    BreakText(b) && AllUnbroken(parts) && parts != [] && parts[|parts| - 1] != ""
  }

  // What is said of a body fixes it: lines joined by any one break come back,
  // and whatever the text, nothing but its line breaks is lost.
  lemma {:induction false} BodyIsText(ls: seq<string>, text: string)
    requires SaysBody(ls, text)
    ensures Concatenated(ls) == Characters(text)
    ensures forall b, parts :: Glued(b, parts) && text == Join(b, parts) ==> ls == parts
  {
    hide SplitLines, LinesOf, Characters;
    SplitLinesIff(text, ls);
    SplitLinesIff(text, SplitLines(text));
    if text == "" {
      NoText(text, ls);
    } else {
      SplitKeepsCharacters(text);
    }
    forall b, parts | Glued(b, parts) && text == Join(b, parts)
      ensures ls == parts
    {
      JoinedLines(parts, b);
      if text == "" { JoinedEmpty(b, parts); }
    }
  }

  lemma {:induction false} NoText(text: string, ls: seq<string>)
    requires text == "" && ls == [""]
    ensures Concatenated(ls) == Characters(text)
  {
    assert ls[1..] == [];
  }

  lemma {:induction false} JoinedEmpty(b: string, parts: seq<string>)
    requires parts != [] && parts[|parts| - 1] != ""
    ensures Join(b, parts) != ""
  {
    if |parts| == 1 {
    } else {
      JoinedEmpty(b, parts[1..]);
    }
  }
}
