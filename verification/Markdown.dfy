/**
 The Markdown block scanner.  The line classifiers are parameters, so every result holds for any
 classifiers; the scanner's loops are those of the adapter.
 */
module Markdown {
  import opened Basics
  import SourceLines

  datatype Fence = Fence(mark: char, length: nat, info: string)

  datatype Heading = Heading(level: nat, marker: string, title: string)

  datatype Marker = Marker(text: string, indentation: nat, ordered: bool)

  /** The line classifiers of the adapter. */
  datatype Classifiers = Classifiers(
    blank: string -> bool,
    fenceOpen: string -> Option<Fence>,
    fenceClose: (string, char, nat) -> bool,
    atx: string -> Option<Heading>,
    setext: string -> Option<nat>,
    setextTitle: seq<string> -> string,
    thematic: string -> bool,
    listItem: string -> Option<Marker>,
    quoteDepth: string -> Option<nat>)
  {
    predicate StartsNonListBlock(line: string) {
      fenceOpen(line).Some? || atx(line).Some? || thematic(line) || quoteDepth(line).Some?
    }

    predicate StartsExplicitBlock(line: string) {
      blank(line) || fenceOpen(line).Some? || atx(line).Some? || thematic(line) || listItem(line).Some?
      || quoteDepth(line).Some?
    }

    predicate ContinuesItem(line: string) {
      !blank(line) && listItem(line).None? && !StartsNonListBlock(line)
    }
  }

  datatype Line = Line(text: string, startChar: nat, endChar: nat, number: nat)

  datatype Kind =
    | BlankLines
    | FencedCode(fence: Fence, closed: bool)
    | AtxHeading(heading: Heading)
    | ThematicBreak
    | ListItem(marker: Marker, group: nat)
    | BlockQuote(depths: seq<nat>)
    | SetextHeading(level: nat, title: string)
    | Paragraph

  /** A block: its kind and its half-open range of lines. */
  datatype Block = Block(kind: Kind, first: nat, end: nat)

  datatype Element = Element(
    text: string, kind: Kind, order: nat, startChar: nat, endChar: nat, lineStart: nat, lineEnd: nat)

  datatype ScanError = TextNotPreserved

  // ----- located lines -----

  function Locate(lines: seq<string>, cursor: nat, number: nat): (located: seq<Line>)
    ensures |located| == |lines|
  {
    if lines == [] then []
    else [Line(lines[0], cursor, cursor + |lines[0]|, number)] + Locate(lines[1..], cursor + |lines[0]|, number + 1)
  }

  function LocatedLines(text: string): seq<Line> {
    Locate(SourceLines.Lines(text), 0, 1)
  }

  predicate Touches(lines: seq<Line>, i: nat)
    requires 0 < i < |lines|
  {
    lines[i - 1].endChar == lines[i].startChar
  }

  /** Consecutive lines touch, are non-empty, hold their slice of the text and are numbered from one. */
  ghost predicate Tiles(lines: seq<Line>, text: string) {
    && (forall i :: 0 <= i < |lines| ==>
          lines[i].startChar < lines[i].endChar <= |text|
          && lines[i].text == text[lines[i].startChar..lines[i].endChar] && lines[i].number == i + 1)
    && (forall i :: 0 < i < |lines| ==> Touches(lines, i))
    && (lines == [] <==> text == "")
    && (lines != [] ==> lines[0].startChar == 0 && lines[|lines| - 1].endChar == |text|)
  }

  lemma {:induction false} NonEmptyLines(text: string)
    ensures forall i :: 0 <= i < |SourceLines.Lines(text)| ==> SourceLines.Lines(text)[i] != ""
  {
    if text != "" {
      NonEmptyLines(text[SourceLines.FirstLineLength(text)..]);
    }
  }

  lemma {:induction false} LocateTiles(lines: seq<string>, prefix: string, number: nat, text: string)
    requires text == prefix + Flatten(lines)
    requires forall i :: 0 <= i < |lines| ==> lines[i] != ""
    ensures var located := Locate(lines, |prefix|, number);
            && (forall i :: 0 <= i < |located| ==>
                  located[i].startChar < located[i].endChar <= |text|
                  && located[i].text == text[located[i].startChar..located[i].endChar]
                  && located[i].number == number + i)
            && (forall i :: 0 < i < |located| ==> Touches(located, i))
            && (lines != [] ==> located[0].startChar == |prefix| && located[|located| - 1].endChar == |text|)
  {
    if lines != [] {
      var line, rest := lines[0], lines[1..];
      var first := Line(line, |prefix|, |prefix + line|, number);
      hide *;
      LocateUnfold(lines, |prefix|, number);
      Slice(prefix, line, Flatten(rest));
      LocateTiles(rest, prefix + line, number + 1, text);
      LocatedFirst(first, Locate(rest, |prefix + line|, number + 1), text);
    }
  }

  lemma LocateUnfold(lines: seq<string>, cursor: nat, number: nat)
    requires lines != []
    ensures Locate(lines, cursor, number)
         == [Line(lines[0], cursor, cursor + |lines[0]|, number)] + Locate(lines[1..], cursor + |lines[0]|, number + 1)
    ensures Flatten(lines) == lines[0] + Flatten(lines[1..]) && (lines[1..] == [] ==> Flatten(lines[1..]) == "")
  {
  }

  lemma Slice(prefix: string, line: string, rest: string)
    ensures prefix + (line + rest) == (prefix + line) + rest
    ensures (prefix + line + rest)[|prefix|..|prefix + line|] == line
  {
  }

  lemma LocatedFirst(first: Line, located: seq<Line>, text: string)
    requires first.startChar < first.endChar <= |text| && first.text == text[first.startChar..first.endChar]
    requires forall i :: 0 <= i < |located| ==>
               located[i].startChar < located[i].endChar <= |text|
               && located[i].text == text[located[i].startChar..located[i].endChar] && located[i].number == first.number + 1 + i
    requires forall i :: 0 < i < |located| ==> Touches(located, i)
    requires located != [] ==> located[0].startChar == first.endChar
    ensures var all := [first] + located;
            && (forall i :: 0 <= i < |all| ==>
                  all[i].startChar < all[i].endChar <= |text|
                  && all[i].text == text[all[i].startChar..all[i].endChar] && all[i].number == first.number + i)
            && (forall i :: 0 < i < |all| ==> Touches(all, i))
  {
    var all := [first] + located;
    assert forall i :: 1 <= i < |all| ==> all[i] == located[i - 1];
    forall i | 0 < i < |all|
      ensures Touches(all, i)
    {
      if i > 1 {
        assert Touches(located, i - 1);
      }
    }
  }

  lemma LocatedLinesTile(text: string)
    ensures Tiles(LocatedLines(text), text)
  {
    hide *;
    var lines := SourceLines.Lines(text);
    SourceLines.LinesTile(text);
    NonEmptyLines(text);
    LinesEmptyExactly(text);
    assert "" + Flatten(lines) == text && |""| == 0;
    LocateTiles(lines, "", 1, text);
    LocatedAreTiles(lines, text);
  }

  lemma LinesEmptyExactly(text: string)
    ensures SourceLines.Lines(text) == [] <==> text == ""
    ensures LocatedLines(text) == Locate(SourceLines.Lines(text), 0, 1)
  {
    hide Locate, SourceLines.FirstLineLength;
  }

  lemma LocatedAreTiles(lines: seq<string>, text: string)
    requires lines == [] <==> text == ""
    requires var located := Locate(lines, 0, 1);
             && (forall i :: 0 <= i < |located| ==>
                   located[i].startChar < located[i].endChar <= |text|
                   && located[i].text == text[located[i].startChar..located[i].endChar] && located[i].number == 1 + i)
             && (forall i :: 0 < i < |located| ==> Touches(located, i))
             && (lines != [] ==> located[0].startChar == 0 && located[|located| - 1].endChar == |text|)
    ensures Tiles(Locate(lines, 0, 1), text)
  {
    hide Locate, Touches;
  }

  method ComputeLocatedLines(text: string) returns (output: seq<Line>)
    ensures output == LocatedLines(text)
  {
    var parts := SourceLines.Lines(text);
    output := [];
    var cursor: nat := 0;
    for i := 0 to |parts|
      invariant LocatedLines(text) == output + Locate(parts[i..], cursor, i + 1)
    {
      var end := cursor + |parts[i]|;
      assert parts[i..][1..] == parts[i + 1..];
      output := output + [Line(parts[i], cursor, end, i + 1)];
      cursor := end;
    }
  }

  // ----- one block at a time -----

  /** The first position from `i` on where `p` fails. */
  function RunEnd(lines: seq<Line>, i: nat, p: string -> bool): (end: nat)
    requires i <= |lines|
    ensures i <= end <= |lines|
    ensures forall k :: i <= k < end ==> p(lines[k].text)
    ensures end < |lines| ==> !p(lines[end].text)
    decreases |lines| - i
  {
    if i == |lines| || !p(lines[i].text) then i else RunEnd(lines, i + 1, p)
  }

  /** The position behind the first closing fence from `i` on, or the end of the source. */
  function FenceEnd(lines: seq<Line>, i: nat, fence: Fence, c: Classifiers): (r: (nat, bool))
    requires i <= |lines|
    ensures i <= r.0 <= |lines|
    ensures r.1 ==> i < r.0 && c.fenceClose(lines[r.0 - 1].text, fence.mark, fence.length)
    ensures !r.1 ==> r.0 == |lines|
    ensures forall k :: i <= k < (if r.1 then r.0 - 1 else r.0) ==> !c.fenceClose(lines[k].text, fence.mark, fence.length)
    decreases |lines| - i
  {
    if i == |lines| then (i, false)
    else if c.fenceClose(lines[i].text, fence.mark, fence.length) then (i + 1, true)
    else FenceEnd(lines, i + 1, fence, c)
  }

  function QuoteDepths(lines: seq<Line>, i: nat, end: nat, c: Classifiers): seq<nat>
    requires i <= end <= |lines|
    requires forall k :: i <= k < end ==> c.quoteDepth(lines[k].text).Some?
  {
    if i == end then []
    else QuoteDepths(lines, i, end - 1, c) + [c.quoteDepth(lines[end - 1].text).value]
  }

  /** Where the paragraph begun at `first` ends when its lines before `i` are taken, and the level of
      the setext underline that made it a heading. */
  function ParagraphEnd(lines: seq<Line>, first: nat, i: nat, c: Classifiers): (r: (nat, Option<nat>))
    requires first <= i < |lines|
    ensures first < r.0 <= |lines| || (r.0 == first == i)
    ensures r.0 == i ==> first < i
    ensures r.1.None? && r.0 < |lines| ==> c.StartsExplicitBlock(lines[r.0].text)
    ensures r.1.Some? ==> first + 2 <= r.0 && c.setext(lines[r.0 - 1].text) == r.1
    decreases |lines| - i
  {
    if i > first && c.StartsExplicitBlock(lines[i].text) then (i, None)
    else if i + 1 < |lines| && c.setext(lines[i + 1].text).Some? then (i + 2, c.setext(lines[i + 1].text))
    else if i + 1 == |lines| || c.blank(lines[i + 1].text) then (i + 1, None)
    else ParagraphEnd(lines, first, i + 1, c)
  }

  function Texts(lines: seq<Line>): seq<string> {
    if lines == [] then [] else [lines[0].text] + Texts(lines[1..])
  }

  predicate InQuote(line: string, c: Classifiers) { c.quoteDepth(line).Some? }

  /** The block that starts at line `i`; `group` is the open list run, if any. */
  function NextBlock(lines: seq<Line>, i: nat, group: Option<nat>, c: Classifiers): (b: Block)
    requires i < |lines|
    ensures b.first == i < b.end <= |lines|
  {
    var line := lines[i].text;
    if group.Some? && c.listItem(line).Some? then
      Block(ListItem(c.listItem(line).value, group.value), i, RunEnd(lines, i + 1, c.ContinuesItem))
    else if c.blank(line) then Block(BlankLines, i, RunEnd(lines, i + 1, c.blank))
    else if c.fenceOpen(line).Some? then
      var (end, closed) := FenceEnd(lines, i + 1, c.fenceOpen(line).value, c);
      Block(FencedCode(c.fenceOpen(line).value, closed), i, end)
    else if c.atx(line).Some? then Block(AtxHeading(c.atx(line).value), i, i + 1)
    else if c.thematic(line) then Block(ThematicBreak, i, i + 1)
    else if c.listItem(line).Some? then
      Block(ListItem(c.listItem(line).value, lines[i].startChar), i, RunEnd(lines, i + 1, c.ContinuesItem))
    else if c.quoteDepth(line).Some? then
      var end := RunEnd(lines, i, l => InQuote(l, c));
      Block(BlockQuote(QuoteDepths(lines, i, end, c)), i, end)
    else
      var (end, level) := ParagraphEnd(lines, i, i, c);
      if level.Some? then Block(SetextHeading(level.value, c.setextTitle(Texts(lines[i..end - 1]))), i, end)
      else Block(Paragraph, i, end)
  }

  function GroupAfter(b: Block): Option<nat> {
    if b.kind.ListItem? then Some(b.kind.group) else None
  }

  /** All blocks from line `i` on. */
  function Blocks(lines: seq<Line>, i: nat, group: Option<nat>, c: Classifiers): seq<Block>
    requires i <= |lines|
    decreases |lines| - i
  {
    if i == |lines| then []
    else
      var b := NextBlock(lines, i, group, c);
      [b] + Blocks(lines, b.end, GroupAfter(b), c)
  }

  function Render(text: string, lines: seq<Line>, b: Block, order: nat): Element
    requires Tiles(lines, text) && b.first < b.end <= |lines|
  {
    RangeOrder(lines, text, b.first, b.end - 1);
    Element(text[lines[b.first].startChar..lines[b.end - 1].endChar], b.kind, order,
            lines[b.first].startChar, lines[b.end - 1].endChar, lines[b.first].number, lines[b.end - 1].number)
  }

  lemma {:induction false} RangeOrder(lines: seq<Line>, text: string, i: nat, j: nat)
    requires Tiles(lines, text) && i <= j < |lines|
    ensures lines[i].startChar < lines[j].endChar
    ensures i < j ==> lines[i].startChar < lines[j].startChar
    decreases j - i
  {
    if i < j {
      assert Touches(lines, i + 1);
      RangeOrder(lines, text, i + 1, j);
    }
  }

  ghost predicate LineRanges(blocks: seq<Block>, i: nat, n: nat) {
    && (forall k :: 0 <= k < |blocks| ==> blocks[k].first < blocks[k].end <= n)
    && (forall k :: 0 <= k < |blocks| - 1 ==> blocks[k].end == blocks[k + 1].first)
    && (if blocks == [] then i == n else blocks[0].first == i && blocks[|blocks| - 1].end == n)
  }

  lemma {:induction false} BlocksCoverLines(lines: seq<Line>, i: nat, group: Option<nat>, c: Classifiers)
    requires i <= |lines|
    ensures LineRanges(Blocks(lines, i, group, c), i, |lines|)
    decreases |lines| - i
  {
    if i < |lines| {
      var b := NextBlock(lines, i, group, c);
      BlocksCoverLines(lines, b.end, GroupAfter(b), c);
      var rest := Blocks(lines, b.end, GroupAfter(b), c);
      var all := [b] + rest;
      assert forall k :: 1 <= k < |all| ==> all[k] == rest[k - 1];
    }
  }

  // ----- the scanner -----

  ghost predicate Rendered(elements: seq<Element>, blocks: seq<Block>, text: string, lines: seq<Line>) {
    Tiles(lines, text) && |elements| == |blocks|
    && forall k :: 0 <= k < |blocks| ==>
         blocks[k].first < blocks[k].end <= |lines| && elements[k] == Render(text, lines, blocks[k], k)
  }

  /** What the scanner has still to emit when it stands at `i`. */
  ghost predicate Progress(elements: seq<Element>, done: seq<Block>, unclosed: seq<nat>, text: string, lines: seq<Line>,
                           i: nat, group: Option<nat>, c: Classifiers)
  {
    i <= |lines| && Rendered(elements, done, text, lines) && unclosed == UnclosedFences(done, lines)
    && Blocks(lines, 0, None, c) == done + Blocks(lines, i, group, c)
  }

  /** The first line numbers of the unclosed fences, as the diagnostics report them. */
  function UnclosedFences(blocks: seq<Block>, lines: seq<Line>): seq<nat>
    requires forall b :: b in blocks ==> b.first < |lines|
  {
    if blocks == [] then []
    else
      var b := blocks[|blocks| - 1];
      UnclosedFences(blocks[..|blocks| - 1], lines)
      + (if b.kind.FencedCode? && !b.kind.closed then [lines[b.first].number] else [])
  }

  lemma BlocksUnfold(done: seq<Block>, lines: seq<Line>, i: nat, group: Option<nat>, c: Classifiers)
    requires i < |lines| && Blocks(lines, 0, None, c) == done + Blocks(lines, i, group, c)
    ensures var b := NextBlock(lines, i, group, c);
            Blocks(lines, 0, None, c) == (done + [b]) + Blocks(lines, b.end, GroupAfter(b), c)
  {
    hide NextBlock;
    var b := NextBlock(lines, i, group, c);
    var rest := Blocks(lines, b.end, GroupAfter(b), c);
    assert Blocks(lines, i, group, c) == [b] + rest;
    assert done + ([b] + rest) == (done + [b]) + rest;
  }

  function UnclosedBy(b: Block, lines: seq<Line>): seq<nat>
    requires b.first < |lines|
  {
    if b.kind.FencedCode? && !b.kind.closed then [lines[b.first].number] else []
  }

  lemma Advance(elements: seq<Element>, done: seq<Block>, unclosed: seq<nat>, text: string, lines: seq<Line>,
                i: nat, group: Option<nat>, c: Classifiers)
    requires i < |lines| && Progress(elements, done, unclosed, text, lines, i, group, c)
    ensures Tiles(lines, text)
    ensures var b := NextBlock(lines, i, group, c);
            Progress(elements + [Render(text, lines, b, |elements|)], done + [b], unclosed + UnclosedBy(b, lines),
                     text, lines, b.end, GroupAfter(b), c)
  {
    hide NextBlock, Blocks, Tiles, Render;
    BlocksUnfold(done, lines, i, group, c);
    var b := NextBlock(lines, i, group, c);
    assert (done + [b])[..|done|] == done;
  }

  method ScanRun(lines: seq<Line>, start: nat, p: string -> bool) returns (end: nat)
    requires start <= |lines|
    ensures end == RunEnd(lines, start, p)
  {
    end := start;
    while end < |lines| && p(lines[end].text)
      invariant start <= end <= |lines|
      invariant RunEnd(lines, start, p) == RunEnd(lines, end, p)
    {
      end := end + 1;
    }
  }

  method ScanFence(lines: seq<Line>, start: nat, fence: Fence, c: Classifiers) returns (end: nat, closed: bool)
    requires start <= |lines|
    ensures (end, closed) == FenceEnd(lines, start, fence, c)
  {
    end, closed := start, false;
    while end < |lines|
      invariant start <= end <= |lines|
      invariant FenceEnd(lines, start, fence, c) == FenceEnd(lines, end, fence, c)
    {
      if c.fenceClose(lines[end].text, fence.mark, fence.length) {
        return end + 1, true;
      }
      end := end + 1;
    }
  }

  method ScanQuote(lines: seq<Line>, first: nat, c: Classifiers) returns (index: nat, depths: seq<nat>)
    requires first < |lines|
    ensures index == RunEnd(lines, first, l => InQuote(l, c))
    ensures depths == QuoteDepths(lines, first, index, c)
  {
    index, depths := first, [];
    ghost var stop := RunEnd(lines, first, l => InQuote(l, c));
    while index < |lines| && c.quoteDepth(lines[index].text).Some?
      invariant first <= index <= stop
      invariant depths == QuoteDepths(lines, first, index, c)
    {
      depths := depths + [c.quoteDepth(lines[index].text).value];
      index := index + 1;
    }
  }

  /** The branches of the main loop, apart from list runs. */
  method ScanPlainBlock(lines: seq<Line>, index: nat, c: Classifiers) returns (b: Block)
    requires index < |lines| && !NextBlock(lines, index, None, c).kind.ListItem?
    ensures b == NextBlock(lines, index, None, c)
  {
    var line := lines[index].text;
    if c.blank(line) {
      var end := ScanRun(lines, index + 1, c.blank);
      return Block(BlankLines, index, end);
    }
    if c.fenceOpen(line).Some? {
      var fence := c.fenceOpen(line).value;
      var end, closed := ScanFence(lines, index + 1, fence, c);
      return Block(FencedCode(fence, closed), index, end);
    }
    if c.atx(line).Some? {
      return Block(AtxHeading(c.atx(line).value), index, index + 1);
    }
    if c.thematic(line) {
      return Block(ThematicBreak, index, index + 1);
    }
    if c.quoteDepth(line).Some? {
      var end, depths := ScanQuote(lines, index, c);
      return Block(BlockQuote(depths), index, end);
    }
    var end, level := ScanParagraph(lines, index, c);
    if level.Some? {
      return Block(SetextHeading(level.value, c.setextTitle(Texts(lines[index..end - 1]))), index, end);
    }
    return Block(Paragraph, index, end);
  }

  /** Whether the main loop, outside any list run, opens one at this line. */
  predicate OpensList(line: string, c: Classifiers) {
    !c.blank(line) && c.fenceOpen(line).None? && c.atx(line).None? && !c.thematic(line) && c.listItem(line).Some?
  }

  method Scan(text: string, c: Classifiers) returns (r: Result<(seq<Element>, seq<nat>), ScanError>)
    ensures r.Success?
    ensures var lines, blocks := LocatedLines(text), Blocks(LocatedLines(text), 0, None, c);
            Rendered(r.value.0, blocks, text, lines) && r.value.1 == UnclosedFences(blocks, lines)
  {
    var lines := ComputeLocatedLines(text);
    LocatedLinesTile(text);
    if lines == [] {
      return Success(([], []));
    }
    var elements: seq<Element> := [];
    var unclosed: seq<nat> := [];
    ghost var done: seq<Block> := [];
    var index := 0;
    while index < |lines|
      invariant Progress(elements, done, unclosed, text, lines, index, None, c)
    {
      if OpensList(lines[index].text, c) {
        elements, done, index := ScanListRun(text, lines, index, elements, done, unclosed, c);
      } else {
        elements, done, unclosed, index := EmitPlainBlock(text, lines, index, elements, done, unclosed, c);
      }
    }
    Preserves(elements, done, text, lines, c);
    if Flatten(ElementTexts(elements)) != text {
      return Failure(TextNotPreserved);
    }
    return Success((elements, unclosed));
  }

  method EmitPlainBlock(text: string, lines: seq<Line>, start: nat, before: seq<Element>, ghost done0: seq<Block>,
                        unclosed0: seq<nat>, c: Classifiers)
    returns (elements: seq<Element>, ghost done: seq<Block>, unclosed: seq<nat>, index: nat)
    requires start < |lines| && Progress(before, done0, unclosed0, text, lines, start, None, c)
    requires !OpensList(lines[start].text, c)
    ensures start < index <= |lines| && Progress(elements, done, unclosed, text, lines, index, None, c)
  {
    Advance(before, done0, unclosed0, text, lines, start, None, c);
    var b := ScanPlainBlock(lines, start, c);
    hide NextBlock, Progress;
    elements := before + [Render(text, lines, b, |before|)];
    unclosed := unclosed0 + UnclosedBy(b, lines);
    done := done0 + [b];
    index := b.end;
  }

  lemma Preserves(elements: seq<Element>, blocks: seq<Block>, text: string, lines: seq<Line>, c: Classifiers)
    requires lines != [] && Rendered(elements, blocks, text, lines) && blocks == Blocks(lines, 0, None, c)
    ensures Flatten(ElementTexts(elements)) == text
  {
    BlocksCoverLines(lines, 0, None, c);
    RangesFollow(blocks, 0, |lines|);
    hide Blocks, Follow, LineRanges, Flatten;
    TextsConcatenate(elements, blocks, text, lines);
    assert elements[|elements| - 1].endChar == |text|;
    assert text[..|text|] == text;
  }

  lemma RangesFollow(blocks: seq<Block>, i: nat, n: nat)
    requires LineRanges(blocks, i, n) && i < n
    ensures Follow(blocks) && blocks != [] && blocks[0].first == i && blocks[|blocks| - 1].end == n
  {
    forall k | 0 < k < |blocks|
      ensures blocks[k - 1].end == blocks[k].first
    {
      assert blocks[k - 1].end == blocks[k - 1 + 1].first;
    }
  }

  function ElementTexts(elements: seq<Element>): seq<string> {
    if elements == [] then [] else ElementTexts(elements[..|elements| - 1]) + [elements[|elements| - 1].text]
  }

  /** The inner loop over one list run. */
  method ScanListRun(text: string, lines: seq<Line>, start: nat, before: seq<Element>, ghost done0: seq<Block>,
                     ghost unclosed: seq<nat>, c: Classifiers)
    returns (elements: seq<Element>, ghost done: seq<Block>, index: nat)
    requires start < |lines| && Progress(before, done0, unclosed, text, lines, start, None, c)
    requires OpensList(lines[start].text, c)
    ensures start < index <= |lines| && Progress(elements, done, unclosed, text, lines, index, None, c)
  {
    var group := lines[start].startChar;
    elements, done, index := before, done0, start;
    OpenRun(lines, start, c);
    while index < |lines| && c.listItem(lines[index].text).Some?
      invariant start <= index <= |lines|
      invariant Progress(elements, done, unclosed, text, lines, index, Some(group), c)
      invariant index == start ==> c.listItem(lines[index].text).Some?
    {
      Advance(elements, done, unclosed, text, lines, index, Some(group), c);
      var marker := c.listItem(lines[index].text).value;
      var end := ScanRun(lines, index + 1, c.ContinuesItem);
      var b := Block(ListItem(marker, group), index, end);
      assert b == NextBlock(lines, index, Some(group), c);
      hide NextBlock, Progress;
      elements := elements + [Render(text, lines, b, |elements|)];
      done := done + [b];
      assert unclosed + [] == unclosed;
      index := end;
    }
    CloseRun(lines, index, Some(group), c);
  }

  /** Opening a run at a list item changes nothing that is to be emitted. */
  lemma OpenRun(lines: seq<Line>, i: nat, c: Classifiers)
    requires i < |lines| && OpensList(lines[i].text, c)
    ensures Blocks(lines, i, None, c) == Blocks(lines, i, Some(lines[i].startChar), c)
  {
    assert NextBlock(lines, i, None, c) == NextBlock(lines, i, Some(lines[i].startChar), c);
  }

  /** A run ends at a line that is no list item, whatever the run was. */
  lemma CloseRun(lines: seq<Line>, i: nat, group: Option<nat>, c: Classifiers)
    requires i <= |lines| && (i < |lines| ==> c.listItem(lines[i].text).None?)
    ensures Blocks(lines, i, group, c) == Blocks(lines, i, None, c)
  {
    if i < |lines| {
      assert NextBlock(lines, i, None, c) == NextBlock(lines, i, group, c);
    }
  }

  /** The loop over a paragraph, which a setext underline turns into a heading. */
  method ScanParagraph(lines: seq<Line>, first: nat, c: Classifiers) returns (index: nat, level: Option<nat>)
    requires first < |lines|
    ensures (index, level) == ParagraphEnd(lines, first, first, c)
  {
    index, level := first, None;
    while index < |lines|
      invariant first <= index < |lines|
      invariant ParagraphEnd(lines, first, first, c) == ParagraphEnd(lines, first, index, c)
      decreases |lines| - index
    {
      if index > first && c.StartsExplicitBlock(lines[index].text) {
        return index, None;
      }
      if index + 1 < |lines| {
        level := c.setext(lines[index + 1].text);
        if level.Some? {
          return index + 2, level;
        }
      }
      index := index + 1;
      if index >= |lines| || c.blank(lines[index].text) {
        return index, None;
      }
    }
  }

  // ----- what the scanner guarantees -----

  ghost predicate Follow(blocks: seq<Block>) {
    forall k :: 0 < k < |blocks| ==> blocks[k - 1].end == blocks[k].first
  }

  lemma {:induction false} TextsConcatenate(elements: seq<Element>, blocks: seq<Block>, text: string, lines: seq<Line>)
    requires Rendered(elements, blocks, text, lines)
    requires blocks != [] && blocks[0].first == 0
    requires Follow(blocks)
    ensures Flatten(ElementTexts(elements)) == text[..elements[|elements| - 1].endChar]
    decreases |blocks|
  {
    assert |elements| == |blocks|;
    hide *;
    var n := |blocks| - 1;
    RenderedAt(elements, blocks, text, lines, n);
    LastText(elements);
    FlattenAppend(ElementTexts(elements[..n]), [elements[n].text]);
    FlattenSingle(elements[n].text);
    if n > 0 {
      FrontIsRendered(elements, blocks, text, lines);
      TextsConcatenate(elements[..n], blocks[..n], text, lines);
    } else {
      OnlyPiece(elements, blocks, text, lines);
    }
    var cut := elements[n].startChar;
    assert text[..elements[n].endChar] == text[..cut] + text[cut..elements[n].endChar];
  }

  lemma LastText(elements: seq<Element>)
    requires elements != []
    ensures ElementTexts(elements) == ElementTexts(elements[..|elements| - 1]) + [elements[|elements| - 1].text]
  {
  }

  lemma OnlyPiece(elements: seq<Element>, blocks: seq<Block>, text: string, lines: seq<Line>)
    requires Rendered(elements, blocks, text, lines) && |blocks| == 1 && blocks[0].first == 0
    ensures elements[0].startChar == 0 && Flatten(ElementTexts(elements[..0])) == text[..0]
  {
    RenderedAt(elements, blocks, text, lines, 0);
  }

  lemma FrontIsRendered(elements: seq<Element>, blocks: seq<Block>, text: string, lines: seq<Line>)
    requires Rendered(elements, blocks, text, lines) && Follow(blocks) && |blocks| > 1
    ensures var n := |blocks| - 1;
            && Rendered(elements[..n], blocks[..n], text, lines) && Follow(blocks[..n])
            && elements[..n][n - 1].endChar == elements[n].startChar
  {
    var n := |blocks| - 1;
    RenderedAt(elements, blocks, text, lines, n);
    RenderedAt(elements, blocks, text, lines, n - 1);
    LinesMeet(lines, text, blocks[n].first);
    assert blocks[n - 1].end == blocks[n].first;
    hide Tiles, Render;
  }

  lemma LinesMeet(lines: seq<Line>, text: string, i: nat)
    requires Tiles(lines, text) && 0 < i < |lines|
    ensures lines[i - 1].endChar == lines[i].startChar
  {
    assert Touches(lines, i);
  }

  lemma RenderedAt(elements: seq<Element>, blocks: seq<Block>, text: string, lines: seq<Line>, k: nat)
    requires Rendered(elements, blocks, text, lines) && k < |blocks|
    ensures elements[k].order == k && elements[k].kind == blocks[k].kind
    ensures elements[k].startChar < elements[k].endChar <= |text|
    ensures elements[k].text == text[elements[k].startChar..elements[k].endChar]
    ensures elements[k].lineStart == blocks[k].first + 1 <= elements[k].lineEnd == blocks[k].end
    ensures elements[k].startChar == lines[blocks[k].first].startChar && elements[k].endChar == lines[blocks[k].end - 1].endChar
  {
    RangeOrder(lines, text, blocks[k].first, blocks[k].end - 1);
  }

  /** Character and line ranges of consecutive elements touch, are non-empty and span the source. */
  lemma ElementsTile(elements: seq<Element>, text: string, c: Classifiers)
    requires Rendered(elements, Blocks(LocatedLines(text), 0, None, c), text, LocatedLines(text))
    ensures forall k :: 0 <= k < |elements| ==>
              elements[k].order == k && elements[k].lineStart <= elements[k].lineEnd
              && elements[k].startChar < elements[k].endChar <= |text|
              && elements[k].text == text[elements[k].startChar..elements[k].endChar]
    ensures forall k :: 0 <= k < |elements| - 1 ==>
              elements[k].endChar == elements[k + 1].startChar && elements[k].lineEnd + 1 == elements[k + 1].lineStart
    ensures elements == [] <==> text == ""
    ensures elements != [] ==>
              elements[0].startChar == 0 && elements[0].lineStart == 1
              && elements[|elements| - 1].endChar == |text|
              && elements[|elements| - 1].lineEnd == |SourceLines.Lines(text)|
    ensures Flatten(ElementTexts(elements)) == text
  {
    var lines, blocks := LocatedLines(text), Blocks(LocatedLines(text), 0, None, c);
    BlocksCoverLines(lines, 0, None, c);
    LocatedLinesTile(text);
    if lines != [] {
      Preserves(elements, blocks, text, lines, c);
    }
    CoverFromLines(elements, blocks, text, lines);
  }

  lemma CoverFromLines(elements: seq<Element>, blocks: seq<Block>, text: string, lines: seq<Line>)
    requires Rendered(elements, blocks, text, lines) && LineRanges(blocks, 0, |lines|)
    ensures forall k :: 0 <= k < |elements| ==>
              elements[k].order == k && elements[k].lineStart <= elements[k].lineEnd
              && elements[k].startChar < elements[k].endChar <= |text|
              && elements[k].text == text[elements[k].startChar..elements[k].endChar]
    ensures forall k :: 0 <= k < |elements| - 1 ==>
              elements[k].endChar == elements[k + 1].startChar && elements[k].lineEnd + 1 == elements[k + 1].lineStart
    ensures elements != [] ==>
              elements[0].startChar == 0 && elements[0].lineStart == 1
              && elements[|elements| - 1].endChar == |text| && elements[|elements| - 1].lineEnd == |lines|
  {
    hide Render;
    forall k | 0 <= k < |elements| {
      RenderedAt(elements, blocks, text, lines, k);
    }
    forall k | 0 <= k < |elements| - 1
      ensures elements[k].endChar == elements[k + 1].startChar && elements[k].lineEnd + 1 == elements[k + 1].lineStart
    {
      assert blocks[k].end == blocks[k + 1].first;
      LinesMeet(lines, text, blocks[k + 1].first);
    }
  }

  /** An unclosed fence takes the rest of the source, so there is at most one and it comes last. */
  lemma {:induction false} UnclosedFenceIsLast(lines: seq<Line>, i: nat, group: Option<nat>, c: Classifiers, k: nat)
    requires i <= |lines| && k < |Blocks(lines, i, group, c)|
    requires Blocks(lines, i, group, c)[k].kind.FencedCode? && !Blocks(lines, i, group, c)[k].kind.closed
    ensures k == |Blocks(lines, i, group, c)| - 1
    decreases |lines| - i
  {
    var b := NextBlock(lines, i, group, c);
    if k > 0 {
      UnclosedFenceIsLast(lines, b.end, GroupAfter(b), c, k - 1);
    }
  }

  /** A closed fence ends at its first closing line, and no line inside it closes it. */
  lemma {:induction false} FencesCloseFirst(lines: seq<Line>, i: nat, group: Option<nat>, c: Classifiers, k: nat)
    requires i <= |lines| && k < |Blocks(lines, i, group, c)| && Blocks(lines, i, group, c)[k].kind.FencedCode?
    ensures var b := Blocks(lines, i, group, c)[k];
            var fence := b.kind.fence;
            b.first < b.end <= |lines| && c.fenceOpen(lines[b.first].text) == Some(fence)
            && (b.kind.closed <==> exists j :: b.first < j < b.end && c.fenceClose(lines[j].text, fence.mark, fence.length))
            && (forall j :: b.first < j < b.end - 1 ==> !c.fenceClose(lines[j].text, fence.mark, fence.length))
    decreases |lines| - i
  {
    var b := NextBlock(lines, i, group, c);
    if k > 0 {
      FencesCloseFirst(lines, b.end, GroupAfter(b), c, k - 1);
    } else {
      var (end, closed) := FenceEnd(lines, i + 1, c.fenceOpen(lines[i].text).value, c);
      if closed {
        assert c.fenceClose(lines[end - 1].text, b.kind.fence.mark, b.kind.fence.length);
      }
    }
  }

  lemma {:induction false} AtMostOneDiagnostic(blocks: seq<Block>, lines: seq<Line>)
    requires forall b :: b in blocks ==> b.first < |lines|
    requires forall k :: 0 <= k < |blocks| && blocks[k].kind.FencedCode? && !blocks[k].kind.closed ==> k == |blocks| - 1
    ensures |UnclosedFences(blocks, lines)| <= 1
  {
    if blocks != [] {
      NoDiagnostic(blocks[..|blocks| - 1], lines);
    }
  }

  lemma {:induction false} NoDiagnostic(blocks: seq<Block>, lines: seq<Line>)
    requires forall b :: b in blocks ==> b.first < |lines| && !(b.kind.FencedCode? && !b.kind.closed)
    ensures UnclosedFences(blocks, lines) == []
  {
    if blocks != [] {
      NoDiagnostic(blocks[..|blocks| - 1], lines);
    }
  }

  /** Whatever run was open, the block after a plain paragraph is no plain paragraph, and the block after
      blank lines is no run of blank lines. */
  lemma {:induction false} NeighboursDiffer(lines: seq<Line>, i: nat, group: Option<nat>, c: Classifiers, k: nat)
    requires i <= |lines| && k + 1 < |Blocks(lines, i, group, c)|
    ensures var blocks := Blocks(lines, i, group, c);
            !(blocks[k].kind.Paragraph? && blocks[k + 1].kind.Paragraph?)
            && !(blocks[k].kind.BlankLines? && blocks[k + 1].kind.BlankLines?)
    decreases |lines| - i
  {
    var b := NextBlock(lines, i, group, c);
    if k > 0 {
      NeighboursDiffer(lines, b.end, GroupAfter(b), c, k - 1);
    } else {
      var next := NextBlock(lines, b.end, GroupAfter(b), c);
      assert Blocks(lines, b.end, GroupAfter(b), c)[0] == next;
    }
  }

  // ----- list groups -----

  /** The group of a list item is that of the item just before it, or starts with its own first character. */
  ghost predicate GroupsByRun(blocks: seq<Block>, lines: seq<Line>, group: Option<nat>) {
    forall k :: 0 <= k < |blocks| && blocks[k].kind.ListItem? ==>
      blocks[k].first < |lines|
      && var before := if k == 0 then group else GroupAfter(blocks[k - 1]);
         blocks[k].kind.group == if before.Some? then before.value else lines[blocks[k].first].startChar
  }

  lemma {:induction false} BlocksGroupByRun(lines: seq<Line>, i: nat, group: Option<nat>, c: Classifiers)
    requires i <= |lines|
    ensures GroupsByRun(Blocks(lines, i, group, c), lines, group)
    decreases |lines| - i
  {
    if i < |lines| {
      var b := NextBlock(lines, i, group, c);
      BlocksGroupByRun(lines, b.end, GroupAfter(b), c);
      var rest := Blocks(lines, b.end, GroupAfter(b), c);
      var all := [b] + rest;
      forall k | 0 <= k < |all| && all[k].kind.ListItem?
        ensures all[k].first < |lines|
        ensures var before := if k == 0 then group else GroupAfter(all[k - 1]);
                all[k].kind.group == if before.Some? then before.value else lines[all[k].first].startChar
      {
        if k > 0 {
          assert all[k] == rest[k - 1];
          assert k > 1 ==> all[k - 1] == rest[k - 2];
        } else {
          NewRunIsNamedByStart(lines, i, group, c);
        }
      }
    }
  }

  lemma NewRunIsNamedByStart(lines: seq<Line>, i: nat, group: Option<nat>, c: Classifiers)
    requires i < |lines| && NextBlock(lines, i, group, c).kind.ListItem?
    ensures NextBlock(lines, i, group, c).kind.group == if group.Some? then group.value else lines[i].startChar
  {}

  lemma {:induction false} SameRunSameGroup(blocks: seq<Block>, lines: seq<Line>, i: nat, j: nat)
    requires GroupsByRun(blocks, lines, None) && i < j < |blocks|
    requires forall k :: i <= k <= j ==> blocks[k].kind.ListItem?
    ensures blocks[i].kind.group == blocks[j].kind.group
    decreases j - i
  {
    assert blocks[j - 1].kind.ListItem?;
    if i < j - 1 {
      SameRunSameGroup(blocks, lines, i, j - 1);
    }
  }

  lemma {:induction false} LinesAscend(lines: seq<Line>, text: string, blocks: seq<Block>, i: nat, j: nat)
    requires Tiles(lines, text) && LineRanges(blocks, 0, |lines|) && i < j < |blocks|
    ensures lines[blocks[i].first].startChar < lines[blocks[j].first].startChar
    decreases j - i
  {
    RangeOrder(lines, text, blocks[j - 1].first, blocks[j].first);
    if i < j - 1 {
      LinesAscend(lines, text, blocks, i, j - 1);
    }
  }

  lemma {:induction false} GroupStartsBefore(blocks: seq<Block>, lines: seq<Line>, text: string, j: nat)
    requires Tiles(lines, text) && LineRanges(blocks, 0, |lines|) && GroupsByRun(blocks, lines, None)
    requires j < |blocks| && blocks[j].kind.ListItem?
    ensures blocks[j].kind.group <= lines[blocks[j].first].startChar
  {
    var before := if j == 0 then None else GroupAfter(blocks[j - 1]);
    assert blocks[j].kind.group == if before.Some? then before.value else lines[blocks[j].first].startChar;
    if j > 0 && blocks[j - 1].kind.ListItem? {
      GroupStartsBefore(blocks, lines, text, j - 1);
      LinesAscend(lines, text, blocks, j - 1, j);
    }
  }

  /** Past a block that is no list item, every group starts after that block. */
  lemma {:induction false} GroupStartsAfter(blocks: seq<Block>, lines: seq<Line>, text: string, m: nat, j: nat)
    requires Tiles(lines, text) && LineRanges(blocks, 0, |lines|) && GroupsByRun(blocks, lines, None)
    requires m < j < |blocks| && !blocks[m].kind.ListItem? && blocks[j].kind.ListItem?
    ensures blocks[j].kind.group > lines[blocks[m].first].startChar
    decreases j
  {
    if blocks[j - 1].kind.ListItem? {
      GroupStartsAfter(blocks, lines, text, m, j - 1);
    } else {
      LinesAscend(lines, text, blocks, m, j);
    }
  }

  /** Two list items share a group id exactly when only list items lie between them. */
  lemma GroupsAreRuns(text: string, c: Classifiers, i: nat, j: nat)
    requires i < j < |Blocks(LocatedLines(text), 0, None, c)|
    requires Blocks(LocatedLines(text), 0, None, c)[i].kind.ListItem?
    requires Blocks(LocatedLines(text), 0, None, c)[j].kind.ListItem?
    ensures var blocks := Blocks(LocatedLines(text), 0, None, c);
            blocks[i].kind.group == blocks[j].kind.group <==> forall k :: i < k < j ==> blocks[k].kind.ListItem?
  {
    hide Blocks, LocatedLines, LineRanges, Tiles, GroupsByRun;
    var lines, blocks := LocatedLines(text), Blocks(LocatedLines(text), 0, None, c);
    LocatedLinesTile(text);
    BlocksCoverLines(lines, 0, None, c);
    BlocksGroupByRun(lines, 0, None, c);
    if m :| i < m < j && !blocks[m].kind.ListItem? {
      GroupStartsBefore(blocks, lines, text, i);
      LinesAscend(lines, text, blocks, i, m);
      GroupStartsAfter(blocks, lines, text, m, j);
    } else {
      SameRunSameGroup(blocks, lines, i, j);
    }
  }

  // ----- lines that read both as list item and as thematic break -----

  function GroupBefore(blocks: seq<Block>, group: Option<nat>, k: nat): Option<nat>
    requires k < |blocks|
  {
    if k == 0 then group else GroupAfter(blocks[k - 1])
  }

  /** Every block is what its first line starts, given the block before it. */
  lemma {:induction false} BlockOfFirstLine(lines: seq<Line>, i: nat, group: Option<nat>, c: Classifiers, k: nat)
    requires i <= |lines| && k < |Blocks(lines, i, group, c)|
    ensures var blocks := Blocks(lines, i, group, c);
            blocks[k].first < |lines| && blocks[k] == NextBlock(lines, blocks[k].first, GroupBefore(blocks, group, k), c)
    decreases |lines| - i
  {
    var b := NextBlock(lines, i, group, c);
    hide NextBlock;
    if k > 0 {
      BlockOfFirstLine(lines, b.end, GroupAfter(b), c, k - 1);
      assert Blocks(lines, i, group, c)[k] == Blocks(lines, b.end, GroupAfter(b), c)[k - 1];
    }
  }

  predicate Ambiguous(line: string, c: Classifiers) {
    && c.thematic(line) && c.listItem(line).Some?
    && !c.blank(line) && c.fenceOpen(line).None? && c.atx(line).None?
  }

  /** A block whose first line reads both ways is a list item if it follows one, and a thematic break otherwise. */
  lemma AmbiguousLineFollowsRun(text: string, c: Classifiers, k: nat)
    requires k < |Blocks(LocatedLines(text), 0, None, c)|
    ensures var lines, blocks := LocatedLines(text), Blocks(LocatedLines(text), 0, None, c);
            blocks[k].first < |lines|
            && (Ambiguous(lines[blocks[k].first].text, c) ==>
                  && (blocks[k].kind.ListItem? <==> k > 0 && blocks[k - 1].kind.ListItem?)
                  && (blocks[k].kind.ThematicBreak? <==> !blocks[k].kind.ListItem?))
  {
    hide LocatedLines, Blocks;
    BlockOfFirstLine(LocatedLines(text), 0, None, c, k);
  }
}
