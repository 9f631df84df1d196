/** The plain-text adapter: alternating runs of blank and non-blank lines. */
module PlainText {
  import opened Basics
  import SourceLines

  datatype Block = Block(blank: bool, startChar: nat, endChar: nat, startLine: nat, endLine: nat, text: string)

  /** The block covers lines `startLine` to `endLine`, all as blank as the block says. */
  ghost predicate Covers(b: Block, lines: seq<string>, blank: string -> bool) {
    && 1 <= b.startLine <= b.endLine <= |lines|
    && (forall k :: b.startLine - 1 <= k < b.endLine ==> blank(lines[k]) == b.blank)
    && b.text == Flatten(lines[b.startLine - 1..b.endLine])
    && b.startChar == |Flatten(lines[..b.startLine - 1])|
    && b.endChar == |Flatten(lines[..b.endLine])|
  }

  /** Block `k` starts where the one before it ends, and is of the other kind. */
  predicate Adjoins(blocks: seq<Block>, k: nat)
    requires 0 < k < |blocks|
  {
    var a, b := blocks[k - 1], blocks[k];
    a.endLine + 1 == b.startLine && a.endChar == b.startChar && a.blank != b.blank
  }

  /** The blocks cover the first `n` lines as maximal runs. */
  ghost predicate AreRuns(blocks: seq<Block>, lines: seq<string>, n: nat, blank: string -> bool) {
    && (forall k :: 0 <= k < |blocks| ==> Covers(blocks[k], lines, blank))
    && (forall k :: 0 < k < |blocks| ==> Adjoins(blocks, k))
    && (blocks == [] <==> n == 0)
    && (blocks != [] ==> blocks[0].startLine == 1 && blocks[|blocks| - 1].endLine == n)
  }

  function BlockTexts(blocks: seq<Block>): seq<string> {
    if blocks == [] then [] else BlockTexts(blocks[..|blocks| - 1]) + [blocks[|blocks| - 1].text]
  }

  /** The state of the loop: the flushed blocks, and the open one once a line was read. */
  ghost predicate Open(blocks: seq<Block>, current: Option<bool>, startChar: nat, startLine: nat, parts: seq<string>,
                       charCursor: nat, i: nat, lines: seq<string>, blank: string -> bool)
  {
    i <= |lines| && charCursor == |Flatten(lines[..i])|
    && if i == 0 then current.None? && blocks == [] && parts == []
       else
         current.Some? && 1 <= startLine <= i
         && AreRuns(blocks, lines, startLine - 1, blank)
         && (blocks != [] ==> blocks[|blocks| - 1].blank != current.value)
         && parts == lines[startLine - 1..i] && startChar == |Flatten(lines[..startLine - 1])|
         && (forall k :: startLine - 1 <= k < i ==> blank(lines[k]) == current.value)
  }

  lemma FlushKeepsRuns(blocks: seq<Block>, b: Block, lines: seq<string>, blank: string -> bool)
    requires Covers(b, lines, blank) && AreRuns(blocks, lines, b.startLine - 1, blank)
    requires blocks != [] ==> blocks[|blocks| - 1].blank != b.blank
    ensures AreRuns(blocks + [b], lines, b.endLine, blank)
  {
    if blocks != [] {
      var last := blocks[|blocks| - 1];
      assert Covers(last, lines, blank);
      assert last.endLine + 1 == b.startLine && last.endChar == b.startChar;
    }
    assert 1 <= b.startLine <= b.endLine;
    hide Covers, Flatten;
    var all := blocks + [b];
    forall k | 0 < k < |all|
      ensures Adjoins(all, k)
    {
      if k < |blocks| {
        assert Adjoins(blocks, k);
      }
    }
  }

  lemma NothingOpen(lines: seq<string>, blank: string -> bool)
    ensures Open([], None, 0, 1, [], 0, 0, lines, blank)
    ensures lines == [] ==> AreRuns([], lines, 0, blank)
  {}

  lemma NextCursor(lines: seq<string>, i: nat)
    requires i < |lines|
    ensures |Flatten(lines[..i + 1])| == |Flatten(lines[..i])| + |lines[i]|
  {
    assert lines[..i + 1] == lines[..i] + [lines[i]];
    FlattenAppend(lines[..i], [lines[i]]);
    FlattenSingle(lines[i]);
  }

  /** A line of the open block's kind joins it. */
  lemma Join(blocks: seq<Block>, current: Option<bool>, startChar: nat, startLine: nat, parts: seq<string>,
             charCursor: nat, i: nat, lines: seq<string>, blank: string -> bool)
    requires i < |lines| && Open(blocks, current, startChar, startLine, parts, charCursor, i, lines, blank)
    requires current == Some(blank(lines[i]))
    ensures Open(blocks, current, startChar, startLine, parts + [lines[i]], charCursor + |lines[i]|, i + 1, lines, blank)
  {
    NextCursor(lines, i);
  }

  /** The first line opens the first block. */
  lemma Begin(charCursor: nat, lines: seq<string>, blank: string -> bool, blocks: seq<Block>, current: Option<bool>,
              startChar: nat, startLine: nat, parts: seq<string>, i: nat)
    requires i < |lines| && current.None? && Open(blocks, current, startChar, startLine, parts, charCursor, i, lines, blank)
    ensures i == 0
    ensures Open(blocks, Some(blank(lines[i])), charCursor, i + 1, parts + [lines[i]], charCursor + |lines[i]|, i + 1, lines, blank)
  {
    NextCursor(lines, i);
  }

  /** Closing the open block yields one more run. */
  lemma Close(blocks: seq<Block>, current: bool, startChar: nat, startLine: nat, parts: seq<string>,
              charCursor: nat, i: nat, lines: seq<string>, blank: string -> bool)
    requires Open(blocks, Some(current), startChar, startLine, parts, charCursor, i, lines, blank)
    ensures AreRuns(blocks + [Block(current, startChar, charCursor, startLine, i, Flatten(parts))], lines, i, blank)
  {
    var b := Block(current, startChar, charCursor, startLine, i, Flatten(parts));
    assert Covers(b, lines, blank);
    FlushKeepsRuns(blocks, b, lines, blank);
  }

  /** A line of the other kind closes the open block and opens the next. */
  lemma Switch(blocks: seq<Block>, current: bool, startChar: nat, startLine: nat, parts: seq<string>,
               charCursor: nat, i: nat, lines: seq<string>, blank: string -> bool)
    requires i < |lines| && Open(blocks, Some(current), startChar, startLine, parts, charCursor, i, lines, blank)
    requires current != blank(lines[i])
    ensures Open(blocks + [Block(current, startChar, charCursor, startLine, i, Flatten(parts))],
                 Some(blank(lines[i])), charCursor, i + 1, [lines[i]], charCursor + |lines[i]|, i + 1, lines, blank)
  {
    Close(blocks, current, startChar, startLine, parts, charCursor, i, lines, blank);
    NextCursor(lines, i);
    hide AreRuns;
  }

  method ScanBlocks(text: string, blank: string -> bool) returns (blocks: seq<Block>)
    ensures AreRuns(blocks, SourceLines.Lines(text), |SourceLines.Lines(text)|, blank)
    ensures Flatten(BlockTexts(blocks)) == text
  {
    hide AreRuns, Covers, Flatten;
    var lines := SourceLines.Lines(text);
    blocks := [];
    var charCursor: nat := 0;
    var lineNumber: nat := 1;
    var current: Option<bool> := None;
    var startChar: nat, startLine: nat := 0, 1;
    var parts: seq<string> := [];
    NothingOpen(lines, blank);
    for i := 0 to |lines|
      invariant lineNumber == i + 1 && (i > 0 ==> current.Some?)
      invariant Open(blocks, current, startChar, startLine, parts, charCursor, i, lines, blank)
    {
      hide Open;
      var flag := blank(lines[i]);
      if current.None? {
        Begin(charCursor, lines, blank, blocks, current, startChar, startLine, parts, i);
        current, startChar, startLine := Some(flag), charCursor, lineNumber;
      } else if flag != current.value {
        Switch(blocks, current.value, startChar, startLine, parts, charCursor, i, lines, blank);
        blocks := blocks + [Block(current.value, startChar, charCursor, startLine, lineNumber - 1, Flatten(parts))];
        parts := [];
        current, startChar, startLine := Some(flag), charCursor, lineNumber;
        assert parts + [lines[i]] == [lines[i]];
      } else {
        Join(blocks, current, startChar, startLine, parts, charCursor, i, lines, blank);
      }
      parts := parts + [lines[i]];
      charCursor := charCursor + |lines[i]|;
      lineNumber := lineNumber + 1;
    }
    if current.Some? {
      Close(blocks, current.value, startChar, startLine, parts, charCursor, |lines|, lines, blank);
      blocks := blocks + [Block(current.value, startChar, charCursor, startLine, lineNumber - 1, Flatten(parts))];
    }
    RunsConcatenate(blocks, lines, |lines|, blank);
    assert lines[..|lines|] == lines;
    SourceLines.LinesTile(text);
  }

  lemma RunsBefore(blocks: seq<Block>, lines: seq<string>, n: nat, blank: string -> bool)
    requires AreRuns(blocks, lines, n, blank) && blocks != []
    ensures var b := blocks[|blocks| - 1]; 1 <= b.startLine <= n <= |lines| && b.text == Flatten(lines[b.startLine - 1..n])
    ensures AreRuns(blocks[..|blocks| - 1], lines, blocks[|blocks| - 1].startLine - 1, blank)
  {
    var b, before := blocks[|blocks| - 1], blocks[..|blocks| - 1];
    assert Covers(b, lines, blank);
    if before != [] {
      assert Adjoins(blocks, |blocks| - 1);
      assert Covers(before[|before| - 1], lines, blank);
    }
    hide Covers;
    forall k | 0 < k < |before|
      ensures Adjoins(before, k)
    {
      assert Adjoins(blocks, k);
    }
  }

  /** The block texts concatenate to the lines they cover. */
  lemma {:induction false} RunsConcatenate(blocks: seq<Block>, lines: seq<string>, n: nat, blank: string -> bool)
    requires n <= |lines| && AreRuns(blocks, lines, n, blank)
    ensures Flatten(BlockTexts(blocks)) == Flatten(lines[..n])
  {
    if blocks != [] {
      var b, before := blocks[|blocks| - 1], blocks[..|blocks| - 1];
      var m := b.startLine - 1;
      hide *;
      RunsBefore(blocks, lines, n, blank);
      RunsConcatenate(before, lines, m, blank);
      TextsGrow(blocks);
      PrefixGrows(lines, m, n);
    } else {
      NothingCovered(blocks, lines, n, blank);
    }
  }

  lemma TextsGrow(blocks: seq<Block>)
    requires blocks != []
    ensures Flatten(BlockTexts(blocks)) == Flatten(BlockTexts(blocks[..|blocks| - 1])) + blocks[|blocks| - 1].text
  {
    hide Flatten;
    FlattenAppend(BlockTexts(blocks[..|blocks| - 1]), [blocks[|blocks| - 1].text]);
    FlattenSingle(blocks[|blocks| - 1].text);
  }

  lemma PrefixGrows(lines: seq<string>, m: nat, n: nat)
    requires m <= n <= |lines|
    ensures Flatten(lines[..n]) == Flatten(lines[..m]) + Flatten(lines[m..n])
  {
    hide Flatten;
    assert lines[..n] == lines[..m] + lines[m..n];
    FlattenAppend(lines[..m], lines[m..n]);
  }

  lemma NothingCovered(blocks: seq<Block>, lines: seq<string>, n: nat, blank: string -> bool)
    requires n <= |lines| && AreRuns(blocks, lines, n, blank) && blocks == []
    ensures Flatten(BlockTexts(blocks)) == Flatten(lines[..n])
  {
  }

  /** The run structure of a text is unique: block `k` of any two tilings into runs is the same. */
  lemma {:induction false} RunsAreUnique(a: seq<Block>, b: seq<Block>, lines: seq<string>, blank: string -> bool, k: nat)
    requires AreRuns(a, lines, |lines|, blank) && AreRuns(b, lines, |lines|, blank)
    requires k < |a|
    ensures k < |b| && a[k] == b[k]
  {
    hide AreRuns;
    if k > 0 {
      RunsAreUnique(a, b, lines, blank, k - 1);
    }
    NextStarts(a, b, lines, blank, k);
    SameEnd(a, b, lines, blank, k);
    SameEnd(b, a, lines, blank, k);
    SameRangeSameBlock(a, b, lines, blank, k);
  }

  lemma NextStarts(a: seq<Block>, b: seq<Block>, lines: seq<string>, blank: string -> bool, k: nat)
    requires AreRuns(a, lines, |lines|, blank) && AreRuns(b, lines, |lines|, blank) && k < |a|
    requires k > 0 ==> k - 1 < |b| && a[k - 1] == b[k - 1]
    ensures k < |b| && a[k].startLine == b[k].startLine
  {
    hide AreRuns;
    RunFacts(a, lines, blank, k);
    if k > 0 {
      RunFacts(b, lines, blank, k - 1);
    }
    RunFacts(b, lines, blank, k);
  }

  lemma RunFacts(blocks: seq<Block>, lines: seq<string>, blank: string -> bool, k: nat)
    requires AreRuns(blocks, lines, |lines|, blank)
    ensures lines != [] ==> blocks != []
    ensures k < |blocks| ==>
              && 1 <= blocks[k].startLine <= blocks[k].endLine <= |lines| && (k == 0 ==> blocks[k].startLine == 1)
              && (k > 0 ==> blocks[k - 1].endLine + 1 == blocks[k].startLine) && (k == |blocks| - 1 ==> blocks[k].endLine == |lines|)
  {
    if k < |blocks| {
      assert Covers(blocks[k], lines, blank);
      assert k > 0 ==> Adjoins(blocks, k);
    }
    hide Covers;
  }

  lemma SameRangeSameBlock(a: seq<Block>, b: seq<Block>, lines: seq<string>, blank: string -> bool, k: nat)
    requires AreRuns(a, lines, |lines|, blank) && AreRuns(b, lines, |lines|, blank) && k < |a| && k < |b|
    requires a[k].startLine == b[k].startLine && a[k].endLine == b[k].endLine && a[k].blank == b[k].blank
    ensures a[k] == b[k]
  {
    assert Covers(a[k], lines, blank) && Covers(b[k], lines, blank);
  }

  lemma SameEnd(a: seq<Block>, b: seq<Block>, lines: seq<string>, blank: string -> bool, k: nat)
    requires AreRuns(a, lines, |lines|, blank) && AreRuns(b, lines, |lines|, blank)
    requires k < |a| && k < |b| && a[k].startLine == b[k].startLine
    ensures a[k].blank == b[k].blank && a[k].endLine <= b[k].endLine
  {
    assert Covers(a[k], lines, blank) && Covers(b[k], lines, blank);
    assert blank(lines[a[k].startLine - 1]) == a[k].blank == b[k].blank;
    assert a[k].endLine <= |lines| && b[|b| - 1].endLine == |lines|;
    if k < |b| - 1 {
      assert Covers(b[k + 1], lines, blank);
      assert blank(lines[b[k + 1].startLine - 1]) == b[k + 1].blank;
      assert Adjoins(b, k + 1);
    }
  }
}
