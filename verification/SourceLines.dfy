/** Splitting decoded text into source lines, and the rewriting of line terminators. */
module SourceLines {
  import opened Basics

  predicate IsBreak(c: char) {
    c == '\r' || c == '\n'
  }

  /** The number of leading characters that are not line breaks. */
  function ContentLength(text: string): (n: nat)
    ensures n <= |text|
    ensures forall i :: 0 <= i < n ==> !IsBreak(text[i])
    ensures n < |text| ==> IsBreak(text[n])
  {
    if text == "" || IsBreak(text[0]) then 0 else 1 + ContentLength(text[1..])
  }

  /** The length of the terminator `text` starts with: two for CR LF, one for CR or LF, else none. */
  function TerminatorLength(text: string): (n: nat)
    ensures n <= |text|
  {
    if text == "" || !IsBreak(text[0]) then 0
    else if |text| > 1 && text[0] == '\r' && text[1] == '\n' then 2
    else 1
  }

  function FirstLineLength(text: string): (n: nat)
    ensures n <= |text|
    ensures text != "" ==> n > 0
  {
    var content := ContentLength(text);
    content + TerminatorLength(text[content..])
  }

  function Lines(text: string): seq<string> {
    if text == "" then []
    else [text[..FirstLineLength(text)]] + Lines(text[FirstLineLength(text)..])
  }

  function Content(line: string): string {
    line[..ContentLength(line)]
  }

  /** A line is break-free content followed by exactly one terminator. */
  predicate Terminated(line: string) {
    ContentLength(line) < |line| && |line| == ContentLength(line) + TerminatorLength(line[ContentLength(line)..])
  }

  /** Lines are non-empty, only the last one may lack its terminator, and no CR LF is cut apart. */
  ghost predicate AreLines(lines: seq<string>) {
    lines == []
    || (|lines| == 1 && lines[0] != "" && (Terminated(lines[0]) || Content(lines[0]) == lines[0]))
    || (|lines| > 1 && Terminated(lines[0]) && lines[1] != "" && !CutsApart(lines[0], lines[1]) && AreLines(lines[1..]))
  }

  predicate CutsApart(line: string, next: string) {
    line != "" && next != "" && line[|line| - 1] == '\r' && next[0] == '\n'
  }

  /** The lines of a text concatenate to it, and are cut exactly behind each terminator. */
  lemma {:induction false} LinesTile(text: string)
    ensures Flatten(Lines(text)) == text
    ensures AreLines(Lines(text))
  {
    if text != "" {
      var n := FirstLineLength(text);
      var line, after := text[..n], text[n..];
      LinesTile(after);
      assert text == line + after;
      FirstLineShape(text);
      assert Lines(text) == [line] + Lines(after);
      assert Lines(text)[1..] == Lines(after);
      if after != "" {
        assert Lines(after)[0] == after[..FirstLineLength(after)];
      }
    }
  }

  lemma {:induction false} ContentLengthOfPrefix(text: string, n: nat)
    requires n <= |text|
    ensures ContentLength(text[..n]) == if ContentLength(text) <= n then ContentLength(text) else n
  {
    if n > 0 && !IsBreak(text[0]) {
      assert text[..n][1..] == text[1..][..n - 1];
      ContentLengthOfPrefix(text[1..], n - 1);
    }
  }

  lemma FirstLineShape(text: string)
    requires text != ""
    ensures var line := text[..FirstLineLength(text)];
            Content(line) == text[..ContentLength(text)]
            && (Terminated(line) || (Content(line) == line && line == text))
            && !CutsApart(line, text[|line|..])
  {
    var n, c := FirstLineLength(text), ContentLength(text);
    var line := text[..n];
    ContentLengthOfPrefix(text, n);
    TerminatorOfPrefix(text[c..], n - c);
    assert line[c..] == text[c..][..n - c];
    FirstLineIsWhole(text);
    hide ContentLength, TerminatorLength;
  }

  lemma TerminatorOfPrefix(rest: string, n: nat)
    requires n == TerminatorLength(rest)
    ensures TerminatorLength(rest[..n]) == n
  {
  }

  /** The terminator is taken whole. */
  lemma FirstLineIsWhole(text: string)
    requires text != ""
    ensures !CutsApart(text[..FirstLineLength(text)], text[FirstLineLength(text)..])
    ensures ContentLength(text) == |text| || TerminatorLength(text[ContentLength(text)..]) > 0
  {
    hide *;
    FirstLineParts(text);
    NotCut(text, ContentLength(text), TerminatorLength(text[ContentLength(text)..]));
  }

  lemma FirstLineParts(text: string)
    ensures var c := ContentLength(text);
            var t := TerminatorLength(text[c..]);
            && FirstLineLength(text) == c + t && (t == 0 ==> c == |text|)
            && !(0 < t < |text[c..]| && text[c..][t - 1] == '\r' && text[c..][t] == '\n')
  {
    var c := ContentLength(text);
    assert c < |text| ==> text[c..][0] == text[c];
    TerminatorIsWhole(text[c..]);
    hide TerminatorLength, ContentLength;
  }

  lemma NotCut(text: string, c: nat, t: nat)
    requires c + t <= |text| && c + t > 0 && (t == 0 ==> c == |text|)
    requires !(0 < t < |text[c..]| && text[c..][t - 1] == '\r' && text[c..][t] == '\n')
    ensures !CutsApart(text[..c + t], text[c + t..])
  {
    if t > 0 && c + t < |text| {
      assert text[c..][t - 1] == text[..c + t][c + t - 1] && text[c..][t] == text[c + t..][0];
    }
  }

  lemma TerminatorIsWhole(rest: string)
    ensures var t := TerminatorLength(rest);
            (rest == "" || !IsBreak(rest[0]) || t > 0) && !(0 < t < |rest| && rest[t - 1] == '\r' && rest[t] == '\n')
  {
  }

  lemma FirstLineOfConcat(line: string, after: string)
    requires line != "" && (Terminated(line) || (Content(line) == line && after == ""))
    requires !CutsApart(line, after)
    ensures FirstLineLength(line + after) == |line|
  {
    var text := line + after;
    var c := ContentLength(line);
    ContentLengthOfPrefix(text, |line|);
    assert text[..|line|] == line;
    if after == "" {
      assert text == line;
    } else {
      assert text[c..] == line[c..] + after;
    }
  }

  /** There is no other way to cut a text into lines. */
  lemma {:induction false} LinesAreUnique(lines: seq<string>)
    requires AreLines(lines)
    ensures Lines(Flatten(lines)) == lines
  {
    if lines != [] {
      var line, rest := lines[0], lines[1..];
      LinesAreUnique(rest);
      if rest != [] {
        assert Flatten(rest) == rest[0] + Flatten(rest[1..]);
        assert !CutsApart(line, Flatten(rest));
      }
      FirstLineOfConcat(line, Flatten(rest));
      var text := line + Flatten(rest);
      assert text[..|line|] == line && text[|line|..] == Flatten(rest);
    }
  }

  // ----- line endings -----

  /** Replaces every CR LF by LF, from the left and without overlap. */
  function ReplaceCrLf(text: string): string {
    if text == "" then ""
    else if |text| > 1 && text[0] == '\r' && text[1] == '\n' then "\n" + ReplaceCrLf(text[2..])
    else [text[0]] + ReplaceCrLf(text[1..])
  }

  /** Replaces every CR by LF. */
  function ReplaceCr(text: string): string {
    if text == "" then "" else [if text[0] == '\r' then '\n' else text[0]] + ReplaceCr(text[1..])
  }

  function NormalizeLineEndings(text: string): string {
    ReplaceCr(ReplaceCrLf(text))
  }

  function CountCrLf(text: string): nat {
    if text == "" then 0
    else if |text| > 1 && text[0] == '\r' && text[1] == '\n' then 1 + CountCrLf(text[2..])
    else CountCrLf(text[1..])
  }

  function CountCr(text: string): nat {
    if text == "" then 0 else (if text[0] == '\r' then 1 else 0) + CountCr(text[1..])
  }

  /** A line with its terminator, if any, rewritten to a single LF. */
  function RewriteTerminator(line: string): string {
    Content(line) + (if ContentLength(line) < |line| then "\n" else "")
  }

  function RewriteLines(lines: seq<string>): seq<string> {
    if lines == [] then [] else [RewriteTerminator(lines[0])] + RewriteLines(lines[1..])
  }

  lemma {:induction false} NormalizeContent(text: string)
    ensures var c := ContentLength(text);
            NormalizeLineEndings(text) == text[..c] + NormalizeLineEndings(text[c..])
  {
    if text != "" && !IsBreak(text[0]) {
      NormalizeContent(text[1..]);
      var c := ContentLength(text);
      assert text[c..] == text[1..][c - 1..];
      assert text[..c] == [text[0]] + text[1..][..c - 1];
    } else {
      assert text[ContentLength(text)..] == text;
    }
  }

  lemma NormalizeTerminator(text: string)
    requires text != "" && IsBreak(text[0])
    ensures NormalizeLineEndings(text) == "\n" + NormalizeLineEndings(text[TerminatorLength(text)..])
  {
    var rest := text[TerminatorLength(text)..];
    if TerminatorLength(text) == 2 {
      assert ReplaceCrLf(text) == ['\n'] + ReplaceCrLf(rest);
      assert ReplaceCrLf(text)[1..] == ReplaceCrLf(rest);
    } else {
      assert ReplaceCrLf(text) == [text[0]] + ReplaceCrLf(rest);
      assert ReplaceCrLf(text)[1..] == ReplaceCrLf(rest);
    }
  }

  lemma NormalizeFirstLine(text: string)
    requires text != ""
    ensures var n := FirstLineLength(text);
            NormalizeLineEndings(text) == RewriteTerminator(text[..n]) + NormalizeLineEndings(text[n..])
  {
    var c, n := ContentLength(text), FirstLineLength(text);
    assert n == c + TerminatorLength(text[c..]) && (c == |text| ==> n == c);
    hide *;
    NormalizeContent(text);
    RewrittenFirstLine(text);
    DroppedTwice(text, c, n);
    if c < |text| {
      NormalizeTerminator(text[c..]);
      Regrouped(text[..c], "\n", NormalizeLineEndings(text[n..]));
    }
  }

  lemma DroppedTwice(text: string, c: nat, n: nat)
    requires c <= n <= |text|
    ensures text[c..][n - c..] == text[n..] && (c < |text| ==> text[c..] != "" && text[c..][0] == text[c])
    ensures text[..c] + "" == text[..c]
  {
  }

  lemma Regrouped(a: string, b: string, c: string)
    ensures a + (b + c) == (a + b) + c
  {
  }

  lemma RewrittenFirstLine(text: string)
    requires text != ""
    ensures var c := ContentLength(text);
            RewriteTerminator(text[..FirstLineLength(text)]) == text[..c] + (if c < |text| then "\n" else "")
  {
    FirstLineShape(text);
    FirstLineIsWhole(text);
    ContentLengthOfPrefix(text, FirstLineLength(text));
    hide ContentLength, TerminatorLength;
  }

  /** The two replacement passes together rewrite the terminator of each source line. */
  lemma {:induction false} TwoPassesRewriteEachLine(text: string)
    ensures NormalizeLineEndings(text) == Flatten(RewriteLines(Lines(text)))
  {
    if text != "" {
      var n := FirstLineLength(text);
      NormalizeFirstLine(text);
      TwoPassesRewriteEachLine(text[n..]);
      assert Lines(text)[1..] == Lines(text[n..]);
    }
  }

  lemma NoCrLeft(text: string)
    ensures '\r' !in NormalizeLineEndings(text)
    ensures '\r' !in text ==> NormalizeLineEndings(text) == text
  {
    ReplaceCrRemoves(ReplaceCrLf(text));
    if '\r' !in text {
      UntouchedWithoutCr(text);
    }
  }

  lemma {:induction false} ReplaceCrRemoves(text: string)
    ensures '\r' !in ReplaceCr(text)
  {
    if text != "" {
      ReplaceCrRemoves(text[1..]);
    }
  }

  lemma {:induction false} UntouchedWithoutCr(text: string)
    requires '\r' !in text
    ensures ReplaceCrLf(text) == text && ReplaceCr(text) == text
  {
    if text != "" {
      UntouchedWithoutCr(text[1..]);
    }
  }

  lemma Idempotent(text: string)
    ensures NormalizeLineEndings(NormalizeLineEndings(text)) == NormalizeLineEndings(text)
  {
    NoCrLeft(text);
    NoCrLeft(NormalizeLineEndings(text));
  }

  /** The text changes exactly when it holds a CR; standalone and paired CRs are counted apart. */
  lemma ChangedExactlyByCr(text: string)
    ensures NormalizeLineEndings(text) != text <==> '\r' in text
    ensures CountCr(text) >= CountCrLf(text)
    ensures CountCr(text) > 0 <==> '\r' in text
    ensures |NormalizeLineEndings(text)| == |text| - CountCrLf(text)
  {
    NoCrLeft(text);
    CountsOfCr(text);
    ReplaceCrLength(ReplaceCrLf(text));
  }

  lemma {:induction false} CountsOfCr(text: string)
    ensures CountCr(text) >= CountCrLf(text)
    ensures CountCr(text) > 0 <==> '\r' in text
    ensures |ReplaceCrLf(text)| == |text| - CountCrLf(text)
  {
    if text != "" {
      if |text| > 1 && text[0] == '\r' && text[1] == '\n' {
        CountsOfCr(text[2..]);
        assert text[1..][1..] == text[2..];
        assert CountCr(text) == 1 + CountCr(text[2..]);
      } else {
        CountsOfCr(text[1..]);
      }
    }
  }

  lemma {:induction false} ReplaceCrLength(text: string)
    ensures |ReplaceCr(text)| == |text|
  {
    if text != "" {
      ReplaceCrLength(text[1..]);
    }
  }

  /** Rewriting terminators keeps the number of lines. */
  lemma {:induction false} LineCountKept(text: string)
    ensures |Lines(NormalizeLineEndings(text))| == |Lines(text)|
  {
    if text != "" {
      var c, n := ContentLength(text), FirstLineLength(text);
      var rest := text[n..];
      assert |Lines(text)| == 1 + |Lines(rest)|;
      LineCountKept(rest);
      hide Lines, NormalizeLineEndings;
      if c < |text| {
        NormalizeOneLine(text);
        LinesOfTerminated(text[..c], NormalizeLineEndings(rest));
      } else {
        NormalizeLastLine(text);
      }
    }
  }

  lemma NormalizeOneLine(text: string)
    requires ContentLength(text) < |text|
    ensures NormalizeLineEndings(text)
         == text[..ContentLength(text)] + "\n" + NormalizeLineEndings(text[FirstLineLength(text)..])
  {
    var c, t := ContentLength(text), TerminatorLength(text[ContentLength(text)..]);
    NormalizeContent(text);
    var front, tail := text[..c], text[c..];
    assert tail != "" && IsBreak(tail[0]);
    SuffixOfSuffix(text, c, t);
    hide *;
    NormalizeTerminator(tail);
    Associate(front, "\n", NormalizeLineEndings(text[c + t..]));
  }

  lemma SuffixOfSuffix(text: string, c: nat, t: nat)
    requires c + t <= |text|
    ensures text[c..][t..] == text[c + t..]
  {
  }

  lemma Associate(a: string, b: string, c: string)
    ensures a + (b + c) == a + b + c
  {
  }

  /** Text without a break is one line and stays as it is. */
  lemma NormalizeLastLine(text: string)
    requires ContentLength(text) == |text|
    ensures NormalizeLineEndings(text) == text
  {
    NormalizeContent(text);
    assert text[|text|..] == "" && text[..|text|] == text;
  }

  lemma {:induction false} ContentLengthOfConcat(content: string, rest: string)
    requires forall i :: 0 <= i < |content| ==> !IsBreak(content[i])
    requires rest == "" || IsBreak(rest[0])
    ensures ContentLength(content + rest) == |content|
  {
    if content == "" {
      assert content + rest == rest;
    } else {
      assert (content + rest)[1..] == content[1..] + rest;
      ContentLengthOfConcat(content[1..], rest);
    }
  }

  lemma LinesOfTerminated(content: string, rest: string)
    requires forall i :: 0 <= i < |content| ==> !IsBreak(content[i])
    ensures Lines(content + "\n" + rest) == [content + "\n"] + Lines(rest)
  {
    var text := content + "\n" + rest;
    assert text == content + ("\n" + rest);
    ContentLengthOfConcat(content, "\n" + rest);
    assert text[|content|..] == "\n" + rest;
    assert text[..|content| + 1] == content + "\n";
    assert text[|content| + 1..] == rest;
  }
}
