/**
 The DOCX emitter: paragraphs, tables and section separators of a body, appended to one element
 list through the adapter's overriding layers.
 */
module DocxTables {
  import opened Basics
  import opened DocxTree
  import opened DocxView

  /** How a paragraph is classified; never a separator. */
  datatype Hint = Heading | ListItem | Formula | Plain

  datatype Kind =
    | TableStart
    | TableRow(row: nat)
    | TableCell(row: nat, cell: nat)
    | Paragraph(hint: Hint)
    | SectionBreak
    | AltChunk
    | Opaque(name: string, path: Path)

  /** An emitted observation apart from its order; a group id is modelled by the path it digests. */
  datatype Content = Content(kind: Kind, text: Option<string>, group: Option<Path>, parent: Option<Path>)

  datatype Element = Element(order: nat, content: Content)

  datatype Policy = Policy(
    view: RevisionView, maxElements: nat, maxTextChars: nat, blank: string -> bool, hintOf: Node -> Hint, upper: string -> string)

  // ----- text -----

  function ParagraphText(view: RevisionView, node: Node): string
    decreases node, 1, 0
  {
    if Excluded(view, node.name) then ""
    else if (node.name == "t" || node.name == "delText") && node.text != "" then node.text
    else if node.name == "tab" then "\t"
    else if node.name == "br" || node.name == "cr" then "\n"
    else ChildrenText(view, node, 0)
  }

  function ChildrenText(view: RevisionView, node: Node, k: nat): string
    requires k <= |node.children|
    decreases node, 0, |node.children| - k
  {
    if k == |node.children| then ""
    else ParagraphText(view, node.children[k]) + ChildrenText(view, node, k + 1)
  }

  /** The non-blank paragraph texts below `node`, without those of nested tables. */
  function TextChunks(policy: Policy, node: Node, k: nat): seq<string>
    requires k <= |node.children|
    decreases node, |node.children| - k
  {
    if k == |node.children| then []
    else
      var child := node.children[k];
      (if child.name == "tbl" then []
       else if child.name == "p" then
         var value := ParagraphText(policy.view, child);
         if policy.blank(value) then [] else [value]
       else TextChunks(policy, child, 0))
      + TextChunks(policy, node, k + 1)
  }

  function JoinLines(chunks: seq<string>): string {
    if chunks == [] then "" else if |chunks| == 1 then chunks[0] else chunks[0] + "\n" + JoinLines(chunks[1..])
  }

  function NodeText(policy: Policy, node: Node): string {
    JoinLines(TextChunks(policy, node, 0))
  }

  // ----- the list of contents a table or block stands for -----

  function TableContents(policy: Policy, table: Node, path: Path, parent: Option<Path>): seq<Content>
    decreases table, 4, 0
  {
    ExtractContents(policy, table, path, parent)
    + EntriesContents(policy, table, Layer(WrappedTables, policy.view, table), path, Some(path))
    + EntriesContents(policy, table, Layer(BoxedTables, policy.view, table), path, Some(path))
  }

  function TableContent(path: Path, parent: Option<Path>): Content {
    Content(TableStart, None, Some(path), parent)
  }

  function ExtractContents(policy: Policy, table: Node, path: Path, parent: Option<Path>): seq<Content>
    decreases table, 3, 0
  {
    [TableContent(path, parent)] + RowsContents(policy, table, path, parent, 0)
  }

  function RowContent(policy: Policy, row: Node, r: nat, path: Path, parent: Option<Path>): Content {
    Content(TableRow(r), Some(NodeText(policy, row)), Some(path), parent)
  }

  function CellContent(policy: Policy, cell: Node, r: nat, c: nat, path: Path, parent: Option<Path>): Content {
    Content(TableCell(r, c), Some(NodeText(policy, cell)), Some(path), parent)
  }

  function RowsOf(policy: Policy, table: Node): (r: seq<Entry>)
    ensures Found(table, r)
  {
    Find(RowFinder, policy.view, table)
  }

  function CellsOf(policy: Policy, table: Node, row: Entry): (r: seq<Entry>)
    requires ValidAt(table, row.pos)
    ensures Found(At(table, row.pos), r)
  {
    Find(CellFinder, policy.view, At(table, row.pos))
  }

  function RowsContents(policy: Policy, table: Node, path: Path, parent: Option<Path>, r: nat): seq<Content>
    requires r <= |RowsOf(policy, table)|
    decreases table, 2, |RowsOf(policy, table)| - r
  {
    var rows := RowsOf(policy, table);
    if r == |rows| then []
    else OneRowContents(policy, table, path, parent, r) + RowsContents(policy, table, path, parent, r + 1)
  }

  function OneRowContents(policy: Policy, table: Node, path: Path, parent: Option<Path>, r: nat): seq<Content>
    requires r < |RowsOf(policy, table)|
    decreases table, 1, |CellsOf(policy, table, RowsOf(policy, table)[r])| + 1
  {
    [RowContent(policy, At(table, RowsOf(policy, table)[r].pos), r, path, parent)]
    + CellsContents(policy, table, path, parent, r, 0)
  }

  /** The tables one layer finds in one cell, as seen from the table. */
  function InCell(policy: Policy, finder: Finder, table: Node, row: Entry, cell: Entry): (r: seq<Entry>)
    requires ValidAt(table, row.pos) && row.pos != [] && ValidAt(At(table, row.pos), cell.pos)
    ensures Found(table, r)
  {
    AtConcat(table, row.pos, cell.pos);
    var found := Find(finder, policy.view, At(table, row.pos + cell.pos));
    GraftIsFound(table, Join(row, cell), found);
    Graft(Join(row, cell), found)
  }

  function CellsContents(policy: Policy, table: Node, path: Path, parent: Option<Path>, r: nat, c: nat): seq<Content>
    requires r < |RowsOf(policy, table)| && c <= |CellsOf(policy, table, RowsOf(policy, table)[r])|
    decreases table, 1, |CellsOf(policy, table, RowsOf(policy, table)[r])| - c
  {
    var row := RowsOf(policy, table)[r];
    var cells := CellsOf(policy, table, row);
    if c == |cells| then []
    else
      [CellContent(policy, At(At(table, row.pos), cells[c].pos), r, c, path, parent)]
      + EntriesContents(policy, table, InCell(policy, DirectTables, table, row, cells[c]), path, Some(path))
      + CellsContents(policy, table, path, parent, r, c + 1)
  }

  function EntriesContents(policy: Policy, root: Node, es: seq<Entry>, path: Path, parent: Option<Path>): seq<Content>
    requires Found(root, es)
    decreases root, 0, |es|
  {
    if es == [] then []
    else TableContents(policy, At(root, es[0].pos), path + es[0].path, parent)
         + EntriesContents(policy, root, es[1..], path, parent)
  }

  predicate IsProperties(name: string) {
    name == "sdtPr" || name == "customXmlPr" || name == "insPr" || name == "delPr"
  }

  predicate IsMarker(name: string) {
    name == "bookmarkStart" || name == "bookmarkEnd" || name == "proofErr" || name == "permStart" || name == "permEnd"
  }

  /** The paragraph carries section properties. */
  predicate EndsSection(paragraph: Node) {
    var properties := FindChild(paragraph, (n: Node) => n.inWord && n.name == "pPr", 0);
    properties.Some?
    && FindChild(paragraph.children[properties.value], (n: Node) => n.inWord && n.name == "sectPr", 0).Some?
  }

  function ParagraphContent(policy: Policy, block: Node): Content {
    Content(Paragraph(policy.hintOf(block)), Some(ParagraphText(policy.view, block)), None, None)
  }

  const Separator := Content(SectionBreak, None, None, None)

  lemma BoxedFound(view: RevisionView, block: Node)
    requires block.name == "p"
    ensures Found(block, BoxedEntries(view, block))
  {
    FindIsValid(BoxedTables, view, block);
  }

  /** The text-box tables of a paragraph. */
  function BoxedContents(policy: Policy, block: Node, path: Path, parent: Option<Path>): seq<Content>
    requires block.name == "p"
    decreases block, 5, 0
  {
    BoxedFound(policy.view, block);
    EntriesContents(policy, block, BoxedEntries(policy.view, block), path, parent)
  }

  /** What a block emits, in order; a paragraph's section separator comes after its text-box tables. */
  function BlockContents(policy: Policy, block: Node, path: Path, parent: Option<Path>): seq<Content>
    decreases block, 7, 0
  {
    if block.name == "p" then
      [ParagraphContent(policy, block)] + BoxedContents(policy, block, path, parent)
      + (if EndsSection(block) then [Separator] else [])
    else if block.name == "tbl" then TableContents(policy, block, path, parent)
    else if block.name == "sectPr" then [Separator]
    else if block.name == "altChunk" then [Content(AltChunk, None, None, None)]
    else if IsWrapper(block.name) then
      if Excluded(policy.view, block.name) then []
      else if block.name == "sdt" then
        var content := SdtContent(block);
        if content.None? then []
        else BlocksContents(policy, block.children[content.value], 0, true, path + [Wrapper(block.name)], parent)
      else BlocksContents(policy, block, 0, true, path + [Wrapper(block.name)], parent)
    else if IsMarker(block.name) then []
    else [OpaqueContent(policy, block, path)]
  }

  function OpaqueContent(policy: Policy, block: Node, path: Path): Content {
    Content(Opaque(block.name, path), OpaqueText(policy, block), None, None)
  }

  /** All non-blank paragraph texts below the node, else its own text, else none. */
  function OpaqueText(policy: Policy, block: Node): Option<string> {
    var chunks := AllParagraphs(policy, block, 0);
    if chunks != [] then Some(JoinLines(chunks))
    else
      var value := ParagraphText(policy.view, block);
      if policy.blank(value) then None else Some(value)
  }

  function AllParagraphs(policy: Policy, node: Node, k: nat): seq<string>
    requires k <= |node.children|
    decreases node, |node.children| - k
  {
    if k == |node.children| then []
    else
      var child := node.children[k];
      var value := ParagraphText(policy.view, child);
      (if child.inWord && child.name == "p" && !policy.blank(value) then [value] else [])
      + AllParagraphs(policy, child, 0) + AllParagraphs(policy, node, k + 1)
  }

  function BlocksContents(policy: Policy, parentNode: Node, k: nat, skipProperties: bool, base: Path, parent: Option<Path>): seq<Content>
    requires k <= |parentNode.children|
    decreases parentNode, 6, |parentNode.children| - k
  {
    if k == |parentNode.children| then []
    else
      var child := parentNode.children[k];
      (if skipProperties && IsProperties(child.name) then [] else BlockContents(policy, child, base + [Index(k)], parent))
      + BlocksContents(policy, parentNode, k + 1, skipProperties, base, parent)
  }

  // ----- appending -----

  predicate TextFits(policy: Policy, c: Content) {
    c.text.Some? ==> |c.text.value| <= policy.maxTextChars
  }

  /** Appending the contents one by one to `n` elements trips neither limit. */
  ghost predicate CanAppend(policy: Policy, n: nat, cs: seq<Content>) {
    (cs != [] ==> n + |cs| <= policy.maxElements) && forall c :: c in cs ==> TextFits(policy, c)
  }

  function Appended(elements: seq<Element>, cs: seq<Content>): (r: seq<Element>)
    ensures |r| == |elements| + |cs|
  {
    elements + seq(|cs|, i requires 0 <= i < |cs| => Element(|elements| + i, cs[i]))
  }

  predicate Ordered(elements: seq<Element>) {
    forall i :: 0 <= i < |elements| ==> elements[i].order == i
  }

  lemma AppendedConcat(elements: seq<Element>, a: seq<Content>, b: seq<Content>)
    ensures Appended(elements, a + b) == Appended(Appended(elements, a), b)
    ensures Appended(elements, []) == elements
  {}

  lemma CanAppendConcat(policy: Policy, n: nat, a: seq<Content>, b: seq<Content>)
    ensures CanAppend(policy, n, a + b) <==> CanAppend(policy, n, a) && CanAppend(policy, n + |a|, b)
  {
    assert forall c :: c in a + b <==> c in a || c in b;
  }

  class Emitter {
    const policy: Policy
    var elements: seq<Element>

    constructor (policy: Policy)
      ensures this.policy == policy && elements == []
    {
      this.policy := policy;
      elements := [];
    }

    /** Appends one element with the next order, or refuses it. */
    method Emit(content: Content) returns (ok: bool)
      modifies this
      ensures ok <==> CanAppend(policy, |old(elements)|, [content])
      ensures elements == if ok then Appended(old(elements), [content]) else old(elements)
    {
      assert content in [content];
      if |elements| >= policy.maxElements {
        return false;
      }
      if content.text.Some? && |content.text.value| > policy.maxTextChars {
        return false;
      }
      elements := elements + [Element(|elements|, content)];
      return true;
    }
  }

  /** Progress of one emitting call: `done` is appended to `start`, or the call failed on the way. */
  ghost predicate Emitted(policy: Policy, start: seq<Element>, now: seq<Element>, ok: bool, contents: seq<Content>) {
    (ok <==> CanAppend(policy, |start|, contents)) && (ok ==> now == Appended(start, contents))
    && start <= now && (Ordered(start) ==> Ordered(now))
  }

  /** One more call after what was done: it extends what was done, or ends the whole unsuccessfully. */
  lemma EmittedThen(policy: Policy, start: seq<Element>, middle: seq<Element>, now: seq<Element>, ok: bool,
                    done: seq<Content>, step: seq<Content>, rest: seq<Content>)
    requires Emitted(policy, start, middle, true, done) && Emitted(policy, middle, now, ok, step)
    ensures Emitted(policy, start, now, ok, done + step)
    ensures !ok ==> Emitted(policy, start, now, false, done + (step + rest))
  {
    CanAppendConcat(policy, |start|, done, step);
    AppendedConcat(start, done, step);
    CanAppendConcat(policy, |start|, done + step, rest);
    assert done + step + rest == done + (step + rest);
  }

  lemma EmittedOne(policy: Policy, start: seq<Element>, now: seq<Element>, ok: bool, content: Content)
    requires ok <==> CanAppend(policy, |start|, [content])
    requires now == if ok then Appended(start, [content]) else start
    ensures Emitted(policy, start, now, ok, [content])
  {}

  lemma EmittedNothing(policy: Policy, start: seq<Element>)
    ensures Emitted(policy, start, start, true, [])
  {
    AppendedConcat(start, [], []);
  }

  lemma {:induction false} EntriesConcat(policy: Policy, root: Node, a: seq<Entry>, b: seq<Entry>, path: Path, parent: Option<Path>)
    requires Found(root, a) && Found(root, b) && Found(root, a + b)
    ensures EntriesContents(policy, root, a + b, path, parent)
         == EntriesContents(policy, root, a, path, parent) + EntriesContents(policy, root, b, path, parent)
    decreases |a|
  {
    hide TableContents;
    if a == [] {
      assert a + b == b;
    } else {
      assert (a + b)[1..] == a[1..] + b;
      EntriesConcat(policy, root, a[1..], b, path, parent);
    }
  }

  lemma {:induction false} OverConcat(finder: Finder, view: RevisionView, root: Node, a: seq<Entry>, b: seq<Entry>)
    requires Found(root, a) && Found(root, b) && Found(root, a + b)
    ensures Over(finder, view, root, a + b) == Over(finder, view, root, a) + Over(finder, view, root, b)
    decreases |a|
  {
    if a == [] {
      assert a + b == b;
    } else {
      assert (a + b)[1..] == a[1..] + b;
      OverConcat(finder, view, root, a[1..], b);
    }
  }

  /** The cells of a row, as seen from the table. */
  function RowCells(policy: Policy, table: Node, row: Entry): (r: seq<Entry>)
    requires row.pos != [] && ValidAt(table, row.pos)
    ensures Found(table, r)
  {
    GraftIsFound(table, row, CellsOf(policy, table, row));
    Graft(row, CellsOf(policy, table, row))
  }

  /** What one layer still has to emit from row `r` and, in that row, from cell `c` on. */
  function LayerFrom(policy: Policy, finder: Finder, table: Node, r: nat, c: nat): (es: seq<Entry>)
    requires r <= |RowsOf(policy, table)|
    requires if r < |RowsOf(policy, table)| then c <= |CellsOf(policy, table, RowsOf(policy, table)[r])| else c == 0
    ensures Found(table, es)
  {
    var rows := RowsOf(policy, table);
    if r == |rows| then []
    else
      Over(finder, policy.view, table, RowCells(policy, table, rows[r])[c..])
      + Over(finder, policy.view, table, Over(CellFinder, policy.view, table, rows[r + 1..]))
  }

  lemma LayerFromStart(policy: Policy, finder: Finder, table: Node)
    ensures LayerFrom(policy, finder, table, 0, 0) == Layer(finder, policy.view, table)
  {
    var rows := RowsOf(policy, table);
    if rows != [] {
      var first := RowCells(policy, table, rows[0]);
      var others := Over(CellFinder, policy.view, table, rows[1..]);
      assert CellEntries(policy.view, table) == first + others;
      OverConcat(finder, policy.view, table, first, others);
      assert first[0..] == first;
    }
  }

  lemma LayerFromCell(policy: Policy, finder: Finder, table: Node, r: nat, c: nat)
    requires r < |RowsOf(policy, table)| && c < |CellsOf(policy, table, RowsOf(policy, table)[r])|
    ensures LayerFrom(policy, finder, table, r, c)
         == InCell(policy, finder, table, RowsOf(policy, table)[r], CellsOf(policy, table, RowsOf(policy, table)[r])[c])
            + LayerFrom(policy, finder, table, r, c + 1)
  {
    var row := RowsOf(policy, table)[r];
    var cells := RowCells(policy, table, row);
    assert cells[c..][1..] == cells[c + 1..];
    AtConcat(table, row.pos, CellsOf(policy, table, row)[c].pos);
    assert cells[c..][0] == Join(row, CellsOf(policy, table, row)[c]);
  }

  lemma LayerFromRow(policy: Policy, finder: Finder, table: Node, r: nat)
    requires r < |RowsOf(policy, table)|
    ensures LayerFrom(policy, finder, table, r, |CellsOf(policy, table, RowsOf(policy, table)[r])|)
         == LayerFrom(policy, finder, table, r + 1, 0)
  {
    var rows := RowsOf(policy, table);
    var cells := RowCells(policy, table, rows[r]);
    assert cells[|cells|..] == [];
    if r + 1 < |rows| {
      var next := RowCells(policy, table, rows[r + 1]);
      var others := Over(CellFinder, policy.view, table, rows[r + 2..]);
      assert rows[r + 1..][1..] == rows[r + 2..];
      assert Over(CellFinder, policy.view, table, rows[r + 1..]) == next + others;
      OverConcat(finder, policy.view, table, next, others);
      assert next[0..] == next;
    }
  }

  lemma LayerEnds(policy: Policy, finder: Finder, table: Node, path: Path)
    ensures EntriesContents(policy, table, LayerFrom(policy, finder, table, |RowsOf(policy, table)|, 0), path, Some(path)) == []
  {}

  /** The adapter: its text-box, fix-up and extraction layers share one emitter. */
  class DocxAdapter {
    const policy: Policy
    const emitter: Emitter

    constructor (policy: Policy)
      ensures this.policy == policy && emitter.policy == policy && fresh(emitter) && emitter.elements == []
    {
      this.policy := policy;
      this.emitter := new Emitter(policy);
    }

    ghost predicate Valid() {
      emitter.policy == policy
    }

    /** The tables found by one walk, in order. */
    method EmitEntries(root: Node, es: seq<Entry>, path: Path, parent: Option<Path>) returns (ok: bool)
      requires Valid() && Found(root, es)
      modifies emitter
      ensures Emitted(policy, old(emitter.elements), emitter.elements, ok, EntriesContents(policy, root, es, path, parent))
      decreases root, 0
    {
      hide TableContents, Emitted;
      ghost var start, done, whole := emitter.elements, [], EntriesContents(policy, root, es, path, parent);
      EmittedNothing(policy, start);
      assert es[0..] == es;
      for i := 0 to |es|
        invariant Emitted(policy, start, emitter.elements, true, done)
        invariant whole == done + EntriesContents(policy, root, es[i..], path, parent)
      {
        ghost var middle := emitter.elements;
        ok := EmitTable(At(root, es[i].pos), path + es[i].path, parent);
        ghost var step := TableContents(policy, At(root, es[i].pos), path + es[i].path, parent);
        ghost var rest := EntriesContents(policy, root, es[i + 1..], path, parent);
        assert es[i..][1..] == es[i + 1..];
        EmittedThen(policy, start, middle, emitter.elements, ok, done, step, rest);
        if !ok {
          return;
        }
        done := done + step;
      }
      assert whole == done;
      ok := true;
    }

    /** Text-box layer: everything below, then the tables under text boxes in the cells. */
    method EmitTable(table: Node, path: Path, parent: Option<Path>) returns (ok: bool)
      requires Valid()
      modifies emitter
      ensures Emitted(policy, old(emitter.elements), emitter.elements, ok, TableContents(policy, table, path, parent))
      decreases table, 6
    {
      hide Emitted, ExtractContents, EntriesContents;
      ghost var start := emitter.elements;
      ghost var inner := ExtractContents(policy, table, path, parent)
                         + EntriesContents(policy, table, Layer(WrappedTables, policy.view, table), path, Some(path));
      ghost var boxed := EntriesContents(policy, table, Layer(BoxedTables, policy.view, table), path, Some(path));
      ok := EmitTableFixup(table, path, parent);
      if !ok {
        EmittedNothing(policy, start);
        EmittedThen(policy, start, start, emitter.elements, false, [], inner, boxed);
        assert [] + (inner + boxed) == TableContents(policy, table, path, parent);
        return;
      }
      ghost var middle := emitter.elements;
      ok := EmitLayer(BoxedTables, table, path);
      EmittedThen(policy, start, middle, emitter.elements, ok, inner, boxed, []);
      assert inner + boxed == TableContents(policy, table, path, parent);
    }

    /** Fix-up layer: the extractor's tables, then the ones hidden behind wrappers. */
    method EmitTableFixup(table: Node, path: Path, parent: Option<Path>) returns (ok: bool)
      requires Valid()
      modifies emitter
      ensures Emitted(policy, old(emitter.elements), emitter.elements, ok,
                      ExtractContents(policy, table, path, parent)
                      + EntriesContents(policy, table, Layer(WrappedTables, policy.view, table), path, Some(path)))
      decreases table, 5
    {
      hide Emitted, ExtractContents, EntriesContents;
      ghost var start := emitter.elements;
      ghost var inner := ExtractContents(policy, table, path, parent);
      ghost var wrapped := EntriesContents(policy, table, Layer(WrappedTables, policy.view, table), path, Some(path));
      ok := EmitTableExtract(table, path, parent);
      if !ok {
        EmittedNothing(policy, start);
        EmittedThen(policy, start, start, emitter.elements, false, [], inner, wrapped);
        assert [] + (inner + wrapped) == inner + wrapped;
        return;
      }
      ghost var middle := emitter.elements;
      ok := EmitLayer(WrappedTables, table, path);
      EmittedThen(policy, start, middle, emitter.elements, ok, inner, wrapped, []);
    }

    /** The row and cell loops of the fix-up and text-box layers. */
    method EmitLayer(finder: Finder, table: Node, path: Path) returns (ok: bool)
      requires Valid()
      modifies emitter
      ensures Emitted(policy, old(emitter.elements), emitter.elements, ok,
                      EntriesContents(policy, table, Layer(finder, policy.view, table), path, Some(path)))
      decreases table, 3
    {
      hide Emitted, EntriesContents, LayerFrom, Layer, InCell;
      var rows := RowsOf(policy, table);
      ghost var start, done := emitter.elements, [];
      ghost var whole := EntriesContents(policy, table, Layer(finder, policy.view, table), path, Some(path));
      EmittedNothing(policy, start);
      LayerFromStart(policy, finder, table);
      for r := 0 to |rows|
        invariant Emitted(policy, start, emitter.elements, true, done)
        invariant whole == done + EntriesContents(policy, table, LayerFrom(policy, finder, table, r, 0), path, Some(path))
      {
        var cells := CellsOf(policy, table, rows[r]);
        for c := 0 to |cells|
          invariant Emitted(policy, start, emitter.elements, true, done)
          invariant whole == done + EntriesContents(policy, table, LayerFrom(policy, finder, table, r, c), path, Some(path))
        {
          ghost var middle := emitter.elements;
          var found := InCell(policy, finder, table, rows[r], cells[c]);
          ok := EmitEntries(table, found, path, Some(path));
          ghost var step := EntriesContents(policy, table, found, path, Some(path));
          ghost var rest := EntriesContents(policy, table, LayerFrom(policy, finder, table, r, c + 1), path, Some(path));
          LayerFromCell(policy, finder, table, r, c);
          EntriesConcat(policy, table, found, LayerFrom(policy, finder, table, r, c + 1), path, Some(path));
          EmittedThen(policy, start, middle, emitter.elements, ok, done, step, rest);
          if !ok {
            return;
          }
          done := done + step;
        }
        LayerFromRow(policy, finder, table, r);
      }
      LayerEnds(policy, finder, table, path);
      assert whole == done;
      ok := true;
    }

    /** Extraction layer: the table, its rows and cells, and the direct child tables of the cells. */
    method EmitTableExtract(table: Node, path: Path, parent: Option<Path>) returns (ok: bool)
      requires Valid()
      modifies emitter
      ensures Emitted(policy, old(emitter.elements), emitter.elements, ok, ExtractContents(policy, table, path, parent))
      decreases table, 4
    {
      hide Emitted, OneRowContents, ExtractContents, RowsContents, RowsOf, TableContent;
      ghost var start := emitter.elements;
      var first := TableContent(path, parent);
      ghost var whole := ExtractContents(policy, table, path, parent);
      ExtractUnfold(policy, table, path, parent);
      EmittedNothing(policy, start);
      ok := emitter.Emit(first);
      EmittedOne(policy, start, emitter.elements, ok, first);
      EmittedThen(policy, start, start, emitter.elements, ok, [], [first], RowsContents(policy, table, path, parent, 0));
      if !ok {
        return;
      }
      ghost var done := [] + [first];
      var rows := RowsOf(policy, table);
      for r := 0 to |rows|
        invariant Emitted(policy, start, emitter.elements, true, done)
        invariant whole == done + RowsContents(policy, table, path, parent, r)
      {
        ghost var middle := emitter.elements;
        RowsUnfold(policy, table, path, parent, r);
        ok := EmitRow(table, path, parent, r);
        ghost var step := OneRowContents(policy, table, path, parent, r);
        EmittedThen(policy, start, middle, emitter.elements, ok, done, step, RowsContents(policy, table, path, parent, r + 1));
        if !ok {
          return;
        }
        done := done + step;
      }
      RowsUnfold(policy, table, path, parent, |rows|);
      assert whole == done;
      ok := true;
    }

    method EmitRow(table: Node, path: Path, parent: Option<Path>, r: nat) returns (ok: bool)
      requires Valid() && r < |RowsOf(policy, table)|
      modifies emitter
      ensures Emitted(policy, old(emitter.elements), emitter.elements, ok, OneRowContents(policy, table, path, parent, r))
      decreases table, 2
    {
      hide Emitted, EntriesContents, RowContent, CellContent, InCell, CellsContents, RowsOf, CellsOf, OneCellContents, OneRowContents;
      ghost var start := emitter.elements;
      var row := RowsOf(policy, table)[r];
      var first := RowContent(policy, At(table, row.pos), r, path, parent);
      ghost var whole := OneRowContents(policy, table, path, parent, r);
      RowUnfold(policy, table, path, parent, r);
      EmittedNothing(policy, start);
      ok := emitter.Emit(first);
      EmittedOne(policy, start, emitter.elements, ok, first);
      EmittedThen(policy, start, start, emitter.elements, ok, [], [first], CellsContents(policy, table, path, parent, r, 0));
      if !ok {
        return;
      }
      ghost var done := [] + [first];
      var cells := CellsOf(policy, table, row);
      for c := 0 to |cells|
        invariant Emitted(policy, start, emitter.elements, true, done)
        invariant whole == done + CellsContents(policy, table, path, parent, r, c)
      {
        ghost var middle := emitter.elements;
        ok := EmitCell(table, path, parent, r, c);
        ghost var step := OneCellContents(policy, table, path, parent, r, c);
        CellsUnfold(policy, table, path, parent, r, c);
        EmittedThen(policy, start, middle, emitter.elements, ok, done, step, CellsContents(policy, table, path, parent, r, c + 1));
        if !ok {
          return;
        }
        done := done + step;
      }
      CellsEnd(policy, table, path, parent, r);
      assert whole == done;
      ok := true;
    }

    method EmitCell(table: Node, path: Path, parent: Option<Path>, r: nat, c: nat) returns (ok: bool)
      requires Valid() && r < |RowsOf(policy, table)| && c < |CellsOf(policy, table, RowsOf(policy, table)[r])|
      modifies emitter
      ensures Emitted(policy, old(emitter.elements), emitter.elements, ok, OneCellContents(policy, table, path, parent, r, c))
      decreases table, 1
    {
      hide Emitted, EntriesContents;
      ghost var start := emitter.elements;
      var row := RowsOf(policy, table)[r];
      var cell := CellsOf(policy, table, row)[c];
      var first := CellContent(policy, At(At(table, row.pos), cell.pos), r, c, path, parent);
      var direct := InCell(policy, DirectTables, table, row, cell);
      ghost var nested := EntriesContents(policy, table, direct, path, Some(path));
      EmittedNothing(policy, start);
      ok := emitter.Emit(first);
      EmittedOne(policy, start, emitter.elements, ok, first);
      EmittedThen(policy, start, start, emitter.elements, ok, [], [first], nested);
      assert [] + ([first] + nested) == OneCellContents(policy, table, path, parent, r, c);
      if !ok {
        return;
      }
      assert [] + [first] == [first];
      ghost var middle := emitter.elements;
      ok := EmitEntries(table, direct, path, Some(path));
      EmittedThen(policy, start, middle, emitter.elements, ok, [first], nested, []);
    }
  }

  function OneCellContents(policy: Policy, table: Node, path: Path, parent: Option<Path>, r: nat, c: nat): seq<Content>
    requires r < |RowsOf(policy, table)| && c < |CellsOf(policy, table, RowsOf(policy, table)[r])|
  {
    var row := RowsOf(policy, table)[r];
    var cell := CellsOf(policy, table, row)[c];
    [CellContent(policy, At(At(table, row.pos), cell.pos), r, c, path, parent)]
    + EntriesContents(policy, table, InCell(policy, DirectTables, table, row, cell), path, Some(path))
  }

  lemma CellsEnd(policy: Policy, table: Node, path: Path, parent: Option<Path>, r: nat)
    requires r < |RowsOf(policy, table)|
    ensures CellsContents(policy, table, path, parent, r, |CellsOf(policy, table, RowsOf(policy, table)[r])|) == []
  {}

  lemma CellsUnfold(policy: Policy, table: Node, path: Path, parent: Option<Path>, r: nat, c: nat)
    requires r < |RowsOf(policy, table)| && c < |CellsOf(policy, table, RowsOf(policy, table)[r])|
    ensures CellsContents(policy, table, path, parent, r, c)
         == OneCellContents(policy, table, path, parent, r, c) + CellsContents(policy, table, path, parent, r, c + 1)
  {}

  lemma RowsUnfold(policy: Policy, table: Node, path: Path, parent: Option<Path>, r: nat)
    requires r <= |RowsOf(policy, table)|
    ensures RowsContents(policy, table, path, parent, r)
         == if r == |RowsOf(policy, table)| then []
            else OneRowContents(policy, table, path, parent, r) + RowsContents(policy, table, path, parent, r + 1)
  {}

  lemma ExtractUnfold(policy: Policy, table: Node, path: Path, parent: Option<Path>)
    ensures ExtractContents(policy, table, path, parent)
         == [] + ([TableContent(path, parent)] + RowsContents(policy, table, path, parent, 0))
         == ([] + [TableContent(path, parent)]) + RowsContents(policy, table, path, parent, 0)
  {}

  lemma RowUnfold(policy: Policy, table: Node, path: Path, parent: Option<Path>, r: nat)
    requires r < |RowsOf(policy, table)|
    ensures var first := RowContent(policy, At(table, RowsOf(policy, table)[r].pos), r, path, parent);
            OneRowContents(policy, table, path, parent, r)
              == [] + ([first] + CellsContents(policy, table, path, parent, r, 0))
              == ([] + [first]) + CellsContents(policy, table, path, parent, r, 0)
  {}
}
