/** What the emitted list of a whole body contains, and how far it can pass the element limit. */
module DocxResults {
  import opened Basics
  import opened DocxTree
  import opened DocxView
  import opened DocxEmissions
  import opened DocxBlocks
  import opened DocxTables
  import opened DocxDocument

  // ----- the element limit -----

  /** At most one element above the limit, and then the list ends with a section separator. */
  ghost predicate NearLimit(policy: Policy, n: nat, cs: seq<Content>) {
    n + |cs| <= policy.maxElements + 1
    && (n + |cs| == policy.maxElements + 1 && cs != [] ==> cs[|cs| - 1] == Separator)
  }

  lemma {:induction false} BlockNearLimit(policy: Policy, n: nat, block: Node, path: Path, parent: Option<Path>)
    requires n <= policy.maxElements + 1 && BlockFits(policy, n, block, path, parent)
    ensures NearLimit(policy, n, BlockContents(policy, block, path, parent))
    decreases block, 7, 0
  {
    if block.name == "p" {
      var boxed := BoxedContents(policy, block, path, parent);
      assert BlockContents(policy, block, path, parent)
          == [ParagraphContent(policy, block)] + boxed + (if EndsSection(block) then [Separator] else []);
    } else if block.name != "tbl" && block.name != "sectPr" && block.name != "altChunk" && IsWrapper(block.name) {
      if !Excluded(policy.view, block.name) {
        if block.name == "sdt" {
          if SdtContent(block).Some? {
            BlocksNearLimit(policy, n, block.children[SdtContent(block).value], 0, true, path + [Wrapper(block.name)], parent);
          }
        } else {
          BlocksNearLimit(policy, n, block, 0, true, path + [Wrapper(block.name)], parent);
        }
      }
    }
  }

  lemma {:induction false} BlocksNearLimit(policy: Policy, n: nat, parentNode: Node, k: nat, skip: bool, base: Path, parent: Option<Path>)
    requires k <= |parentNode.children| && n <= policy.maxElements + 1
    requires BlocksFit(policy, n, parentNode, k, skip, base, parent)
    ensures NearLimit(policy, n, BlocksContents(policy, parentNode, k, skip, base, parent))
    decreases parentNode, 6, |parentNode.children| - k
  {
    hide BlockContents, BlocksContents, BlockFits, BlocksFit, IsProperties;
    ContentsUnfold(policy, parentNode, k, skip, base, parent);
    FitUnfold(policy, n, parentNode, k, skip, base, parent);
    if k < |parentNode.children| {
      var child := parentNode.children[k];
      if skip && IsProperties(child.name) {
        BlocksNearLimit(policy, n, parentNode, k + 1, skip, base, parent);
      } else {
        var here := BlockContents(policy, child, base + [Index(k)], parent);
        BlockNearLimit(policy, n, child, base + [Index(k)], parent);
        BlocksNearLimit(policy, n + |here|, parentNode, k + 1, skip, base, parent);
      }
    }
  }

  /** A body that is read successfully exceeds the element limit by at most one, and only by a separator
      that was put back at the end. */
  lemma BodyNearLimit(policy: Policy, body: Node)
    requires BlocksFit(policy, 0, body, 0, false, [Body], None)
    ensures NearLimit(policy, 0, BlocksContents(policy, body, 0, false, [Body], None))
  {
    BlocksNearLimit(policy, 0, body, 0, false, [Body], None);
  }

  // ----- exactly when the limit is passed -----

  /**
   One paragraph that passes its checks takes the list above the limit exactly when it ends a section,
   holds text-box tables, and its text and these tables fill the list to the limit.
   */
  lemma ParagraphPassesLimit(policy: Policy, n: nat, p: Node, path: Path, parent: Option<Path>)
    requires p.name == "p" && BlockFits(policy, n, p, path, parent)
    ensures n + |BlockContents(policy, p, path, parent)| > policy.maxElements
       <==> EndsSection(p) && BoxedContents(policy, p, path, parent) != []
            && n + 1 + |BoxedContents(policy, p, path, parent)| == policy.maxElements
  {
  }

  /** Some paragraph in the block, met after `n` elements and those before it, does so. */
  ghost predicate PassesLimit(policy: Policy, n: nat, block: Node, path: Path, parent: Option<Path>)
    decreases block, 7, 0
  {
    if block.name == "p" then
      EndsSection(block) && BoxedContents(policy, block, path, parent) != []
      && n + 1 + |BoxedContents(policy, block, path, parent)| == policy.maxElements
    else
      block.name != "tbl" && block.name != "sectPr" && block.name != "altChunk" && IsWrapper(block.name)
      && !Excluded(policy.view, block.name)
      && if block.name == "sdt" then
           SdtContent(block).Some?
           && PassesLimitIn(policy, n, block.children[SdtContent(block).value], 0, true, path + [Wrapper(block.name)], parent)
         else PassesLimitIn(policy, n, block, 0, true, path + [Wrapper(block.name)], parent)
  }

  ghost predicate PassesLimitIn(policy: Policy, n: nat, parentNode: Node, k: nat, skip: bool, base: Path, parent: Option<Path>)
    requires k <= |parentNode.children|
    decreases parentNode, 6, |parentNode.children| - k
  {
    k < |parentNode.children|
    && var child := parentNode.children[k];
       if skip && IsProperties(child.name) then PassesLimitIn(policy, n, parentNode, k + 1, skip, base, parent)
       else
         PassesLimit(policy, n, child, base + [Index(k)], parent)
         || PassesLimitIn(policy, n + |BlockContents(policy, child, base + [Index(k)], parent)|, parentNode, k + 1, skip, base, parent)
  }

  lemma PassesUnfold(policy: Policy, n: nat, parentNode: Node, k: nat, skip: bool, base: Path, parent: Option<Path>)
    requires k < |parentNode.children|
    ensures var child := parentNode.children[k];
            PassesLimitIn(policy, n, parentNode, k, skip, base, parent)
              == if skip && IsProperties(child.name) then PassesLimitIn(policy, n, parentNode, k + 1, skip, base, parent)
                 else PassesLimit(policy, n, child, base + [Index(k)], parent)
                      || PassesLimitIn(policy, n + |BlockContents(policy, child, base + [Index(k)], parent)|,
                                       parentNode, k + 1, skip, base, parent)
  {
    hide PassesLimit, BlockContents, IsProperties;
  }

  lemma {:induction false} BlockPassesExactly(policy: Policy, n: nat, block: Node, path: Path, parent: Option<Path>)
    requires n <= policy.maxElements + 1 && BlockFits(policy, n, block, path, parent)
    ensures n + |BlockContents(policy, block, path, parent)| > policy.maxElements
       <==> n > policy.maxElements || PassesLimit(policy, n, block, path, parent)
    decreases block, 7, 0
  {
    if block.name == "p" {
      ParagraphPassesLimit(policy, n, block, path, parent);
    } else if block.name != "tbl" && block.name != "sectPr" && block.name != "altChunk" && IsWrapper(block.name)
              && !Excluded(policy.view, block.name) {
      if block.name == "sdt" {
        if SdtContent(block).Some? {
          BlocksPassExactly(policy, n, block.children[SdtContent(block).value], 0, true, path + [Wrapper(block.name)], parent);
        }
      } else {
        BlocksPassExactly(policy, n, block, 0, true, path + [Wrapper(block.name)], parent);
      }
    }
  }

  lemma {:induction false} BlocksPassExactly(policy: Policy, n: nat, parentNode: Node, k: nat, skip: bool, base: Path, parent: Option<Path>)
    requires k <= |parentNode.children| && n <= policy.maxElements + 1
    requires BlocksFit(policy, n, parentNode, k, skip, base, parent)
    ensures n + |BlocksContents(policy, parentNode, k, skip, base, parent)| > policy.maxElements
       <==> n > policy.maxElements || PassesLimitIn(policy, n, parentNode, k, skip, base, parent)
    decreases parentNode, 6, |parentNode.children| - k
  {
    hide BlockContents, BlocksContents, BlockFits, BlocksFit, PassesLimit, IsProperties;
    ContentsUnfold(policy, parentNode, k, skip, base, parent);
    FitUnfold(policy, n, parentNode, k, skip, base, parent);
    if k < |parentNode.children| {
      var child := parentNode.children[k];
      PassesUnfold(policy, n, parentNode, k, skip, base, parent);
      hide *;
      if skip && IsProperties(child.name) {
        BlocksPassExactly(policy, n, parentNode, k + 1, skip, base, parent);
      } else {
        var here := BlockContents(policy, child, base + [Index(k)], parent);
        BlockPassesExactly(policy, n, child, base + [Index(k)], parent);
        BlockOneAbove(policy, n, child, base + [Index(k)], parent);
        BlocksPassExactly(policy, n + |here|, parentNode, k + 1, skip, base, parent);
      }
    }
  }

  lemma BlockOneAbove(policy: Policy, n: nat, block: Node, path: Path, parent: Option<Path>)
    requires n <= policy.maxElements + 1 && BlockFits(policy, n, block, path, parent)
    ensures n + |BlockContents(policy, block, path, parent)| <= policy.maxElements + 1
  {
    BlockNearLimit(policy, n, block, path, parent);
    hide BlockFits, BlockContents;
  }

  /**
   A body that is read successfully has more elements than allowed exactly when some paragraph of it
   ends a section, holds text-box tables, and fills the list to the limit before its separator is put back.
   */
  lemma BodyPassesLimitExactly(policy: Policy, body: Node)
    requires BlocksFit(policy, 0, body, 0, false, [Body], None)
    ensures |BlocksContents(policy, body, 0, false, [Body], None)| > policy.maxElements
       <==> PassesLimitIn(policy, 0, body, 0, false, [Body], None)
  {
    BlocksPassExactly(policy, 0, body, 0, false, [Body], None);
  }

  /** Nothing is emitted after such a paragraph: it is the last emitting block. */
  lemma {:induction false} NothingAboveTheLimit(policy: Policy, n: nat, parentNode: Node, k: nat, skip: bool, base: Path, parent: Option<Path>)
    requires k < |parentNode.children| && n <= policy.maxElements + 1
    requires BlocksFit(policy, n, parentNode, k, skip, base, parent)
    requires !(skip && IsProperties(parentNode.children[k].name))
    requires PassesLimit(policy, n, parentNode.children[k], base + [Index(k)], parent)
    ensures BlocksContents(policy, parentNode, k + 1, skip, base, parent) == []
  {
    var child := parentNode.children[k];
    var here := BlockContents(policy, child, base + [Index(k)], parent);
    FitUnfold(policy, n, parentNode, k, skip, base, parent);
    hide BlockContents, BlocksContents, BlockFits, BlocksFit, PassesLimit;
    BlockPassesExactly(policy, n, child, base + [Index(k)], parent);
    BlockNearLimit(policy, n, child, base + [Index(k)], parent);
    BlocksNearLimit(policy, n + |here|, parentNode, k + 1, skip, base, parent);
  }

  // ----- bodies that never pass it -----

  /** Some paragraph of the block, below wrappers included, ends a section and holds text-box tables. */
  ghost predicate PutsBack(view: RevisionView, block: Node)
    decreases block, 7, 0
  {
    if block.name == "p" then EndsSection(block) && BoxedEntries(view, block) != []
    else
      block.name != "tbl" && block.name != "sectPr" && block.name != "altChunk" && IsWrapper(block.name)
      && !Excluded(view, block.name)
      && if block.name == "sdt" then
           SdtContent(block).Some? && PutsBackIn(view, block.children[SdtContent(block).value], 0, true)
         else PutsBackIn(view, block, 0, true)
  }

  ghost predicate PutsBackIn(view: RevisionView, parentNode: Node, k: nat, skip: bool)
    requires k <= |parentNode.children|
    decreases parentNode, 6, |parentNode.children| - k
  {
    k < |parentNode.children|
    && ((!(skip && IsProperties(parentNode.children[k].name)) && PutsBack(view, parentNode.children[k]))
        || PutsBackIn(view, parentNode, k + 1, skip))
  }

  lemma {:induction false} PassingPutsBack(policy: Policy, n: nat, block: Node, path: Path, parent: Option<Path>)
    requires PassesLimit(policy, n, block, path, parent)
    ensures PutsBack(policy.view, block)
    decreases block, 7, 0
  {
    if block.name != "p" {
      if block.name == "sdt" {
        PassingPutsBackIn(policy, n, block.children[SdtContent(block).value], 0, true, path + [Wrapper(block.name)], parent);
      } else {
        PassingPutsBackIn(policy, n, block, 0, true, path + [Wrapper(block.name)], parent);
      }
    }
  }

  lemma {:induction false} PassingPutsBackIn(policy: Policy, n: nat, parentNode: Node, k: nat, skip: bool, base: Path, parent: Option<Path>)
    requires k <= |parentNode.children| && PassesLimitIn(policy, n, parentNode, k, skip, base, parent)
    ensures PutsBackIn(policy.view, parentNode, k, skip)
    decreases parentNode, 6, |parentNode.children| - k
  {
    var child := parentNode.children[k];
    if skip && IsProperties(child.name) {
      PassingPutsBackIn(policy, n, parentNode, k + 1, skip, base, parent);
    } else if PassesLimit(policy, n, child, base + [Index(k)], parent) {
      PassingPutsBack(policy, n, child, base + [Index(k)], parent);
    } else {
      var here := |BlockContents(policy, child, base + [Index(k)], parent)|;
      PassingPutsBackIn(policy, n + here, parentNode, k + 1, skip, base, parent);
    }
  }

  /** Without a paragraph that both ends a section and holds text-box tables, the limit is kept. */
  lemma BodyKeepsLimit(policy: Policy, body: Node)
    requires BlocksFit(policy, 0, body, 0, false, [Body], None) && !PutsBackIn(policy.view, body, 0, false)
    ensures |BlocksContents(policy, body, 0, false, [Body], None)| <= policy.maxElements
  {
    BodyPassesLimitExactly(policy, body);
    if PassesLimitIn(policy, 0, body, 0, false, [Body], None) {
      PassingPutsBackIn(policy, 0, body, 0, false, [Body], None);
    }
  }

  function Leaf(name: string): Node { Node(name, true, "", []) }

  /** A paragraph that ends a section and holds a text box with an empty table. */
  function BoxAndBreak(): Node {
    Node("p", true, "", [Node("pPr", true, "", [Leaf("sectPr")]), Node("txbxContent", true, "", [Leaf("tbl")])])
  }

  lemma EmptyTable(policy: Policy, path: Path, parent: Option<Path>)
    ensures TableContents(policy, Leaf("tbl"), path, parent) == [TableContent(path, parent)]
  {
    var table := Leaf("tbl");
    assert Wrapped(policy.view, table, "tr") == [];
    assert Find(RowFinder, policy.view, table) == [];
    assert CellEntries(policy.view, table) == [];
    assert Layer(WrappedTables, policy.view, table) == [] && Layer(BoxedTables, policy.view, table) == [];
    assert RowsContents(policy, table, path, parent, 0) == [];
  }

  lemma BoxFound(view: RevisionView)
    ensures BoxedAt(view, BoxAndBreak(), false) == [[1, 0]]
  {
    var p := BoxAndBreak();
    var properties, box := p.children[0], p.children[1];
    assert BoxedAt(view, Leaf("sectPr"), false) == [];
    assert BoxedFrom(view, properties, false, 1) == [];
    assert BoxedFrom(view, properties, false, 0) == Under([0], BoxedAt(view, Leaf("sectPr"), false)) + [];
    assert BoxedAt(view, properties, false) == BoxedFrom(view, properties, false, 0) == [];
    assert BoxedAt(view, Leaf("tbl"), true) == [[]];
    assert BoxedFrom(view, box, true, 1) == [];
    assert [0] + [] == [0] && Under([0], [[]]) == [[0]];
    assert BoxedFrom(view, box, true, 0) == Under([0], [[]]) + [];
    assert BoxedAt(view, box, false) == BoxedFrom(view, box, true, 0) == [[0]];
    assert BoxedFrom(view, p, false, 2) == [];
    assert [1] + [0] == [1, 0] && Under([1], [[0]]) == [[1, 0]];
    assert BoxedFrom(view, p, false, 1) == Under([1], [[0]]) + [];
    assert BoxedFrom(view, p, false, 0) == Under([0], []) + BoxedFrom(view, p, false, 1);
    assert BoxedAt(view, p, false) == BoxedFrom(view, p, false, 0);
  }

  /** A paragraph whose separator is put back as a third element where two are allowed. */
  lemma ParagraphExceedsTwo(policy: Policy, path: Path, parent: Option<Path>)
    requires policy.maxElements == 2 && TextFits(policy, ParagraphContent(policy, BoxAndBreak()))
    ensures BlockFits(policy, 0, BoxAndBreak(), path, parent)
    ensures |BlockContents(policy, BoxAndBreak(), path, parent)| == 3
  {
    hide *;
    BoxedTable(policy, path, parent);
    BreakEndsSection();
    BreakAndBoxExceed(policy, BoxAndBreak(), path, parent);
  }

  lemma BreakAndBoxExceed(policy: Policy, p: Node, path: Path, parent: Option<Path>)
    requires p.name == "p" && EndsSection(p) && policy.maxElements == 2 && TextFits(policy, ParagraphContent(policy, p))
    requires var boxed := BoxedContents(policy, p, path, parent); |boxed| == 1 && boxed[0].text == None
    ensures BlockFits(policy, 0, p, path, parent) && |BlockContents(policy, p, path, parent)| == 3
  {
    hide BoxedContents, EndsSection, BlockFits, BlockContents, ParagraphContent;
    ParagraphUnfold(policy, 0, p, path, parent);
    var boxed, first := BoxedContents(policy, p, path, parent), [ParagraphContent(policy, p)] + [Separator];
    assert forall c :: c in first ==> c == ParagraphContent(policy, p) || c == Separator;
    assert forall c :: c in boxed ==> c == boxed[0];
  }

  lemma ParagraphUnfold(policy: Policy, n: nat, p: Node, path: Path, parent: Option<Path>)
    requires p.name == "p"
    ensures var separator, boxed := if EndsSection(p) then [Separator] else [], BoxedContents(policy, p, path, parent);
            && BlockContents(policy, p, path, parent) == [ParagraphContent(policy, p)] + boxed + separator
            && (BlockFits(policy, n, p, path, parent)
                <==> CanAppend(policy, n, [ParagraphContent(policy, p)] + separator) && CanAppend(policy, n + 1, boxed))
  {
    hide BoxedContents, EndsSection, ParagraphContent, CanAppend;
  }

  lemma BreakEndsSection()
    ensures EndsSection(BoxAndBreak()) && BoxAndBreak().name == "p"
  {
    var isProperties := (n: Node) => n.inWord && n.name == "pPr";
    var properties := BoxAndBreak().children[0];
    assert properties.children[0].name == "sectPr";
  }

  lemma TableInBox()
    ensures ValidAt(BoxAndBreak(), [1, 0]) && At(BoxAndBreak(), [1, 0]) == Leaf("tbl")
  {
    var box := BoxAndBreak().children[1];
    assert box == Node("txbxContent", true, "", [Leaf("tbl")]);
    assert [1, 0][1..] == [0] && [0][1..] == [];
    assert At(box, [0]) == At(Leaf("tbl"), []);
  }

  /** The text box contributes its one empty table. */
  lemma BoxedTable(policy: Policy, path: Path, parent: Option<Path>)
    ensures var boxed := BoxedContents(policy, BoxAndBreak(), path, parent); |boxed| == 1 && boxed[0].text == None
  {
    var p := BoxAndBreak();
    BoxFound(policy.view);
    BoxedFound(policy.view, p);
    TableInBox();
    hide BoxAndBreak, BoxedAt, At, TableContents;
    var es := BoxedEntries(policy.view, p);
    assert |es| == 1 && es[0].pos == [1, 0];
    EmptyTable(policy, path + es[0].path, parent);
    assert es[1..] == [] && EntriesContents(policy, p, es[1..], path, parent) == [];
    assert EntriesContents(policy, p, es, path, parent) == TableContents(policy, Leaf("tbl"), path + es[0].path, parent) + [];
  }

  /** The bound is attained by a body that is read successfully: two elements are allowed and three are emitted. */
  lemma LimitCanBeExceeded(policy: Policy)
    requires policy.maxElements == 2
    ensures var body := Node("body", true, "", [BoxAndBreak()]);
            && BlocksFit(policy, 0, body, 0, false, [Body], None)
            && |BlocksContents(policy, body, 0, false, [Body], None)| == 3
            && PassesLimitIn(policy, 0, body, 0, false, [Body], None)
  {
    var p := BoxAndBreak();
    var body := Node("body", true, "", [p]);
    NoTextInside(policy.view);
    ParagraphExceedsTwo(policy, [Body] + [Index(0)], None);
    hide BlockContents, BlockFits;
    ContentsUnfold(policy, body, 0, false, [Body], None);
    ContentsUnfold(policy, body, 1, false, [Body], None);
    FitUnfold(policy, 0, body, 0, false, [Body], None);
    FitUnfold(policy, |BlockContents(policy, p, [Body] + [Index(0)], None)|, body, 1, false, [Body], None);
    BodyPassesLimitExactly(policy, body);
  }

  lemma NoTextInside(view: RevisionView)
    ensures ParagraphText(view, BoxAndBreak()) == ""
  {
    var p := BoxAndBreak();
    ChildrenWithoutText(view, p.children[0]);
    ChildrenWithoutText(view, p.children[1]);
    assert ChildrenText(view, p, 2) == "" && ChildrenText(view, p, 1) == "" && ChildrenText(view, p, 0) == "";
  }

  lemma ChildrenWithoutText(view: RevisionView, node: Node)
    requires node == BoxAndBreak().children[0] || node == BoxAndBreak().children[1]
    ensures ParagraphText(view, node) == ""
  {
    var child := node.children[0];
    assert ChildrenText(view, child, 0) == "" && ParagraphText(view, child) == "";
    assert ChildrenText(view, node, 1) == "" && ChildrenText(view, node, 0) == "";
  }

  // ----- the tables in the list -----

  /** The group and parent group of every table in the list, in order. */
  function TablesOf(cs: seq<Content>): seq<(Path, Option<Path>)> {
    if cs == [] then []
    else (if cs[0].kind.TableStart? && cs[0].group.Some? then [(cs[0].group.value, cs[0].parent)] else []) + TablesOf(cs[1..])
  }

  lemma {:induction false} TablesConcat(a: seq<Content>, b: seq<Content>)
    ensures TablesOf(a + b) == TablesOf(a) + TablesOf(b)
  {
    if a == [] {
      assert a + b == b;
    } else {
      assert (a + b)[1..] == a[1..] + b;
      TablesConcat(a[1..], b);
    }
  }

  /** The paths of emissions below `path`; a root emission belongs to `outer`. */
  function Listed(path: Path, outer: Option<Path>, ms: seq<Emission>): (r: seq<(Path, Option<Path>)>)
    ensures |r| == |ms|
    ensures forall i :: 0 <= i < |ms| ==>
              r[i] == (path + ms[i].path, if ms[i].parent.None? then outer else Some(path + ms[i].parent.value))
  {
    seq(|ms|, i requires 0 <= i < |ms| =>
      (path + ms[i].path, if ms[i].parent.None? then outer else Some(path + ms[i].parent.value)))
  }

  lemma ListedConcat(path: Path, outer: Option<Path>, a: seq<Emission>, b: seq<Emission>)
    ensures Listed(path, outer, a + b) == Listed(path, outer, a) + Listed(path, outer, b)
  {}

  lemma ListedPlant(path: Path, outer: Option<Path>, e: Entry, top: Option<Path>, ms: seq<Emission>)
    ensures Listed(path, outer, Plant(e, top, ms))
         == Listed(path + e.path, if top.None? then outer else Some(path + top.value), ms)
  {
    var l, r := Listed(path, outer, Plant(e, top, ms)), Listed(path + e.path, if top.None? then outer else Some(path + top.value), ms);
    forall i | 0 <= i < |ms|
      ensures l[i] == r[i]
    {
      assert path + (e.path + ms[i].path) == (path + e.path) + ms[i].path;
      if ms[i].parent.Some? {
        assert path + (e.path + ms[i].parent.value) == (path + e.path) + ms[i].parent.value;
      }
    }
  }

  lemma NoTableInRowOrCell(policy: Policy, node: Node, r: nat, c: nat, path: Path, parent: Option<Path>)
    ensures TablesOf([RowContent(policy, node, r, path, parent)]) == []
    ensures TablesOf([CellContent(policy, node, r, c, path, parent)]) == []
    ensures TablesOf([TableContent(path, parent)]) == [(path, parent)]
  {}

  /** The layers of a table, in the order of its emissions. */
  lemma LayersInOrder(policy: Policy, table: Node, path: Path)
    ensures EntriesContents(policy, table, Owned(policy.view, table), path, Some(path))
         == EntriesContents(policy, table, Layer(DirectTables, policy.view, table), path, Some(path))
            + EntriesContents(policy, table, Layer(WrappedTables, policy.view, table), path, Some(path))
            + EntriesContents(policy, table, Layer(BoxedTables, policy.view, table), path, Some(path))
  {
    hide EntriesContents, Layer;
    var view := policy.view;
    var direct, wrapped, boxed := Layer(DirectTables, view, table), Layer(WrappedTables, view, table), Layer(BoxedTables, view, table);
    EntriesConcat(policy, table, direct, wrapped, path, Some(path));
    EntriesConcat(policy, table, direct + wrapped, boxed, path, Some(path));
  }

  lemma ExtractListsDirect(policy: Policy, table: Node, path: Path, parent: Option<Path>)
    requires TablesOf(RowsContents(policy, table, path, parent, 0))
          == TablesOf(EntriesContents(policy, table, LayerFrom(policy, DirectTables, table, 0, 0), path, Some(path)))
    ensures TablesOf(ExtractContents(policy, table, path, parent))
         == [(path, parent)] + TablesOf(EntriesContents(policy, table, Layer(DirectTables, policy.view, table), path, Some(path)))
  {
    hide EntriesContents, Layer, RowsContents, LayerFrom;
    LayerFromStart(policy, DirectTables, table);
    TablesConcat([TableContent(path, parent)], RowsContents(policy, table, path, parent, 0));
    NoTableInRowOrCell(policy, table, 0, 0, path, parent);
  }

  lemma TablesOfTable(policy: Policy, table: Node, path: Path, parent: Option<Path>)
    requires TablesOf(ExtractContents(policy, table, path, parent))
          == [(path, parent)] + TablesOf(EntriesContents(policy, table, Layer(DirectTables, policy.view, table), path, Some(path)))
    ensures TablesOf(TableContents(policy, table, path, parent))
         == [(path, parent)] + TablesOf(EntriesContents(policy, table, Owned(policy.view, table), path, Some(path)))
  {
    hide EntriesContents, Layer, ExtractContents, TablesOf;
    var view := policy.view;
    var extract := ExtractContents(policy, table, path, parent);
    var first := EntriesContents(policy, table, Layer(DirectTables, view, table), path, Some(path));
    var second := EntriesContents(policy, table, Layer(WrappedTables, view, table), path, Some(path));
    var third := EntriesContents(policy, table, Layer(BoxedTables, view, table), path, Some(path));
    TablesConcat(extract + second, third);
    TablesConcat(extract, second);
    LayersInOrder(policy, table, path);
    TablesConcat(first + second, third);
    TablesConcat(first, second);
  }

  lemma {:induction false} TableListsEmissions(policy: Policy, table: Node, path: Path, parent: Option<Path>)
    ensures TablesOf(TableContents(policy, table, path, parent)) == Listed(path, parent, Emissions(policy.view, table))
    decreases table, 2, 0
  {
    hide EntriesContents, Layer, ExtractContents, RowsContents, TableContents, LayerFrom, EmissionsOver;
    RowsListDirect(policy, table, path, parent, 0);
    ExtractListsDirect(policy, table, path, parent);
    TablesOfTable(policy, table, path, parent);
    EntriesListEmissions(policy, table, Owned(policy.view, table), path, parent, Some([]));
    assert path + [] == path;
    var root := [Emission([], [], None)];
    ListedConcat(path, parent, root, EmissionsOver(policy.view, table, Some([]), Owned(policy.view, table)));
    assert Listed(path, parent, root) == [(path, parent)];
  }

  lemma {:induction false} EntriesListEmissions(policy: Policy, root: Node, es: seq<Entry>, path: Path, outer: Option<Path>, top: Option<Path>)
    requires Found(root, es)
    ensures TablesOf(EntriesContents(policy, root, es, path, if top.None? then outer else Some(path + top.value)))
         == Listed(path, outer, EmissionsOver(policy.view, root, top, es))
    decreases root, 0, |es|
  {
    var parent := if top.None? then outer else Some(path + top.value);
    if es != [] {
      var below := At(root, es[0].pos);
      TableListsEmissions(policy, below, path + es[0].path, parent);
      EntriesListEmissions(policy, root, es[1..], path, outer, top);
      TablesConcat(TableContents(policy, below, path + es[0].path, parent), EntriesContents(policy, root, es[1..], path, parent));
      ListedPlant(path, outer, es[0], top, Emissions(policy.view, below));
      ListedConcat(path, outer, Plant(es[0], top, Emissions(policy.view, below)), EmissionsOver(policy.view, root, top, es[1..]));
    }
  }

  /** The extraction layer's tables, found between its rows and cells, are those of the direct layer. */
  lemma {:induction false} RowsListDirect(policy: Policy, table: Node, path: Path, parent: Option<Path>, r: nat)
    requires r <= |RowsOf(policy, table)|
    ensures TablesOf(RowsContents(policy, table, path, parent, r))
         == TablesOf(EntriesContents(policy, table, LayerFrom(policy, DirectTables, table, r, 0), path, Some(path)))
    decreases table, 1, |RowsOf(policy, table)| - r
  {
    hide Layer, EntriesContents, LayerFrom, CellsContents, RowContent, TablesOf, RowsOf, CellsOf;
    if r < |RowsOf(policy, table)| {
      RowsListDirect(policy, table, path, parent, r + 1);
      CellsListDirect(policy, table, path, parent, r, 0);
      var row := At(table, RowsOf(policy, table)[r].pos);
      var cells, rest := CellsContents(policy, table, path, parent, r, 0), RowsContents(policy, table, path, parent, r + 1);
      NoTableInRowOrCell(policy, row, r, 0, path, parent);
      TablesConcat([RowContent(policy, row, r, path, parent)] + cells, rest);
      TablesConcat([RowContent(policy, row, r, path, parent)], cells);
    } else {
      LayerEnds(policy, DirectTables, table, path);
    }
  }

  lemma {:induction false} CellsListDirect(policy: Policy, table: Node, path: Path, parent: Option<Path>, r: nat, c: nat)
    requires r < |RowsOf(policy, table)| && c <= |CellsOf(policy, table, RowsOf(policy, table)[r])|
    ensures TablesOf(CellsContents(policy, table, path, parent, r, c))
            + TablesOf(EntriesContents(policy, table, LayerFrom(policy, DirectTables, table, r + 1, 0), path, Some(path)))
         == TablesOf(EntriesContents(policy, table, LayerFrom(policy, DirectTables, table, r, c), path, Some(path)))
    decreases table, 0, |CellsOf(policy, table, RowsOf(policy, table)[r])| - c
  {
    hide Layer, EntriesContents, LayerFrom, CellsContents, CellContent, TablesOf, RowsOf, CellsOf, InCell;
    var row := RowsOf(policy, table)[r];
    var cells := CellsOf(policy, table, row);
    if c < |cells| {
      CellsListDirect(policy, table, path, parent, r, c + 1);
      var first := [CellContent(policy, At(At(table, row.pos), cells[c].pos), r, c, path, parent)];
      var found := InCell(policy, DirectTables, table, row, cells[c]);
      var nested, rest := EntriesContents(policy, table, found, path, Some(path)), CellsContents(policy, table, path, parent, r, c + 1);
      CellsUnfold(policy, table, path, parent, r, c);
      TablesConcat(first + nested, rest);
      TablesConcat(first, nested);
      NoTableInRowOrCell(policy, At(At(table, row.pos), cells[c].pos), r, c, path, parent);
      LayerFromCell(policy, DirectTables, table, r, c);
      var others := LayerFrom(policy, DirectTables, table, r, c + 1);
      EntriesConcat(policy, table, found, others, path, Some(path));
      TablesConcat(nested, EntriesContents(policy, table, others, path, Some(path)));
    } else {
      LayerFromRow(policy, DirectTables, table, r);
      CellsEnd(policy, table, path, parent, r);
      NoTables();
    }
  }

  lemma NoTables()
    ensures TablesOf([]) == []
  {}

  // ----- the whole body -----

  lemma GraftGraft(e: Entry, f: Entry, es: seq<Entry>)
    ensures Graft(e, Graft(f, es)) == Graft(Join(e, f), es)
  {
    forall i | 0 <= i < |es|
      ensures Join(e, Join(f, es[i])) == Join(Join(e, f), es[i])
    {
      assert e.pos + (f.pos + es[i].pos) == (e.pos + f.pos) + es[i].pos;
      assert e.path + (f.path + es[i].path) == (e.path + f.path) + es[i].path;
    }
  }

  /** `e` is where `node` lies below `root`, under `path`. */
  ghost predicate Places(root: Node, base: Path, e: Entry, node: Node, path: Path) {
    ValidAt(root, e.pos) && At(root, e.pos) == node && path == base + e.path
  }

  lemma PlacesBelow(root: Node, base: Path, e: Entry, node: Node, path: Path, f: Entry)
    requires Places(root, base, e, node, path) && ValidAt(node, f.pos)
    ensures Places(root, base, Join(e, f), At(node, f.pos), path + f.path)
  {
    AtConcat(root, e.pos, f.pos);
    assert base + (e.path + f.path) == (base + e.path) + f.path;
  }

  lemma GraftFound(root: Node, e: Entry, node: Node, es: seq<Entry>)
    requires ValidAt(root, e.pos) && At(root, e.pos) == node && ValidEntries(node, es)
    requires e.pos != [] || Found(node, es)
    ensures Found(root, Graft(e, es))
  {
    GraftValid(root, e, es);
  }

  /** Entries found below a placed node emit the same from there as from the root. */
  lemma {:induction false} GraftedEmissions(policy: Policy, root: Node, base: Path, e: Entry, node: Node, path: Path,
                                            es: seq<Entry>, parent: Option<Path>)
    requires Places(root, base, e, node, path) && Found(node, es) && Found(root, Graft(e, es))
    ensures Listed(path, parent, EmissionsOver(policy.view, node, None, es))
         == Listed(base, parent, EmissionsOver(policy.view, root, None, Graft(e, es)))
    decreases |es|
  {
    if es != [] {
      var f := es[0];
      PlacesBelow(root, base, e, node, path, f);
      var ms := Emissions(policy.view, At(node, f.pos));
      assert Graft(e, es)[1..] == Graft(e, es[1..]);
      GraftedEmissions(policy, root, base, e, node, path, es[1..], parent);
      hide Emissions;
      ListedPlant(path, parent, f, None, ms);
      ListedPlant(base, parent, Join(e, f), None, ms);
      ListedConcat(path, parent, Plant(f, None, ms), EmissionsOver(policy.view, node, None, es[1..]));
      ListedConcat(base, parent, Plant(Join(e, f), None, ms), EmissionsOver(policy.view, root, None, Graft(e, es[1..])));
    }
  }

  lemma BlockGraftFound(view: RevisionView, root: Node, e: Entry, block: Node)
    requires e.pos != [] && ValidAt(root, e.pos) && At(root, e.pos) == block
    ensures Found(root, Graft(e, BlockTables(view, block)))
  {
    BlockTablesSeparate(view, block);
    GraftFound(root, e, block, BlockTables(view, block));
  }

  lemma BlocksGraftFound(view: RevisionView, root: Node, e: Entry, container: Node, k: nat)
    requires ValidAt(root, e.pos) && At(root, e.pos) == container && k <= |container.children|
    ensures Found(root, Graft(e, BlocksFrom(view, container, k)))
  {
    BlocksFromSeparate(view, container, k);
    GraftFound(root, e, container, BlocksFrom(view, container, k));
  }

  lemma {:induction false} BlockListsEmissions(policy: Policy, root: Node, base: Path, e: Entry, block: Node, path: Path, parent: Option<Path>)
    requires e.pos != [] && Places(root, base, e, block, path) && Found(root, Graft(e, BlockTables(policy.view, block)))
    ensures TablesOf(BlockContents(policy, block, path, parent))
         == Listed(base, parent, EmissionsOver(policy.view, root, None, Graft(e, BlockTables(policy.view, block))))
    decreases block, 7, 0
  {
    hide EmissionsOver, Emissions, TableContents, BlocksContents, BlocksFrom, EntriesContents;
    NothingListed(policy, root, base, parent);
    if block.name == "p" {
      ParagraphListsEmissions(policy, root, base, e, block, path, parent);
    } else if block.name == "tbl" {
      TableBlockListsEmissions(policy, root, base, e, block, path, parent);
    } else if block.name == "sectPr" || block.name == "altChunk" {
    } else if IsWrapper(block.name) {
      if !Excluded(policy.view, block.name) {
        var under := path + [Wrapper(block.name)];
        if block.name == "sdt" {
          if SdtContent(block).Some? {
            var c := SdtContent(block).value;
            var w := Entry([c], [Wrapper(block.name)]);
            var inner := block.children[c];
            assert At(block, [c]) == inner;
            PlacesBelow(root, base, e, block, path, w);
            GraftGraft(e, w, BlocksFrom(policy.view, inner, 0));
            BlocksGraftFound(policy.view, root, Join(e, w), inner, 0);
            BlocksListEmissions(policy, root, base, Join(e, w), inner, 0, true, under, parent);
          }
        } else {
          var w := Entry([], [Wrapper(block.name)]);
          PlacesBelow(root, base, e, block, path, w);
          GraftGraft(e, w, BlocksFrom(policy.view, block, 0));
          BlocksGraftFound(policy.view, root, Join(e, w), block, 0);
          BlocksListEmissions(policy, root, base, Join(e, w), block, 0, true, under, parent);
        }
      }
    }
  }

  lemma NothingListed(policy: Policy, root: Node, base: Path, parent: Option<Path>)
    ensures TablesOf([]) == [] && TablesOf([Separator]) == []
    ensures EmissionsOver(policy.view, root, None, []) == [] && Listed(base, parent, []) == []
    ensures forall e: Entry :: Graft(e, []) == []
    ensures forall c: Content :: !c.kind.TableStart? ==> TablesOf([c]) == []
  {}

  lemma ParagraphListsEmissions(policy: Policy, root: Node, base: Path, e: Entry, block: Node, path: Path, parent: Option<Path>)
    requires e.pos != [] && block.name == "p" && Places(root, base, e, block, path)
    requires Found(root, Graft(e, BlockTables(policy.view, block)))
    ensures TablesOf(BlockContents(policy, block, path, parent))
         == Listed(base, parent, EmissionsOver(policy.view, root, None, Graft(e, BlockTables(policy.view, block))))
  {
    var es := BoxedEntries(policy.view, block);
    BoxedFound(policy.view, block);
    EntriesListEmissions(policy, block, es, path, parent, None);
    GraftedEmissions(policy, root, base, e, block, path, es, parent);
    hide EmissionsOver, EntriesContents, BoxedEntries;
    var first, boxed := [ParagraphContent(policy, block)], BoxedContents(policy, block, path, parent);
    var last := if EndsSection(block) then [Separator] else [];
    assert BlockContents(policy, block, path, parent) == first + boxed + last;
    NothingListed(policy, root, base, parent);
    hide TablesOf;
    TablesConcat(first + boxed, last);
    TablesConcat(first, boxed);
    assert TablesOf(first) == [];
    assert TablesOf(last) == [];
  }

  lemma TableBlockListsEmissions(policy: Policy, root: Node, base: Path, e: Entry, block: Node, path: Path, parent: Option<Path>)
    requires e.pos != [] && block.name == "tbl" && Places(root, base, e, block, path)
    requires Found(root, Graft(e, BlockTables(policy.view, block)))
    ensures TablesOf(BlockContents(policy, block, path, parent))
         == Listed(base, parent, EmissionsOver(policy.view, root, None, Graft(e, BlockTables(policy.view, block))))
  {
    hide Emissions, TableContents;
    TableListsEmissions(policy, block, path, parent);
    var es := Graft(e, BlockTables(policy.view, block));
    assert e.pos + [] == e.pos && e.path + [] == e.path;
    assert es == [e];
    ListedPlant(base, parent, e, None, Emissions(policy.view, block));
    assert es[1..] == [];
    assert EmissionsOver(policy.view, root, None, es) == Plant(e, None, Emissions(policy.view, block)) + [];
  }

  lemma {:induction false} BlocksListEmissions(policy: Policy, root: Node, base: Path, e: Entry, container: Node, k: nat,
                                               skip: bool, path: Path, parent: Option<Path>)
    requires Places(root, base, e, container, path) && k <= |container.children|
    requires Found(root, Graft(e, BlocksFrom(policy.view, container, k)))
    ensures TablesOf(BlocksContents(policy, container, k, skip, path, parent))
         == Listed(base, parent, EmissionsOver(policy.view, root, None, Graft(e, BlocksFrom(policy.view, container, k))))
    decreases container, 6, |container.children| - k
  {
    hide EmissionsOver, BlockContents, BlockTables, TablesOf;
    NothingListed(policy, root, base, parent);
    if k < |container.children| {
      var child := container.children[k];
      var i := Entry([k], [Index(k)]);
      assert At(container, i.pos) == child;
      PlacesBelow(root, base, e, container, path, i);
      BlockGraftFound(policy.view, root, Join(e, i), child);
      BlocksGraftFound(policy.view, root, e, container, k + 1);
      BlocksListEmissions(policy, root, base, e, container, k + 1, skip, path, parent);
      var here, rest := Graft(Join(e, i), BlockTables(policy.view, child)), Graft(e, BlocksFrom(policy.view, container, k + 1));
      GraftGraft(e, i, BlockTables(policy.view, child));
      GraftConcat(e, Graft(i, BlockTables(policy.view, child)), BlocksFrom(policy.view, container, k + 1));
      EmissionsConcat(policy.view, root, None, here, rest);
      ListedConcat(base, parent, EmissionsOver(policy.view, root, None, here), EmissionsOver(policy.view, root, None, rest));
      if skip && IsProperties(child.name) {
        PropertiesHoldNoTable(policy.view, child);
        assert here == [];
        var none: seq<Content> := [];
        assert BlocksContents(policy, container, k, skip, path, parent)
            == none + BlocksContents(policy, container, k + 1, skip, path, parent);
        assert none + BlocksContents(policy, container, k + 1, skip, path, parent)
            == BlocksContents(policy, container, k + 1, skip, path, parent);
        assert Listed(base, parent, EmissionsOver(policy.view, root, None, here)) == [];
      } else {
        BlockListsEmissions(policy, root, base, Join(e, i), child, path + [Index(k)], parent);
        TablesConcat(BlockContents(policy, child, path + [Index(k)], parent),
                     BlocksContents(policy, container, k + 1, skip, path, parent));
      }
    }
  }

  lemma PropertiesHoldNoTable(view: RevisionView, child: Node)
    requires IsProperties(child.name)
    ensures BlockTables(view, child) == []
  {}

  lemma GraftConcat(e: Entry, a: seq<Entry>, b: seq<Entry>)
    ensures Graft(e, a + b) == Graft(e, a) + Graft(e, b)
  {}

  lemma {:induction false} EmissionsConcat(view: RevisionView, root: Node, top: Option<Path>, a: seq<Entry>, b: seq<Entry>)
    requires Found(root, a) && Found(root, b) && Found(root, a + b)
    ensures EmissionsOver(view, root, top, a + b) == EmissionsOver(view, root, top, a) + EmissionsOver(view, root, top, b)
    decreases |a|
  {
    hide Emissions;
    if a == [] {
      assert a + b == b;
    } else {
      assert (a + b)[1..] == a[1..] + b;
      EmissionsConcat(view, root, top, a[1..], b);
    }
  }

  /** The table elements of a whole body are, in order, the emissions of the document. */
  lemma BodyListsDocument(policy: Policy, body: Node)
    ensures TablesOf(BlocksContents(policy, body, 0, false, [Body], None))
         == Listed([], None, DocumentEmissions(policy.view, body))
  {
    var e := Entry([], []);
    BlocksGraftFound(policy.view, body, e, body, 0);
    BlocksFromSeparate(policy.view, body, 0);
    var es := BlocksFrom(policy.view, body, 0);
    assert Graft(e, es) == es by {
      forall i | 0 <= i < |es|
        ensures Join(e, es[i]) == es[i]
      {
        assert [] + es[i].pos == es[i].pos && [] + es[i].path == es[i].path;
      }
    }
    assert [Body] + [] == [Body];
    BlocksListEmissions(policy, body, [Body], e, body, 0, false, [Body], None);
    ListedPlant([], None, Entry([], [Body]), None, EmissionsOver(policy.view, body, None, es));
    assert [] + [Body] == [Body];
  }
}
