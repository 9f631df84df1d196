/** The text of a table's path: tables with different paths keep different names once the path is written out. */
module DocxPaths {
  import opened Basics
  import opened DocxTree
  import opened DocxView
  import opened DocxOwnership
  import opened DocxEmissions
  import opened DocxBlocks

  /** What a segment's text starts with. */
  function Word(s: Segment): string {
    match s
    case Body => "body"
    case Index(_) => ""
    case Wrapper(name) => name
    case Row(_) => "r"
    case Cell(_) => "c"
    case Tbl(_) => "tbl"
    case WrappedTbl(_) => "wrapped_tbl"
    case Embedded => "embedded"
    case Container(name) => name
    case Child(name, _) => name + "["
  }

  function Ending(s: Segment): string {
    match s
    case Index(i) => Decimal(i)
    case Row(i) => Decimal(i)
    case Cell(i) => Decimal(i)
    case Tbl(i) => Decimal(i)
    case WrappedTbl(i) => Decimal(i)
    case Child(_, i) => Decimal(i) + "]"
    case _ => ""
  }

  function Text(s: Segment): string {
    Word(s) + Ending(s)
  }

  /** Segments joined with slashes. */
  function Rendered(path: Path): string {
    if path == [] then ""
    else if |path| == 1 then Text(path[0])
    else Text(path[0]) + "/" + Rendered(path[1..])
  }

  /** An XML local name has neither slashes nor brackets. */
  predicate PlainName(name: string) {
    '/' !in name && '[' !in name && ']' !in name
  }

  ghost predicate PlainTree(node: Node) {
    forall p: Pos :: ValidAt(node, p) ==> PlainName(At(node, p).name)
  }

  predicate IsContainer(name: string) {
    name == "p" || name == "tc"
  }

  /** The segments that occur in paths of a tree with plain names. */
  predicate Proper(s: Segment) {
    match s
    case Wrapper(name) => IsWrapper(name)
    case Container(name) => IsContainer(name)
    case Child(name, _) => PlainName(name)
    case _ => true
  }

  ghost predicate ProperPath(path: Path) {
    forall s :: s in path ==> Proper(s)
  }

  // ----- one segment -----

  /** Digits after a word without digits can be told from the word. */
  lemma WordsSeparate(w: string, d: string, w': string, d': string)
    requires w + d == w' + d'
    requires (forall c :: c in w ==> !IsDigit(c)) && (forall c :: c in w' ==> !IsDigit(c))
    requires (forall c :: c in d ==> IsDigit(c)) && (forall c :: c in d' ==> IsDigit(c))
    ensures w == w' && d == d'
  {
    var s := w + d;
    assert forall i :: 0 <= i < |s| ==> (IsDigit(s[i]) <==> i >= |w|);
    assert forall i :: 0 <= i < |s| ==> (IsDigit((w' + d')[i]) <==> i >= |w'|);
    assert |w| < |s| ==> IsDigit(s[|w|]);
    assert |w'| < |s| ==> IsDigit(s[|w'|]);
    assert |w| == |w'|;
    assert w == s[..|w|] && w' == s[..|w|] && d == s[|w|..] && d' == s[|w|..];
  }

  /** What stands before the first occurrence of a character, and what follows, is determined. */
  lemma FrontsSeparate(c: char, x: string, s: string, y: string, t: string)
    requires x + s == y + t && c !in x && c !in y
    requires (s == "" || s[0] == c) && (t == "" || t[0] == c)
    ensures x == y && s == t
  {
    var u := x + s;
    assert forall i :: 0 <= i < |x| ==> u[i] == x[i] && u[i] in x;
    assert forall i :: 0 <= i < |y| ==> u[i] == y[i] && u[i] in y;
    assert |x| < |u| ==> u[|x|] == c;
    assert |y| < |u| ==> u[|y|] == c;
    assert |x| == |y|;
    assert x == u[..|x|] && y == u[..|x|] && s == u[|x|..] && t == u[|x|..];
  }

  lemma WordParts(s: Segment)
    requires Proper(s) && !s.Child?
    ensures forall c :: c in Word(s) ==> !IsDigit(c)
    ensures forall c :: c in Ending(s) ==> IsDigit(c)
    ensures forall c :: c in Text(s) ==> c != '/' && c != '['
    ensures Ending(s) == "" <==> s.Body? || s.Wrapper? || s.Embedded? || s.Container?
  {
    WordIsPlain(s);
    EndingIsDigits(s);
    hide Word, Ending;
  }

  lemma WordIsPlain(s: Segment)
    requires Proper(s) && !s.Child?
    ensures forall c :: c in Word(s) ==> !IsDigit(c) && c != '/' && c != '['
  {
    match s {
      case Wrapper(name) => WrapperWordIsPlain(name);
      case Container(_) =>
      case _ =>
    }
    hide IsWrapper;
  }

  lemma WrapperWordIsPlain(name: string)
    requires IsWrapper(name)
    ensures forall c :: c in name ==> !IsDigit(c) && c != '/' && c != '['
  {
  }

  lemma EndingIsDigits(s: Segment)
    requires !s.Child?
    ensures forall c :: c in Ending(s) ==> IsDigit(c)
    ensures Ending(s) == "" <==> s.Body? || s.Wrapper? || s.Embedded? || s.Container?
  {
    if s.Index? || s.Row? || s.Cell? || s.Tbl? || s.WrappedTbl? {
      DecimalDigits(s.i);
    }
    hide Decimal;
  }

  /** No segment text is empty or holds a slash. */
  lemma NoSlash(s: Segment)
    requires Proper(s)
    ensures '/' !in Text(s) && Text(s) != ""
  {
    if s.Child? {
      DecimalDigits(s.i);
      hide Decimal;
      assert Text(s) == s.name + "[" + Decimal(s.i) + "]";
    } else {
      WordParts(s);
      assert Ending(s) == "" ==> Word(s) != "";
    }
  }

  /** Apart from child steps the word tells the kind of segment. */
  lemma WordsDiffer(a: Segment, b: Segment)
    requires Proper(a) && Proper(b) && !a.Child? && !b.Child? && Word(a) == Word(b)
    requires Ending(a) == "" <==> Ending(b) == ""
    requires (Ending(a) == "" <==> a.Body? || a.Wrapper? || a.Embedded? || a.Container?)
    requires (Ending(b) == "" <==> b.Body? || b.Wrapper? || b.Embedded? || b.Container?)
    ensures Ending(a) == "" ==> a == b
    ensures a.Index? <==> b.Index?
    ensures a.Row? <==> b.Row?
    ensures a.Cell? <==> b.Cell?
    ensures a.Tbl? <==> b.Tbl?
    ensures a.WrappedTbl? <==> b.WrappedTbl?
  {
    hide Decimal;
    var w, v := Word(a), Word(b);
    assert |w| == |v| && (|w| > 0 ==> w[0] == v[0]) && (|w| > 1 ==> w[1] == v[1]);
  }

  lemma ChildHasBracket(s: Segment)
    requires s.Child?
    ensures '[' in Text(s)
  {
    assert Text(s)[|s.name|] == '[';
  }

  lemma SameTextSameSegment(a: Segment, b: Segment)
    requires Proper(a) && Proper(b) && Text(a) == Text(b)
    ensures a == b
  {
    if a.Child? && b.Child? {
      SameChild(a.name, a.i, b.name, b.i);
    } else if a.Child? {
      WordParts(b);
      ChildHasBracket(a);
    } else if b.Child? {
      WordParts(a);
      ChildHasBracket(b);
    } else {
      WordParts(a);
      WordParts(b);
      WordsSeparate(Word(a), Ending(a), Word(b), Ending(b));
      WordsDiffer(a, b);
      if Ending(a) != "" {
        DecimalIsInjective(a.i, b.i);
      }
    }
  }

  lemma SameChild(m: string, i: nat, n: string, j: nat)
    requires PlainName(m) && PlainName(n) && Text(Child(m, i)) == Text(Child(n, j))
    ensures m == n && i == j
  {
    hide Decimal;
    var s, t := "[" + Decimal(i) + "]", "[" + Decimal(j) + "]";
    assert Text(Child(m, i)) == m + s && Text(Child(n, j)) == n + t;
    FrontsSeparate('[', m, s, n, t);
    assert s[1..|s| - 1] == Decimal(i) && t[1..|t| - 1] == Decimal(j);
    DecimalIsInjective(i, j);
  }

  // ----- whole paths -----

  function Rest(path: Path): string
    requires path != []
  {
    if |path| == 1 then "" else "/" + Rendered(path[1..])
  }

  lemma RenderedParts(path: Path)
    requires path != []
    ensures Rendered(path) == Text(path[0]) + Rest(path)
  {
  }

  /** A proper path is determined by its text. */
  lemma {:induction false} RenderedIsInjective(a: Path, b: Path)
    requires ProperPath(a) && ProperPath(b) && Rendered(a) == Rendered(b)
    ensures a == b
  {
    hide *;
    EmptyText(a);
    EmptyText(b);
    if a != [] && b != [] {
      HeadsAgree(a, b);
      RestsAgree(a, b);
      assert a == [a[0]] + a[1..] && b == [b[0]] + b[1..];
      if |a| > 1 {
        TailIsProper(a);
        TailIsProper(b);
        RenderedIsInjective(a[1..], b[1..]);
      }
    }
  }

  lemma TailIsProper(path: Path)
    requires ProperPath(path) && path != []
    ensures ProperPath(path[1..])
  {
    hide Proper;
  }

  lemma EmptyText(path: Path)
    requires ProperPath(path)
    ensures Rendered(path) == "" <==> path == []
  {
    if path != [] {
      NoSlash(path[0]);
      RenderedParts(path);
    }
    hide Text, Proper;
  }

  lemma HeadsAgree(a: Path, b: Path)
    requires ProperPath(a) && ProperPath(b) && a != [] && b != [] && Rendered(a) == Rendered(b)
    ensures a[0] == b[0] && Rest(a) == Rest(b)
  {
    NoSlash(a[0]);
    RenderedParts(a);
    NoSlash(b[0]);
    RenderedParts(b);
    hide Rendered, Text, Proper;
    FrontsSeparate('/', Text(a[0]), Rest(a), Text(b[0]), Rest(b));
    SameTextSameSegment(a[0], b[0]);
  }

  lemma RestsAgree(a: Path, b: Path)
    requires a != [] && b != [] && Rest(a) == Rest(b)
    ensures |a| == 1 <==> |b| == 1
    ensures |a| > 1 ==> Rendered(a[1..]) == Rendered(b[1..])
  {
    hide Rendered;
    assert |a| > 1 ==> Rest(a)[1..] == Rendered(a[1..]);
    assert |b| > 1 ==> Rest(b)[1..] == Rendered(b[1..]);
  }

  // ----- every path of a document is proper -----

  lemma SubtreeIsPlain(node: Node, p: Pos)
    requires PlainTree(node) && ValidAt(node, p)
    ensures PlainTree(At(node, p))
  {
    forall q: Pos | ValidAt(At(node, p), q)
      ensures PlainName(At(At(node, p), q).name)
    {
      AtConcat(node, p, q);
    }
  }

  lemma OneStep(node: Node, k: nat)
    requires k < |node.children|
    ensures ValidAt(node, [k]) && At(node, [k]) == node.children[k]
  {
    assert [k][1..] == [];
  }

  lemma RootIsPlain(node: Node)
    requires PlainTree(node)
    ensures PlainName(node.name)
  {
    assert ValidAt(node, []) && At(node, []) == node;
  }

  lemma ChildIsPlain(node: Node, k: nat)
    requires PlainTree(node) && k < |node.children|
    ensures PlainTree(node.children[k]) && PlainName(node.children[k].name)
  {
    hide PlainTree;
    OneStep(node, k);
    SubtreeIsPlain(node, [k]);
    RootIsPlain(node.children[k]);
  }

  lemma {:induction false} StepsAreProper(node: Node, p: Pos)
    requires PlainTree(node) && ValidAt(node, p)
    ensures ProperPath(Steps(node, p))
    decreases |p|
  {
    if p != [] {
      ChildIsPlain(node, p[0]);
      hide PlainTree;
      StepsAreProper(node.children[p[0]], p[1..]);
    }
  }

  lemma BoxedIsProper(view: RevisionView, container: Node, e: Entry)
    requires PlainTree(container) && IsContainer(container.name) && e in BoxedEntries(view, container)
    ensures ProperPath(e.path)
  {
    var r := BoxedEntries(view, container);
    var i :| 0 <= i < |r| && r[i] == e;
    var p := BoxedAt(view, container, false)[i];
    hide BoxedAt, PlainTree;
    StepsAreProper(container, p);
    assert forall s :: s in e.path ==> s == Embedded || s == Container(container.name) || s in Steps(container, p);
  }

  lemma FoundIsProper(finder: Finder, view: RevisionView, node: Node, e: Entry)
    requires PlainTree(node) && (finder == BoxedTables ==> IsContainer(node.name)) && e in Find(finder, view, node)
    ensures ProperPath(e.path)
  {
    hide PlainTree, Wrapped;
    match finder {
      case RowFinder =>
      case CellFinder =>
      case DirectTables => DirectMember(node, 0);
      case WrappedTables => NestedMember(Wrapped(view, node, "tbl"), 0);
      case BoxedTables => BoxedIsProper(view, node, e);
    }
  }

  lemma OverIsProper(finder: Finder, view: RevisionView, root: Node, es: seq<Entry>, e: Entry)
    requires PlainTree(root) && Found(root, es) && e in Over(finder, view, root, es)
    requires forall i :: 0 <= i < |es| ==>
               ProperPath(es[i].path) && (finder == BoxedTables ==> IsContainer(At(root, es[i].pos).name))
    ensures ProperPath(e.path)
  {
    hide Find, Over, PlainTree, Proper;
    var i, f := OverSplits(finder, view, root, es, e);
    SubtreeIsPlain(root, es[i].pos);
    FoundIsProper(finder, view, At(root, es[i].pos), f);
  }

  lemma CellsAreProper(view: RevisionView, table: Node)
    requires PlainTree(table)
    ensures var cells := CellEntries(view, table);
            forall i :: 0 <= i < |cells| ==> ProperPath(cells[i].path) && IsContainer(At(table, cells[i].pos).name)
  {
    var rows, cells := Find(RowFinder, view, table), CellEntries(view, table);
    hide Find, Over, PlainTree, Proper, ProperPath;
    forall i | 0 <= i < |rows|
      ensures ProperPath(rows[i].path)
    {
      FoundIsProper(RowFinder, view, table, rows[i]);
    }
    forall i | 0 <= i < |cells|
      ensures ProperPath(cells[i].path) && IsContainer(At(table, cells[i].pos).name)
    {
      OverIsProper(CellFinder, view, table, rows, cells[i]);
      CellIsSought(view, table, cells[i]);
    }
  }

  lemma OwnedIsProper(view: RevisionView, table: Node, e: Entry)
    requires PlainTree(table) && e in Owned(view, table)
    ensures ProperPath(e.path)
  {
    CellsAreProper(view, table);
    hide PlainTree, Over, ProperPath, CellEntries, IsContainer;
    var cells := CellEntries(view, table);
    if e in Layer(DirectTables, view, table) {
      OverIsProper(DirectTables, view, table, cells, e);
    } else if e in Layer(WrappedTables, view, table) {
      OverIsProper(WrappedTables, view, table, cells, e);
    } else {
      OverIsProper(BoxedTables, view, table, cells, e);
    }
  }

  ghost predicate AllProper(es: seq<Entry>) {
    forall i :: 0 <= i < |es| ==> ProperPath(es[i].path)
  }

  lemma {:induction false} TableEmitsProper(view: RevisionView, table: Node)
    requires PlainTree(table)
    ensures forall m :: m in Emissions(view, table) ==> ProperPath(m.path)
    decreases table, 1
  {
    var es := Owned(view, table);
    OwnedSeparate(view, table);
    hide Owned, PlainTree, ProperPath;
    forall i | 0 <= i < |es|
      ensures es[i].pos != [] && ProperPath(es[i].path)
    {
      assert es[i] in es;
      OwnedIsProper(view, table, es[i]);
    }
    OverEmitsProper(view, table, Some([]), es);
    NothingIsProper();
  }

  lemma NothingIsProper()
    ensures ProperPath([])
  {
  }

  lemma {:induction false} OverEmitsProper(view: RevisionView, root: Node, top: Option<Path>, es: seq<Entry>)
    requires PlainTree(root) && Found(root, es) && AllProper(es)
    ensures forall m :: m in EmissionsOver(view, root, top, es) ==> ProperPath(m.path)
    decreases root, 0
  {
    hide PlainTree, Proper, Emissions, EmissionsOver;
    forall m | m in EmissionsOver(view, root, top, es)
      ensures ProperPath(m.path)
    {
      OverHasEmission(view, root, top, es, m);
      var i, n :| 0 <= i < |es| && n in Emissions(view, At(root, es[i].pos)) && m == PlantOne(es[i], top, n);
      SubtreeIsPlain(root, es[i].pos);
      TableEmitsProper(view, At(root, es[i].pos));
    }
  }

  lemma GraftIsProper(e: Entry, es: seq<Entry>)
    requires ProperPath(e.path) && AllProper(es)
    ensures AllProper(Graft(e, es))
  {
  }

  lemma {:induction false} BlockTablesAreProper(view: RevisionView, block: Node)
    requires PlainTree(block)
    ensures AllProper(BlockTables(view, block))
    decreases block, |block.children| + 1, 0
  {
    hide PlainTree, Proper;
    if block.name == "p" {
      forall e | e in BlockTables(view, block)
        ensures ProperPath(e.path)
      {
        BoxedIsProper(view, block, e);
      }
      assert forall i :: 0 <= i < |BlockTables(view, block)| ==> BlockTables(view, block)[i] in BlockTables(view, block);
    } else if block.name != "tbl" && IsWrapper(block.name) && !Excluded(view, block.name) {
      WrapperIsProper(block.name);
      if block.name == "sdt" {
        var content := SdtContent(block);
        if content.Some? {
          ChildIsPlain(block, content.value);
          BlocksAreProper(view, block.children[content.value], 0);
          GraftIsProper(Entry([content.value], [Wrapper(block.name)]), BlocksFrom(view, block.children[content.value], 0));
        }
      } else {
        BlocksAreProper(view, block, 0);
        GraftIsProper(Entry([], [Wrapper(block.name)]), BlocksFrom(view, block, 0));
      }
    }
  }

  lemma WrapperIsProper(name: string)
    requires IsWrapper(name)
    ensures ProperPath([Wrapper(name)])
  {
  }

  lemma {:induction false} BlocksAreProper(view: RevisionView, parent: Node, k: nat)
    requires PlainTree(parent) && k <= |parent.children|
    ensures AllProper(BlocksFrom(view, parent, k))
    decreases parent, |parent.children| - k, 1
  {
    if k < |parent.children| {
      ChildIsPlain(parent, k);
      hide PlainTree;
      BlockTablesAreProper(view, parent.children[k]);
      assert ProperPath([Index(k)]);
      GraftIsProper(Entry([k], [Index(k)]), BlockTables(view, parent.children[k]));
      BlocksAreProper(view, parent, k + 1);
    }
  }

  lemma DocumentPathsAreProper(view: RevisionView, body: Node, m: Emission)
    requires PlainTree(body) && m in DocumentEmissions(view, body)
    ensures ProperPath(m.path)
  {
    var es := BlocksFrom(view, body, 0);
    BlocksFromSeparate(view, body, 0);
    BlocksAreProper(view, body, 0);
    var over := EmissionsOver(view, body, None, es);
    hide PlainTree, BlocksFrom;
    OverEmitsProper(view, body, None, es);
    var i :| 0 <= i < |over| && m == PlantOne(Entry([], [Body]), None, over[i]);
    assert over[i] in over;
    assert forall s :: s in m.path ==> s == Body || s in over[i].path;
  }

  /** Written out, the paths of a document's tables still differ, so no two tables get one group id. */
  lemma RenderedPathsDiffer(view: RevisionView, body: Node)
    requires PlainTree(body)
    ensures var ms := DocumentEmissions(view, body);
            forall i, j :: 0 <= i < j < |ms| ==> Rendered(ms[i].path) != Rendered(ms[j].path)
  {
    var ms := DocumentEmissions(view, body);
    EmittedOnce(view, body);
    hide DocumentEmissions, PlainTree, Rendered, ProperPath;
    forall i, j | 0 <= i < j < |ms|
      ensures Rendered(ms[i].path) != Rendered(ms[j].path)
    {
      DocumentPathsAreProper(view, body, ms[i]);
      DocumentPathsAreProper(view, body, ms[j]);
      if Rendered(ms[i].path) == Rendered(ms[j].path) {
        RenderedIsInjective(ms[i].path, ms[j].path);
      }
    }
  }
}
