/**
 Which tables the three table layers own, and the effective view they must agree with.

 The view is a deterministic automaton that walks down from a node and decides, one child at a
 time, what a reader sees.  The layers are the adapter's: direct children of a cell, tables behind
 wrappers, tables under text-box content.
 */
module DocxView {
  import opened Basics
  import opened DocxTree

  // ----- the effective view -----

  /** Whether only included wrappers lie between the last landmark and this node; an sdt shows its
      children only through its content element. */
  datatype Track = Clean | AtSdt | Off

  datatype Goal = Blocks | Rows | Cells

  datatype Mode =
    | Seek(goal: Goal, track: Track)
    | Inside(track: Track, boxed: bool)

  datatype Move = Dead | Table | Go(mode: Mode)

  function NextTrack(track: Track, node: Node, k: nat): Track
    requires k < |node.children|
  {
    var name := node.children[k].name;
    match track
    case Off => Off
    case AtSdt => if SdtContent(node) == Some(k) then Clean else Off
    case Clean => if name == "sdt" then AtSdt else if IsWrapper(name) then Clean else Off
  }

  /** What stepping from `node` to its child `k` leads to. */
  function Step(view: RevisionView, mode: Mode, node: Node, k: nat): Move
    requires k < |node.children|
  {
    var name := node.children[k].name;
    match mode
    case Seek(goal, track) =>
      if track == AtSdt then (if SdtContent(node) == Some(k) then Go(Seek(goal, Clean)) else Dead)
      else if track == Off then Dead
      else if goal == Rows && name == "tr" then Go(Seek(Cells, Clean))
      else if goal == Cells && name == "tc" then Go(Inside(Clean, false))
      else if goal == Blocks && name == "p" then Go(Inside(Off, false))
      else if goal == Blocks && name == "tbl" then Table
      else if !IsWrapper(name) || Excluded(view, name) then Dead
      else Go(Seek(goal, if name == "sdt" then AtSdt else Clean))
    case Inside(track, boxed) =>
      if node.name == "AlternateContent" then
        (if SelectedBranch(node) == Some(k) then Go(Inside(Off, boxed)) else Dead)
      else if name == "tbl" then (if track == Clean || boxed then Table else Dead)
      else if Excluded(view, name) then Dead
      else Go(Inside(NextTrack(track, node, k), boxed || name == "txbxContent"))
  }

  /** Where a walk down `pos` ends; it does not continue below a table. */
  function Trace(view: RevisionView, mode: Mode, node: Node, pos: Pos): Move
    requires ValidAt(node, pos)
    decreases |pos|
  {
    if pos == [] then Go(mode)
    else
      match Step(view, mode, node, pos[0])
      case Dead => Dead
      case Table => if |pos| == 1 then Table else Dead
      case Go(next) => Trace(view, next, node.children[pos[0]], pos[1..])
  }

  /** The table at `pos` is in the effective view. */
  predicate Sees(view: RevisionView, mode: Mode, node: Node, pos: Pos)
    requires ValidAt(node, pos)
    decreases |pos|
  {
    pos != []
    && match Step(view, mode, node, pos[0])
       case Dead => false
       case Table => |pos| == 1 || Sees(view, Seek(Rows, Clean), node.children[pos[0]], pos[1..])
       case Go(next) => Sees(view, next, node.children[pos[0]], pos[1..])
  }

  // ----- the layers -----

  datatype Finder = RowFinder | CellFinder | DirectTables | WrappedTables | BoxedTables

  function Join(e: Entry, f: Entry): Entry {
    Entry(e.pos + f.pos, e.path + f.path)
  }

  function Graft(e: Entry, es: seq<Entry>): (r: seq<Entry>)
    ensures |r| == |es| && forall i :: 0 <= i < |es| ==> r[i] == Join(e, es[i])
  {
    seq(|es|, i requires 0 <= i < |es| => Join(e, es[i]))
  }

  function Numbered(ps: seq<Pos>, cells: bool): (r: seq<Entry>)
    ensures |r| == |ps|
    ensures forall i :: 0 <= i < |ps| ==> r[i] == Entry(ps[i], [if cells then Cell(i) else Row(i)])
  {
    seq(|ps|, i requires 0 <= i < |ps| => Entry(ps[i], [if cells then Cell(i) else Row(i)]))
  }

  function DirectFrom(cell: Node, k: nat): seq<Entry>
    requires k <= |cell.children|
    decreases |cell.children| - k
  {
    if k == |cell.children| then []
    else (if cell.children[k].name == "tbl" then [Entry([k], [Tbl(k)])] else []) + DirectFrom(cell, k + 1)
  }

  /** The tables found through at least one wrapper, numbered among all tables found. */
  function NestedFrom(ps: seq<Pos>, n: nat): seq<Entry>
    requires n <= |ps|
    decreases |ps| - n
  {
    if n == |ps| then []
    else (if |ps[n]| > 1 then [Entry(ps[n], [WrappedTbl(n)])] else []) + NestedFrom(ps, n + 1)
  }

  function Steps(node: Node, pos: Pos): (r: Path)
    requires ValidAt(node, pos)
    ensures |r| == |pos| && forall i :: 0 <= i < |pos| ==> r[i].Child? && r[i].i == pos[i]
    decreases |pos|
  {
    if pos == [] then []
    else [Child(node.children[pos[0]].name, pos[0])] + Steps(node.children[pos[0]], pos[1..])
  }

  function BoxedEntries(view: RevisionView, container: Node): (r: seq<Entry>)
    ensures |r| == |BoxedAt(view, container, false)|
    ensures forall i :: 0 <= i < |r| ==>
              var p := BoxedAt(view, container, false)[i];
              ValidAt(container, p) && r[i] == Entry(p, [Embedded, Container(container.name)] + Steps(container, p))
  {
    BoxedAtApart(view, container, false);
    var ps := BoxedAt(view, container, false);
    seq(|ps|, i requires 0 <= i < |ps| => Entry(ps[i], [Embedded, Container(container.name)] + Steps(container, ps[i])))
  }

  ghost predicate Found(node: Node, es: seq<Entry>) {
    forall i :: 0 <= i < |es| ==> es[i].pos != [] && ValidAt(node, es[i].pos)
  }

  function Find(finder: Finder, view: RevisionView, node: Node): (r: seq<Entry>)
    ensures Found(node, r)
  {
    FindIsValid(finder, view, node);
    FindRaw(finder, view, node)
  }

  function FindRaw(finder: Finder, view: RevisionView, node: Node): seq<Entry> {
    match finder
    case RowFinder => Numbered(Wrapped(view, node, "tr"), false)
    case CellFinder => Numbered(Wrapped(view, node, "tc"), true)
    case DirectTables => DirectFrom(node, 0)
    case WrappedTables => NestedFrom(Wrapped(view, node, "tbl"), 0)
    case BoxedTables => BoxedEntries(view, node)
  }

  lemma {:induction false} DirectMember(cell: Node, k: nat)
    requires k <= |cell.children|
    ensures forall e :: e in DirectFrom(cell, k) <==>
              |e.pos| == 1 && k <= e.pos[0] < |cell.children| && cell.children[e.pos[0]].name == "tbl"
              && e.path == [Tbl(e.pos[0])]
    decreases |cell.children| - k
  {
    if k < |cell.children| {
      DirectMember(cell, k + 1);
      forall e: Entry
        ensures e in DirectFrom(cell, k) <==>
                |e.pos| == 1 && k <= e.pos[0] < |cell.children| && cell.children[e.pos[0]].name == "tbl"
                && e.path == [Tbl(e.pos[0])]
      {
        assert e.pos == [k] <==> |e.pos| == 1 && e.pos[0] == k;
        assert e == Entry([k], [Tbl(k)]) <==> e.pos == [k] && e.path == [Tbl(k)];
      }
    }
  }

  /** `e` is the entry of the wrapped table number `i`, which is not a direct child. */
  ghost predicate IsNested(ps: seq<Pos>, i: int, e: Entry) {
    0 <= i < |ps| && |ps[i]| > 1 && e == Entry(ps[i], [WrappedTbl(i)])
  }

  lemma {:induction false} NestedOne(ps: seq<Pos>, n: nat, e: Entry)
    requires n <= |ps|
    ensures e in NestedFrom(ps, n) <==> exists i :: n <= i && IsNested(ps, i, e)
    decreases |ps| - n
  {
    if n < |ps| {
      NestedOne(ps, n + 1, e);
      assert e in NestedFrom(ps, n) <==> IsNested(ps, n, e) || e in NestedFrom(ps, n + 1);
      hide IsNested, NestedFrom;
    }
  }

  lemma NestedMember(ps: seq<Pos>, n: nat)
    requires n <= |ps|
    ensures forall e :: e in NestedFrom(ps, n) <==> exists i :: n <= i && IsNested(ps, i, e)
  {
    forall e: Entry
      ensures e in NestedFrom(ps, n) <==> exists i :: n <= i && IsNested(ps, i, e)
    {
      NestedOne(ps, n, e);
    }
  }

  lemma {:induction false} BoxedNotEmpty(view: RevisionView, node: Node)
    ensures [] !in BoxedAt(view, node, false)
  {
    if node.name == "AlternateContent" {
    } else if !Excluded(view, node.name) && node.name != "tbl" {
      BoxedFromApart(view, node, node.name == "txbxContent", 0);
    }
  }

  lemma FindIsValid(finder: Finder, view: RevisionView, node: Node)
    ensures Found(node, FindRaw(finder, view, node))
  {
    var r := FindRaw(finder, view, node);
    match finder {
      case RowFinder => WrappedFromApart(view, node, "tr", 0);
      case CellFinder => WrappedFromApart(view, node, "tc", 0);
      case DirectTables =>
        DirectMember(node, 0);
        assert forall i :: 0 <= i < |r| ==> r[i] in r;
      case WrappedTables =>
        WrappedFromApart(view, node, "tbl", 0);
        NestedMember(Wrapped(view, node, "tbl"), 0);
        assert forall i :: 0 <= i < |r| ==> r[i] in r;
      case BoxedTables =>
        BoxedNotEmpty(view, node);
    }
  }

  /** What `finder` finds below each of the given nodes, in order. */
  function Over(finder: Finder, view: RevisionView, root: Node, es: seq<Entry>): (r: seq<Entry>)
    requires Found(root, es)
    ensures Found(root, r)
  {
    if es == [] then []
    else
      var found := Find(finder, view, At(root, es[0].pos));
      GraftIsFound(root, es[0], found);
      Graft(es[0], found) + Over(finder, view, root, es[1..])
  }

  lemma GraftIsFound(root: Node, e: Entry, es: seq<Entry>)
    requires e.pos != [] && ValidAt(root, e.pos) && Found(At(root, e.pos), es)
    ensures Found(root, Graft(e, es))
  {
    forall i | 0 <= i < |es|
      ensures ValidAt(root, e.pos + es[i].pos)
    {
      AtConcat(root, e.pos, es[i].pos);
    }
  }

  function CellEntries(view: RevisionView, table: Node): (r: seq<Entry>)
    ensures Found(table, r)
  {
    Over(CellFinder, view, table, Find(RowFinder, view, table))
  }

  function Layer(finder: Finder, view: RevisionView, table: Node): (r: seq<Entry>)
    ensures Found(table, r)
  {
    Over(finder, view, table, CellEntries(view, table))
  }

  /** The tables a table emits itself: all direct ones, then all wrapped ones, then all boxed ones. */
  function Owned(view: RevisionView, table: Node): (r: seq<Entry>)
    ensures Found(table, r)
  {
    Layer(DirectTables, view, table) + Layer(WrappedTables, view, table) + Layer(BoxedTables, view, table)
  }

  // ----- separation -----

  predicate EntriesApart(e: Entry, f: Entry) {
    Apart(e.pos, f.pos) && Apart(e.path, f.path)
  }

  /** No position and no path is a prefix of another one. */
  ghost predicate Separate(es: seq<Entry>) {
    forall i, j :: 0 <= i < j < |es| ==> EntriesApart(es[i], es[j])
  }

  lemma JoinApart(e: Entry, f: Entry, g: Entry)
    requires EntriesApart(f, g)
    ensures EntriesApart(Join(e, f), Join(e, g))
  {
    ApartUnder(e.pos, f.pos, g.pos);
    ApartUnder(e.path, f.path, g.path);
  }

  lemma JoinsApart(e: Entry, d: Entry, f: Entry, g: Entry)
    requires EntriesApart(e, d)
    ensures EntriesApart(Join(e, f), Join(d, g))
  {
    ApartExtended(e.pos, d.pos, f.pos, g.pos);
    ApartExtended(e.path, d.path, f.path, g.path);
  }

  /** `g` is a find below the entry number `i`, joined to that entry. */
  ghost predicate Joins(finder: Finder, view: RevisionView, root: Node, es: seq<Entry>, g: Entry, i: int, f: Entry)
    requires Found(root, es)
  {
    0 <= i < |es| && f in Find(finder, view, At(root, es[i].pos)) && g == Join(es[i], f)
  }

  lemma GraftMember(e: Entry, found: seq<Entry>, g: Entry)
    ensures g in Graft(e, found) <==> exists f :: f in found && g == Join(e, f)
  {
    var r := Graft(e, found);
    if g in r {
      var k :| 0 <= k < |r| && r[k] == g;
      assert found[k] in found && g == Join(e, found[k]);
    }
    if f :| f in found && g == Join(e, f) {
      var k :| 0 <= k < |found| && found[k] == f;
      assert r[k] == g;
    }
  }

  /** Every node found lies below one of the given nodes, and the other way round. */
  lemma {:induction false} OverMember(finder: Finder, view: RevisionView, root: Node, es: seq<Entry>, g: Entry)
    requires Found(root, es)
    ensures g in Over(finder, view, root, es) <==> exists i, f :: Joins(finder, view, root, es, g, i, f)
  {
    if es != [] {
      assert Over(finder, view, root, es)
          == Graft(es[0], Find(finder, view, At(root, es[0].pos))) + Over(finder, view, root, es[1..]);
      OverMember(finder, view, root, es[1..], g);
      GraftMember(es[0], Find(finder, view, At(root, es[0].pos)), g);
      JoinsShift(finder, view, root, es, g);
      hide Find, Graft, At, Over, Joins;
    }
  }

  /** A find below some entry is one below the first entry or one below the others. */
  lemma JoinsShift(finder: Finder, view: RevisionView, root: Node, es: seq<Entry>, g: Entry)
    requires Found(root, es) && es != []
    ensures (exists i, f :: Joins(finder, view, root, es, g, i, f))
       <==> || (exists f :: f in Find(finder, view, At(root, es[0].pos)) && g == Join(es[0], f))
            || (exists i, f :: Joins(finder, view, root, es[1..], g, i, f))
  {
    hide Find, At;
    if i, f :| Joins(finder, view, root, es, g, i, f) {
      assert i == 0 || Joins(finder, view, root, es[1..], g, i - 1, f);
    }
    if i, f :| Joins(finder, view, root, es[1..], g, i, f) {
      assert Joins(finder, view, root, es, g, i + 1, f);
    }
    if f :| f in Find(finder, view, At(root, es[0].pos)) && g == Join(es[0], f) {
      assert Joins(finder, view, root, es, g, 0, f);
    }
  }

  lemma OverSplits(finder: Finder, view: RevisionView, root: Node, es: seq<Entry>, g: Entry) returns (i: nat, f: Entry)
    requires Found(root, es) && g in Over(finder, view, root, es)
    ensures i < |es| && es[i] in es && f in Find(finder, view, At(root, es[i].pos)) && g == Join(es[i], f)
  {
    OverMember(finder, view, root, es, g);
    hide Find, Over;
    i, f :| Joins(finder, view, root, es, g, i, f);
  }

  lemma JoinedIsOver(finder: Finder, view: RevisionView, root: Node, es: seq<Entry>, i: nat, f: Entry)
    requires Found(root, es) && i < |es| && f in Find(finder, view, At(root, es[i].pos))
    ensures Join(es[i], f) in Over(finder, view, root, es)
  {
    OverMember(finder, view, root, es, Join(es[i], f));
    hide Find, Over;
    assert Joins(finder, view, root, es, Join(es[i], f), i, f);
  }

  lemma OverApart(finder: Finder, view: RevisionView, root: Node, es: seq<Entry>, e: Entry, f: Entry, g: Entry)
    requires Found(root, es) && (forall i :: 0 <= i < |es| ==> EntriesApart(e, es[i]))
    requires g in Over(finder, view, root, es)
    ensures EntriesApart(Join(e, f), g)
  {
    hide Find, Over;
    var k, h := OverSplits(finder, view, root, es, g);
    JoinsApart(e, es[k], f, h);
  }

  lemma GraftSeparate(e: Entry, es: seq<Entry>)
    requires Separate(es)
    ensures Separate(Graft(e, es))
  {
    forall i, j | 0 <= i < j < |es|
      ensures EntriesApart(Join(e, es[i]), Join(e, es[j]))
    {
      JoinApart(e, es[i], es[j]);
    }
  }

  lemma ConcatSeparate(a: seq<Entry>, b: seq<Entry>)
    requires Separate(a) && Separate(b)
    requires forall i, j :: 0 <= i < |a| && 0 <= j < |b| ==> EntriesApart(a[i], b[j])
    ensures Separate(a + b)
  {
    forall i, j | 0 <= i < j < |a + b|
      ensures EntriesApart((a + b)[i], (a + b)[j])
    {
      if i < |a| <= j {
        assert EntriesApart(a[i], b[j - |a|]);
      } else if |a| <= i {
        assert EntriesApart(b[i - |a|], b[j - |a|]);
      }
    }
  }

  lemma {:induction false} OverSeparate(finder: Finder, view: RevisionView, root: Node, es: seq<Entry>)
    requires Found(root, es) && Separate(es)
    ensures Separate(Over(finder, view, root, es))
  {
    if es != [] {
      OverSeparate(finder, view, root, es[1..]);
      var found := Find(finder, view, At(root, es[0].pos));
      FindSeparate(finder, view, At(root, es[0].pos));
      GraftSeparate(es[0], found);
      var here, rest := Graft(es[0], found), Over(finder, view, root, es[1..]);
      hide EntriesApart, Find;
      assert forall i :: 0 <= i < |es[1..]| ==> EntriesApart(es[0], es[1..][i]);
      forall i, j | 0 <= i < |here| && 0 <= j < |rest|
        ensures EntriesApart(here[i], rest[j])
      {
        OverApart(finder, view, root, es[1..], es[0], found[i], rest[j]);
      }
      ConcatSeparate(here, rest);
    }
  }

  lemma {:induction false} DirectSeparate(cell: Node, k: nat)
    requires k <= |cell.children|
    ensures Separate(DirectFrom(cell, k))
    decreases |cell.children| - k
  {
    if k < |cell.children| {
      DirectSeparate(cell, k + 1);
      DirectMember(cell, k + 1);
      var rest := DirectFrom(cell, k + 1);
      forall i | 0 <= i < |rest|
        ensures EntriesApart(Entry([k], [Tbl(k)]), rest[i])
      {
        assert rest[i] in rest;
        DifferApart([k], rest[i].pos, 0);
        DifferApart([Tbl(k)], rest[i].path, 0);
      }
    }
  }

  lemma {:induction false} NestedSeparate(ps: seq<Pos>, n: nat)
    requires n <= |ps| && PosApart(ps)
    ensures Separate(NestedFrom(ps, n))
    decreases |ps| - n
  {
    if n < |ps| {
      NestedSeparate(ps, n + 1);
      NestedMember(ps, n + 1);
      var rest := NestedFrom(ps, n + 1);
      forall i | 0 <= i < |rest|
        ensures EntriesApart(Entry(ps[n], [WrappedTbl(n)]), rest[i])
      {
        assert rest[i] in rest;
        DifferApart([WrappedTbl(n)], rest[i].path, 0);
      }
    }
  }

  lemma BoxedSeparate(view: RevisionView, container: Node)
    ensures Separate(BoxedEntries(view, container))
  {
    BoxedAtApart(view, container, false);
    var ps, r := BoxedAt(view, container, false), BoxedEntries(view, container);
    forall i, j | 0 <= i < j < |r|
      ensures EntriesApart(r[i], r[j])
    {
      var k := ApartAt(ps[i], ps[j]);
      var a, b := Steps(container, ps[i]), Steps(container, ps[j]);
      assert a[k].i != b[k].i;
      DifferApart(a, b, k);
      ApartUnder([Embedded, Container(container.name)], a, b);
    }
  }

  lemma FindSeparate(finder: Finder, view: RevisionView, node: Node)
    ensures Separate(Find(finder, view, node))
  {
    match finder {
      case RowFinder =>
        WrappedFromApart(view, node, "tr", 0);
        NumberedSeparate(Wrapped(view, node, "tr"), false);
      case CellFinder =>
        WrappedFromApart(view, node, "tc", 0);
        NumberedSeparate(Wrapped(view, node, "tc"), true);
      case DirectTables => DirectSeparate(node, 0);
      case WrappedTables =>
        WrappedFromApart(view, node, "tbl", 0);
        NestedSeparate(Wrapped(view, node, "tbl"), 0);
      case BoxedTables => BoxedSeparate(view, node);
    }
  }

  lemma NumberedSeparate(ps: seq<Pos>, cells: bool)
    requires PosApart(ps)
    ensures Separate(Numbered(ps, cells))
  {
    var r := Numbered(ps, cells);
    forall i, j | 0 <= i < j < |r|
      ensures EntriesApart(r[i], r[j])
    {
      DifferApart(r[i].path, r[j].path, 0);
    }
  }

  lemma CellsSeparate(view: RevisionView, table: Node)
    ensures Separate(CellEntries(view, table))
  {
    FindSeparate(RowFinder, view, table);
    OverSeparate(CellFinder, view, table, Find(RowFinder, view, table));
  }
}
