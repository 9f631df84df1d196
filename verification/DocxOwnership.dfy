/**
 The three table layers together emit the tables of the effective view, each once, by its nearest
 enclosing table and under its own path.
 */
module DocxOwnership {
  import opened Basics
  import opened DocxTree
  import opened DocxView

  // ----- walks and traces -----

  lemma {:induction false} TraceConcat(view: RevisionView, mode: Mode, node: Node, a: Pos, b: Pos)
    requires ValidAt(node, a) && ValidAt(At(node, a), b) && ValidAt(node, a + b)
    ensures Trace(view, mode, node, a).Go? ==>
              Trace(view, mode, node, a + b) == Trace(view, Trace(view, mode, node, a).mode, At(node, a), b)
    ensures !Trace(view, mode, node, a).Go? && b != [] ==> Trace(view, mode, node, a + b) == Dead
    decreases |a|
  {
    if a == [] {
      assert a + b == b;
    } else {
      assert (a + b)[1..] == a[1..] + b;
      match Step(view, mode, node, a[0]) {
        case Dead =>
        case Table =>
        case Go(next) => TraceConcat(view, next, node.children[a[0]], a[1..], b);
      }
    }
  }

  function TargetOf(goal: Goal): string {
    if goal == Rows then "tr" else "tc"
  }

  function After(goal: Goal): Mode {
    if goal == Rows then Seek(Cells, Clean) else Inside(Clean, false)
  }

  lemma {:induction false} WrappedFromMember(view: RevisionView, node: Node, target: string, k: nat, p: Pos)
    requires k <= |node.children|
    ensures p in WrappedFrom(view, node, target, k) <==>
            p != [] && k <= p[0] < |node.children| && p in WrappedChild(view, node, target, p[0])
    decreases |node.children| - k
  {
    if k < |node.children| {
      WrappedFromMember(view, node, target, k + 1, p);
      WrappedChildApart(view, node, target, k);
    }
  }

  lemma {:induction false} BoxedFromMember(view: RevisionView, node: Node, inside: bool, k: nat, p: Pos)
    requires k <= |node.children|
    ensures p in BoxedFrom(view, node, inside, k) <==>
            p != [] && k <= p[0] < |node.children| && p[1..] in BoxedAt(view, node.children[p[0]], inside)
    decreases |node.children| - k
  {
    if k < |node.children| {
      BoxedFromMember(view, node, inside, k + 1, p);
      UnderMember([k], BoxedAt(view, node.children[k], inside), p);
      if p != [] && p[0] == k {
        assert p == [k] + p[1..];
      }
    }
  }

  lemma UnderMember(prefix: Pos, ps: seq<Pos>, p: Pos)
    ensures p in Under(prefix, ps) <==> prefix <= p && p[|prefix|..] in ps
  {
    if p in Under(prefix, ps) {
      var i :| 0 <= i < |ps| && p == prefix + ps[i];
      assert p[|prefix|..] == ps[i];
    }
    if prefix <= p && p[|prefix|..] in ps {
      var i :| 0 <= i < |ps| && ps[i] == p[|prefix|..];
      assert p == prefix + ps[i];
      assert Under(prefix, ps)[i] == p;
    }
  }

  /** What one child contributes to a walk through wrappers. */
  lemma WrappedChildMember(view: RevisionView, node: Node, target: string, p: Pos)
    requires p != [] && p[0] < |node.children|
    ensures var child := node.children[p[0]];
            p in WrappedChild(view, node, target, p[0]) <==>
            if child.name == target then |p| == 1
            else IsWrapper(child.name) && !Excluded(view, child.name)
                 && if child.name == "sdt" then
                      SdtContent(child).Some? && |p| > 1 && p[1] == SdtContent(child).value
                      && p[2..] in Wrapped(view, child.children[p[1]], target)
                    else p[1..] in Wrapped(view, child, target)
  {
    var child := node.children[p[0]];
    assert |p| == 1 <==> p == [p[0]];
    if child.name == "sdt" && SdtContent(child).Some? {
      var c := SdtContent(child).value;
      UnderMember([p[0], c], Wrapped(view, child.children[c], target), p);
      assert [p[0], c] <= p <==> |p| > 1 && p[1] == c;
    } else {
      UnderMember([p[0]], Wrapped(view, child, target), p);
    }
  }

  /** Every row found under a table, and every cell found under a row, is reached by the automaton. */
  lemma {:induction false} WrappedIsSought(view: RevisionView, goal: Goal, node: Node, p: Pos)
    requires goal != Blocks && p in Wrapped(view, node, TargetOf(goal))
    ensures ValidAt(node, p) && Trace(view, Seek(goal, Clean), node, p) == Go(After(goal))
    decreases node
  {
    var target := TargetOf(goal);
    WrappedFromMember(view, node, target, 0, p);
    WrappedChildMember(view, node, target, p);
    var child := node.children[p[0]];
    if child.name != target {
      if child.name == "sdt" {
        WrappedIsSought(view, goal, child.children[p[1]], p[2..]);
        assert p[1..][1..] == p[2..];
        assert Step(view, Seek(goal, AtSdt), child, p[1]) == Go(Seek(goal, Clean));
      } else {
        WrappedIsSought(view, goal, child, p[1..]);
      }
    }
  }

  /** A walk to a table below a table passes a row first, and below a row it passes a cell first. */
  lemma {:induction false} SoughtPassesTarget(view: RevisionView, goal: Goal, node: Node, p: Pos) returns (n: nat)
    requires goal != Blocks && ValidAt(node, p) && Trace(view, Seek(goal, Clean), node, p) == Table
    ensures n <= |p| && p[..n] in Wrapped(view, node, TargetOf(goal))
    ensures ValidAt(node, p[..n]) && ValidAt(At(node, p[..n]), p[n..])
    ensures Trace(view, After(goal), At(node, p[..n]), p[n..]) == Table
    decreases node
  {
    n := FirstTarget(view, goal, node, p);
    hide Wrapped, Trace;
    WrappedIsSought(view, goal, node, p[..n]);
    assert p == p[..n] + p[n..];
    AtConcat(node, p[..n], p[n..]);
    TraceConcat(view, Seek(goal, Clean), node, p[..n], p[n..]);
  }

  lemma {:induction false} FirstTarget(view: RevisionView, goal: Goal, node: Node, p: Pos) returns (n: nat)
    requires goal != Blocks && ValidAt(node, p) && Trace(view, Seek(goal, Clean), node, p) == Table
    ensures n <= |p| && p[..n] in Wrapped(view, node, TargetOf(goal))
    decreases node
  {
    var target := TargetOf(goal);
    var child := node.children[p[0]];
    if child.name == target {
      n := 1;
    } else if child.name == "sdt" {
      assert p[1..][1..] == p[2..];
      var m := FirstTarget(view, goal, child.children[p[1]], p[2..]);
      n := m + 2;
      assert p[..n][2..] == p[2..][..m];
    } else {
      var m := FirstTarget(view, goal, child, p[1..]);
      n := m + 1;
      assert p[..n][1..] == p[1..][..m];
    }
    WrappedChildMember(view, node, target, p[..n]);
    WrappedFromMember(view, node, target, 0, p[..n]);
  }

  lemma {:induction false} WrappedTableIsSeen(view: RevisionView, node: Node, boxed: bool, p: Pos)
    requires node.name != "AlternateContent" && p in Wrapped(view, node, "tbl")
    ensures ValidAt(node, p) && Trace(view, Inside(Clean, boxed), node, p) == Table
    decreases node
  {
    WrappedFromMember(view, node, "tbl", 0, p);
    WrappedChildMember(view, node, "tbl", p);
    var child := node.children[p[0]];
    if child.name != "tbl" {
      hide Wrapped, WrappedFrom, WrappedChild;
      if child.name == "sdt" {
        WrappedTableIsSeen(view, child.children[p[1]], boxed, p[2..]);
        assert p[1..][1..] == p[2..];
      } else {
        WrappedTableIsSeen(view, child, boxed, p[1..]);
      }
    }
  }

  lemma ThroughBranch(view: RevisionView, node: Node, track: Track, inside: bool, p: Pos)
    requires node.name == "AlternateContent" && p in BoxedAt(view, node, inside)
    ensures SelectedBranch(node).Some? && p != [] && p[0] == SelectedBranch(node).value
    ensures p[1..] in BoxedFrom(view, node.children[p[0]], inside, 0)
    ensures ValidAt(node.children[p[0]], p[1..]) ==>
              Trace(view, Inside(track, inside), node, p) == Trace(view, Inside(Off, inside), node.children[p[0]], p[1..])
  {
    var b := SelectedBranch(node).value;
    UnderMember([b], BoxedFrom(view, node.children[b], inside, 0), p);
  }

  lemma {:induction false} BoxedTableIsSeen(view: RevisionView, node: Node, track: Track, inside: bool, p: Pos)
    requires node.name != "AlternateContent" && p in BoxedFrom(view, node, inside, 0)
    ensures ValidAt(node, p) && Trace(view, Inside(track, inside), node, p) == Table
    decreases node, 1
  {
    hide NextTrack;
    BoxedFromMember(view, node, inside, 0, p);
    var child := node.children[p[0]];
    if child.name != "tbl" {
      BoxedAtIsSeen(view, child, NextTrack(track, node, p[0]), inside, p[1..]);
    }
  }

  lemma {:induction false} BoxedAtIsSeen(view: RevisionView, node: Node, track: Track, inside: bool, p: Pos)
    requires node.name != "tbl" && p in BoxedAt(view, node, inside)
    ensures !Excluded(view, node.name)
    ensures ValidAt(node, p) && Trace(view, Inside(track, inside || node.name == "txbxContent"), node, p) == Table
    decreases node, 2
  {
    hide NextTrack;
    if node.name == "AlternateContent" {
      ThroughBranch(view, node, track, inside, p);
      BoxedTableIsSeen(view, node.children[p[0]], Off, inside, p[1..]);
    } else {
      BoxedTableIsSeen(view, node, track, inside || node.name == "txbxContent", p);
    }
  }

  /** The table is reached through wrappers only, from a node whose children count or from an sdt. */
  predicate ThroughWrappers(view: RevisionView, node: Node, track: Track, p: Pos) {
    match track
    case Clean => p in Wrapped(view, node, "tbl")
    case AtSdt => p != [] && SdtContent(node) == Some(p[0]) && p[1..] in Wrapped(view, node.children[p[0]], "tbl")
    case Off => false
  }

  /** A table the automaton reaches inside a cell or paragraph is found by one of the two walks. */
  lemma {:induction false} SeenTableIsFound(view: RevisionView, node: Node, track: Track, inside: bool, p: Pos)
    requires ValidAt(node, p) && Trace(view, Inside(track, inside), node, p) == Table
    ensures if node.name == "AlternateContent" then p in BoxedAt(view, node, inside)
            else p in BoxedFrom(view, node, inside, 0) || ThroughWrappers(view, node, track, p)
    decreases node
  {
    var child := node.children[p[0]];
    if node.name == "AlternateContent" {
      var b := SelectedBranch(node).value;
      SeenTableIsFound(view, child, Off, inside, p[1..]);
      UnderMember([b], BoxedFrom(view, child, inside, 0), p);
    } else {
      BoxedFromMember(view, node, inside, 0, p);
      if child.name == "tbl" {
        if !inside {
          WrappedChildMember(view, node, "tbl", p);
          WrappedFromMember(view, node, "tbl", 0, p);
        }
      } else {
        var next := NextTrack(track, node, p[0]);
        SeenTableIsFound(view, child, next, inside || child.name == "txbxContent", p[1..]);
        if child.name == "AlternateContent" || p[1..] in BoxedFrom(view, child, inside || child.name == "txbxContent", 0) {
          assert p[1..] in BoxedAt(view, child, inside);
        } else if track == Clean {
          assert next == AtSdt ==> p[1..][1..] == p[2..];
          WrappedChildMember(view, node, "tbl", p);
          WrappedFromMember(view, node, "tbl", 0, p);
        }
      }
    }
  }

  // ----- the two kinds of nested tables do not meet -----

  /** Some node on the way is text-box content. */
  predicate PassesBox(node: Node, p: Pos)
    requires ValidAt(node, p)
    decreases |p|
  {
    node.name == "txbxContent" || (p != [] && PassesBox(node.children[p[0]], p[1..]))
  }

  lemma {:induction false} BoxedPassesBox(view: RevisionView, node: Node, p: Pos)
    requires ValidAt(node, p) && p in BoxedAt(view, node, false)
    ensures PassesBox(node, p)
    decreases node
  {
    if node.name == "AlternateContent" {
      var b := SelectedBranch(node).value;
      UnderMember([b], BoxedFrom(view, node.children[b], false, 0), p);
      BoxedFromMember(view, node.children[b], false, 0, p[1..]);
      BoxedPassesBox(view, node.children[b].children[p[1]], p[1..][1..]);
      assert PassesBox(node.children[b], p[1..]);
    } else if node.name != "txbxContent" {
      BoxedFromMember(view, node, false, 0, p);
      BoxedPassesBox(view, node.children[p[0]], p[1..]);
    }
  }

  lemma {:induction false} WrappedPassesNoBox(view: RevisionView, node: Node, p: Pos)
    requires node.name != "txbxContent" && ValidAt(node, p) && p in Wrapped(view, node, "tbl")
    ensures !PassesBox(node, p)
    decreases node
  {
    WrappedFromMember(view, node, "tbl", 0, p);
    WrappedChildMember(view, node, "tbl", p);
    var child := node.children[p[0]];
    if child.name == "sdt" {
      assert p[1..][1..] == p[2..];
      WrappedPassesNoBox(view, child.children[p[1]], p[2..]);
    } else if child.name != "tbl" {
      WrappedPassesNoBox(view, child, p[1..]);
    }
  }

  /** Tables reached by two different walks are never on one path. */
  lemma TablesApart(view: RevisionView, mode: Mode, node: Node, p: Pos, q: Pos)
    requires ValidAt(node, p) && ValidAt(node, q)
    requires Trace(view, mode, node, p) == Table && Trace(view, mode, node, q) == Table && p != q
    ensures Apart(p, q)
  {
    TableEndsTrace(view, mode, node, p, q);
    TableEndsTrace(view, mode, node, q, p);
  }

  lemma TableEndsTrace(view: RevisionView, mode: Mode, node: Node, p: Pos, q: Pos)
    requires ValidAt(node, p) && ValidAt(node, q)
    requires Trace(view, mode, node, p) == Table && Trace(view, mode, node, q) == Table && p != q
    ensures !(p <= q)
  {
    if p <= q {
      assert q == p + q[|p|..];
      AtConcat(node, p, q[|p|..]);
      TraceConcat(view, mode, node, p, q[|p|..]);
    }
  }

  predicate IsTableFinder(finder: Finder) {
    finder == DirectTables || finder == WrappedTables || finder == BoxedTables
  }

  lemma FoundPosition(finder: Finder, view: RevisionView, cell: Node, f: Entry)
    requires IsTableFinder(finder) && f in Find(finder, view, cell)
    ensures finder == DirectTables ==> f.pos in Wrapped(view, cell, "tbl") && |f.pos| == 1 && |f.path| == 1 && f.path[0].Tbl?
    ensures finder == WrappedTables ==> f.pos in Wrapped(view, cell, "tbl") && |f.pos| > 1 && |f.path| == 1 && f.path[0].WrappedTbl?
    ensures finder == BoxedTables ==> f.pos in BoxedAt(view, cell, false) && |f.path| >= 1 && f.path[0].Embedded?
  {
    match finder {
      case DirectTables =>
        DirectMember(cell, 0);
        WrappedChildMember(view, cell, "tbl", f.pos);
        WrappedFromMember(view, cell, "tbl", 0, f.pos);
      case WrappedTables => NestedMember(Wrapped(view, cell, "tbl"), 0);
      case BoxedTables =>
    }
  }

  ghost predicate FoundBySome(view: RevisionView, cell: Node, p: Pos) {
    exists finder, f :: IsTableFinder(finder) && f in Find(finder, view, cell) && f.pos == p
  }

  lemma WrappedIsFound(view: RevisionView, cell: Node, p: Pos)
    requires p in Wrapped(view, cell, "tbl")
    ensures FoundBySome(view, cell, p)
  {
    var ps := Wrapped(view, cell, "tbl");
    var i :| 0 <= i < |ps| && ps[i] == p;
    WrappedFromApart(view, cell, "tbl", 0);
    if |p| == 1 {
      DirectMember(cell, 0);
      WrappedFromMember(view, cell, "tbl", 0, p);
      WrappedChildMember(view, cell, "tbl", p);
      NoEmptyWrapped(view, cell.children[p[0]]);
      assert Entry(p, [Tbl(p[0])]) in Find(DirectTables, view, cell);
    } else {
      NestedMember(ps, 0);
      assert p != [];
      assert IsNested(ps, i, Entry(p, [WrappedTbl(i)]));
      assert Entry(p, [WrappedTbl(i)]) in Find(WrappedTables, view, cell);
    }
  }

  lemma BoxedIsFound(view: RevisionView, cell: Node, p: Pos)
    requires p in BoxedAt(view, cell, false)
    ensures FoundBySome(view, cell, p)
  {
    var ps := BoxedAt(view, cell, false);
    var i :| 0 <= i < |ps| && ps[i] == p;
    assert BoxedEntries(view, cell)[i] in Find(BoxedTables, view, cell);
  }

  /** The three layers find, in a cell, exactly the tables the automaton reaches there. */
  lemma FoundConversely(view: RevisionView, cell: Node, p: Pos)
    requires cell.name == "tc" && ValidAt(cell, p)
    ensures FoundBySome(view, cell, p) <==> Trace(view, Inside(Clean, false), cell, p) == Table
  {
    if FoundBySome(view, cell, p) {
      var finder, f :| IsTableFinder(finder) && f in Find(finder, view, cell) && f.pos == p;
      FoundIsSeen(finder, view, cell, f);
    }
    if Trace(view, Inside(Clean, false), cell, p) == Table {
      SeenTableIsFound(view, cell, Clean, false, p);
      if p in Wrapped(view, cell, "tbl") {
        WrappedIsFound(view, cell, p);
      } else {
        BoxedIsFound(view, cell, p);
      }
    }
  }

  lemma NoEmptyWrapped(view: RevisionView, node: Node)
    ensures [] !in Wrapped(view, node, "tbl")
  {
    WrappedFromApart(view, node, "tbl", 0);
  }

  lemma FoundIsSeen(finder: Finder, view: RevisionView, cell: Node, f: Entry)
    requires cell.name == "tc" && IsTableFinder(finder) && f in Find(finder, view, cell)
    ensures ValidAt(cell, f.pos) && Trace(view, Inside(Clean, false), cell, f.pos) == Table
  {
    FoundPosition(finder, view, cell, f);
    if finder == BoxedTables {
      BoxedTableIsSeen(view, cell, Clean, false, f.pos);
    } else {
      WrappedTableIsSeen(view, cell, false, f.pos);
    }
  }

  /** Two layers never find the same table of a cell, nor give two tables related paths. */
  lemma LayersApart(a: Finder, b: Finder, view: RevisionView, cell: Node, f: Entry, g: Entry)
    requires cell.name == "tc" && IsTableFinder(a) && IsTableFinder(b) && a != b
    requires f in Find(a, view, cell) && g in Find(b, view, cell)
    ensures EntriesApart(f, g)
  {
    FoundPosition(a, view, cell, f);
    FoundPosition(b, view, cell, g);
    FoundIsSeen(a, view, cell, f);
    FoundIsSeen(b, view, cell, g);
    if f.pos == g.pos {
      BoxedPassesBoxIf(a, view, cell, f);
      BoxedPassesBoxIf(b, view, cell, g);
    }
    TablesApart(view, Inside(Clean, false), cell, f.pos, g.pos);
    DifferApart(f.path, g.path, 0);
  }

  lemma BoxedPassesBoxIf(finder: Finder, view: RevisionView, cell: Node, f: Entry)
    requires cell.name == "tc" && IsTableFinder(finder) && f in Find(finder, view, cell)
    ensures PassesBox(cell, f.pos) <==> finder == BoxedTables
  {
    FoundPosition(finder, view, cell, f);
    if finder == BoxedTables {
      BoxedPassesBox(view, cell, f.pos);
    } else {
      WrappedPassesNoBox(view, cell, f.pos);
    }
  }

  // ----- what a table owns -----

  lemma {:induction false} WrappedName(view: RevisionView, node: Node, target: string, p: Pos)
    requires p in Wrapped(view, node, target)
    ensures ValidAt(node, p) && At(node, p).name == target
    decreases node
  {
    WrappedFromMember(view, node, target, 0, p);
    WrappedChildMember(view, node, target, p);
    var child := node.children[p[0]];
    if child.name != target {
      if child.name == "sdt" {
        assert p[1..][1..] == p[2..];
        WrappedName(view, child.children[p[1]], target, p[2..]);
      } else {
        WrappedName(view, child, target, p[1..]);
      }
    } else {
      assert p[1..] == [];
    }
  }

  ghost predicate HasPos(es: seq<Entry>, p: Pos) {
    exists e :: e in es && e.pos == p
  }

  lemma NumberedPositions(ps: seq<Pos>, cells: bool, p: Pos)
    ensures HasPos(Numbered(ps, cells), p) <==> p in ps
  {
    var r := Numbered(ps, cells);
    if p in ps {
      var i :| 0 <= i < |ps| && ps[i] == p;
      assert r[i] in r && r[i].pos == p;
    }
  }

  lemma RowsFound(view: RevisionView, node: Node, p: Pos)
    ensures HasPos(Find(RowFinder, view, node), p) <==> p in Wrapped(view, node, "tr")
    ensures HasPos(Find(CellFinder, view, node), p) <==> p in Wrapped(view, node, "tc")
  {
    NumberedPositions(Wrapped(view, node, "tr"), false, p);
    NumberedPositions(Wrapped(view, node, "tc"), true, p);
  }

  lemma RowThenCell(view: RevisionView, table: Node, row: Pos, cell: Pos)
    requires row in Wrapped(view, table, "tr") && ValidAt(table, row) && cell in Wrapped(view, At(table, row), "tc")
    ensures ValidAt(table, row + cell) && At(table, row + cell).name == "tc"
    ensures Trace(view, Seek(Rows, Clean), table, row + cell) == Go(Inside(Clean, false))
  {
    WrappedIsSought(view, Rows, table, row);
    WrappedIsSought(view, Cells, At(table, row), cell);
    WrappedName(view, At(table, row), "tc", cell);
    AtConcat(table, row, cell);
    hide Trace, Wrapped;
    TraceConcat(view, Seek(Rows, Clean), table, row, cell);
  }

  /** The cells of a table are where the automaton starts to look inside. */
  lemma CellIsSought(view: RevisionView, table: Node, e: Entry)
    requires e in CellEntries(view, table)
    ensures ValidAt(table, e.pos) && At(table, e.pos).name == "tc"
    ensures Trace(view, Seek(Rows, Clean), table, e.pos) == Go(Inside(Clean, false))
  {
    hide Find, Trace, Wrapped;
    var rows := Find(RowFinder, view, table);
    var i, f := OverSplits(CellFinder, view, table, rows, e);
    RowsFound(view, table, rows[i].pos);
    RowsFound(view, At(table, rows[i].pos), f.pos);
    RowThenCell(view, table, rows[i].pos, f.pos);
  }

  lemma CellIsListed(view: RevisionView, table: Node, row: Pos, cell: Pos)
    requires row in Wrapped(view, table, "tr") && ValidAt(table, row) && cell in Wrapped(view, At(table, row), "tc")
    ensures HasPos(CellEntries(view, table), row + cell)
  {
    var rows := Find(RowFinder, view, table);
    NumberedPositions(Wrapped(view, table, "tr"), false, row);
    NumberedPositions(Wrapped(view, At(table, row), "tc"), true, cell);
    assert HasPos(rows, row) && HasPos(Find(CellFinder, view, At(table, row)), cell);
    hide Find, Wrapped, Over, At;
    var r :| r in rows && r.pos == row;
    var i :| 0 <= i < |rows| && rows[i] == r;
    var f :| f in Find(CellFinder, view, At(table, row)) && f.pos == cell;
    JoinedIsOver(CellFinder, view, table, rows, i, f);
    assert Join(r, f).pos == row + cell;
  }

  lemma LayerTrace(finder: Finder, view: RevisionView, table: Node, e: Entry)
    requires IsTableFinder(finder) && e in Layer(finder, view, table)
    ensures ValidAt(table, e.pos) && Trace(view, Seek(Rows, Clean), table, e.pos) == Table
  {
    var cells := CellEntries(view, table);
    hide Find, Trace, At;
    var i, f := OverSplits(finder, view, table, cells, e);
    CellIsSought(view, table, cells[i]);
    FoundIsSeen(finder, view, At(table, cells[i].pos), f);
    AtConcat(table, cells[i].pos, f.pos);
    TraceConcat(view, Seek(Rows, Clean), table, cells[i].pos, f.pos);
  }

  lemma FoundInCellIsOwned(view: RevisionView, table: Node, c: Entry, rest: Pos)
    requires c in CellEntries(view, table) && ValidAt(table, c.pos) && FoundBySome(view, At(table, c.pos), rest)
    ensures HasPos(Owned(view, table), c.pos + rest)
  {
    hide Find;
    var finder, f :| IsTableFinder(finder) && f in Find(finder, view, At(table, c.pos)) && f.pos == rest;
    var cells := CellEntries(view, table);
    var i :| 0 <= i < |cells| && cells[i] == c;
    JoinedIsOver(finder, view, table, cells, i, f);
    assert Join(c, f) in Layer(finder, view, table);
    assert Join(c, f) in Owned(view, table);
  }

  lemma PassesRowAndCell(view: RevisionView, table: Node, p: Pos) returns (row: Pos, cell: Pos, rest: Pos)
    requires ValidAt(table, p) && Trace(view, Seek(Rows, Clean), table, p) == Table
    ensures row in Wrapped(view, table, "tr") && ValidAt(table, row)
    ensures cell in Wrapped(view, At(table, row), "tc") && ValidAt(At(table, row), cell)
    ensures ValidAt(At(At(table, row), cell), rest)
    ensures Trace(view, Inside(Clean, false), At(At(table, row), cell), rest) == Table
    ensures p == (row + cell) + rest
  {
    hide Trace, Wrapped, ValidAt, At;
    var m := SoughtPassesTarget(view, Rows, table, p);
    row := p[..m];
    var n := SoughtPassesTarget(view, Cells, At(table, row), p[m..]);
    cell, rest := p[m..][..n], p[m..][n..];
  }

  lemma TraceToTableIsOwned(view: RevisionView, table: Node, p: Pos)
    requires ValidAt(table, p) && Trace(view, Seek(Rows, Clean), table, p) == Table
    ensures HasPos(Owned(view, table), p)
  {
    var row, cell, rest := PassesRowAndCell(view, table, p);
    hide Trace, Wrapped, Owned, CellEntries, ValidAt, At;
    CellIsListed(view, table, row, cell);
    var c :| c in CellEntries(view, table) && c.pos == row + cell;
    CellIsSought(view, table, c);
    AtConcat(table, row, cell);
    FoundConversely(view, At(table, c.pos), rest);
    FoundInCellIsOwned(view, table, c, rest);
  }

  /** A table owns exactly the tables the automaton reaches first below it. */
  lemma OwnedIsReached(view: RevisionView, table: Node, p: Pos)
    requires ValidAt(table, p)
    ensures HasPos(Owned(view, table), p) <==> Trace(view, Seek(Rows, Clean), table, p) == Table
  {
    if HasPos(Owned(view, table), p) {
      var e :| e in Owned(view, table) && e.pos == p;
      var finder :| IsTableFinder(finder) && e in Layer(finder, view, table);
      LayerTrace(finder, view, table, e);
    }
    if Trace(view, Seek(Rows, Clean), table, p) == Table {
      TraceToTableIsOwned(view, table, p);
    }
  }

  lemma LayerPairApart(a: Finder, b: Finder, view: RevisionView, table: Node, e: Entry, d: Entry)
    requires IsTableFinder(a) && IsTableFinder(b) && a != b
    requires e in Layer(a, view, table) && d in Layer(b, view, table)
    ensures EntriesApart(e, d)
  {
    var cells := CellEntries(view, table);
    hide Find;
    var i, f := OverSplits(a, view, table, cells, e);
    var j, g := OverSplits(b, view, table, cells, d);
    CellsSeparate(view, table);
    if i == j {
      CellIsSought(view, table, cells[i]);
      LayersApart(a, b, view, At(table, cells[i].pos), f, g);
      JoinApart(cells[i], f, g);
    } else {
      assert EntriesApart(cells[if i < j then i else j], cells[if i < j then j else i]);
      JoinsApart(cells[i], cells[j], f, g);
    }
  }

  lemma LayersSeparate(a: Finder, b: Finder, view: RevisionView, table: Node)
    requires IsTableFinder(a) && IsTableFinder(b) && a != b
    ensures Separate(Layer(a, view, table)) && Separate(Layer(b, view, table))
    ensures forall i, j :: 0 <= i < |Layer(a, view, table)| && 0 <= j < |Layer(b, view, table)| ==>
              EntriesApart(Layer(a, view, table)[i], Layer(b, view, table)[j])
  {
    CellsSeparate(view, table);
    OverSeparate(a, view, table, CellEntries(view, table));
    OverSeparate(b, view, table, CellEntries(view, table));
    forall i, j | 0 <= i < |Layer(a, view, table)| && 0 <= j < |Layer(b, view, table)| {
      LayerPairApart(a, b, view, table, Layer(a, view, table)[i], Layer(b, view, table)[j]);
    }
  }

  /** The tables a table owns are at unrelated positions and get unrelated paths. */
  lemma OwnedSeparate(view: RevisionView, table: Node)
    ensures Separate(Owned(view, table))
  {
    hide EntriesApart, Layer;
    LayersSeparate(DirectTables, WrappedTables, view, table);
    LayersSeparate(DirectTables, BoxedTables, view, table);
    LayersSeparate(WrappedTables, BoxedTables, view, table);
    var a, b, c := Layer(DirectTables, view, table), Layer(WrappedTables, view, table), Layer(BoxedTables, view, table);
    ConcatSeparate(a, b);
    forall i, j | 0 <= i < |a + b| && 0 <= j < |c|
      ensures EntriesApart((a + b)[i], c[j])
    {
      if i < |a| {
        assert EntriesApart(a[i], c[j]);
      } else {
        assert EntriesApart(b[i - |a|], c[j]);
      }
    }
    ConcatSeparate(a + b, c);
  }
}
