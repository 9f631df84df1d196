/**
 The tables a whole document emits: every table of the effective view exactly once, under a path of
 its own, with its nearest enclosing table as parent group.
 */
module DocxEmissions {
  import opened Basics
  import opened DocxTree
  import opened DocxView
  import opened DocxOwnership

  /** One emitted table: where it is, its path, and the path of its parent group. */
  datatype Emission = Emission(pos: Pos, path: Path, parent: Option<Path>)

  /** An emission of the subtree at `e`, as seen from above; `top` is the parent of the subtree's root. */
  function PlantOne(e: Entry, top: Option<Path>, m: Emission): Emission {
    Emission(e.pos + m.pos, e.path + m.path, if m.parent.None? then top else Some(e.path + m.parent.value))
  }

  function Plant(e: Entry, top: Option<Path>, ms: seq<Emission>): (r: seq<Emission>)
    ensures |r| == |ms| && forall i :: 0 <= i < |ms| ==> r[i] == PlantOne(e, top, ms[i])
  {
    seq(|ms|, i requires 0 <= i < |ms| => PlantOne(e, top, ms[i]))
  }

  /** A table's own emission, then those of the tables it owns. */
  function Emissions(view: RevisionView, table: Node): seq<Emission>
    decreases table, 1, 0
  {
    [Emission([], [], None)] + EmissionsOver(view, table, Some([]), Owned(view, table))
  }

  function EmissionsOver(view: RevisionView, root: Node, top: Option<Path>, es: seq<Entry>): seq<Emission>
    requires Found(root, es)
    decreases root, 0, |es|
  {
    if es == [] then []
    else Plant(es[0], top, Emissions(view, At(root, es[0].pos))) + EmissionsOver(view, root, top, es[1..])
  }

  lemma {:induction false} OverHasEmission(view: RevisionView, root: Node, top: Option<Path>, es: seq<Entry>, m: Emission)
    requires Found(root, es)
    ensures m in EmissionsOver(view, root, top, es) <==>
            exists i, n :: 0 <= i < |es| && n in Emissions(view, At(root, es[i].pos)) && m == PlantOne(es[i], top, n)
  {
    hide Emissions;
    if es != [] {
      OverHasEmission(view, root, top, es[1..], m);
      var below := Emissions(view, At(root, es[0].pos));
      if m in Plant(es[0], top, below) {
        var k :| 0 <= k < |below| && m == PlantOne(es[0], top, below[k]);
        assert below[k] in below;
      }
      if m in EmissionsOver(view, root, top, es[1..]) {
        var i, n :| 0 <= i < |es[1..]| && n in Emissions(view, At(root, es[1..][i].pos)) && m == PlantOne(es[1..][i], top, n);
        assert es[i + 1] == es[1..][i];
      }
      if i, n :| 0 <= i < |es| && n in Emissions(view, At(root, es[i].pos)) && m == PlantOne(es[i], top, n) {
        if i == 0 {
          var k :| 0 <= k < |below| && below[k] == n;
          assert Plant(es[0], top, below)[k] == m;
        } else {
          assert es[1..][i - 1] == es[i];
        }
      }
    }
  }

  ghost predicate EmitsAt(ms: seq<Emission>, p: Pos) {
    exists m :: m in ms && m.pos == p
  }

  // ----- exactly the tables of the view -----

  /** A seen table is the first one on its way, or is seen from the first one. */
  lemma {:induction false} SeesSplit(view: RevisionView, mode: Mode, node: Node, p: Pos) returns (n: nat)
    requires ValidAt(node, p) && Sees(view, mode, node, p)
    ensures 0 < n <= |p| && ValidAt(node, p[..n]) && ValidAt(At(node, p[..n]), p[n..])
    ensures Trace(view, mode, node, p[..n]) == Table
    ensures n < |p| ==> Sees(view, Seek(Rows, Clean), At(node, p[..n]), p[n..])
    decreases |p|
  {
    match Step(view, mode, node, p[0]) {
      case Table => n := 1;
      case Go(next) =>
        var m := SeesSplit(view, next, node.children[p[0]], p[1..]);
        n := m + 1;
        assert p[..n][1..] == p[1..][..m];
    }
    assert p == p[..n] + p[n..];
    AtConcat(node, p[..n], p[n..]);
  }

  lemma {:induction false} SeesThrough(view: RevisionView, mode: Mode, node: Node, a: Pos, b: Pos)
    requires ValidAt(node, a) && Trace(view, mode, node, a) == Table
    requires ValidAt(At(node, a), b) && ValidAt(node, a + b)
    ensures Sees(view, mode, node, a + b) <==> b == [] || Sees(view, Seek(Rows, Clean), At(node, a), b)
    decreases |a|
  {
    assert (a + b)[1..] == a[1..] + b;
    match Step(view, mode, node, a[0]) {
      case Table => assert a[1..] == [] && a[1..] + b == b;
      case Go(next) => SeesThrough(view, next, node.children[a[0]], a[1..], b);
    }
  }

  /** The tables below `root` that `es` starts from are the ones the automaton reaches first. */
  ghost predicate ReachedFirst(view: RevisionView, mode: Mode, root: Node, es: seq<Entry>) {
    Found(root, es)
    && forall p :: ValidAt(root, p) ==> (HasPos(es, p) <==> Trace(view, mode, root, p) == Table)
  }

  lemma {:induction false} TableEmitsTheSeen(view: RevisionView, table: Node, p: Pos)
    ensures EmitsAt(Emissions(view, table), p) <==>
            ValidAt(table, p) && (p == [] || Sees(view, Seek(Rows, Clean), table, p))
    decreases table, 1, 0
  {
    var es := Owned(view, table);
    var over := EmissionsOver(view, table, Some([]), es);
    forall q | ValidAt(table, q) {
      OwnedIsReached(view, table, q);
    }
    OverEmitsTheSeen(view, Seek(Rows, Clean), table, Some([]), es, p);
    var root := Emission([], [], None);
    assert Emissions(view, table) == [root] + over;
    if EmitsAt(over, p) {
      var m :| m in over && m.pos == p;
      assert m in Emissions(view, table);
    }
    if p == [] {
      assert root in Emissions(view, table);
    } else if EmitsAt(Emissions(view, table), p) {
      var m :| m in Emissions(view, table) && m.pos == p;
      assert m in over;
    }
  }

  lemma {:induction false} OverEmitsTheSeen(view: RevisionView, mode: Mode, root: Node, top: Option<Path>, es: seq<Entry>, p: Pos)
    requires ReachedFirst(view, mode, root, es)
    ensures EmitsAt(EmissionsOver(view, root, top, es), p) <==> ValidAt(root, p) && Sees(view, mode, root, p)
    decreases root, 0, 1
  {
    if EmitsAt(EmissionsOver(view, root, top, es), p) {
      EmittedIsSeen(view, mode, root, top, es, p);
    }
    if ValidAt(root, p) && Sees(view, mode, root, p) {
      SeenIsEmitted(view, mode, root, top, es, p);
    }
  }

  lemma {:induction false} EmittedIsSeen(view: RevisionView, mode: Mode, root: Node, top: Option<Path>, es: seq<Entry>, p: Pos)
    requires ReachedFirst(view, mode, root, es) && EmitsAt(EmissionsOver(view, root, top, es), p)
    ensures ValidAt(root, p) && Sees(view, mode, root, p)
    decreases root, 0, 0
  {
    hide Emissions, Trace, Sees, EmissionsOver;
    var m :| m in EmissionsOver(view, root, top, es) && m.pos == p;
    OverHasEmission(view, root, top, es, m);
    var i, n :| 0 <= i < |es| && n in Emissions(view, At(root, es[i].pos)) && m == PlantOne(es[i], top, n);
    TableEmitsTheSeen(view, At(root, es[i].pos), n.pos);
    assert es[i] in es && HasPos(es, es[i].pos);
    AtConcat(root, es[i].pos, n.pos);
    SeesThrough(view, mode, root, es[i].pos, n.pos);
  }

  lemma {:induction false} SeenIsEmitted(view: RevisionView, mode: Mode, root: Node, top: Option<Path>, es: seq<Entry>, p: Pos)
    requires ReachedFirst(view, mode, root, es) && ValidAt(root, p) && Sees(view, mode, root, p)
    ensures EmitsAt(EmissionsOver(view, root, top, es), p)
    decreases root, 0, 0
  {
    var n := SeesSplit(view, mode, root, p);
    FirstHasEntry(view, mode, root, es, p[..n]);
    var e :| e in es && e.pos == p[..n];
    hide Emissions, Trace, Sees, EmissionsOver, EmitsAt, ReachedFirst;
    TableEmitsTheSeen(view, At(root, p[..n]), p[n..]);
    EmitsBelow(view, root, top, es, e, p[n..]);
    assert e.pos + p[n..] == p;
  }

  lemma FirstHasEntry(view: RevisionView, mode: Mode, root: Node, es: seq<Entry>, p: Pos)
    requires ReachedFirst(view, mode, root, es) && ValidAt(root, p) && Trace(view, mode, root, p) == Table
    ensures Found(root, es) && exists e :: e in es && e.pos == p
  {
    assert HasPos(es, p);
  }

  lemma EmitsBelow(view: RevisionView, root: Node, top: Option<Path>, es: seq<Entry>, e: Entry, q: Pos)
    requires Found(root, es) && e in es && EmitsAt(Emissions(view, At(root, e.pos)), q)
    ensures EmitsAt(EmissionsOver(view, root, top, es), e.pos + q)
  {
    hide Emissions, EmissionsOver;
    var i :| 0 <= i < |es| && es[i] == e;
    var m :| m in Emissions(view, At(root, e.pos)) && m.pos == q;
    OverHasEmission(view, root, top, es, PlantOne(e, top, m));
  }

  // ----- each once, under its own path -----

  ghost predicate Once(ms: seq<Emission>) {
    forall i, j :: 0 <= i < j < |ms| ==> ms[i].pos != ms[j].pos && ms[i].path != ms[j].path
  }

  lemma {:induction false} TableEmitsOnce(view: RevisionView, table: Node)
    ensures Once(Emissions(view, table))
    decreases table, 1, 0
  {
    var es := Owned(view, table);
    OwnedSeparate(view, table);
    OverEmitsOnce(view, table, Some([]), es);
    EmissionsBelow(view, table);
    RootEmitsOnce(EmissionsOver(view, table, Some([]), es));
    hide Once, Owned, EmissionsOver;
  }

  /** Everything below the table itself is emitted below it. */
  lemma EmissionsBelow(view: RevisionView, table: Node)
    ensures Found(table, Owned(view, table))
    ensures forall m :: m in EmissionsOver(view, table, Some([]), Owned(view, table)) ==> m.pos != [] && m.path != []
  {
    var es := Owned(view, table);
    OwnedSeparate(view, table);
    forall m | m in EmissionsOver(view, table, Some([]), es)
      ensures m.pos != [] && m.path != []
    {
      OverHasEmission(view, table, Some([]), es, m);
      hide Emissions, EmissionsOver, Owned;
      var i, n :| 0 <= i < |es| && n in Emissions(view, At(table, es[i].pos)) && m == PlantOne(es[i], Some([]), n);
      OwnedHasPath(view, table, es[i]);
    }
  }

  lemma RootEmitsOnce(over: seq<Emission>)
    requires Once(over) && forall m :: m in over ==> m.pos != [] && m.path != []
    ensures Once([Emission([], [], None)] + over)
  {
    var all := [Emission([], [], None)] + over;
    forall i, j | 0 <= i < j < |all|
      ensures all[i].pos != all[j].pos && all[i].path != all[j].path
    {
      assert all[j] in over;
      if i > 0 {
        assert all[i] == over[i - 1] && all[j] == over[j - 1];
      }
    }
  }

  lemma LayerHasPath(finder: Finder, view: RevisionView, table: Node, e: Entry)
    requires IsTableFinder(finder) && e in Layer(finder, view, table)
    ensures e.path != []
  {
    var cells := CellEntries(view, table);
    hide Find, Over;
    var i, f := OverSplits(finder, view, table, cells, e);
    FoundPosition(finder, view, At(table, cells[i].pos), f);
  }

  lemma OwnedHasPath(view: RevisionView, table: Node, e: Entry)
    requires e in Owned(view, table)
    ensures e.path != []
  {
    hide Layer;
    var finder :| IsTableFinder(finder) && e in Layer(finder, view, table);
    LayerHasPath(finder, view, table, e);
  }

  lemma PlantOnce(e: Entry, top: Option<Path>, ms: seq<Emission>)
    requires Once(ms)
    ensures Once(Plant(e, top, ms))
  {
    forall i, j | 0 <= i < j < |ms|
      ensures e.pos + ms[i].pos != e.pos + ms[j].pos && e.path + ms[i].path != e.path + ms[j].path
    {
      assert (e.pos + ms[i].pos)[|e.pos|..] == ms[i].pos && (e.pos + ms[j].pos)[|e.pos|..] == ms[j].pos;
      assert (e.path + ms[i].path)[|e.path|..] == ms[i].path && (e.path + ms[j].path)[|e.path|..] == ms[j].path;
    }
  }

  lemma BranchesDiffer(view: RevisionView, root: Node, top: Option<Path>, es: seq<Entry>, e: Entry, n: Emission, m: Emission)
    requires Found(root, es) && (forall i :: 0 <= i < |es| ==> EntriesApart(e, es[i]))
    requires m in EmissionsOver(view, root, top, es)
    ensures PlantOne(e, top, n).pos != m.pos && PlantOne(e, top, n).path != m.path
  {
    OverHasEmission(view, root, top, es, m);
    var i, k :| 0 <= i < |es| && k in Emissions(view, At(root, es[i].pos)) && m == PlantOne(es[i], top, k);
    ApartExtended(e.pos, es[i].pos, n.pos, k.pos);
    ApartExtended(e.path, es[i].path, n.path, k.path);
  }

  lemma {:induction false} OverEmitsOnce(view: RevisionView, root: Node, top: Option<Path>, es: seq<Entry>)
    requires Found(root, es) && Separate(es)
    ensures Once(EmissionsOver(view, root, top, es))
    decreases root, 0, |es|
  {
    if es != [] {
      var below := Emissions(view, At(root, es[0].pos));
      TableEmitsOnce(view, At(root, es[0].pos));
      PlantOnce(es[0], top, below);
      OverEmitsOnce(view, root, top, es[1..]);
      var here, rest := Plant(es[0], top, below), EmissionsOver(view, root, top, es[1..]);
      hide EntriesApart, Emissions;
      assert forall i :: 0 <= i < |es[1..]| ==> EntriesApart(es[0], es[1..][i]);
      forall i, j | 0 <= i < |here| && 0 <= j < |rest|
        ensures here[i].pos != rest[j].pos && here[i].path != rest[j].path
      {
        BranchesDiffer(view, root, top, es[1..], es[0], below[i], rest[j]);
      }
      ConcatOnce(here, rest);
    }
  }

  lemma ConcatOnce(a: seq<Emission>, b: seq<Emission>)
    requires Once(a) && Once(b)
    requires forall i, j :: 0 <= i < |a| && 0 <= j < |b| ==> a[i].pos != b[j].pos && a[i].path != b[j].path
    ensures Once(a + b)
  {
    var all: seq<Emission> := a + b;
    forall i, j | 0 <= i < j < |all|
      ensures all[i].pos != all[j].pos && all[i].path != all[j].path
    {
      if i < |a| <= j {
        assert a[i].pos != b[j - |a|].pos;
      } else if |a| <= i {
        assert b[i - |a|].pos != b[j - |a|].pos;
      }
    }
  }

  // ----- the parent is the nearest enclosing table -----

  /** `m`'s parent group is that of an emitted table above it with no table in between. */
  ghost predicate ParentIsNearest(ms: seq<Emission>, root: Node, m: Emission, top: Option<Path>) {
    ValidAt(root, m.pos)
    && exists n: nat :: n < |m.pos| && NoTableBetween(root, m.pos, n)
                        && if n == 0 then m.parent == top
                           else exists k :: k in ms && k.pos == m.pos[..n] && m.parent == Some(k.path)
  }

  /** No proper node between the first `n` steps of `p` and its end is a table. */
  ghost predicate NoTableBetween(root: Node, p: Pos, n: nat)
    requires ValidAt(root, p) && n <= |p|
  {
    forall k :: n < k < |p| ==> ValidAt(root, p[..k]) && At(root, p[..k]).name != "tbl"
  }

  lemma {:induction false} PrefixValid(node: Node, p: Pos, k: nat)
    requires ValidAt(node, p) && k <= |p|
    ensures ValidAt(node, p[..k]) && ValidAt(At(node, p[..k]), p[k..])
  {
    assert p == p[..k] + p[k..];
    AtConcat(node, p[..k], p[k..]);
  }

  /** Between the start of a walk and the table it ends at there is no other table. */
  lemma {:induction false} NoTableOnTrace(view: RevisionView, mode: Mode, node: Node, p: Pos, k: nat)
    requires ValidAt(node, p) && Trace(view, mode, node, p) == Table && 0 < k < |p|
    ensures ValidAt(node, p[..k]) && At(node, p[..k]).name != "tbl"
    decreases |p|
  {
    PrefixValid(node, p, k);
    var child := node.children[p[0]];
    match Step(view, mode, node, p[0]) {
      case Table =>
      case Go(next) =>
        GoesToNoTable(view, mode, node, p[0]);
        assert p[..k][1..] == p[1..][..k - 1];
        if k > 1 {
          NoTableOnTrace(view, next, child, p[1..], k - 1);
        } else {
          assert p[..k][1..] == [];
        }
    }
  }

  lemma GoesToNoTable(view: RevisionView, mode: Mode, node: Node, k: nat)
    requires k < |node.children| && Step(view, mode, node, k).Go?
    ensures node.children[k].name != "tbl"
  {}

  lemma ShiftNoTable(root: Node, a: Pos, b: Pos, n: nat)
    requires ValidAt(root, a) && ValidAt(At(root, a), b) && ValidAt(root, a + b) && n <= |b|
    requires NoTableBetween(At(root, a), b, n)
    ensures NoTableBetween(root, a + b, |a| + n)
  {
    forall k | |a| + n < k < |a + b|
      ensures ValidAt(root, (a + b)[..k]) && At(root, (a + b)[..k]).name != "tbl"
    {
      var c := b[..k - |a|];
      assert (a + b)[..k] == a + c;
      assert ValidAt(At(root, a), c) && At(At(root, a), c).name != "tbl";
      AtConcat(root, a, c);
    }
  }

  lemma {:induction false} TableParents(view: RevisionView, table: Node, m: Emission)
    requires m in Emissions(view, table) && m.pos != []
    ensures ParentIsNearest(Emissions(view, table), table, m, Some([]))
    decreases table, 1
  {
    var es := Owned(view, table);
    var over := EmissionsOver(view, table, Some([]), es);
    assert m in over;
    forall q | ValidAt(table, q) {
      OwnedIsReached(view, table, q);
    }
    OverParents(view, Seek(Rows, Clean), table, Some([]), es, m);
    assert Emissions(view, table) == [Emission([], [], None)] + over;
    WeakenParents(over, Emissions(view, table), table, m, Some([]));
  }

  lemma WeakenParents(a: seq<Emission>, b: seq<Emission>, root: Node, m: Emission, top: Option<Path>)
    requires ParentIsNearest(a, root, m, top) && forall k :: k in a ==> k in b
    ensures ParentIsNearest(b, root, m, top)
  {
    var n: nat :| n < |m.pos| && NoTableBetween(root, m.pos, n)
                  && if n == 0 then m.parent == top
                     else exists k :: k in a && k.pos == m.pos[..n] && m.parent == Some(k.path);
    if n > 0 {
      var k :| k in a && k.pos == m.pos[..n] && m.parent == Some(k.path);
      assert k in b;
    }
  }

  lemma {:induction false} OverParents(view: RevisionView, mode: Mode, root: Node, top: Option<Path>, es: seq<Entry>, m: Emission)
    requires ReachedFirst(view, mode, root, es) && m in EmissionsOver(view, root, top, es)
    ensures ParentIsNearest(EmissionsOver(view, root, top, es), root, m, top)
    decreases root, 0
  {
    var over := EmissionsOver(view, root, top, es);
    OverHasEmission(view, root, top, es, m);
    var i, n :| 0 <= i < |es| && n in Emissions(view, At(root, es[i].pos)) && m == PlantOne(es[i], top, n);
    var e := es[i];
    var below := Emissions(view, At(root, e.pos));
    TableEmitsTheSeen(view, At(root, e.pos), n.pos);
    AtConcat(root, e.pos, n.pos);
    assert e in es;
    if n.pos == [] {
      RootEmission(view, At(root, e.pos), n);
      assert m.pos == e.pos;
      forall k | 0 < k < |e.pos|
        ensures ValidAt(root, e.pos[..k]) && At(root, e.pos[..k]).name != "tbl"
      {
        NoTableOnTrace(view, mode, root, e.pos, k);
      }
      assert NoTableBetween(root, m.pos, 0);
    } else {
      TableParents(view, At(root, e.pos), n);
      LiftParent(view, root, top, es, i, n);
    }
  }

  lemma RootEmission(view: RevisionView, table: Node, n: Emission)
    requires n in Emissions(view, table) && n.pos == []
    ensures n.parent == None && n.path == []
  {
    TableEmitsOnce(view, table);
    var ms := Emissions(view, table);
    var i :| 0 <= i < |ms| && ms[i] == n;
    assert ms[0].pos == [];
  }

  lemma LiftParent(view: RevisionView, root: Node, top: Option<Path>, es: seq<Entry>, i: nat, n: Emission)
    requires Found(root, es) && i < |es| && n in Emissions(view, At(root, es[i].pos)) && n.pos != []
    requires ParentIsNearest(Emissions(view, At(root, es[i].pos)), At(root, es[i].pos), n, Some([]))
    ensures ParentIsNearest(EmissionsOver(view, root, top, es), root, PlantOne(es[i], top, n), top)
  {
    hide Emissions, EmissionsOver, NoTableBetween, At, ValidAt;
    var e, m := es[i], PlantOne(es[i], top, n);
    AtConcat(root, e.pos, n.pos);
    var c: nat :| c < |n.pos| && NoTableBetween(At(root, e.pos), n.pos, c)
                  && if c == 0 then n.parent == Some([])
                     else exists k :: k in Emissions(view, At(root, e.pos)) && k.pos == n.pos[..c] && n.parent == Some(k.path);
    ShiftNoTable(root, e.pos, n.pos, c);
    var k := ParentBelow(view, At(root, e.pos), n, c);
    PlantedIsListed(view, root, top, es, i, k);
    assert (e.pos + n.pos)[..|e.pos| + c] == e.pos + n.pos[..c];
    assert e.path + k.path == PlantOne(e, top, k).path;
    ParentFound(EmissionsOver(view, root, top, es), root, m, top, |e.pos| + c, PlantOne(e, top, k));
  }

  lemma PlantedIsListed(view: RevisionView, root: Node, top: Option<Path>, es: seq<Entry>, i: nat, k: Emission)
    requires Found(root, es) && i < |es| && k in Emissions(view, At(root, es[i].pos))
    ensures PlantOne(es[i], top, k) in EmissionsOver(view, root, top, es)
  {
    OverHasEmission(view, root, top, es, PlantOne(es[i], top, k));
  }

  lemma ParentFound(ms: seq<Emission>, root: Node, m: Emission, top: Option<Path>, n: nat, k: Emission)
    requires ValidAt(root, m.pos) && 0 < n < |m.pos| && NoTableBetween(root, m.pos, n)
    requires k in ms && k.pos == m.pos[..n] && m.parent == Some(k.path)
    ensures ParentIsNearest(ms, root, m, top)
  {}

  lemma ParentBelow(view: RevisionView, table: Node, n: Emission, c: nat) returns (k: Emission)
    requires c < |n.pos|
    requires if c == 0 then n.parent == Some([])
             else exists k :: k in Emissions(view, table) && k.pos == n.pos[..c] && n.parent == Some(k.path)
    ensures k in Emissions(view, table) && k.pos == n.pos[..c] && n.parent == Some(k.path)
  {
    if c == 0 {
      k := Emission([], [], None);
      assert Emissions(view, table)[0] == k;
    } else {
      k :| k in Emissions(view, table) && k.pos == n.pos[..c] && n.parent == Some(k.path);
    }
  }
}
