/** The tables at block level of a document body, and the theorem about the whole document. */
module DocxBlocks {
  import opened Basics
  import opened DocxTree
  import opened DocxView
  import opened DocxOwnership
  import opened DocxEmissions

  /** The outermost tables of a block, and of the blocks from child `k` on. */
  function BlockTables(view: RevisionView, block: Node): seq<Entry>
    decreases block, |block.children| + 1, 0
  {
    if block.name == "p" then BoxedEntries(view, block)
    else if block.name == "tbl" then [Entry([], [])]
    else if !IsWrapper(block.name) || Excluded(view, block.name) then []
    else if block.name == "sdt" then
      var content := SdtContent(block);
      if content.None? then []
      else Graft(Entry([content.value], [Wrapper(block.name)]), BlocksFrom(view, block.children[content.value], 0))
    else Graft(Entry([], [Wrapper(block.name)]), BlocksFrom(view, block, 0))
  }

  function BlocksFrom(view: RevisionView, parent: Node, k: nat): seq<Entry>
    requires k <= |parent.children|
    decreases parent, |parent.children| - k, 1
  {
    if k == |parent.children| then []
    else Graft(Entry([k], [Index(k)]), BlockTables(view, parent.children[k])) + BlocksFrom(view, parent, k + 1)
  }

  ghost predicate FromIndex(es: seq<Entry>, k: nat) {
    forall i :: 0 <= i < |es| ==> es[i].pos != [] && es[i].path != [] && es[i].pos[0] >= k && es[i].path[0] == Index(es[i].pos[0])
  }

  ghost predicate ValidEntries(node: Node, es: seq<Entry>) {
    forall i :: 0 <= i < |es| ==> ValidAt(node, es[i].pos)
  }

  lemma GraftValid(root: Node, e: Entry, es: seq<Entry>)
    requires ValidAt(root, e.pos) && ValidEntries(At(root, e.pos), es)
    ensures ValidEntries(root, Graft(e, es))
  {
    forall i | 0 <= i < |es|
      ensures ValidAt(root, e.pos + es[i].pos)
    {
      AtConcat(root, e.pos, es[i].pos);
    }
  }

  lemma {:induction false} BlockTablesSeparate(view: RevisionView, block: Node)
    ensures Separate(BlockTables(view, block)) && ValidEntries(block, BlockTables(view, block))
    decreases block, |block.children| + 1, 0
  {
    if block.name == "p" {
      BoxedSeparate(view, block);
    } else if block.name != "tbl" && IsWrapper(block.name) && !Excluded(view, block.name) {
      if block.name == "sdt" {
        var content := SdtContent(block);
        if content.Some? {
          var e, inner := Entry([content.value], [Wrapper(block.name)]), block.children[content.value];
          BlocksFromSeparate(view, inner, 0);
          assert At(block, e.pos) == inner;
          GraftSeparate(e, BlocksFrom(view, inner, 0));
          GraftValid(block, e, BlocksFrom(view, inner, 0));
        }
      } else {
        var e := Entry([], [Wrapper(block.name)]);
        BlocksFromSeparate(view, block, 0);
        GraftSeparate(e, BlocksFrom(view, block, 0));
        GraftValid(block, e, BlocksFrom(view, block, 0));
      }
    }
  }

  lemma {:induction false} BlocksFromSeparate(view: RevisionView, parent: Node, k: nat)
    requires k <= |parent.children|
    ensures Separate(BlocksFrom(view, parent, k)) && FromIndex(BlocksFrom(view, parent, k), k)
    ensures ValidEntries(parent, BlocksFrom(view, parent, k))
    decreases parent, |parent.children| - k, 1
  {
    if k < |parent.children| {
      var e, tables := Entry([k], [Index(k)]), BlockTables(view, parent.children[k]);
      BlockTablesSeparate(view, parent.children[k]);
      GraftSeparate(e, tables);
      assert At(parent, e.pos) == parent.children[k];
      GraftValid(parent, e, tables);
      BlocksFromSeparate(view, parent, k + 1);
      var here, rest := Graft(e, tables), BlocksFrom(view, parent, k + 1);
      forall i, j | 0 <= i < |here| && 0 <= j < |rest|
        ensures EntriesApart(here[i], rest[j])
      {
        DifferApart(here[i].pos, rest[j].pos, 0);
        DifferApart(here[i].path, rest[j].path, 0);
      }
      ConcatSeparate(here, rest);
    }
  }

  lemma GraftHasPos(e: Entry, es: seq<Entry>, p: Pos)
    ensures HasPos(Graft(e, es), p) <==> e.pos <= p && HasPos(es, p[|e.pos|..])
  {
    var r := Graft(e, es);
    if HasPos(r, p) {
      var f :| f in r && f.pos == p;
      var i :| 0 <= i < |r| && r[i] == f;
      assert p == e.pos + es[i].pos && es[i] in es;
      assert p[|e.pos|..] == es[i].pos;
    }
    if e.pos <= p && HasPos(es, p[|e.pos|..]) {
      var f :| f in es && f.pos == p[|e.pos|..];
      var i :| 0 <= i < |es| && es[i] == f;
      assert r[i] in r && r[i].pos == e.pos + p[|e.pos|..] == p;
    }
  }

  lemma ConcatHasPos(a: seq<Entry>, b: seq<Entry>, p: Pos)
    ensures HasPos(a + b, p) <==> HasPos(a, p) || HasPos(b, p)
  {
    if e :| e in a && e.pos == p {
      assert e in a + b;
    }
    if e :| e in b && e.pos == p {
      assert e in a + b;
    }
  }

  lemma {:induction false} BlocksFromHasPos(view: RevisionView, parent: Node, k: nat, p: Pos)
    requires k <= |parent.children|
    ensures HasPos(BlocksFrom(view, parent, k), p) <==>
            p != [] && k <= p[0] < |parent.children| && HasPos(BlockTables(view, parent.children[p[0]]), p[1..])
    decreases |parent.children| - k
  {
    if k < |parent.children| {
      hide BlockTables, HasPos;
      NothingHasPos(p);
      var e := Entry([k], [Index(k)]);
      BlocksFromHasPos(view, parent, k + 1, p);
      GraftHasPos(e, BlockTables(view, parent.children[k]), p);
      ConcatHasPos(Graft(e, BlockTables(view, parent.children[k])), BlocksFrom(view, parent, k + 1), p);
    }
  }

  lemma NothingHasPos(p: Pos)
    ensures !HasPos([], p)
  {
  }

  lemma BoxedOfParagraph(view: RevisionView, block: Node, p: Pos)
    requires block.name == "p" && ValidAt(block, p)
    ensures HasPos(BoxedEntries(view, block), p) <==> Trace(view, Inside(Off, false), block, p) == Table
  {
    var ps, r := BoxedAt(view, block, false), BoxedEntries(view, block);
    if HasPos(r, p) {
      var e :| e in r && e.pos == p;
      BoxedTableIsSeen(view, block, Off, false, p);
    }
    if Trace(view, Inside(Off, false), block, p) == Table {
      SeenTableIsFound(view, block, Off, false, p);
      var i :| 0 <= i < |ps| && ps[i] == p;
      assert r[i] in r && r[i].pos == p;
    }
  }

  /** The automaton, having stepped to `block` at block level, reaches a table at `q` below it. */
  ghost predicate BlockReaches(view: RevisionView, block: Node, q: Pos)
    requires ValidAt(block, q)
  {
    if block.name == "p" then Trace(view, Inside(Off, false), block, q) == Table
    else if block.name == "tbl" then q == []
    else IsWrapper(block.name) && !Excluded(view, block.name)
         && Trace(view, Seek(Blocks, if block.name == "sdt" then AtSdt else Clean), block, q) == Table
  }

  lemma StepAtBlock(view: RevisionView, parent: Node, p: Pos)
    requires ValidAt(parent, p) && p != []
    ensures Trace(view, Seek(Blocks, Clean), parent, p) == Table <==> BlockReaches(view, parent.children[p[0]], p[1..])
  {
  }

  lemma TableIsReached(view: RevisionView, block: Node, q: Pos)
    requires block.name == "tbl" && ValidAt(block, q)
    ensures HasPos(BlockTables(view, block), q) <==> q == []
  {
    assert BlockTables(view, block) == [Entry([], [])];
    assert Entry([], []) in [Entry([], [])];
  }

  /** The outermost tables of the blocks are the ones the automaton reaches first. */
  lemma {:induction false} BlocksAreReached(view: RevisionView, parent: Node, p: Pos)
    requires ValidAt(parent, p)
    ensures HasPos(BlocksFrom(view, parent, 0), p) <==> Trace(view, Seek(Blocks, Clean), parent, p) == Table
    decreases parent, 1
  {
    BlocksFromHasPos(view, parent, 0, p);
    if p != [] {
      BlockIsReached(view, parent.children[p[0]], p[1..]);
      StepAtBlock(view, parent, p);
      hide BlockReaches, BlockTables, BlocksFrom, HasPos;
    }
  }

  lemma {:induction false} BlockIsReached(view: RevisionView, block: Node, q: Pos)
    requires ValidAt(block, q)
    ensures HasPos(BlockTables(view, block), q) <==> BlockReaches(view, block, q)
    decreases block, 2
  {
    if block.name == "p" {
      BoxedOfParagraph(view, block, q);
      hide BoxedEntries, Trace, HasPos;
    } else if block.name == "tbl" {
      TableIsReached(view, block, q);
      hide Trace, HasPos, BlockTables;
    } else if !IsWrapper(block.name) || Excluded(view, block.name) {
      NothingHasPos(q);
      hide Trace, HasPos;
    } else if block.name == "sdt" {
      if SdtContent(block).Some? && q != [] && q[0] == SdtContent(block).value {
        BlocksAreReached(view, block.children[q[0]], q[1..]);
      }
      hide Trace, HasPos, BlockTables;
      SdtIsReached(view, block, q);
    } else {
      BlocksAreReached(view, block, q);
      hide Trace, HasPos, BlockTables;
      WrapperIsReached(view, block, q);
    }
  }

  lemma SdtIsReached(view: RevisionView, block: Node, q: Pos)
    requires block.name == "sdt" && !Excluded(view, block.name) && ValidAt(block, q)
    requires SdtContent(block).Some? && q != [] && q[0] == SdtContent(block).value ==>
               (HasPos(BlocksFrom(view, block.children[q[0]], 0), q[1..])
                <==> Trace(view, Seek(Blocks, Clean), block.children[q[0]], q[1..]) == Table)
    ensures HasPos(BlockTables(view, block), q) <==> Trace(view, Seek(Blocks, AtSdt), block, q) == Table
  {
    if SdtContent(block).Some? {
      var c := SdtContent(block).value;
      GraftHasPos(Entry([c], [Wrapper(block.name)]), BlocksFrom(view, block.children[c], 0), q);
    }
    hide BlocksFrom, Graft;
    NothingHasPos(q);
  }

  lemma WrapperIsReached(view: RevisionView, block: Node, q: Pos)
    requires IsWrapper(block.name) && block.name != "sdt" && !Excluded(view, block.name) && ValidAt(block, q)
    requires HasPos(BlocksFrom(view, block, 0), q) <==> Trace(view, Seek(Blocks, Clean), block, q) == Table
    ensures HasPos(BlockTables(view, block), q) <==> Trace(view, Seek(Blocks, Clean), block, q) == Table
  {
    GraftHasPos(Entry([], [Wrapper(block.name)]), BlocksFrom(view, block, 0), q);
    assert q[0..] == q;
    hide BlocksFrom, Graft, Trace, HasPos;
  }

  /** Every table the document emits, under paths that start at the body. */
  function DocumentEmissions(view: RevisionView, body: Node): seq<Emission> {
    BlocksFromSeparate(view, body, 0);
    Plant(Entry([], [Body]), None, EmissionsOver(view, body, None, BlocksFrom(view, body, 0)))
  }

  lemma PlantAtRoot(ms: seq<Emission>, p: Pos)
    ensures EmitsAt(Plant(Entry([], [Body]), None, ms), p) <==> EmitsAt(ms, p)
  {
    var r := Plant(Entry([], [Body]), None, ms);
    if EmitsAt(r, p) {
      var m :| m in r && m.pos == p;
      var i :| 0 <= i < |r| && r[i] == m;
      assert ms[i] in ms && ms[i].pos == p;
    }
    if EmitsAt(ms, p) {
      var m :| m in ms && m.pos == p;
      var i :| 0 <= i < |ms| && ms[i] == m;
      assert r[i] in r && r[i].pos == p;
    }
  }

  /** A table of the tree is emitted exactly when it is in the effective view. */
  lemma EmittedExactlyTheView(view: RevisionView, body: Node, p: Pos)
    ensures EmitsAt(DocumentEmissions(view, body), p) <==> ValidAt(body, p) && Sees(view, Seek(Blocks, Clean), body, p)
  {
    var es := BlocksFrom(view, body, 0);
    BlocksFromSeparate(view, body, 0);
    forall q | ValidAt(body, q) {
      BlocksAreReached(view, body, q);
    }
    OverEmitsTheSeen(view, Seek(Blocks, Clean), body, None, es, p);
    PlantAtRoot(EmissionsOver(view, body, None, es), p);
  }

  /** No table is emitted twice, and no two tables share a path. */
  lemma EmittedOnce(view: RevisionView, body: Node)
    ensures Once(DocumentEmissions(view, body))
  {
    var es := BlocksFrom(view, body, 0);
    BlocksFromSeparate(view, body, 0);
    OverEmitsOnce(view, body, None, es);
    PlantOnce(Entry([], [Body]), None, EmissionsOver(view, body, None, es));
  }

  /** A table's parent group is its nearest enclosing table; outermost tables have none. */
  lemma EmittedByNearestTable(view: RevisionView, body: Node, m: Emission)
    requires m in DocumentEmissions(view, body)
    ensures ParentIsNearest(DocumentEmissions(view, body), body, m, None)
  {
    var es := BlocksFrom(view, body, 0);
    BlocksFromSeparate(view, body, 0);
    forall q | ValidAt(body, q) {
      BlocksAreReached(view, body, q);
    }
    var over := EmissionsOver(view, body, None, es);
    var i :| 0 <= i < |over| && m == PlantOne(Entry([], [Body]), None, over[i]);
    OverParents(view, Seek(Blocks, Clean), body, None, es, over[i]);
    RootParent(over, body, over[i]);
  }

  lemma RootParent(over: seq<Emission>, body: Node, m: Emission)
    requires ParentIsNearest(over, body, m, None)
    ensures ParentIsNearest(Plant(Entry([], [Body]), None, over), body, PlantOne(Entry([], [Body]), None, m), None)
  {
    var root := Entry([], [Body]);
    var planted, r := PlantOne(root, None, m), Plant(root, None, over);
    assert planted.pos == m.pos;
    var n: nat :| n < |m.pos| && NoTableBetween(body, m.pos, n)
                  && if n == 0 then m.parent == None
                     else exists k :: k in over && k.pos == m.pos[..n] && m.parent == Some(k.path);
    if n > 0 {
      var k :| k in over && k.pos == m.pos[..n] && m.parent == Some(k.path);
      var j :| 0 <= j < |over| && over[j] == k;
      assert r[j] in r && r[j].pos == k.pos;
      ParentFound(r, body, planted, None, n, r[j]);
    }
  }
}
