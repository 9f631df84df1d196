/**
 The parsed WordprocessingML tree, the walks that look for rows, cells and tables in it, and the
 effective view: which tables of the tree a reader of the chosen revision sees.
 */
module DocxTree {
  import opened Basics

  /** An XML element: local name, whether it is in the main WordprocessingML namespace, own text, children. */
  datatype Node = Node(name: string, inWord: bool, text: string, children: seq<Node>)

  datatype RevisionView = Final | Original | All

  /** A node below another one, as the child index taken at each step. */
  type Pos = seq<nat>

  /** One step of the path that names a table in the output. */
  datatype Segment =
    | Body
    | Index(i: nat)
    | Wrapper(name: string)
    | Row(i: nat)
    | Cell(i: nat)
    | Tbl(i: nat)
    | WrappedTbl(i: nat)
    | Embedded
    | Container(name: string)
    | Child(name: string, i: nat)

  type Path = seq<Segment>

  /** A node found by a walk: where it is and the path suffix the adapter gives it. */
  datatype Entry = Entry(pos: Pos, path: Path)

  predicate ValidAt(node: Node, pos: Pos) {
    pos == [] || (pos[0] < |node.children| && ValidAt(node.children[pos[0]], pos[1..]))
  }

  function At(node: Node, pos: Pos): (r: Node)
    requires ValidAt(node, pos)
    ensures pos != [] ==> r < node
    decreases |pos|
  {
    if pos == [] then node else At(node.children[pos[0]], pos[1..])
  }

  lemma {:induction false} AtConcat(node: Node, a: Pos, b: Pos)
    ensures ValidAt(node, a + b) <==> ValidAt(node, a) && ValidAt(At(node, a), b)
    ensures ValidAt(node, a + b) ==> At(node, a + b) == At(At(node, a), b)
    decreases |a|
  {
    if a == [] {
      assert a + b == b;
    } else {
      assert (a + b)[1..] == a[1..] + b;
      if a[0] < |node.children| {
        AtConcat(node.children[a[0]], a[1..], b);
      }
    }
  }

  // ----- names -----

  predicate IsRevision(name: string) {
    name == "ins" || name == "del" || name == "moveFrom" || name == "moveTo"
  }

  predicate IncludeRevision(view: RevisionView, revision: string) {
    match view
    case All => true
    case Final => revision == "ins" || revision == "moveTo"
    case Original => revision == "del" || revision == "moveFrom"
  }

  predicate Excluded(view: RevisionView, name: string) {
    IsRevision(name) && !IncludeRevision(view, name)
  }

  predicate IsWrapper(name: string) {
    name == "sdt" || name == "customXml" || IsRevision(name)
  }

  /** The first child from `k` on that `p` accepts. */
  function FindChild(node: Node, p: Node -> bool, k: nat): (r: Option<nat>)
    requires k <= |node.children|
    ensures r.Some? ==> k <= r.value < |node.children| && p(node.children[r.value])
    decreases |node.children| - k
  {
    if k == |node.children| then None
    else if p(node.children[k]) then Some(k)
    else FindChild(node, p, k + 1)
  }

  /** Where the content of an sdt is: its first sdtContent child. */
  function SdtContent(node: Node): (r: Option<nat>)
    ensures r.Some? ==> r.value < |node.children| && node.children[r.value].name == "sdtContent"
  {
    FindChild(node, (n: Node) => n.inWord && n.name == "sdtContent", 0)
  }

  /** The branch of an AlternateContent that counts: the first Choice, else the first Fallback. */
  function SelectedBranch(node: Node): (r: Option<nat>)
    ensures r.Some? ==> r.value < |node.children|
                        && (node.children[r.value].name == "Choice" || node.children[r.value].name == "Fallback")
  {
    var choice := FindChild(node, (n: Node) => n.name == "Choice", 0);
    if choice.Some? then choice else FindChild(node, (n: Node) => n.name == "Fallback", 0)
  }

  // ----- the two walks -----

  function Under(prefix: Pos, ps: seq<Pos>): (r: seq<Pos>)
    ensures |r| == |ps| && forall i :: 0 <= i < |ps| ==> r[i] == prefix + ps[i]
  {
    seq(|ps|, i requires 0 <= i < |ps| => prefix + ps[i])
  }

  ghost predicate AllValid(node: Node, ps: seq<Pos>) {
    forall i :: 0 <= i < |ps| ==> ps[i] != [] && ValidAt(node, ps[i])
  }

  /** The nodes named `target` among the children of `node` from `k` on, seen through wrappers. */
  function WrappedFrom(view: RevisionView, node: Node, target: string, k: nat): seq<Pos>
    requires k <= |node.children|
    decreases node, |node.children| - k
  {
    if k == |node.children| then []
    else WrappedChild(view, node, target, k) + WrappedFrom(view, node, target, k + 1)
  }

  function WrappedChild(view: RevisionView, node: Node, target: string, k: nat): seq<Pos>
    requires k < |node.children|
    decreases node, |node.children| - k, 0
  {
    var child := node.children[k];
    if child.name == target then [[k]]
    else if !IsWrapper(child.name) || Excluded(view, child.name) then []
    else if child.name == "sdt" then
      var content := SdtContent(child);
      if content.None? then []
      else Under([k, content.value], WrappedFrom(view, child.children[content.value], target, 0))
    else Under([k], WrappedFrom(view, child, target, 0))
  }

  function Wrapped(view: RevisionView, node: Node, target: string): seq<Pos> {
    WrappedFrom(view, node, target, 0)
  }

  /** The tables under text-box content in the children of `node` from `k` on; `inside` says whether
      `node` is itself under text-box content.  Nothing below a table is walked. */
  function BoxedFrom(view: RevisionView, node: Node, inside: bool, k: nat): seq<Pos>
    requires k <= |node.children|
    decreases node, |node.children| - k, 1
  {
    if k == |node.children| then []
    else Under([k], BoxedAt(view, node.children[k], inside)) + BoxedFrom(view, node, inside, k + 1)
  }

  function BoxedAt(view: RevisionView, node: Node, inside: bool): seq<Pos>
    decreases node, |node.children| + 1, 0
  {
    if node.name == "AlternateContent" then
      var branch := SelectedBranch(node);
      if branch.None? then [] else Under([branch.value], BoxedFrom(view, node.children[branch.value], inside, 0))
    else if Excluded(view, node.name) then []
    else if node.name == "tbl" then (if inside then [[]] else [])
    else BoxedFrom(view, node, inside || node.name == "txbxContent", 0)
  }

  // ----- positions that are not prefixes of each other -----

  predicate Apart<T(==)>(a: seq<T>, b: seq<T>) {
    !(a <= b) && !(b <= a)
  }

  ghost predicate PosApart(ps: seq<Pos>) {
    forall i, j :: 0 <= i < j < |ps| ==> Apart(ps[i], ps[j])
  }

  lemma ApartAt<T>(a: seq<T>, b: seq<T>) returns (k: nat)
    requires Apart(a, b)
    ensures k < |a| && k < |b| && a[k] != b[k]
  {
    if |a| <= |b| {
      assert a != b[..|a|];
    } else {
      assert b != a[..|b|];
    }
    k :| 0 <= k < |a| && k < |b| && a[k] != b[k];
  }

  lemma DifferApart<T>(a: seq<T>, b: seq<T>, k: nat)
    requires k < |a| && k < |b| && a[k] != b[k]
    ensures Apart(a, b)
  {}

  lemma ApartUnder<T>(prefix: seq<T>, a: seq<T>, b: seq<T>)
    requires Apart(a, b)
    ensures Apart(prefix + a, prefix + b)
  {
    var k := ApartAt(a, b);
    DifferApart(prefix + a, prefix + b, |prefix| + k);
  }

  lemma ApartExtended<T>(a: seq<T>, b: seq<T>, x: seq<T>, y: seq<T>)
    requires Apart(a, b)
    ensures Apart(a + x, b + y)
  {
    var k := ApartAt(a, b);
    DifferApart(a + x, b + y, k);
  }

  lemma UnderApart(prefix: Pos, ps: seq<Pos>)
    requires PosApart(ps)
    ensures PosApart(Under(prefix, ps))
  {
    forall i, j | 0 <= i < j < |ps|
      ensures Apart(prefix + ps[i], prefix + ps[j])
    {
      ApartUnder(prefix, ps[i], ps[j]);
    }
  }

  ghost predicate StartWith(ps: seq<Pos>, k: nat) {
    forall i :: 0 <= i < |ps| ==> ps[i] != [] && ps[i][0] == k
  }

  ghost predicate StartFrom(ps: seq<Pos>, k: nat) {
    forall i :: 0 <= i < |ps| ==> ps[i] != [] && ps[i][0] >= k
  }

  lemma ConcatApart(a: seq<Pos>, b: seq<Pos>, k: nat)
    requires PosApart(a) && PosApart(b) && StartWith(a, k) && StartFrom(b, k + 1)
    ensures PosApart(a + b) && StartFrom(a + b, k)
  {
    forall i, j | 0 <= i < j < |a + b|
      ensures Apart((a + b)[i], (a + b)[j])
    {
      if i < |a| <= j {
        assert a[i][0] != b[j - |a|][0];
      }
    }
  }

  lemma {:induction false} WrappedFromApart(view: RevisionView, node: Node, target: string, k: nat)
    requires k <= |node.children|
    ensures PosApart(WrappedFrom(view, node, target, k)) && StartFrom(WrappedFrom(view, node, target, k), k)
    ensures AllValid(node, WrappedFrom(view, node, target, k))
    decreases node, |node.children| - k
  {
    if k < |node.children| {
      WrappedChildApart(view, node, target, k);
      WrappedFromApart(view, node, target, k + 1);
      ConcatApart(WrappedChild(view, node, target, k), WrappedFrom(view, node, target, k + 1), k);
    }
  }

  lemma {:induction false} WrappedChildApart(view: RevisionView, node: Node, target: string, k: nat)
    requires k < |node.children|
    ensures PosApart(WrappedChild(view, node, target, k)) && StartWith(WrappedChild(view, node, target, k), k)
    ensures AllValid(node, WrappedChild(view, node, target, k))
    decreases node, |node.children| - k, 0
  {
    var child := node.children[k];
    if child.name != target && IsWrapper(child.name) && !Excluded(view, child.name) {
      if child.name == "sdt" {
        var content := SdtContent(child);
        if content.Some? {
          var inner := child.children[content.value];
          WrappedFromApart(view, inner, target, 0);
          UnderApart([k, content.value], WrappedFrom(view, inner, target, 0));
          assert [k, content.value][1..] == [content.value];
          assert At(child, [content.value]) == inner;
          UnderValid(node, [k, content.value], WrappedFrom(view, inner, target, 0));
        }
      } else {
        WrappedFromApart(view, child, target, 0);
        UnderApart([k], WrappedFrom(view, child, target, 0));
        UnderValid(node, [k], WrappedFrom(view, child, target, 0));
      }
    }
  }

  lemma UnderValid(node: Node, prefix: Pos, ps: seq<Pos>)
    requires prefix != [] && ValidAt(node, prefix)
    requires forall i :: 0 <= i < |ps| ==> ValidAt(At(node, prefix), ps[i])
    ensures AllValid(node, Under(prefix, ps))
  {
    forall i | 0 <= i < |ps|
      ensures ValidAt(node, prefix + ps[i])
    {
      AtConcat(node, prefix, ps[i]);
    }
  }

  lemma {:induction false} BoxedFromApart(view: RevisionView, node: Node, inside: bool, k: nat)
    requires k <= |node.children|
    ensures PosApart(BoxedFrom(view, node, inside, k)) && StartFrom(BoxedFrom(view, node, inside, k), k)
    ensures AllValid(node, BoxedFrom(view, node, inside, k))
    decreases node, |node.children| - k, 1
  {
    if k < |node.children| {
      var child := node.children[k];
      BoxedAtApart(view, child, inside);
      BoxedFromApart(view, node, inside, k + 1);
      UnderApart([k], BoxedAt(view, child, inside));
      assert At(node, [k]) == child;
      UnderValid(node, [k], BoxedAt(view, child, inside));
      ConcatApart(Under([k], BoxedAt(view, child, inside)), BoxedFrom(view, node, inside, k + 1), k);
    }
  }

  lemma {:induction false} BoxedAtApart(view: RevisionView, node: Node, inside: bool)
    ensures PosApart(BoxedAt(view, node, inside))
    ensures forall i :: 0 <= i < |BoxedAt(view, node, inside)| ==> ValidAt(node, BoxedAt(view, node, inside)[i])
    decreases node, |node.children| + 1, 0
  {
    if node.name == "AlternateContent" {
      var branch := SelectedBranch(node);
      if branch.Some? {
        var inner := node.children[branch.value];
        BoxedFromApart(view, inner, inside, 0);
        UnderApart([branch.value], BoxedFrom(view, inner, inside, 0));
        assert At(node, [branch.value]) == inner;
        UnderValid(node, [branch.value], BoxedFrom(view, inner, inside, 0));
      }
    } else if !Excluded(view, node.name) && node.name != "tbl" {
      BoxedFromApart(view, node, inside || node.name == "txbxContent", 0);
    }
  }
}
