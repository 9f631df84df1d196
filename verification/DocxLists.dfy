/** List integrity: contiguous, compatible list items are given one group id after all stories are emitted. */
module DocxLists {
  import opened Basics

  /** An attribute value; only null, strings and integers are inspected. */
  datatype Value = Null | Text(text: string) | Number(number: int) | Other(tag: int, truthy: bool)

  type Attributes = map<string, Value>

  datatype Element = Element(order: nat, typeHint: string, attributes: Attributes)

  const GROUP := "integrity_group_id"
  const PARENT_GROUP := "integrity_parent_group_id"
  const SOURCE_ZONE := "source_zone"

  /** Python's dict.get: a missing attribute reads as null. */
  function Get(attributes: Attributes, key: string): Value {
    if key in attributes then attributes[key] else Null
  }

  predicate Truthy(v: Value) {
    match v
    case Null => false
    case Text(t) => t != ""
    case Number(n) => n != 0
    case Other(_, t) => t
  }

  // ----- group ids -----

  /**
   The text a group id digests: the parts joined with bars. The digest itself is taken to be
   injective, so it is left out.
   */
  function GroupText(part: string, zone: string, numId: string, order: nat): string {
    "list|" + part + "|" + zone + "|" + numId + "|" + Decimal(order)
  }

  lemma DecimalHasNoBar(n: nat)
    ensures Decimal(n) != [] && '|' !in Decimal(n)
  {
    DecimalDigits(n);
  }

  /** What follows the last bar, and what stands before it, is determined by the whole text. */
  lemma LastField(a: string, x: string, b: string, y: string)
    requires a + "|" + x == b + "|" + y && '|' !in x && '|' !in y
    ensures x == y && a == b
  {
    var s := a + "|" + x;
    assert s[|a|] == '|' && s[|b|] == '|';
    assert s[|a| + 1..] == x && s[|b| + 1..] == y;
    NoBarAfter(s, |a|);
    NoBarAfter(s, |b|);
    assert |a| == |b| && a == s[..|a|] && b == s[..|a|];
  }

  lemma NoBarAfter(s: string, i: nat)
    requires i < |s| && '|' !in s[i + 1..]
    ensures forall k :: i < k < |s| ==> s[k] != '|'
  {
    forall k | i < k < |s|
      ensures s[k] != '|'
    {
      assert s[i + 1..][k - i - 1] == s[k];
    }
  }

  /**
   The parts may themselves contain bars, so the joined text does not determine them; it does
   determine the element order, which is what keeps the ids of different runs apart.
   */
  lemma GroupTextsDiffer(p: string, z: string, n: string, i: nat, p': string, z': string, n': string, j: nat)
    requires i != j
    ensures GroupText(p, z, n, i) != GroupText(p', z', n', j)
  {
    if GroupText(p, z, n, i) == GroupText(p', z', n', j) {
      DecimalHasNoBar(i);
      DecimalHasNoBar(j);
      LastField("list|" + p + "|" + z + "|" + n, Decimal(i), "list|" + p' + "|" + z' + "|" + n', Decimal(j));
      DecimalIsInjective(i, j);
    }
  }

  /** Parts without bars are determined as well. */
  lemma GroupTextDetermines(p: string, z: string, n: string, i: nat, p': string, z': string, n': string, j: nat)
    requires '|' !in p && '|' !in z && '|' !in n && '|' !in p' && '|' !in z' && '|' !in n'
    requires GroupText(p, z, n, i) == GroupText(p', z', n', j)
    ensures p == p' && z == z' && n == n' && i == j
  {
    DecimalHasNoBar(i);
    DecimalHasNoBar(j);
    hide Decimal;
    LastField("list|" + p + "|" + z + "|" + n, Decimal(i), "list|" + p' + "|" + z' + "|" + n', Decimal(j));
    LastField("list|" + p + "|" + z, n, "list|" + p' + "|" + z', n');
    LastField("list|" + p, z, "list|" + p', z');
    assert "list|" + p == "list" + "|" + p && "list|" + p' == "list" + "|" + p';
    LastField("list", p, "list", p');
    DecimalIsInjective(i, j);
  }

  // ----- list items -----

  function Zone(a: Attributes): Value {
    if Truthy(Get(a, SOURCE_ZONE)) then Get(a, SOURCE_ZONE) else Get(a, "zone")
  }

  /** A list item whose numbering facts are well formed; number id 0 switches numbering off. */
  predicate ValidItem(e: Element) {
    && e.typeHint == "LIST_ITEM"
    && Get(e.attributes, "numbering_id").Text? && Get(e.attributes, "numbering_id").text != "0"
    && Get(e.attributes, "opc_part").Text? && Zone(e.attributes).Text?
    && (Get(e.attributes, "numbering_level").Null? || Get(e.attributes, "numbering_level").Number?)
    && (Get(e.attributes, "number_format").Null? || Get(e.attributes, "number_format").Text?)
  }

  datatype Numbering = Numbering(numId: string, level: Value, format: Value)

  function NumberingOf(e: Element): Numbering
    requires ValidItem(e)
  {
    Numbering(Get(e.attributes, "numbering_id").text, Get(e.attributes, "numbering_level"), Get(e.attributes, "number_format"))
  }

  function PartZone(e: Element): (string, string)
    requires ValidItem(e)
  {
    (Get(e.attributes, "opc_part").text, Zone(e.attributes).text)
  }

  /** `fold` is Unicode case folding. */
  predicate CompatibleNumbering(fold: string -> string, previous: Numbering, current: Numbering) {
    || previous.numId == current.numId
    || (&& previous.level.Number? && previous.level == current.level
        && previous.format.Text? && current.format.Text? && fold(previous.format.text) == fold(current.format.text))
  }

  /** `b` directly after `a` continues the list of `a`. */
  predicate Continues(fold: string -> string, a: Element, b: Element) {
    && ValidItem(a) && ValidItem(b)
    && PartZone(a) == PartZone(b) && CompatibleNumbering(fold, NumberingOf(a), NumberingOf(b))
  }

  function GroupOf(e: Element): Value
    requires ValidItem(e)
  {
    Text(GroupText(PartZone(e).0, PartZone(e).1, NumberingOf(e).numId, e.order))
  }

  /** The position of the list item that opens the run of item `i`. */
  function RunStart(fold: string -> string, es: seq<Element>, i: nat): (s: nat)
    requires i < |es|
    ensures s <= i
    ensures ValidItem(es[i]) ==> ValidItem(es[s])
  {
    if i > 0 && Continues(fold, es[i - 1], es[i]) then RunStart(fold, es, i - 1) else i
  }

  function Regrouped(fold: string -> string, es: seq<Element>, i: nat): Attributes
    requires i < |es|
  {
    var a := es[i].attributes;
    if ValidItem(es[i]) then a[GROUP := GroupOf(es[RunStart(fold, es, i)])] - {PARENT_GROUP}
    else if es[i].typeHint == "LIST_ITEM" || es[i].typeHint == "HEADING" then a - {GROUP, PARENT_GROUP}
    else a
  }

  function Normalized(fold: string -> string, es: seq<Element>): (r: seq<Element>)
    ensures |r| == |es|
  {
    seq(|es|, i requires 0 <= i < |es| => es[i].(attributes := Regrouped(fold, es, i)))
  }

  class Emitter {
    var elements: seq<Element>

    constructor (elements: seq<Element>)
      ensures this.elements == elements
    {
      this.elements := elements;
    }

    method NormalizeListIntegrity(fold: string -> string)
      modifies this
      ensures elements == Normalized(fold, old(elements))
    {
      var partZone: (string, string) := ("", "");
      var group: Value := Null;
      var numbering: Numbering := Numbering("", Null, Null);
      var open := false;
      var rewritten: seq<Element> := [];
      for i := 0 to |elements|
        invariant elements == old(elements)
        invariant rewritten == Normalized(fold, elements)[..i]
        invariant open <==> i > 0 && ValidItem(elements[i - 1])
        invariant open ==> partZone == PartZone(elements[i - 1]) && numbering == NumberingOf(elements[i - 1])
        invariant open ==> group == GroupOf(elements[RunStart(fold, elements, i - 1)])
      {
        var raw := elements[i];
        var attributes := raw.attributes;
        if raw.typeHint == "LIST_ITEM" {
          if ValidItem(raw) {
            if !(open && partZone == PartZone(raw) && CompatibleNumbering(fold, numbering, NumberingOf(raw))) {
              group := GroupOf(raw);
            }
            open, partZone, numbering := true, PartZone(raw), NumberingOf(raw);
            attributes := attributes[GROUP := group] - {PARENT_GROUP};
          } else {
            open := false;
            attributes := attributes - {GROUP} - {PARENT_GROUP};
            assert attributes == raw.attributes - {GROUP, PARENT_GROUP};
          }
        } else {
          open := false;
          if raw.typeHint == "HEADING" {
            attributes := attributes - {GROUP} - {PARENT_GROUP};
            assert attributes == raw.attributes - {GROUP, PARENT_GROUP};
          }
        }
        assert attributes == Regrouped(fold, elements, i);
        rewritten := rewritten + [if attributes == raw.attributes then raw else raw.(attributes := attributes)];
      }
      elements := rewritten;
    }
  }

  // ----- what the groups mean -----

  /** Everything from `i` to `j` is one chain of continued list items. */
  ghost predicate OneRun(fold: string -> string, es: seq<Element>, i: nat, j: nat) {
    i <= j < |es| && forall k :: i < k <= j ==> Continues(fold, es[k - 1], es[k])
  }

  lemma {:induction false} RunStartReaches(fold: string -> string, es: seq<Element>, i: nat)
    requires i < |es|
    ensures OneRun(fold, es, RunStart(fold, es, i), i)
    ensures RunStart(fold, es, i) == 0 || !Continues(fold, es[RunStart(fold, es, i) - 1], es[RunStart(fold, es, i)])
  {
    hide Continues;
    if i > 0 && Continues(fold, es[i - 1], es[i]) {
      RunStartReaches(fold, es, i - 1);
    }
  }

  lemma {:induction false} RunStartShared(fold: string -> string, es: seq<Element>, i: nat, j: nat)
    requires OneRun(fold, es, i, j)
    ensures RunStart(fold, es, i) == RunStart(fold, es, j)
    decreases j
  {
    hide Continues;
    if i < j {
      RunStartShared(fold, es, i, j - 1);
    }
  }

  /**
   Two list items share a group exactly when every element from one to the other is a valid list
   item compatible with the one before it in the same part and zone.
   */
  lemma SharedGroups(fold: string -> string, es: seq<Element>, i: nat, j: nat)
    requires i <= j < |es| && ValidItem(es[i]) && ValidItem(es[j])
    requires forall a, b :: 0 <= a < b < |es| ==> es[a].order != es[b].order
    ensures var out := Normalized(fold, es);
            (out[i].attributes[GROUP] == out[j].attributes[GROUP]) <==> OneRun(fold, es, i, j)
  {
    var s, t := RunStart(fold, es, i), RunStart(fold, es, j);
    if OneRun(fold, es, i, j) {
      RunStartShared(fold, es, i, j);
    } else if s == t {
      RunStartReaches(fold, es, j);
    } else {
      var a, b := es[s], es[t];
      GroupTextsDiffer(PartZone(a).0, PartZone(a).1, NumberingOf(a).numId, a.order,
                       PartZone(b).0, PartZone(b).1, NumberingOf(b).numId, b.order);
    }
  }

  /** Nothing but the two group attributes changes, and those only on list items and headings. */
  lemma OnlyGroupsChange(fold: string -> string, es: seq<Element>, i: nat)
    requires i < |es|
    ensures var e, r := es[i], Normalized(fold, es)[i];
            && r.order == e.order && r.typeHint == e.typeHint
            && r.attributes - {GROUP, PARENT_GROUP} == e.attributes - {GROUP, PARENT_GROUP}
            && (e.typeHint !in ["LIST_ITEM", "HEADING"] ==> r == e)
            && (e.typeHint in ["LIST_ITEM", "HEADING"] ==>
                  PARENT_GROUP !in r.attributes && (GROUP in r.attributes <==> ValidItem(e)))
  {
  }

  /** Both read the same at every attribute that list integrity inspects. */
  predicate SameReads(a: Attributes, b: Attributes) {
    && Get(a, "numbering_id") == Get(b, "numbering_id") && Get(a, "opc_part") == Get(b, "opc_part")
    && Get(a, "numbering_level") == Get(b, "numbering_level") && Get(a, "number_format") == Get(b, "number_format")
    && Get(a, "zone") == Get(b, "zone") && Get(a, SOURCE_ZONE) == Get(b, SOURCE_ZONE)
  }

  lemma RegroupedReads(a: Attributes, group: Value)
    ensures SameReads(a, a[GROUP := group] - {PARENT_GROUP}) && SameReads(a, a - {GROUP, PARENT_GROUP})
  {
    assert |GROUP| == 18 && |PARENT_GROUP| == 25;
    assert |"numbering_id"| == 12 && |"opc_part"| == 8 && |"numbering_level"| == 15 && |"number_format"| == 13;
    assert |"zone"| == 4 && |SOURCE_ZONE| == 11;
  }

  lemma ReadsDecide(e: Element, r: Element)
    requires e.order == r.order && e.typeHint == r.typeHint && SameReads(e.attributes, r.attributes)
    ensures ValidItem(r) <==> ValidItem(e)
    ensures ValidItem(r) ==> NumberingOf(r) == NumberingOf(e) && PartZone(r) == PartZone(e) && GroupOf(r) == GroupOf(e)
  {
    hide Get;
  }

  lemma SameFacts(fold: string -> string, es: seq<Element>, i: nat)
    requires i < |es|
    ensures ValidItem(Normalized(fold, es)[i]) <==> ValidItem(es[i])
    ensures ValidItem(es[i]) ==> NumberingOf(Normalized(fold, es)[i]) == NumberingOf(es[i])
    ensures ValidItem(es[i]) ==> PartZone(Normalized(fold, es)[i]) == PartZone(es[i])
    ensures ValidItem(es[i]) ==> GroupOf(Normalized(fold, es)[i]) == GroupOf(es[i])
  {
    var e, r := es[i], Normalized(fold, es)[i];
    hide SameReads, GroupOf, ValidItem, NumberingOf, PartZone;
    RegroupedReads(e.attributes, if ValidItem(e) then GroupOf(es[RunStart(fold, es, i)]) else Null);
    SameReadsReflexive(e.attributes);
    ReadsDecide(e, r);
  }

  lemma SameReadsReflexive(a: Attributes)
    ensures SameReads(a, a)
  {
  }

  lemma {:induction false} SameRunStart(fold: string -> string, es: seq<Element>, i: nat)
    requires i < |es|
    ensures RunStart(fold, Normalized(fold, es), i) == RunStart(fold, es, i)
  {
    hide ValidItem, NumberingOf, PartZone, GroupOf, CompatibleNumbering, Normalized;
    SameFacts(fold, es, i);
    if i > 0 {
      SameFacts(fold, es, i - 1);
      SameRunStart(fold, es, i - 1);
    }
  }

  /** A second pass changes nothing. */
  lemma NormalizedIsIdempotent(fold: string -> string, es: seq<Element>)
    ensures Normalized(fold, Normalized(fold, es)) == Normalized(fold, es)
  {
    var once := Normalized(fold, es);
    var twice := Normalized(fold, once);
    forall i | 0 <= i < |es|
      ensures twice[i] == once[i]
    {
      RegroupedTwice(fold, es, i);
    }
  }

  lemma RegroupedTwice(fold: string -> string, es: seq<Element>, i: nat)
    requires i < |es|
    ensures Regrouped(fold, Normalized(fold, es), i) == Regrouped(fold, es, i)
  {
    hide ValidItem, GroupOf, RunStart, NumberingOf, PartZone;
    SameFacts(fold, es, i);
    SameRunStart(fold, es, i);
    SameFacts(fold, es, RunStart(fold, es, i));
  }
}
