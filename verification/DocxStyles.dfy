/**
 DOCX styles: folding repeated definitions of one style id, and resolving basedOn inheritance by a
 memoised depth-first walk (section 17.7.4.3 of ISO/IEC 29500-1).
 */
module DocxStyles {
  import opened Basics

  datatype Style = Style(
    id: string, name: Option<string>, outline: Option<int>, numId: Option<string>, ilvl: Option<int>,
    basedOn: Option<string>)

  type Styles = map<string, Style>

  predicate Truthy(s: Option<string>) {
    s.Some? && s.value != ""
  }

  // ----- repeated definitions -----

  predicate Agree<T(==)>(a: Option<T>, b: Option<T>) {
    a.Some? && b.Some? ==> a == b
  }

  /** No structural field is set differently by the two definitions. */
  predicate Compatible(a: Style, b: Style) {
    Agree(a.outline, b.outline) && Agree(a.numId, b.numId) && Agree(a.ilvl, b.ilvl) && Agree(a.basedOn, b.basedOn)
  }

  function Later<T>(left: Option<T>, right: Option<T>): Option<T> {
    if right.Some? then right else left
  }

  function Merge(left: Style, right: Style): Result<Style, string> {
    if !Compatible(left, right) then Failure(left.id)
    else Success(Style(left.id, if Truthy(right.name) then right.name else left.name,
                       Later(left.outline, right.outline), Later(left.numId, right.numId),
                       Later(left.ilvl, right.ilvl), Later(left.basedOn, right.basedOn)))
  }

  /** The definitions of one style id, in order. */
  function Definitions(defs: seq<Style>, id: string): seq<Style> {
    if defs == [] then []
    else Definitions(defs[..|defs| - 1], id) + (if defs[|defs| - 1].id == id then [defs[|defs| - 1]] else [])
  }

  /** `value` is the one non-null value the definitions of `id` give a field, or null if they give none. */
  ghost predicate CommonValue<T(!new)>(defs: seq<Style>, id: string, field: Style -> Option<T>, value: Option<T>) {
    && (value.None? ==> forall d :: d in defs && d.id == id ==> field(d).None?)
    && (value.Some? ==> exists d :: d in defs && d.id == id && field(d) == value)
    && (forall d :: d in defs && d.id == id && field(d).Some? ==> field(d) == value)
  }

  function OutlineOf(s: Style): Option<int> { s.outline }
  function NumIdOf(s: Style): Option<string> { s.numId }
  function IlvlOf(s: Style): Option<int> { s.ilvl }
  function BaseOf(s: Style): Option<string> { s.basedOn }

  /** The non-empty part of a string, as far as a truth test sees it. */
  function TruthyPart(s: Option<string>): Option<string> {
    if Truthy(s) then s else None
  }

  function LastTruthyName(ds: seq<Style>): Option<string> {
    if ds == [] then None
    else if Truthy(ds[|ds| - 1].name) then ds[|ds| - 1].name
    else LastTruthyName(ds[..|ds| - 1])
  }

  /** The last non-empty name of the definitions, or whatever the first one has in its place. */
  function FoldedName(ds: seq<Style>): Option<string> {
    if LastTruthyName(ds).Some? then LastTruthyName(ds) else if ds == [] then None else ds[0].name
  }

  ghost predicate Defined(defs: seq<Style>, id: string) {
    exists d :: d in defs && d.id == id
  }

  /** Every structural field of `s` is the common value of the definitions of `id`, and its name is the folded one. */
  ghost predicate FoldsOne(defs: seq<Style>, id: string, s: Style) {
    && s.id == id && s.name == FoldedName(Definitions(defs, id))
    && CommonValue(defs, id, OutlineOf, s.outline) && CommonValue(defs, id, NumIdOf, s.numId)
    && CommonValue(defs, id, IlvlOf, s.ilvl) && CommonValue(defs, id, BaseOf, s.basedOn)
  }

  ghost predicate Folds(defs: seq<Style>, raw: Styles) {
    && (forall id :: id in raw <==> id != "" && Defined(defs, id))
    && (forall id :: id in raw ==> FoldsOne(defs, id, raw[id]))
  }

  lemma DefinitionsStep(defs: seq<Style>, last: Style, id: string)
    ensures Definitions(defs + [last], id) == Definitions(defs, id) + (if last.id == id then [last] else [])
  {
    assert (defs + [last])[..|defs|] == defs;
  }

  lemma {:induction false} NoDefinitions(defs: seq<Style>, id: string)
    requires forall d :: d in defs ==> d.id != id
    ensures Definitions(defs, id) == []
  {
    if defs != [] {
      assert defs[|defs| - 1] in defs && forall d :: d in defs[..|defs| - 1] ==> d in defs;
      NoDefinitions(defs[..|defs| - 1], id);
    }
  }

  lemma {:induction false} DefinitionsMembers(defs: seq<Style>, id: string)
    ensures forall d :: d in Definitions(defs, id) <==> d in defs && d.id == id
  {
    if defs != [] {
      var n := |defs| - 1;
      assert defs == defs[..n] + [defs[n]];
      DefinitionsMembers(defs[..n], id);
    }
  }

  lemma {:induction false} LastTruthyMember(ds: seq<Style>)
    ensures LastTruthyName(ds).None? <==> forall d :: d in ds ==> !Truthy(d.name)
    ensures LastTruthyName(ds).Some? ==> exists d :: d in ds && Truthy(d.name) && d.name == LastTruthyName(ds)
  {
    if ds != [] {
      var n := |ds| - 1;
      assert ds == ds[..n] + [ds[n]];
      LastTruthyMember(ds[..n]);
    }
  }

  lemma FoldedNameStep(ds: seq<Style>, last: Style)
    ensures FoldedName([last]) == last.name
    ensures ds != [] ==> FoldedName(ds + [last]) == if Truthy(last.name) then last.name else FoldedName(ds)
    ensures Truthy(last.name) ==> FoldedName(ds + [last]) == last.name
  {
    assert [last][..0] == [] && (ds + [last])[..|ds|] == ds;
    assert LastTruthyName([last]) == if Truthy(last.name) then last.name else LastTruthyName([]);
    LastTruthyMember(ds);
  }

  lemma CommonValueStep<T(!new)>(defs: seq<Style>, last: Style, id: string, field: Style -> Option<T>, value: Option<T>)
    requires CommonValue(defs, id, field, value) && (last.id == id ==> Agree(value, field(last)))
    ensures CommonValue(defs + [last], id, field, if last.id == id then Later(value, field(last)) else value)
  {
    var all := defs + [last];
    assert forall d :: d in all <==> d in defs || d == last;
  }

  lemma CommonValueFirst<T(!new)>(defs: seq<Style>, last: Style, field: Style -> Option<T>)
    requires forall d :: d in defs ==> d.id != last.id
    ensures CommonValue(defs + [last], last.id, field, field(last))
  {
    var all := defs + [last];
    assert forall d :: d in all <==> d in defs || d == last;
    assert last in all;
  }

  lemma FoldsOneSame(defs: seq<Style>, last: Style, id: string, s: Style)
    requires FoldsOne(defs, id, s) && last.id != id
    ensures FoldsOne(defs + [last], id, s)
  {
    hide CommonValue, FoldedName, Definitions;
    DefinitionsStep(defs, last, id);
    assert Definitions(defs, id) + [] == Definitions(defs, id);
    CommonValueStep(defs, last, id, OutlineOf, s.outline);
    CommonValueStep(defs, last, id, NumIdOf, s.numId);
    CommonValueStep(defs, last, id, IlvlOf, s.ilvl);
    CommonValueStep(defs, last, id, BaseOf, s.basedOn);
  }

  lemma FoldsOneMerged(defs: seq<Style>, last: Style, s: Style, merged: Style)
    requires Defined(defs, last.id) && FoldsOne(defs, last.id, s) && Merge(s, last) == Success(merged)
    ensures FoldsOne(defs + [last], last.id, merged)
  {
    hide CommonValue, FoldedName, Definitions;
    DefinitionsStep(defs, last, last.id);
    DefinitionsMembers(defs, last.id);
    FoldedNameStep(Definitions(defs, last.id), last);
    CommonValueStep(defs, last, last.id, OutlineOf, s.outline);
    CommonValueStep(defs, last, last.id, NumIdOf, s.numId);
    CommonValueStep(defs, last, last.id, IlvlOf, s.ilvl);
    CommonValueStep(defs, last, last.id, BaseOf, s.basedOn);
  }

  lemma FoldsOneFirst(defs: seq<Style>, last: Style)
    requires !Defined(defs, last.id)
    ensures FoldsOne(defs + [last], last.id, last)
  {
    assert forall d :: d in defs ==> d.id != last.id;
    DefinitionsStep(defs, last, last.id);
    NoDefinitions(defs, last.id);
    assert [] + [last] == [last];
    FoldedNameStep([], last);
    hide CommonValue, FoldedName, Definitions;
    CommonValueFirst(defs, last, OutlineOf);
    CommonValueFirst(defs, last, NumIdOf);
    CommonValueFirst(defs, last, IlvlOf);
    CommonValueFirst(defs, last, BaseOf);
  }

  lemma DefinedStep(defs: seq<Style>, last: Style, id: string)
    ensures Defined(defs + [last], id) <==> Defined(defs, id) || last.id == id
  {
    var all := defs + [last];
    assert forall d :: d in all <==> d in defs || d == last;
    assert last in all;
    if d :| d in defs && d.id == id {
      assert d in all;
    }
  }

  lemma FoldStep(defs: seq<Style>, last: Style, raw: Styles, merged: Style)
    requires Folds(defs, raw) && last.id != ""
    requires if last.id in raw then Merge(raw[last.id], last) == Success(merged) else merged == last
    ensures Folds(defs + [last], raw[last.id := merged])
  {
    hide FoldsOne, Defined, Merge;
    forall id
      ensures Defined(defs + [last], id) <==> Defined(defs, id) || last.id == id
    {
      DefinedStep(defs, last, id);
    }
    forall id | id in raw && id != last.id
      ensures FoldsOne(defs + [last], id, raw[id])
    {
      FoldsOneSame(defs, last, id, raw[id]);
    }
    if last.id in raw {
      FoldsOneMerged(defs, last, raw[last.id], merged);
    } else {
      FoldsOneFirst(defs, last);
    }
  }

  lemma SkipStep(defs: seq<Style>, last: Style, raw: Styles)
    requires Folds(defs, raw) && last.id == ""
    ensures Folds(defs + [last], raw)
  {
    hide FoldsOne, Defined;
    forall id
      ensures Defined(defs + [last], id) <==> Defined(defs, id) || last.id == id
    {
      DefinedStep(defs, last, id);
    }
    forall id | id in raw
      ensures FoldsOne(defs + [last], id, raw[id])
    {
      FoldsOneSame(defs, last, id, raw[id]);
    }
  }

  /** A definition conflicts with what was folded exactly when it conflicts with an earlier definition. */
  lemma ConflictHasWitness(defs: seq<Style>, last: Style, raw: Styles)
    requires Folds(defs, raw) && last.id in raw
    ensures Compatible(raw[last.id], last) <==> forall d :: d in defs && d.id == last.id ==> Compatible(d, last)
  {
    var s := raw[last.id];
    if !Compatible(s, last) {
      if !Agree(s.outline, last.outline) {
        var d :| d in defs && d.id == last.id && OutlineOf(d) == s.outline;
        assert !Compatible(d, last);
      } else if !Agree(s.numId, last.numId) {
        var d :| d in defs && d.id == last.id && NumIdOf(d) == s.numId;
        assert !Compatible(d, last);
      } else if !Agree(s.ilvl, last.ilvl) {
        var d :| d in defs && d.id == last.id && IlvlOf(d) == s.ilvl;
        assert !Compatible(d, last);
      } else {
        var d :| d in defs && d.id == last.id && BaseOf(d) == s.basedOn;
        assert !Compatible(d, last);
      }
    } else {
      forall d | d in defs && d.id == last.id
        ensures Compatible(d, last)
      {
        assert OutlineOf(d).Some? ==> OutlineOf(d) == s.outline;
        assert NumIdOf(d).Some? ==> NumIdOf(d) == s.numId;
        assert IlvlOf(d).Some? ==> IlvlOf(d) == s.ilvl;
        assert BaseOf(d).Some? ==> BaseOf(d) == s.basedOn;
      }
    }
  }

  /** Definitions without an id are skipped, so only the others can conflict. */
  ghost predicate Conflicting(defs: seq<Style>) {
    exists a, b :: a in defs && b in defs && a.id == b.id != "" && !Compatible(a, b)
  }

  lemma ConflictStep(defs: seq<Style>, last: Style)
    ensures Conflicting(defs + [last])
       <==> Conflicting(defs) || (last.id != "" && exists d :: d in defs && d.id == last.id && !Compatible(d, last))
  {
    var all := defs + [last];
    assert forall d :: d in all <==> d in defs || d == last;
    assert last in all;
    if last.id != "" && exists d :: d in defs && d.id == last.id && !Compatible(d, last) {
      var d :| d in defs && d.id == last.id && !Compatible(d, last);
      assert d in all;
    }
    if a, b :| a in defs && b in defs && a.id == b.id != "" && !Compatible(a, b) {
      assert a in all && b in all;
    }
  }

  lemma ConflictStays(defs: seq<Style>, i: nat)
    requires i <= |defs| && Conflicting(defs[..i])
    ensures Conflicting(defs)
  {
    assert forall d :: d in defs[..i] ==> d in defs;
  }

  /** Folds the definitions; `order` lists the ids in the order of their first definition. */
  method FoldStyles(defs: seq<Style>) returns (r: Result<(Styles, seq<string>), string>)
    ensures r.Failure? <==> Conflicting(defs)
    ensures r.Success? ==> Folds(defs, r.value.0) && Distinct(r.value.1) && (forall id :: id in r.value.1 <==> id in r.value.0)
  {
    hide Folds, Conflicting, Compatible, Defined;
    var raw: Styles := map[];
    var order: seq<string> := [];
    NothingFolded();
    for i := 0 to |defs|
      invariant Folds(defs[..i], raw) && !Conflicting(defs[..i])
      invariant Distinct(order) && forall id :: id in order <==> id in raw
    {
      var current := defs[i];
      assert defs[..i + 1] == defs[..i] + [current];
      ConflictStep(defs[..i], current);
      if current.id == "" {
        SkipStep(defs[..i], current, raw);
      } else if current.id !in raw {
        NoEarlierDefinition(defs[..i], current, raw);
        FoldStep(defs[..i], current, raw, current);
        DistinctAppend(order, current.id);
        raw := raw[current.id := current];
        order := order + [current.id];
      } else {
        ConflictHasWitness(defs[..i], current, raw);
        var merged := Merge(raw[current.id], current);
        if merged.Failure? {
          ConflictStays(defs, i + 1);
          return Failure(merged.error);
        }
        FoldStep(defs[..i], current, raw, merged.value);
        raw := raw[current.id := merged.value];
      }
    }
    assert defs[..|defs|] == defs;
    return Success((raw, order));
  }

  lemma NothingFolded()
    ensures Folds([], map[]) && !Conflicting([])
  {
    assert forall id :: !Defined([], id);
  }

  lemma NoEarlierDefinition(defs: seq<Style>, last: Style, raw: Styles)
    requires Folds(defs, raw) && last.id != "" && last.id !in raw
    ensures forall d :: d in defs ==> d.id != last.id
  {
    assert !Defined(defs, last.id);
  }

  /** The structural part of the fold does not depend on the order of the definitions. */
  lemma FoldIgnoresOrder(a: seq<Style>, b: seq<Style>, ra: Styles, rb: Styles)
    requires multiset(a) == multiset(b) && Folds(a, ra) && Folds(b, rb)
    ensures Conflicting(a) <==> Conflicting(b)
    ensures ra.Keys == rb.Keys
    ensures forall id :: id in ra ==> ra[id].(name := None) == rb[id].(name := None)
  {
    hide Conflicting, Defined, FoldsOne;
    MembersOfMultiset(a, b);
    SameConflicts(a, b);
    forall id
      ensures Defined(a, id) <==> Defined(b, id)
    {
      SameDefined(a, b, id);
    }
    forall id | id in ra
      ensures ra[id].(name := None) == rb[id].(name := None)
    {
      SameFold(a, b, id, ra[id], rb[id]);
    }
  }

  lemma SameDefined(a: seq<Style>, b: seq<Style>, id: string)
    requires forall d :: d in a <==> d in b
    ensures Defined(a, id) <==> Defined(b, id)
  {
  }

  lemma SameConflicts(a: seq<Style>, b: seq<Style>)
    requires forall d :: d in a <==> d in b
    ensures Conflicting(a) <==> Conflicting(b)
  {
    hide Compatible;
  }

  lemma SameFold(a: seq<Style>, b: seq<Style>, id: string, x: Style, y: Style)
    requires forall d :: d in a <==> d in b
    requires FoldsOne(a, id, x) && FoldsOne(b, id, y)
    ensures x.(name := None) == y.(name := None)
  {
    hide CommonValue;
    SameCommonValue(a, b, id, OutlineOf, x.outline, y.outline);
    SameCommonValue(a, b, id, NumIdOf, x.numId, y.numId);
    SameCommonValue(a, b, id, IlvlOf, x.ilvl, y.ilvl);
    SameCommonValue(a, b, id, BaseOf, x.basedOn, y.basedOn);
  }

  lemma SameCommonValue<T(!new)>(a: seq<Style>, b: seq<Style>, id: string, field: Style -> Option<T>, x: Option<T>, y: Option<T>)
    requires forall d :: d in a <==> d in b
    requires CommonValue(a, id, field, x) && CommonValue(b, id, field, y)
    ensures x == y
  {
    assert x.Some? ==> exists d :: d in a && d.id == id && field(d) == x;
    assert y.Some? ==> exists d :: d in b && d.id == id && field(d) == y;
  }

  // ----- when the order of definitions shows in the name -----

  /** No two definitions of the id set different non-empty names. */
  ghost predicate NamesAgree(defs: seq<Style>, id: string) {
    forall x, y :: x in defs && y in defs && x.id == y.id == id && Truthy(x.name) && Truthy(y.name) ==> x.name == y.name
  }

  lemma FoldedTruthyName(defs: seq<Style>, id: string)
    ensures TruthyPart(FoldedName(Definitions(defs, id))) == LastTruthyName(Definitions(defs, id))
    ensures LastTruthyName(Definitions(defs, id)).None? <==> forall d :: d in defs && d.id == id ==> !Truthy(d.name)
    ensures LastTruthyName(Definitions(defs, id)).Some?
        ==> exists d :: d in defs && d.id == id && Truthy(d.name) && d.name == LastTruthyName(Definitions(defs, id))
  {
    DefinitionsMembers(defs, id);
    LastTruthyMember(Definitions(defs, id));
    hide Definitions, LastTruthyName;
    var ds := Definitions(defs, id);
    assert ds != [] ==> ds[0] in ds;
  }

  lemma AgreeingNamesFold(a: seq<Style>, b: seq<Style>, id: string)
    requires (forall d :: d in a <==> d in b) && NamesAgree(a, id)
    ensures TruthyPart(FoldedName(Definitions(a, id))) == TruthyPart(FoldedName(Definitions(b, id)))
  {
    FoldedTruthyName(a, id);
    FoldedTruthyName(b, id);
    hide FoldedName, LastTruthyName, Definitions, TruthyPart;
  }

  /** Definition `i` moved to the end. */
  function MovedLast(defs: seq<Style>, i: nat): seq<Style>
    requires i < |defs|
  {
    defs[..i] + defs[i + 1..] + [defs[i]]
  }

  lemma MovedLastNames(defs: seq<Style>, i: nat)
    requires i < |defs| && Truthy(defs[i].name)
    ensures multiset(MovedLast(defs, i)) == multiset(defs)
    ensures TruthyPart(FoldedName(Definitions(MovedLast(defs, i), defs[i].id))) == defs[i].name
  {
    var front, last := defs[..i] + defs[i + 1..], defs[i];
    assert defs == defs[..i] + [last] + defs[i + 1..];
    DefinitionsStep(front, last, last.id);
    FoldedNameStep(Definitions(front, last.id), last);
    hide FoldedName, Definitions;
  }

  /** What the definitions in another order fold to. */
  function Renamed(raw: Styles, e: seq<Style>): Styles {
    map id | id in raw :: raw[id].(name := FoldedName(Definitions(e, id)))
  }

  lemma CommonValueSame<T(!new)>(a: seq<Style>, b: seq<Style>, id: string, field: Style -> Option<T>, value: Option<T>)
    requires (forall d :: d in a <==> d in b) && CommonValue(a, id, field, value)
    ensures CommonValue(b, id, field, value)
  {
  }

  lemma RenamedFoldsOne(a: seq<Style>, b: seq<Style>, id: string, s: Style)
    requires (forall d :: d in a <==> d in b) && FoldsOne(a, id, s)
    ensures FoldsOne(b, id, s.(name := FoldedName(Definitions(b, id))))
  {
    hide CommonValue, FoldedName, Definitions;
    CommonValueSame(a, b, id, OutlineOf, s.outline);
    CommonValueSame(a, b, id, NumIdOf, s.numId);
    CommonValueSame(a, b, id, IlvlOf, s.ilvl);
    CommonValueSame(a, b, id, BaseOf, s.basedOn);
  }

  /** Definitions that fold do so in any order. */
  lemma ReorderedFolds(defs: seq<Style>, raw: Styles, e: seq<Style>)
    requires Folds(defs, raw) && multiset(e) == multiset(defs)
    ensures Folds(e, Renamed(raw, e))
  {
    hide FoldsOne, Defined, FoldedName, Definitions;
    MembersOfMultiset(e, defs);
    var re := Renamed(raw, e);
    forall id
      ensures id in re <==> id != "" && Defined(e, id)
    {
      SameDefined(e, defs, id);
    }
    forall id | id in re
      ensures FoldsOne(e, id, re[id])
    {
      RenamedFoldsOne(defs, e, id, raw[id]);
    }
  }

  /** Every reordering of the definitions folds to the same non-empty name of the style, or to none as well. */
  ghost predicate NameIgnoresOrder(defs: seq<Style>, raw: Styles, id: string)
    requires id in raw
  {
    forall e: seq<Style>, re: Styles :: multiset(e) == multiset(defs) && Folds(e, re) ==>
      id in re && TruthyPart(re[id].name) == TruthyPart(raw[id].name)
  }

  lemma MovedLastKeepsName(defs: seq<Style>, raw: Styles, i: nat)
    requires Folds(defs, raw) && i < |defs| && Truthy(defs[i].name) && defs[i].id in raw
    requires NameIgnoresOrder(defs, raw, defs[i].id)
    ensures TruthyPart(raw[defs[i].id].name) == defs[i].name
  {
    var e, id := MovedLast(defs, i), defs[i].id;
    MovedLastNames(defs, i);
    hide MovedLast;
    ReorderedFolds(defs, raw, e);
    hide Folds, FoldedName, Definitions;
    assert id in Renamed(raw, e) && Renamed(raw, e)[id].name == FoldedName(Definitions(e, id));
  }

  /**
   The folded name, unlike the structural fields, can depend on the order of the definitions: it does
   not exactly when the non-empty names given to the style are all the same.
   */
  lemma NameIgnoresOrderExactly(defs: seq<Style>, raw: Styles, id: string)
    requires Folds(defs, raw) && id in raw
    ensures NameIgnoresOrder(defs, raw, id) <==> NamesAgree(defs, id)
  {
    if NamesAgree(defs, id) {
      AgreeingNamesIgnoreOrder(defs, raw, id);
    }
    if NameIgnoresOrder(defs, raw, id) {
      hide Folds, NameIgnoresOrder, FoldedName, Definitions;
      forall x, y | x in defs && y in defs && x.id == y.id == id && Truthy(x.name) && Truthy(y.name)
        ensures x.name == y.name
      {
        var i :| 0 <= i < |defs| && defs[i] == x;
        var j :| 0 <= j < |defs| && defs[j] == y;
        MovedLastKeepsName(defs, raw, i);
        MovedLastKeepsName(defs, raw, j);
      }
    }
  }

  lemma AgreeingNamesIgnoreOrder(defs: seq<Style>, raw: Styles, id: string)
    requires Folds(defs, raw) && id in raw && NamesAgree(defs, id)
    ensures NameIgnoresOrder(defs, raw, id)
  {
    forall e: seq<Style>, re: Styles | multiset(e) == multiset(defs) && Folds(e, re)
      ensures id in re && TruthyPart(re[id].name) == TruthyPart(raw[id].name)
    {
      hide *;
      MembersOfMultiset(e, defs);
      SameDefined(e, defs, id);
      FoldedEntry(defs, raw, id);
      FoldedEntry(e, re, id);
      AgreeingNamesFold(defs, e, id);
    }
    hide Folds, FoldedName, Definitions;
  }

  lemma FoldedEntry(defs: seq<Style>, raw: Styles, id: string)
    requires Folds(defs, raw)
    ensures id in raw <==> id != "" && Defined(defs, id)
    ensures id in raw ==> raw[id].name == FoldedName(Definitions(defs, id))
  {
    hide FoldedName, Definitions, Defined, CommonValue;
  }

  /** It can: two definitions with different names. */
  lemma NameDependsOnOrder()
    ensures exists a: Style, b: Style ::
              Compatible(a, b) && Merge(a, b).Success? && Merge(b, a).Success? && Merge(a, b).value.name != Merge(b, a).value.name
  {
    var a := Style("s", Some("A"), None, None, None, None);
    var b := Style("s", Some("B"), None, None, None, None);
    assert Merge(a, b).value.name == Some("B") && Merge(b, a).value.name == Some("A");
  }

  // ----- inheritance -----

  /** The style `id` inherits from, when it names one that exists. */
  function Parent(raw: Styles, id: string): (p: Option<string>)
    requires id in raw
    ensures p.Some? ==> p.value in raw
  {
    if Truthy(raw[id].basedOn) && raw[id].basedOn.value in raw then raw[id].basedOn else None
  }

  /** The ancestor `k` steps up. */
  function Ancestor(raw: Styles, id: string, k: nat): (p: Option<string>)
    requires id in raw
    ensures p.Some? ==> p.value in raw
    decreases k
  {
    if k == 0 then Some(id)
    else if Parent(raw, id).None? then None
    else Ancestor(raw, Parent(raw, id).value, k - 1)
  }

  /** Following basedOn from `id` comes back to a style already met. */
  ghost predicate ReachesCycle(raw: Styles, id: string)
    requires id in raw
  {
    exists i: nat, k: nat :: OnCycle(raw, id, i, k)
  }

  ghost predicate OnCycle(raw: Styles, id: string, i: nat, k: nat)
    requires id in raw
  {
    k > 0 && Ancestor(raw, id, i).Some? && Ancestor(raw, Ancestor(raw, id, i).value, k) == Ancestor(raw, id, i)
  }

  /** The chain from `id` upwards is a finite list of styles that ends at a style without parent. */
  ghost predicate IsChain(raw: Styles, id: string, chain: seq<Style>)
    requires id in raw
    decreases |chain|
  {
    chain != [] && chain[0] == raw[id]
    && if Parent(raw, id).None? then |chain| == 1 else IsChain(raw, Parent(raw, id).value, chain[1..])
  }

  // What the plain walk up a chain finds.

  function FirstTruthyName(chain: seq<Style>): Option<string> {
    if chain == [] then None else if Truthy(chain[0].name) then chain[0].name else FirstTruthyName(chain[1..])
  }

  function FirstOutline(chain: seq<Style>): Option<int> {
    if chain == [] then None else if chain[0].outline.Some? then chain[0].outline else FirstOutline(chain[1..])
  }

  function FirstTruthyNumId(chain: seq<Style>): Option<string> {
    if chain == [] then None else if Truthy(chain[0].numId) then chain[0].numId else FirstTruthyNumId(chain[1..])
  }

  /** The level of the first style that sets a number id, or else of the last style. */
  function NumberingLevel(chain: seq<Style>): Option<int>
    requires chain != []
  {
    if chain[0].numId.Some? || |chain| == 1 then chain[0].ilvl else NumberingLevel(chain[1..])
  }

  function Inherited(chain: seq<Style>): Style
    requires chain != []
  {
    Style(chain[0].id, FirstTruthyName(chain), FirstOutline(chain), FirstTruthyNumId(chain), NumberingLevel(chain),
          chain[0].basedOn)
  }

  /** What a style inherits, in terms of what its parent inherits. */
  lemma InheritOne(chain: seq<Style>)
    requires chain != []
    ensures var item := chain[0];
            Inherited(chain) ==
              if |chain| == 1 then
                Style(item.id, if Truthy(item.name) then item.name else None, item.outline,
                      if Truthy(item.numId) then item.numId else None, item.ilvl, item.basedOn)
              else
                var parent := Inherited(chain[1..]);
                Style(item.id, if Truthy(item.name) then item.name else parent.name,
                      if item.outline.Some? then item.outline else parent.outline,
                      if Truthy(item.numId) then item.numId else parent.numId,
                      if item.numId.Some? then item.ilvl else parent.ilvl, item.basedOn)
  {
    if |chain| == 1 {
      assert chain[1..] == [];
      NothingInherited(chain[1..]);
    }
  }

  lemma NothingInherited(chain: seq<Style>)
    requires chain == []
    ensures FirstTruthyName(chain) == None && FirstOutline(chain) == None && FirstTruthyNumId(chain) == None
  {
  }

  lemma {:induction false} ChainIsUnique(raw: Styles, id: string, a: seq<Style>, b: seq<Style>)
    requires id in raw && IsChain(raw, id, a) && IsChain(raw, id, b)
    ensures a == b
    decreases |a|
  {
    if Parent(raw, id).Some? {
      ChainIsUnique(raw, Parent(raw, id).value, a[1..], b[1..]);
      assert a == [a[0]] + a[1..] && b == [b[0]] + b[1..];
    }
  }

  lemma {:induction false} ChainAbove(raw: Styles, id: string, chain: seq<Style>, k: nat)
    requires id in raw && IsChain(raw, id, chain) && Ancestor(raw, id, k).Some?
    ensures k < |chain| && IsChain(raw, Ancestor(raw, id, k).value, chain[k..])
    decreases k
  {
    if k > 0 {
      ChainAbove(raw, Parent(raw, id).value, chain[1..], k - 1);
      assert chain[1..][k - 1..] == chain[k..];
    } else {
      assert chain[0..] == chain;
    }
  }

  /** A style with a finite chain reaches no cycle. */
  lemma FiniteChainHasNoCycle(raw: Styles, id: string, chain: seq<Style>)
    requires id in raw && IsChain(raw, id, chain)
    ensures !ReachesCycle(raw, id)
  {
    forall i: nat, k: nat
      ensures !OnCycle(raw, id, i, k)
    {
      if OnCycle(raw, id, i, k) {
        var s := Ancestor(raw, id, i).value;
        ChainAbove(raw, id, chain, i);
        ChainAbove(raw, s, chain[i..], k);
        ChainIsUnique(raw, s, chain[i..], chain[i..][k..]);
      }
    }
  }

  lemma {:induction false} AncestorStep(raw: Styles, id: string, k: nat)
    requires id in raw && Ancestor(raw, id, k).Some?
    ensures Ancestor(raw, id, k + 1) == Parent(raw, Ancestor(raw, id, k).value)
    decreases k
  {
    if k > 0 {
      AncestorStep(raw, Parent(raw, id).value, k - 1);
    }
  }

  /** A child of a style that reaches a cycle reaches it too. */
  lemma CycleBelow(raw: Styles, id: string)
    requires id in raw && Parent(raw, id).Some? && ReachesCycle(raw, Parent(raw, id).value)
    ensures ReachesCycle(raw, id)
  {
    var p := Parent(raw, id).value;
    var i: nat, k: nat :| OnCycle(raw, p, i, k);
    assert Ancestor(raw, id, i + 1) == Ancestor(raw, p, i);
    assert OnCycle(raw, id, i + 1, k);
  }

  ghost predicate BaseMissing(raw: Styles, id: string)
    requires id in raw
  {
    Truthy(raw[id].basedOn) && raw[id].basedOn.value !in raw
  }

  class StyleResolver {
    const raw: Styles
    var resolved: Styles
    /** The ids reported with a missing base style. */
    var missing: seq<string>

    constructor (raw: Styles)
      ensures this.raw == raw && Valid() && resolved == map[] && missing == []
    {
      this.raw := raw;
      resolved := map[];
      missing := [];
    }

    /** The memo agrees with the plain chain walk, and each missing base was reported once. */
    ghost predicate Valid()
      reads this
    {
      && (forall s :: s in resolved ==> s in raw && Agrees(s, resolved[s]))
      && Distinct(missing)
      && (forall s :: s in missing <==> s in resolved && BaseMissing(raw, s))
    }

    /** The styles being resolved, each based on the next, the last one on `id`. */
    ghost predicate Trail(trail: seq<string>, id: string) {
      && (forall i :: 0 <= i < |trail| ==> trail[i] in raw)
      && (forall i :: 0 <= i < |trail| ==> Parent(raw, trail[i]) == Some(After(trail, id, i)))
    }

    static function After(trail: seq<string>, id: string, i: nat): string {
      if i + 1 < |trail| then trail[i + 1] else id
    }

    lemma {:induction false} TrailLeads(trail: seq<string>, id: string, i: nat)
      requires id in raw && Trail(trail, id) && i < |trail|
      ensures Ancestor(raw, trail[i], |trail| - i) == Some(id)
      decreases |trail| - i
    {
      if i + 1 < |trail| {
        TrailLeads(trail, id, i + 1);
      } else {
        assert Parent(raw, trail[i]) == Some(After(trail, id, i)) == Some(id);
        assert Ancestor(raw, trail[i], 1) == Ancestor(raw, id, 0);
      }
    }

    lemma TrailGrows(trail: seq<string>, id: string)
      requires id in raw && Trail(trail, id) && Parent(raw, id).Some?
      ensures Trail(trail + [id], Parent(raw, id).value)
      ensures (set s | s in trail + [id]) == (set s | s in trail) + {id}
    {
      var longer, next := trail + [id], Parent(raw, id).value;
      forall i | 0 <= i < |longer|
        ensures longer[i] in raw && Parent(raw, longer[i]) == Some(After(longer, next, i))
      {
        if i < |trail| {
          assert longer[i] == trail[i];
          assert After(longer, next, i) == After(trail, id, i);
        }
      }
    }

    /** A repeated style in the trail is a cycle. */
    lemma TrailRepeats(trail: seq<string>, id: string)
      requires id in raw && Trail(trail, id) && id in trail
      ensures ReachesCycle(raw, id)
    {
      var i :| 0 <= i < |trail| && trail[i] == id;
      TrailLeads(trail, id, i);
      assert Ancestor(raw, id, 0) == Some(id);
      assert OnCycle(raw, id, 0, |trail| - i);
    }

    ghost predicate Agrees(id: string, style: Style)
      requires id in raw
    {
      exists chain :: IsChain(raw, id, chain) && style == Inherited(chain)
    }

    lemma AgreesAcyclic(id: string, style: Style)
      requires id in raw && Agrees(id, style)
      ensures !ReachesCycle(raw, id)
    {
      var chain :| IsChain(raw, id, chain) && style == Inherited(chain);
      FiniteChainHasNoCycle(raw, id, chain);
    }

    static function Combine(item: Style, parent: Option<Style>): Style {
      Style(
        item.id,
        if Truthy(item.name) then item.name else if parent.Some? then parent.value.name else None,
        if item.outline.Some? then item.outline else if parent.Some? then parent.value.outline else None,
        if Truthy(item.numId) then item.numId else if parent.Some? then parent.value.numId else None,
        if item.numId.Some? then item.ilvl else if parent.Some? then parent.value.ilvl else item.ilvl,
        item.basedOn)
    }

    lemma CombineAgrees(id: string, parent: Option<Style>)
      requires id in raw && (parent.Some? <==> Parent(raw, id).Some?)
      requires parent.Some? ==> Agrees(Parent(raw, id).value, parent.value)
      ensures Agrees(id, Combine(raw[id], parent))
    {
      var rest: seq<Style> := [];
      if parent.Some? {
        rest :| IsChain(raw, Parent(raw, id).value, rest) && parent.value == Inherited(rest);
      }
      var chain := [raw[id]] + rest;
      assert chain[1..] == rest;
      InheritOne(chain);
    }

    method Resolve(id: string, trail: seq<string>) returns (r: Result<Style, string>)
      requires Valid() && id in raw && Trail(trail, id) && (forall s :: s in trail ==> s !in resolved)
      modifies this
      ensures Valid()
      ensures forall s :: s in old(resolved) ==> s in resolved && resolved[s] == old(resolved)[s]
      ensures forall s :: s in trail ==> s !in resolved
      ensures r.Failure? <==> ReachesCycle(raw, id)
      ensures r.Success? ==> id in resolved && r.value == resolved[id]
      decreases raw.Keys - (set s | s in trail)
    {
      hide Agrees, ReachesCycle, Trail;
      if id in resolved {
        AgreesAcyclic(id, resolved[id]);
        return Success(resolved[id]);
      }
      if id in trail {
        TrailRepeats(trail, id);
        return Failure(id);
      }
      var item := raw[id];
      var parent: Option<Style> := None;
      if Truthy(item.basedOn) {
        if item.basedOn.value in raw {
          var base := item.basedOn.value;
          TrailGrows(trail, id);
          assert id in trail + [id] && forall s :: s in trail ==> s in trail + [id];
          var up := Resolve(base, trail + [id]);
          if up.Failure? {
            CycleBelow(raw, id);
            return Failure(up.error);
          }
          parent := Some(up.value);
        } else {
          DistinctAppend(missing, id);
          missing := missing + [id];
        }
      }
      CombineAgrees(id, parent);
      AgreesAcyclic(id, Combine(item, parent));
      resolved := resolved[id := Combine(item, parent)];
      return Success(resolved[id]);
    }

    /** Resolves every style, in the given order. */
    method ResolveAll(order: seq<string>) returns (ok: bool)
      requires Valid() && resolved == map[] && forall id :: id in order <==> id in raw
      modifies this
      ensures Valid()
      ensures !ok <==> exists id :: id in raw && ReachesCycle(raw, id)
      ensures ok ==> resolved.Keys == raw.Keys
    {
      for i := 0 to |order|
        invariant Valid()
        invariant forall k :: 0 <= k < i ==> order[k] in resolved && !ReachesCycle(raw, order[k])
      {
        assert order[i] in order;
        var r := Resolve(order[i], []);
        if r.Failure? {
          return false;
        }
      }
      ok := true;
      forall id | id in raw
        ensures id in resolved && !ReachesCycle(raw, id)
      {
        assert id in order;
      }
    }
  }

  // ----- where number id and level come from -----

  /** The style that decides the level: the first to set a number id, even an empty one, or else the last. */
  function LevelStyle(chain: seq<Style>): (k: nat)
    requires chain != []
    ensures k < |chain| && (forall j :: 0 <= j < k ==> chain[j].numId.None?)
    ensures chain[k].numId.Some? || k == |chain| - 1
  {
    if chain[0].numId.Some? || |chain| == 1 then 0
    else
      var k := LevelStyle(chain[1..]);
      assert forall j :: 0 < j <= k ==> chain[j] == chain[1..][j - 1];
      k + 1
  }

  /**
   The level is always that of the deciding style. The number id is that style's as well exactly when
   the style gives a non-empty one or no style does.
   */
  lemma {:induction false} NumberAndLevelExactly(chain: seq<Style>)
    requires chain != []
    ensures Inherited(chain).ilvl == chain[LevelStyle(chain)].ilvl
    ensures Inherited(chain).numId == TruthyPart(chain[LevelStyle(chain)].numId)
       <==> Truthy(chain[LevelStyle(chain)].numId) || forall s :: s in chain ==> !Truthy(s.numId)
  {
    FirstTruthyMember(chain);
    assert chain == [chain[0]] + chain[1..];
    if chain[0].numId.None? && |chain| > 1 {
      NumberAndLevelExactly(chain[1..]);
    }
  }

  lemma {:induction false} FirstTruthyMember(chain: seq<Style>)
    ensures FirstTruthyNumId(chain).None? <==> forall s :: s in chain ==> !Truthy(s.numId)
    ensures FirstTruthyNumId(chain).Some? ==> Truthy(FirstTruthyNumId(chain))
    ensures FirstTruthyNumId(chain).Some? ==> exists j :: 0 <= j < |chain| && chain[j].numId == FirstTruthyNumId(chain)
  {
    if chain != [] {
      FirstTruthyMember(chain[1..]);
      assert chain == [chain[0]] + chain[1..];
      if !Truthy(chain[0].numId) && FirstTruthyNumId(chain).Some? {
        var j :| 0 <= j < |chain[1..]| && chain[1..][j].numId == FirstTruthyNumId(chain);
        assert chain[j + 1].numId == FirstTruthyNumId(chain);
      }
    }
  }

  /** In particular, when every number id in the chain is non-empty, both come from the same style. */
  lemma NumberAndLevelTogether(chain: seq<Style>) returns (k: nat)
    requires chain != [] && forall s :: s in chain && s.numId.Some? ==> s.numId.value != ""
    ensures k < |chain| && (forall j :: 0 <= j < k ==> chain[j].numId.None?)
    ensures chain[k].numId.Some? || k == |chain| - 1
    ensures Inherited(chain).numId == chain[k].numId && Inherited(chain).ilvl == chain[k].ilvl
  {
    k := LevelStyle(chain);
    NumberAndLevelExactly(chain);
    assert chain[k] in chain;
    assert forall s :: s in chain ==> exists j :: 0 <= j < |chain| && chain[j] == s;
  }

  /**
   Otherwise, whenever the deciding style sets an empty number id and some style a non-empty one, they
   come apart: the number id is that of a later style, the level is not.
   */
  lemma EmptyNumberIdSplits(chain: seq<Style>) returns (j: nat)
    requires chain != [] && !Truthy(chain[LevelStyle(chain)].numId) && exists s :: s in chain && Truthy(s.numId)
    ensures LevelStyle(chain) < j < |chain| && Truthy(chain[j].numId) && Inherited(chain).numId == chain[j].numId
    ensures Inherited(chain).ilvl == chain[LevelStyle(chain)].ilvl
  {
    NumberAndLevelExactly(chain);
    FirstTruthyMember(chain);
    j :| 0 <= j < |chain| && chain[j].numId == FirstTruthyNumId(chain);
  }

  /** It happens: a child with an empty number id on a numbered base. */
  lemma ComesApart()
    ensures exists child: Style, base: Style ::
              Inherited([child, base]).numId == base.numId != child.numId
              && Inherited([child, base]).ilvl == child.ilvl != base.ilvl
  {
    var child := Style("c", None, None, Some(""), Some(1), Some("b"));
    var base := Style("b", None, None, Some("7"), Some(2), None);
    var chain := [child, base];
    assert chain[0] == child && chain[1] == base && base in chain;
    var j := EmptyNumberIdSplits(chain);
    assert Inherited(chain).numId == Some("7") && Inherited(chain).ilvl == Some(1);
  }
}
