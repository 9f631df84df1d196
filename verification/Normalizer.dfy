/**
 The element normalizer and the independent audit that compares its output with the adapter's
 observations.  JSON values stand for their canonical text; an element id is modelled by the
 observation it digests, so equal ids mean equal observations.
 */
module Normalizer {
  import opened Basics
  import SourceLines

  type Json = string

  datatype Form = NoForm | Nfc | Nfkc

  datatype Transformation =
    | NormalizedLineEndings(crlf: nat, standaloneCr: int)
    | NormalizedUnicode(form: Form)
    | AdapterStep(operation: string)

  datatype Provenance = Provenance(
    source: string, extractor: string, extractorVersion: Option<string>, confidence: Option<real>,
    transformations: seq<Transformation>, metadata: Json)

  datatype Location = Location(source: Option<string>, coordinates: Json)

  datatype RawElement = RawElement(
    text: Option<string>, typeHint: Option<string>, order: nat, location: Option<Location>,
    style: Option<Json>, attributes: Json, provenance: Provenance)

  datatype ElementId = ElementId(
    documentId: string, text: Option<string>, typeHint: Option<string>, order: nat,
    coordinates: Option<Json>, style: Option<Json>, attributes: Json, source: string)

  datatype Element = Element(
    id: ElementId, kind: string, sourceTypeHint: Option<string>, order: nat,
    rawText: Option<string>, normalizedText: Option<string>, location: Option<Location>,
    style: Option<Json>, attributes: Json, provenance: Provenance)

  datatype Policy = Policy(normalizeLineEndings: bool, unicodeForm: Form)

  /** What the normalizer takes from its platform: string stripping, Unicode normalization and the type table. */
  datatype Platform = Platform(
    strip: string -> string,
    unicode: (Form, string) -> string,
    resolve: Option<string> -> Resolution)

  datatype Resolution = Resolution(kind: string, unknownHint: bool)

  datatype NormalizationError = BadDocumentId | NoElements | DuplicateOrders | UnsortedOrders

  datatype Normalization = Normalization(
    elements: seq<Element>, transformed: seq<ElementId>, unknownHints: seq<ElementId>)

  function NormalizeText(text: Option<string>, policy: Policy, platform: Platform)
    : (Option<string>, seq<Transformation>)
  {
    if text.None? then (None, [])
    else
      var lined := if policy.normalizeLineEndings then SourceLines.NormalizeLineEndings(text.value) else text.value;
      var first := if lined != text.value
                   then [NormalizedLineEndings(SourceLines.CountCrLf(text.value),
                                               SourceLines.CountCr(text.value) - SourceLines.CountCrLf(text.value))]
                   else [];
      var formed := if policy.unicodeForm.NoForm? then lined else platform.unicode(policy.unicodeForm, lined);
      var second := if formed != lined then [NormalizedUnicode(policy.unicodeForm)] else [];
      (Some(formed), first + second)
  }

  function IdOf(documentId: string, raw: RawElement): ElementId {
    ElementId(documentId, raw.text, raw.typeHint, raw.order,
              if raw.location.Some? then Some(raw.location.value.coordinates) else None,
              raw.style, raw.attributes, raw.provenance.source)
  }

  function NormalizeElement(raw: RawElement, documentId: string, policy: Policy, platform: Platform): Element {
    var (normalized, steps) := NormalizeText(raw.text, policy, platform);
    Element(IdOf(documentId, raw), platform.resolve(raw.typeHint).kind, raw.typeHint, raw.order, raw.text, normalized,
            raw.location, raw.style, raw.attributes,
            raw.provenance.(transformations := raw.provenance.transformations + steps))
  }

  /** The ids of the elements that satisfy `keep`, in order. */
  function IdsWhere(raws: seq<RawElement>, documentId: string, keep: RawElement -> bool): seq<ElementId> {
    if raws == [] then []
    else IdsWhere(raws[..|raws| - 1], documentId, keep)
         + (if keep(raws[|raws| - 1]) then [IdOf(documentId, raws[|raws| - 1])] else [])
  }

  function Transforms(policy: Policy, platform: Platform): RawElement -> bool {
    (raw: RawElement) => NormalizeText(raw.text, policy, platform).1 != []
  }

  function HasUnknownHint(platform: Platform): RawElement -> bool {
    (raw: RawElement) => platform.resolve(raw.typeHint).unknownHint
  }

  ghost predicate DistinctOrders(raws: seq<RawElement>) {
    forall i, j :: 0 <= i < j < |raws| ==> raws[i].order != raws[j].order
  }

  ghost predicate AscendingOrders(raws: seq<RawElement>) {
    forall i, j :: 0 <= i < j < |raws| ==> raws[i].order <= raws[j].order
  }

  function OrderSet(raws: seq<RawElement>): set<nat> {
    set raw | raw in raws :: raw.order
  }

  lemma LastOrder(raws: seq<RawElement>)
    requires raws != []
    ensures var n := |raws| - 1;
            && OrderSet(raws) == OrderSet(raws[..n]) + {raws[n].order}
            && (DistinctOrders(raws) <==> DistinctOrders(raws[..n]) && raws[n].order !in OrderSet(raws[..n]))
  {
    var n := |raws| - 1;
    assert raws == raws[..n] + [raws[n]];
    if raws[n].order in OrderSet(raws[..n]) {
      var k :| 0 <= k < n && raws[..n][k].order == raws[n].order;
      assert raws[k].order == raws[n].order;
    }
    forall i, j | 0 <= i < j < |raws| && DistinctOrders(raws[..n]) && raws[n].order !in OrderSet(raws[..n])
      ensures raws[i].order != raws[j].order
    {
      assert raws[..n][i] == raws[i] && raws[i] in raws[..n];
    }
    assert DistinctOrders(raws) ==> DistinctOrders(raws[..n]);
  }

  lemma {:induction false} OrderSetSize(raws: seq<RawElement>)
    ensures |OrderSet(raws)| <= |raws|
    ensures |OrderSet(raws)| == |raws| <==> DistinctOrders(raws)
  {
    if raws != [] {
      var n := |raws| - 1;
      LastOrder(raws);
      hide OrderSet, DistinctOrders;
      OrderSetSize(raws[..n]);
    }
  }

  method ValidateInputs(raws: seq<RawElement>, documentId: string, platform: Platform)
    returns (error: Option<NormalizationError>)
    ensures error.None? <==>
            documentId != "" && platform.strip(documentId) == documentId
            && raws != [] && DistinctOrders(raws) && AscendingOrders(raws)
    ensures error == Some(UnsortedOrders) ==> DistinctOrders(raws) && !AscendingOrders(raws)
    ensures error == Some(DuplicateOrders) ==> !DistinctOrders(raws)
  {
    if documentId == "" || platform.strip(documentId) != documentId {
      return Some(BadDocumentId);
    }
    if raws == [] {
      return Some(NoElements);
    }
    OrderSetSize(raws);
    if |OrderSet(raws)| != |raws| {
      return Some(DuplicateOrders);
    }
    for i := 1 to |raws|
      invariant forall j, k :: 0 <= j < k < i ==> raws[j].order <= raws[k].order
    {
      if raws[i - 1].order > raws[i].order {
        return Some(UnsortedOrders);
      }
    }
    return None;
  }

  lemma NormalizedParts(raw: RawElement, documentId: string, policy: Policy, platform: Platform)
    ensures var element := NormalizeElement(raw, documentId, policy, platform);
            element.id == IdOf(documentId, raw)
            && (|element.provenance.transformations| > |raw.provenance.transformations| <==> Transforms(policy, platform)(raw))
  {
    hide NormalizeText;
  }

  lemma IdsWhereStep(raws: seq<RawElement>, i: nat, documentId: string, keep: RawElement -> bool)
    requires i < |raws|
    ensures IdsWhere(raws[..i + 1], documentId, keep)
         == IdsWhere(raws[..i], documentId, keep) + if keep(raws[i]) then [IdOf(documentId, raws[i])] else []
  {
    assert raws[..i + 1][..i] == raws[..i];
  }

  lemma NothingKept(raws: seq<RawElement>, documentId: string, keep: RawElement -> bool)
    requires raws == []
    ensures IdsWhere(raws, documentId, keep) == []
  {
  }

  method Normalize(raws: seq<RawElement>, documentId: string, policy: Policy, platform: Platform)
    returns (result: Result<Normalization, NormalizationError>)
    ensures result.Success? <==>
            documentId != "" && platform.strip(documentId) == documentId
            && raws != [] && DistinctOrders(raws) && AscendingOrders(raws)
    ensures result.Success? ==>
              |result.value.elements| == |raws|
              && (forall i :: 0 <= i < |raws| ==>
                    result.value.elements[i] == NormalizeElement(raws[i], documentId, policy, platform))
              && result.value.transformed == IdsWhere(raws, documentId, Transforms(policy, platform))
              && result.value.unknownHints == IdsWhere(raws, documentId, HasUnknownHint(platform))
  {
    hide NormalizeElement, IdsWhere, Transforms, DistinctOrders, AscendingOrders;
    var error := ValidateInputs(raws, documentId, platform);
    if error.Some? {
      return Failure(error.value);
    }
    var elements: seq<Element> := [];
    var transformed: seq<ElementId> := [];
    var unknownHints: seq<ElementId> := [];
    NothingKept(raws[..0], documentId, Transforms(policy, platform));
    NothingKept(raws[..0], documentId, HasUnknownHint(platform));
    for i := 0 to |raws|
      invariant |elements| == i
      invariant forall k :: 0 <= k < i ==> elements[k] == NormalizeElement(raws[k], documentId, policy, platform)
      invariant transformed == IdsWhere(raws[..i], documentId, Transforms(policy, platform))
      invariant unknownHints == IdsWhere(raws[..i], documentId, HasUnknownHint(platform))
    {
      var raw := raws[i];
      var element := NormalizeElement(raw, documentId, policy, platform);
      NormalizedParts(raw, documentId, policy, platform);
      IdsWhereStep(raws, i, documentId, Transforms(policy, platform));
      IdsWhereStep(raws, i, documentId, HasUnknownHint(platform));
      elements := elements + [element];
      if |element.provenance.transformations| > |raw.provenance.transformations| {
        transformed := transformed + [element.id];
      }
      if platform.resolve(raw.typeHint).unknownHint {
        unknownHints := unknownHints + [element.id];
      }
    }
    assert raws[..|raws|] == raws;
    return Success(Normalization(elements, transformed, unknownHints));
  }

  lemma {:induction false} IdsWhereDistinct(raws: seq<RawElement>, documentId: string, keep: RawElement -> bool)
    requires DistinctOrders(raws)
    ensures Distinct(IdsWhere(raws, documentId, keep))
    ensures forall id :: id in IdsWhere(raws, documentId, keep) ==> exists i :: 0 <= i < |raws| && id == IdOf(documentId, raws[i])
  {
    if raws != [] {
      var n := |raws| - 1;
      IdsWhereDistinct(raws[..n], documentId, keep);
      forall id | id in IdsWhere(raws[..n], documentId, keep)
        ensures id != IdOf(documentId, raws[n]) && exists i :: 0 <= i < |raws| && id == IdOf(documentId, raws[i])
      {
        var i :| 0 <= i < n && id == IdOf(documentId, raws[..n][i]);
        assert raws[..n][i] == raws[i];
      }
      DistinctAppend(IdsWhere(raws[..n], documentId, keep), IdOf(documentId, raws[n]));
    }
  }

  /** The result record never trips its own validator: ids are unique and every reference is known. */
  lemma NormalizationIsLegal(raws: seq<RawElement>, elements: seq<Element>, documentId: string, policy: Policy,
                             platform: Platform, keep: RawElement -> bool)
    requires DistinctOrders(raws) && |elements| == |raws|
    requires forall i :: 0 <= i < |raws| ==> elements[i] == NormalizeElement(raws[i], documentId, policy, platform)
    ensures forall i, j :: 0 <= i < j < |elements| ==> elements[i].id != elements[j].id
    ensures Distinct(IdsWhere(raws, documentId, keep))
    ensures forall id :: id in IdsWhere(raws, documentId, keep) ==> exists e :: e in elements && e.id == id
  {
    IdsWhereDistinct(raws, documentId, keep);
    forall id | id in IdsWhere(raws, documentId, keep)
      ensures exists e :: e in elements && e.id == id
    {
      var i :| 0 <= i < |raws| && id == IdOf(documentId, raws[i]);
      assert elements[i].id == id;
    }
  }

  /** A step is recorded exactly when the text changed: by a CR in it, or by the Unicode form. */
  lemma RecordedExactlyWhenChanged(text: string, policy: Policy, platform: Platform)
    ensures var (normalized, steps) := NormalizeText(Some(text), policy, platform);
            var lined := if policy.normalizeLineEndings then SourceLines.NormalizeLineEndings(text) else text;
            normalized.Some?
            && (steps == [] ==> normalized.value == text)
            && ((exists s :: s in steps && s.NormalizedLineEndings?) <==> policy.normalizeLineEndings && '\r' in text)
            && ((exists s :: s in steps && s.NormalizedUnicode?) <==> normalized.value != lined)
            && (forall s :: s in steps && s.NormalizedLineEndings? ==> s.standaloneCr >= 0 && s.crlf + s.standaloneCr > 0)
  {
    SourceLines.ChangedExactlyByCr(text);
    var (normalized, steps) := NormalizeText(Some(text), policy, platform);
    var lined := if policy.normalizeLineEndings then SourceLines.NormalizeLineEndings(text) else text;
    if lined != text {
      assert steps[0].NormalizedLineEndings?;
    }
    if normalized.value != lined {
      assert steps[|steps| - 1].NormalizedUnicode?;
    }
  }

  // ----- the preservation audit -----

  datatype Fact = TypeHint | Text | Attributes | Style | Place | Origin

  predicate ProvenancePreserved(raw: RawElement, element: Element) {
    var source, canonical := raw.provenance, element.provenance;
    && canonical.source == source.source
    && canonical.extractor == source.extractor
    && canonical.extractorVersion == source.extractorVersion
    && canonical.confidence == source.confidence
    && canonical.metadata == source.metadata
    && source.transformations <= canonical.transformations
  }

  predicate Agrees(fact: Fact, raw: RawElement, element: Element) {
    match fact
    case TypeHint => element.sourceTypeHint == raw.typeHint
    case Text => element.rawText == raw.text
    case Attributes => element.attributes == raw.attributes
    case Style => element.style == raw.style
    case Place => element.location == raw.location
    case Origin => ProvenancePreserved(raw, element)
  }

  predicate Exact(raw: RawElement, element: Element) {
    Agrees(TypeHint, raw, element) && Agrees(Text, raw, element) && Agrees(Attributes, raw, element)
    && Agrees(Style, raw, element) && Agrees(Place, raw, element) && Agrees(Origin, raw, element)
  }

  datatype Issue =
    | CardinalityChanged(raw: nat, canonical: nat)
    | OrderChanged
    | DuplicateCanonicalOrders(orders: set<nat>)
    | NoCanonicalElement(order: nat)
    | FactsChanged(order: nat)

  datatype Counters = Counters(
    aligned: nat, exact: nat, typeHints: nat, texts: nat, attributes: nat, styles: nat, places: nat, origins: nat)

  datatype Report = Report(
    rawCount: nat, canonicalCount: nat, counters: Counters,
    cardinalityPreserved: bool, orderPreserved: bool, fullyPreserved: bool, issues: seq<Issue>)

  /** The elements keyed by order; a later element replaces an earlier one. */
  function ByOrder(elements: seq<Element>): map<nat, Element> {
    if elements == [] then map[]
    else ByOrder(elements[..|elements| - 1])[elements[|elements| - 1].order := elements[|elements| - 1]]
  }

  /** The orders that more than one element carries. */
  function RepeatedOrders(elements: seq<Element>): set<nat> {
    if elements == [] then {}
    else
      var earlier, last := elements[..|elements| - 1], elements[|elements| - 1];
      RepeatedOrders(earlier) + (if last.order in ByOrder(earlier) then {last.order} else {})
  }

  /** How many raw elements have a canonical element of their order that `counts` accepts. */
  function Tally(raws: seq<RawElement>, byOrder: map<nat, Element>, counts: (RawElement, Element) -> bool): (n: nat)
    ensures n <= |raws|
  {
    if raws == [] then 0
    else
      var raw := raws[|raws| - 1];
      Tally(raws[..|raws| - 1], byOrder, counts)
      + (if raw.order in byOrder && counts(raw, byOrder[raw.order]) then 1 else 0)
  }

  function Any(): (RawElement, Element) -> bool { (raw: RawElement, element: Element) => true }

  function Agreeing(fact: Fact): (RawElement, Element) -> bool {
    (raw: RawElement, element: Element) => Agrees(fact, raw, element)
  }

  /** What the audit is for: the same length, the same orders without repetition, the same source facts. */
  ghost predicate Preserved(raws: seq<RawElement>, elements: seq<Element>) {
    && |raws| == |elements|
    && (forall i, j :: 0 <= i < j < |elements| ==> elements[i].order != elements[j].order)
    && (forall i :: 0 <= i < |raws| ==> raws[i].order == elements[i].order && Exact(raws[i], elements[i]))
  }

  /** The report's own validator. */
  predicate LegalReport(r: Report) {
    var c := r.counters;
    && c.aligned <= r.rawCount && c.exact <= r.rawCount && c.typeHints <= r.rawCount && c.texts <= r.rawCount
    && c.attributes <= r.rawCount && c.styles <= r.rawCount && c.places <= r.rawCount && c.origins <= r.rawCount
    && r.fullyPreserved == (r.cardinalityPreserved && r.orderPreserved && c.exact == r.rawCount && r.issues == [])
  }

  lemma {:induction false} ByOrderAt(elements: seq<Element>, i: nat)
    requires i < |elements|
    requires forall j :: i < j < |elements| ==> elements[j].order != elements[i].order
    ensures elements[i].order in ByOrder(elements) && ByOrder(elements)[elements[i].order] == elements[i]
  {
    var n := |elements| - 1;
    if i < n {
      assert elements[..n][i] == elements[i];
      ByOrderAt(elements[..n], i);
    }
  }

  lemma {:induction false} ByOrderKeys(elements: seq<Element>, order: nat)
    ensures order in ByOrder(elements) <==> exists i :: 0 <= i < |elements| && elements[i].order == order
  {
    if elements != [] {
      var n := |elements| - 1;
      ByOrderKeys(elements[..n], order);
      if order in ByOrder(elements[..n]) {
        var i :| 0 <= i < n && elements[..n][i].order == order;
        assert elements[i].order == order;
      }
      if i :| 0 <= i < |elements| && elements[i].order == order && i < n {
        assert elements[..n][i].order == order;
      }
    }
  }

  lemma {:induction false} RepeatedExactly(elements: seq<Element>)
    ensures RepeatedOrders(elements) == {} <==>
            forall i, j :: 0 <= i < j < |elements| ==> elements[i].order != elements[j].order
  {
    if elements != [] {
      var n := |elements| - 1;
      RepeatedExactly(elements[..n]);
      ByOrderKeys(elements[..n], elements[n].order);
      if elements[n].order in ByOrder(elements[..n]) {
        var i :| 0 <= i < n && elements[..n][i].order == elements[n].order;
        assert elements[i].order == elements[n].order;
      }
      if RepeatedOrders(elements) == {} {
        forall i, j | 0 <= i < j < |elements|
          ensures elements[i].order != elements[j].order
        {
          assert elements[..n][i] == elements[i];
          if j < n {
            assert elements[..n][j] == elements[j];
          }
        }
      }
      if forall i, j :: 0 <= i < j < |elements| ==> elements[i].order != elements[j].order {
        assert forall i, j :: 0 <= i < j < n ==> elements[..n][i].order != elements[..n][j].order;
      }
    }
  }

  predicate SameOrders(raws: seq<RawElement>, elements: seq<Element>) {
    |raws| == |elements| && forall i :: 0 <= i < |raws| ==> raws[i].order == elements[i].order
  }

  method IndexByOrder(elements: seq<Element>) returns (byOrder: map<nat, Element>, repeated: set<nat>)
    ensures byOrder == ByOrder(elements) && repeated == RepeatedOrders(elements)
  {
    byOrder, repeated := map[], {};
    for i := 0 to |elements|
      invariant byOrder == ByOrder(elements[..i]) && repeated == RepeatedOrders(elements[..i])
    {
      assert elements[..i + 1][..i] == elements[..i];
      if elements[i].order in byOrder {
        repeated := repeated + {elements[i].order};
      }
      byOrder := byOrder[elements[i].order := elements[i]];
    }
    assert elements[..|elements|] == elements;
  }

  function CountersOf(raws: seq<RawElement>, byOrder: map<nat, Element>): Counters {
    Counters(Tally(raws, byOrder, Any()), Tally(raws, byOrder, Exact),
             Tally(raws, byOrder, Agreeing(TypeHint)), Tally(raws, byOrder, Agreeing(Text)),
             Tally(raws, byOrder, Agreeing(Attributes)), Tally(raws, byOrder, Agreeing(Style)),
             Tally(raws, byOrder, Agreeing(Place)), Tally(raws, byOrder, Agreeing(Origin)))
  }

  function Unit(b: bool): nat { if b then 1 else 0 }

  /** The counters after one more aligned pair. */
  function Bump(c: Counters, raw: RawElement, element: Element): Counters {
    Counters(c.aligned + 1, c.exact + Unit(Exact(raw, element)),
             c.typeHints + Unit(Agrees(TypeHint, raw, element)), c.texts + Unit(Agrees(Text, raw, element)),
             c.attributes + Unit(Agrees(Attributes, raw, element)), c.styles + Unit(Agrees(Style, raw, element)),
             c.places + Unit(Agrees(Place, raw, element)), c.origins + Unit(Agrees(Origin, raw, element)))
  }

  lemma CountersStep(raws: seq<RawElement>, i: nat, byOrder: map<nat, Element>)
    requires i < |raws|
    ensures CountersOf(raws[..i + 1], byOrder)
         == if raws[i].order in byOrder then Bump(CountersOf(raws[..i], byOrder), raws[i], byOrder[raws[i].order])
            else CountersOf(raws[..i], byOrder)
    ensures CountersOf(raws[..i], byOrder).exact <= i
  {
    hide Agrees, Exact;
    assert raws[..i + 1][..i] == raws[..i];
  }

  lemma NothingCounted(raws: seq<RawElement>, byOrder: map<nat, Element>)
    requires raws == []
    ensures CountersOf(raws, byOrder) == Counters(0, 0, 0, 0, 0, 0, 0, 0)
  {
  }

  lemma {:induction false} TallyMonotone(raws: seq<RawElement>, byOrder: map<nat, Element>,
                                         p: (RawElement, Element) -> bool, q: (RawElement, Element) -> bool)
    requires forall r, e :: p(r, e) ==> q(r, e)
    ensures Tally(raws, byOrder, p) <= Tally(raws, byOrder, q)
  {
    if raws != [] {
      TallyMonotone(raws[..|raws| - 1], byOrder, p, q);
    }
  }

  lemma FactBetween(raws: seq<RawElement>, byOrder: map<nat, Element>, fact: Fact)
    ensures Tally(raws, byOrder, Exact) <= Tally(raws, byOrder, Agreeing(fact)) <= Tally(raws, byOrder, Any()) <= |raws|
  {
    assert forall r, e :: Exact(r, e) ==> Agreeing(fact)(r, e);
    TallyMonotone(raws, byOrder, Exact, Agreeing(fact));
    TallyMonotone(raws, byOrder, Agreeing(fact), Any());
  }

  function FactCount(c: Counters, fact: Fact): nat {
    match fact
    case TypeHint => c.typeHints
    case Text => c.texts
    case Attributes => c.attributes
    case Style => c.styles
    case Place => c.places
    case Origin => c.origins
  }

  lemma FactCountIsTally(raws: seq<RawElement>, byOrder: map<nat, Element>, fact: Fact)
    ensures FactCount(CountersOf(raws, byOrder), fact) == Tally(raws, byOrder, Agreeing(fact))
  {
    hide Tally;
  }

  /** The exact count never exceeds the count of a single fact, nor that the aligned count. */
  lemma CountersNested(raws: seq<RawElement>, byOrder: map<nat, Element>)
    ensures var c := CountersOf(raws, byOrder);
            c.exact <= c.aligned <= |raws| && forall fact :: c.exact <= FactCount(c, fact) <= c.aligned
  {
    FactBetween(raws, byOrder, Text);
    forall fact
      ensures Tally(raws, byOrder, Exact) <= FactCount(CountersOf(raws, byOrder), fact) <= Tally(raws, byOrder, Any())
    {
      FactBetween(raws, byOrder, fact);
      FactCountIsTally(raws, byOrder, fact);
    }
    hide Tally, Exact, FactCount;
  }

  /** All elements are exact exactly when every single fact is kept everywhere. */
  lemma ExactIsAllFacts(raws: seq<RawElement>, byOrder: map<nat, Element>)
    ensures var c := CountersOf(raws, byOrder);
            c.exact == |raws| <==> forall fact :: FactCount(c, fact) == |raws|
  {
    var c := CountersOf(raws, byOrder);
    CountersNested(raws, byOrder);
    FullTally(raws, byOrder, Exact);
    assert c.exact == Tally(raws, byOrder, Exact);
    hide Tally, CountersOf, Exact, FactCount;
    if forall fact :: FactCount(c, fact) == |raws| {
      forall i | 0 <= i < |raws|
        ensures raws[i].order in byOrder && Exact(raws[i], byOrder[raws[i].order])
      {
        FactCountIsTally(raws, byOrder, Text);
        FullTally(raws, byOrder, Agreeing(Text));
        forall fact
          ensures Agrees(fact, raws[i], byOrder[raws[i].order])
        {
          FactCountIsTally(raws, byOrder, fact);
          FullTally(raws, byOrder, Agreeing(fact));
        }
        AllFactsAgree(raws[i], byOrder[raws[i].order]);
      }
    }
  }

  lemma AllFactsAgree(raw: RawElement, element: Element)
    requires forall fact :: Agrees(fact, raw, element)
    ensures Exact(raw, element)
  {
    hide Agrees;
  }

  lemma CountersBounded(raws: seq<RawElement>, byOrder: map<nat, Element>)
    ensures var c := CountersOf(raws, byOrder);
            && c.aligned <= |raws| && c.exact <= |raws| && c.typeHints <= |raws| && c.texts <= |raws|
            && c.attributes <= |raws| && c.styles <= |raws| && c.places <= |raws| && c.origins <= |raws|
  {
    hide Tally;
  }

  lemma ExactIsTally(raws: seq<RawElement>, byOrder: map<nat, Element>)
    ensures CountersOf(raws, byOrder).exact == Tally(raws, byOrder, Exact)
  {
    hide Tally;
  }

  lemma ExactCounts(c: Counters, raw: RawElement, element: Element)
    ensures Bump(c, raw, element).exact == c.exact + if Exact(raw, element) then 1 else 0
  {
  }

  method EvaluatePreservation(raws: seq<RawElement>, elements: seq<Element>) returns (report: Report)
    ensures report.fullyPreserved <==> Preserved(raws, elements)
    ensures LegalReport(report)
    ensures report.rawCount == |raws| && report.canonicalCount == |elements|
    ensures report.cardinalityPreserved == (|raws| == |elements|)
    ensures report.orderPreserved == SameOrders(raws, elements)
    ensures report.counters == CountersOf(raws, ByOrder(elements))
  {
    hide CountersOf, Bump, Exact, Preserved;
    var cardinality := |raws| == |elements|;
    var sameOrder := SameOrders(raws, elements);
    var issues: seq<Issue> := [];
    if !cardinality {
      issues := issues + [CardinalityChanged(|raws|, |elements|)];
    }
    if !sameOrder {
      issues := issues + [OrderChanged];
    }
    var byOrder, repeated := IndexByOrder(elements);
    if repeated != {} {
      issues := issues + [DuplicateCanonicalOrders(repeated)];
    }
    ghost var clean := cardinality && sameOrder && repeated == {};
    var counters := Counters(0, 0, 0, 0, 0, 0, 0, 0);
    NothingCounted(raws[..0], byOrder);
    for i := 0 to |raws|
      invariant counters == CountersOf(raws[..i], byOrder)
      invariant issues == [] <==> clean && counters.exact == i
    {
      CountersStep(raws, i, byOrder);
      var raw := raws[i];
      if raw.order !in byOrder {
        issues := issues + [NoCanonicalElement(raw.order)];
      } else {
        ExactCounts(counters, raw, byOrder[raw.order]);
        counters := AddFacts(counters, raw, byOrder[raw.order]);
        if !Exact(raw, byOrder[raw.order]) {
          issues := issues + [FactsChanged(raw.order)];
        }
      }
    }
    assert raws[..|raws|] == raws;
    var full := cardinality && sameOrder && counters.exact == |raws| && issues == [];
    AcceptsExactly(raws, elements);
    CountersBounded(raws, byOrder);
    assert counters.exact == Tally(raws, byOrder, Exact) by {
      ExactIsTally(raws, byOrder);
    }
    report := Report(|raws|, |elements|, counters, cardinality, sameOrder, full, issues);
  }

  method AddFacts(before: Counters, raw: RawElement, element: Element) returns (after: Counters)
    ensures after == Bump(before, raw, element)
  {
    after := before.(aligned := before.aligned + 1);
    if Agrees(TypeHint, raw, element) { after := after.(typeHints := after.typeHints + 1); }
    if Agrees(Text, raw, element) { after := after.(texts := after.texts + 1); }
    if Agrees(Attributes, raw, element) { after := after.(attributes := after.attributes + 1); }
    if Agrees(Style, raw, element) { after := after.(styles := after.styles + 1); }
    if Agrees(Place, raw, element) { after := after.(places := after.places + 1); }
    if Agrees(Origin, raw, element) { after := after.(origins := after.origins + 1); }
    if Exact(raw, element) { after := after.(exact := after.exact + 1); }
  }

  lemma {:induction false} FullTally(raws: seq<RawElement>, byOrder: map<nat, Element>, counts: (RawElement, Element) -> bool)
    ensures Tally(raws, byOrder, counts) == |raws| <==>
            forall i :: 0 <= i < |raws| ==> raws[i].order in byOrder && counts(raws[i], byOrder[raws[i].order])
  {
    if raws != [] {
      var n := |raws| - 1;
      FullTally(raws[..n], byOrder, counts);
      assert forall i :: 0 <= i < n ==> raws[..n][i] == raws[i];
    }
  }

  /** The counters and flags the audit decides by, together, mean preservation. */
  lemma AcceptsExactly(raws: seq<RawElement>, elements: seq<Element>)
    ensures Preserved(raws, elements) <==>
            SameOrders(raws, elements) && RepeatedOrders(elements) == {}
            && Tally(raws, ByOrder(elements), Exact) == |raws|
  {
    RepeatedExactly(elements);
    FullTally(raws, ByOrder(elements), Exact);
    if SameOrders(raws, elements) && RepeatedOrders(elements) == {} {
      forall i | 0 <= i < |raws|
        ensures raws[i].order in ByOrder(elements) && ByOrder(elements)[raws[i].order] == elements[i]
      {
        ByOrderAt(elements, i);
      }
    }
  }

  /** Normalizing and then auditing never reports a loss. */
  method NormalizeThenAudit(raws: seq<RawElement>, documentId: string, policy: Policy, platform: Platform)
    returns (result: Result<Normalization, NormalizationError>, report: Option<Report>)
    ensures result.Success? ==> report.Some? && report.value.fullyPreserved && report.value.issues == []
  {
    report := None;
    result := Normalize(raws, documentId, policy, platform);
    if result.Success? {
      var audit := EvaluatePreservation(raws, result.value.elements);
      report := Some(audit);
    }
  }
}
