/** How working records of one document are projected to a gold case. */
module Projection {
  import opened Basics
  import opened Sorting
  import opened ReviewRecords
  import opened Splits
  import opened Gold

  datatype SourceElement = SourceElement(id: string, order: nat, rawText: Option<string>, normalizedText: Option<string>, kind: string)

  /** A canonical document; `snapshotHash` is its working element snapshot hash. */
  datatype SourceDocument = SourceDocument(
    id: string, contentHash: string, snapshotHash: string, language: Option<string>, elements: seq<SourceElement>)

  datatype CompileError =
    | NoRecords | MappingMismatch | InvalidSplit | UndecidedDecision | Ineligible | MissingDocument | MultipleSplits
    | SourceMismatch | DuplicateTarget | UnknownEvidence | InvalidGold | RejectedRecords

  /**
   What compilation takes from its surroundings. `recordChecks` stands for the checks of one record that do not
   reach gold (target resolution and text snapshots, logical unit, batch membership, review guideline), and
   `batchChecks` for those of all records (complete batches, one guideline).
   */
  datatype Settings = Settings(
    eligible: Record -> bool, recordChecks: Record -> bool, batchChecks: seq<Record> -> bool,
    rules: Rules, compilerVersion: string, workingSchema: string, benchmark: string)

  // ----- from records to gold -----

  function GoldTargetOf(r: Record): GoldTarget {
    GoldTarget(r.target.kind, r.target.elementOrders)
  }

  function ScopeOf(r: Record): Scope {
    Scope(GoldTargetOf(r), r.evaluatedTypes)
  }

  function OrderById(es: seq<SourceElement>, id: string): Option<nat> {
    if es == [] then None
    else if es[|es| - 1].id == id then Some(es[|es| - 1].order)
    else OrderById(es[..|es| - 1], id)
  }

  function SpanOf(es: seq<SourceElement>, e: Evidence): Span {
    var order := OrderById(es, e.elementId);
    Span(if order.Some? then order.value else 0, e.start, e.end, e.quote, e.view)
  }

  function ViewName(view: nat): string {
    if view == 0 then "RAW_TEXT" else "NORMALIZED_TEXT"
  }

  /** Evidence is sorted with the view by name, unlike in hashing, where it goes by rank. */
  function EvidenceKey(s: Span): Key {
    [s.order] + Terminated(ViewName(s.view)) + [s.start, s.end] + Terminated(s.quote)
  }

  function AnnotationOf(es: seq<SourceElement>, r: Record, d: Decision): Annotation {
    Annotation(GoldTargetOf(r), d.annotationType, d.claim.value, d.claim.ontology,
               SortBy(EvidenceKey, Map(e => SpanOf(es, e), d.claim.evidence)), "")
  }

  predicate Resolvable(es: seq<SourceElement>, d: Decision) {
    d.state == Positive ==> forall e :: e in d.claim.evidence ==> OrderById(es, e.elementId).Some?
  }

  function DecisionKey(d: Decision): Key { [d.annotationType] }

  /** The annotations of a record's decisions, in the given order: one for each positive decision. */
  function AnnotationsOf(es: seq<SourceElement>, r: Record, ds: seq<Decision>): seq<Annotation> {
    if ds == [] then []
    else
      var last := ds[|ds| - 1];
      AnnotationsOf(es, r, ds[..|ds| - 1]) + if last.state == Positive then [AnnotationOf(es, r, last)] else []
  }

  function RecordAnnotations(es: seq<SourceElement>, r: Record): seq<Annotation> {
    AnnotationsOf(es, r, SortBy(DecisionKey, r.decisions))
  }

  function AllAnnotations(es: seq<SourceElement>, rs: seq<Record>): seq<Annotation> {
    if rs == [] then [] else AllAnnotations(es, rs[..|rs| - 1]) + RecordAnnotations(es, rs[|rs| - 1])
  }

  function RecordKey(r: Record): Key {
    TargetKeyOf(GoldTargetOf(r)) + Codes(r.id)
  }

  function CompiledKey(a: Annotation): Key {
    TargetKeyOf(a.target) + [a.annotationType]
  }

  function SourceElementKey(e: SourceElement): Key { [e.order] }

  function GoldElementOf(e: SourceElement): GoldElement {
    GoldElement(e.order, e.rawText, e.normalizedText, e.kind)
  }

  /** The records belong to this very revision of the document. */
  predicate SourcesMatch(d: SourceDocument, rs: seq<Record>) {
    && d.elements != [] && d.language.Some?
    && forall r :: r in rs ==>
         && r.source.documentId == d.id && r.source.contentHash == d.contentHash
         && r.source.snapshotHash == d.snapshotHash && r.source.language == d.language.value
  }

  predicate AllDecided(rs: seq<Record>) {
    forall r :: r in rs ==> forall d :: d in r.decisions ==> d.state != Undecided
  }

  predicate AllEligible(settings: Settings, rs: seq<Record>) {
    forall r :: r in rs ==> settings.eligible(r)
  }

  // ----- the case of a document -----

  ghost predicate DistinctTargets(rs: seq<Record>) {
    forall i, j :: 0 <= i < j < |rs| ==> GoldTargetOf(rs[i]) != GoldTargetOf(rs[j])
  }

  lemma NothingCompiled(es: seq<SourceElement>, rs: seq<Record>)
    requires rs == []
    ensures AllAnnotations(es, rs) == [] && DistinctTargets(rs)
  {
  }

  lemma OneMoreRecord(es: seq<SourceElement>, rs: seq<Record>, i: nat)
    requires i < |rs|
    ensures AllAnnotations(es, rs[..i + 1]) == AllAnnotations(es, rs[..i]) + RecordAnnotations(es, rs[i])
    ensures DistinctTargets(rs[..i + 1])
       <==> DistinctTargets(rs[..i]) && forall k :: 0 <= k < i ==> GoldTargetOf(rs[k]) != GoldTargetOf(rs[i])
    ensures Map(ScopeOf, rs[..i + 1]) == Map(ScopeOf, rs[..i]) + [ScopeOf(rs[i])]
    ensures DistinctTargets(rs) ==> DistinctTargets(rs[..i + 1])
  {
    hide RecordAnnotations, GoldTargetOf, ScopeOf;
    assert rs[..i + 1][..i] == rs[..i];
    assert forall k :: 0 <= k < i ==> rs[..i + 1][k] == rs[..i][k];
  }

  /** The case a document compiles to, before validation. */
  function DraftCase(settings: Settings, d: SourceDocument, rs: seq<Record>, split: Split): Case
    requires d.language.Some?
  {
    var elements := Map(GoldElementOf, SortBy(SourceElementKey, d.elements));
    var ordered := SortBy(RecordKey, rs);
    Case(d.id, d.contentHash, settings.rules.snapshot(elements), split, d.language.value, elements,
         SortBy(ScopeKey, Map(ScopeOf, ordered)), SortBy(CompiledKey, AllAnnotations(d.elements, ordered)), "")
  }

  function DocumentOf(r: Record): string { r.source.documentId }
}
