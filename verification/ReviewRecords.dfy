/** Working records, review attempts and submissions, with their validators. */
module ReviewRecords {
  import opened Basics

  /** Annotation types by their rank in the enumeration, which is the canonical order. */
  type AnnotationType = nat

  datatype DecisionState = Positive | Negative | Undecided | NotApplicable

  datatype Ontology = Ontology(key: string, version: Option<string>)

  /** `view` is the rank of the text view. */
  datatype Evidence = Evidence(elementId: string, view: nat, start: nat, end: nat, quote: string)

  /** What a decision or suggestion claims; `remarks` stands for rationale, confidence and the like. */
  datatype Claim = Claim(value: Option<string>, ontology: Option<Ontology>, evidence: seq<Evidence>, remarks: string)

  datatype Decision = Decision(annotationType: AnnotationType, state: DecisionState, claim: Claim)

  datatype Suggestion = Suggestion(annotationType: AnnotationType, claim: Claim)

  datatype ReviewerKind = AI | Human

  datatype ReviewOutcome = Accept | Modify | Conflict | Reject

  datatype Status = Draft | ReviewRequired | Pass | Rejected

  /**
   SHA-256 digests are taken to be injective: a digest is represented by what was digested. A hash
   that arrives from outside may also be text that is no digest of ours.
   */
  datatype Hash = DecisionsHash(decisions: seq<Decision>) | TaskHash(task: Task) | OtherHash(text: string)

  datatype Review = Review(
    reviewerId: string, kind: ReviewerKind, guideline: string, reviewedAt: int, before: Hash, after: Hash,
    outcome: ReviewOutcome, notes: Option<string>)

  datatype Source = Source(documentId: string, contentHash: string, snapshotHash: string, language: string, family: string, splitGroup: string)

  datatype Target = Target(kind: string, id: string, elementIds: seq<string>, elementOrders: seq<nat>, texts: string)

  datatype Record = Record(
    id: string, batchId: string, source: Source, target: Target, evaluatedTypes: seq<AnnotationType>,
    suggestions: seq<Suggestion>, decisions: seq<Decision>, reviews: seq<Review>, status: Status, metadata: string)
  {
    function DecisionHash(): Hash { DecisionsHash(decisions) }
  }

  datatype Task = Task(record: Record, guideline: string, expected: Hash)

  datatype Submission = Submission(
    recordId: string, batchId: string, expected: Hash, reviewerId: string, guideline: string, reviewedAt: int,
    outcome: ReviewOutcome, decisions: Option<seq<Decision>>, notes: Option<string>)

  datatype Batch = Batch(id: string, guideline: string, evaluatedTypes: seq<AnnotationType>, recordIds: seq<string>)

  /** The canonical document, as far as the record validator consults it. */
  datatype Document = Document(
    id: string, contentHash: string, snapshotHash: string, language: Option<string>,
    /** The target exists and its snapshot matches. */
    hasTarget: Target -> bool,
    /** The evidence of a claim quotes the target. */
    supports: (Target, Claim) -> bool)

  datatype Identity = Identity(
    id: string, batchId: string, documentId: string, contentHash: string, snapshotHash: string,
    targetKind: string, targetId: string, elementIds: seq<string>, elementOrders: seq<nat>)

  function IdentityOf(r: Record): Identity {
    Identity(r.id, r.batchId, r.source.documentId, r.source.contentHash, r.source.snapshotHash,
             r.target.kind, r.target.id, r.target.elementIds, r.target.elementOrders)
  }

  // ----- schema validators -----

  predicate Ascending(s: seq<int>) {
    forall i, j :: 0 <= i < j < |s| ==> s[i] < s[j]
  }

  function TypeOf(d: Decision): AnnotationType { d.annotationType }

  predicate Chronological(reviews: seq<Review>) {
    forall i, j :: 0 <= i < j < |reviews| ==> reviews[i].reviewedAt <= reviews[j].reviewedAt
  }

  predicate ValidReview(r: Review) {
    && (r.outcome == Accept ==> r.before == r.after)
    && (r.outcome == Modify ==> r.before != r.after)
  }

  /** PASS asks for one settled decision per type and no open or negative last review. */
  predicate Settled(r: Record) {
    && (forall t :: t in r.evaluatedTypes ==> exists d :: d in r.decisions && d.annotationType == t)
    && (forall d :: d in r.decisions ==> d.state != Undecided)
    && (r.reviews != [] ==> r.reviews[|r.reviews| - 1].outcome != Conflict && r.reviews[|r.reviews| - 1].outcome != Reject)
  }

  predicate ValidRecord(r: Record) {
    && r.evaluatedTypes != [] && Ascending(r.evaluatedTypes)
    && (forall s :: s in r.suggestions ==> s.annotationType in r.evaluatedTypes)
    && Ascending(Map(TypeOf, r.decisions)) && (forall d :: d in r.decisions ==> d.annotationType in r.evaluatedTypes)
    && Chronological(r.reviews) && (forall v :: v in r.reviews ==> ValidReview(v))
    && (r.status == Pass ==> Settled(r))
  }

  predicate ValidSubmission(s: Submission) {
    && (s.outcome == Modify ==> s.decisions.Some?)
    && (s.decisions.Some? && s.outcome == Accept ==> DecisionsHash(s.decisions.value) == s.expected)
    && (s.decisions.Some? && s.outcome == Modify ==> DecisionsHash(s.decisions.value) != s.expected)
  }

  // ----- the review chain -----

  /** Review `i` starts from the decisions review `i - 1` ended with. */
  predicate LinkedAt(reviews: seq<Review>, i: int) {
    0 < i < |reviews| ==> reviews[i - 1].after == reviews[i].before
  }

  predicate Linked(reviews: seq<Review>, current: Hash) {
    && (forall i :: 0 < i < |reviews| ==> LinkedAt(reviews, i))
    && (reviews != [] ==> reviews[|reviews| - 1].after == current)
  }

  datatype ChainIssue = ChainBroken(index: nat) | FinalHashMismatch

  method ValidateReviewChain(reviews: seq<Review>, current: Hash) returns (issues: seq<ChainIssue>)
    ensures forall i: nat :: ChainBroken(i) in issues <==> 0 < i < |reviews| && !LinkedAt(reviews, i)
    ensures FinalHashMismatch in issues <==> reviews != [] && reviews[|reviews| - 1].after != current
    ensures issues == [] <==> Linked(reviews, current)
  {
    if reviews == [] {
      return [];
    }
    issues := [];
    for index := 1 to |reviews|
      invariant forall i: nat :: ChainBroken(i) in issues <==> 0 < i < index && !LinkedAt(reviews, i)
      invariant FinalHashMismatch !in issues
    {
      if reviews[index - 1].after != reviews[index].before {
        issues := issues + [ChainBroken(index)];
      }
    }
    if reviews[|reviews| - 1].after != current {
      issues := issues + [FinalHashMismatch];
    }
    IssuesMeanUnlinked(reviews, current, issues);
  }

  lemma IssuesMeanUnlinked(reviews: seq<Review>, current: Hash, issues: seq<ChainIssue>)
    requires reviews != []
    requires forall i: nat :: ChainBroken(i) in issues <==> 0 < i < |reviews| && !LinkedAt(reviews, i)
    requires FinalHashMismatch in issues <==> reviews[|reviews| - 1].after != current
    ensures issues == [] <==> Linked(reviews, current)
  {
    hide LinkedAt;
    assert issues != [] ==> issues[0] in issues;
    forall x: ChainIssue | Linked(reviews, current)
      ensures x !in issues
    {
      assert x.ChainBroken? ==> x == ChainBroken(x.index) && (0 < x.index < |reviews| ==> LinkedAt(reviews, x.index));
    }
    forall i | 0 < i < |reviews| && issues == []
      ensures LinkedAt(reviews, i)
    {
      assert ChainBroken(i) !in issues;
    }
  }

  // ----- the record validator -----

  predicate SourceMatches(r: Record, d: Document) {
    && r.source.documentId == d.id && r.source.contentHash == d.contentHash && r.source.snapshotHash == d.snapshotHash
    && (d.language.Some? ==> r.source.language == d.language.value)
  }

  predicate DeclaredBy(r: Record, b: Batch) {
    r.batchId == b.id && r.id in b.recordIds && r.evaluatedTypes == b.evaluatedTypes
  }

  predicate Supported(r: Record, d: Document) {
    && d.hasTarget(r.target)
    && (forall x :: x in r.decisions ==> d.supports(r.target, x.claim))
    && (forall x :: x in r.suggestions ==> d.supports(r.target, x.claim))
  }

  predicate LastGuideline(r: Record, b: Batch) {
    r.reviews != [] ==> r.reviews[|r.reviews| - 1].guideline == b.guideline
  }

  /** The validation report has no error. */
  predicate Validated(r: Record, d: Document, b: Batch) {
    SourceMatches(r, d) && DeclaredBy(r, b) && Supported(r, d) && Linked(r.reviews, r.DecisionHash()) && LastGuideline(r, b)
  }
}
