/** What every run of submissions and webhook deliveries keeps, however the webhooks are duplicated and reordered. */
module ReviewRuns {
  import opened Basics
  import opened ReviewRecords
  import opened ReviewRepository
  import opened ReviewWorkflow

  // ----- one application -----

  /** The one review appended leaves the chain linked exactly when it was linked before. */
  lemma AppendedReviewKeepsChain(record: Record, s: Submission)
    ensures Linked(Candidate(record, s).reviews, Candidate(record, s).DecisionHash())
       <==> Linked(record.reviews, record.DecisionHash())
  {
    var past, longer := record.reviews, Candidate(record, s).reviews;
    var n := |past|;
    assert longer[n] == Attempt(record, s);
    forall i | 0 < i < n
      ensures LinkedAt(longer, i) <==> LinkedAt(past, i)
    {
      assert longer[i] == past[i] && longer[i - 1] == past[i - 1];
    }
    if n > 0 {
      assert longer[n - 1] == past[n - 1];
      assert LinkedAt(longer, n) <==> past[n - 1].after == record.DecisionHash();
    }
    assert |longer| == n + 1;
    if Linked(longer, Candidate(record, s).DecisionHash()) {
      assert n > 0 ==> LinkedAt(longer, n);
      forall i | 0 < i < n
        ensures LinkedAt(past, i)
      {
        assert LinkedAt(longer, i);
      }
    }
  }

  /** The rules on a single attempt never reject a valid submission made against the current decisions. */
  lemma AttemptIsValid(record: Record, s: Submission)
    requires ValidSubmission(s) && s.expected == record.DecisionHash()
    ensures ValidReview(Attempt(record, s))
  {
  }

  /** What one stored review changes of a record, and what it cannot change. */
  ghost predicate Reviewed(a: Record, b: Record) {
    && a.status == ReviewRequired
    && b == a.(decisions := b.decisions, reviews := b.reviews, status := b.status)
    && |b.reviews| == |a.reviews| + 1 && b.reviews[..|a.reviews|] == a.reviews
    && b.reviews[|a.reviews|].before == a.DecisionHash() && b.reviews[|a.reviews|].after == b.DecisionHash()
    && Linked(a.reviews, a.DecisionHash()) && Linked(b.reviews, b.DecisionHash())
    && ValidRecord(b)
  }

  lemma ReviewForReviews(store: Store, s: Submission, d: Document, b: Batch)
    requires Filed(store) && ReviewFor(store, s, d, b).Success?
    ensures var r := ReviewFor(store, s, d, b).value;
            r.id == s.recordId && r.id in store && Reviewed(store[r.id], r)
  {
    var record := store[s.recordId];
    AppendedReviewKeepsChain(record, s);
  }

  /** A stored record is a reviewed version of the record it replaces. */
  lemma StoredIsReviewed(store: Store, e: Event)
    requires Filed(store) && Stored(store, e).Some?
    ensures var r := Stored(store, e).value; r.id in store && Reviewed(store[r.id], r)
  {
    hide Reviewed, ReviewFor, MatchesLastReview, Validated;
    match e
    case Deliver(w, b, ds, ok) =>
      var record := store[w.submission.recordId];
      ReviewForReviews(store, w.submission, ds[record.source.documentId], b);
    case Submit(s, d, b, ok) =>
      ReviewForReviews(store, s, d, b);
  }

  /** A stored review was made against the current decisions, under the batch's guideline, and its outcome decides the status. */
  lemma StoredReviewIsCurrent(store: Store, s: Submission, d: Document, b: Batch)
    requires Filed(store) && ReviewFor(store, s, d, b).Success?
    ensures var before := store[s.recordId];
            s.expected == before.DecisionHash() && s.batchId == before.batchId == b.id && s.guideline == b.guideline
    ensures var r := ReviewFor(store, s, d, b).value;
            && (r.status == Pass <==> s.outcome == Accept || s.outcome == Modify)
            && (r.status == Rejected <==> s.outcome == Reject) && (r.status == ReviewRequired <==> s.outcome == Conflict)
            && (s.outcome == Accept ==> r.decisions == store[s.recordId].decisions)
            && (r.status == Pass ==> Settled(r))
  {
    hide Linked, Supported, Settled;
  }

  // ----- runs -----

  function StateAt(store: Store, events: seq<Event>, k: nat): Store
    requires k <= |events|
  {
    if k == 0 then store else Next(StateAt(store, events, k - 1), events[k - 1])
  }

  /** What happens to one record over any number of steps. */
  ghost predicate Evolved(a: Record, b: Record) {
    && b == a.(decisions := b.decisions, reviews := b.reviews, status := b.status)
    && |a.reviews| <= |b.reviews| && b.reviews[..|a.reviews|] == a.reviews
    && (|a.reviews| == |b.reviews| ==> a == b)
    && (a != b ==> a.status == ReviewRequired && Linked(b.reviews, b.DecisionHash()))
  }

  lemma EvolvedTransitive(a: Record, b: Record, c: Record)
    requires Evolved(a, b) && Evolved(b, c)
    ensures Evolved(a, c)
  {
    assert c.reviews[..|a.reviews|] == c.reviews[..|b.reviews|][..|a.reviews|];
  }

  ghost predicate StoreEvolved(a: Store, b: Store) {
    a.Keys == b.Keys && forall id :: id in a ==> Evolved(a[id], b[id])
  }

  lemma StepKeeps(store: Store, e: Event)
    requires Filed(store)
    ensures Filed(Next(store, e)) && StoreEvolved(store, Next(store, e))
  {
    hide Stored, ValidRecord, Linked;
    if Stored(store, e).Some? {
      StoredIsReviewed(store, e);
    }
  }

  lemma {:induction false} RunKeeps(store: Store, events: seq<Event>, i: nat, j: nat)
    requires Filed(store) && i <= j <= |events|
    ensures Filed(StateAt(store, events, i)) && Filed(StateAt(store, events, j))
    ensures StoreEvolved(StateAt(store, events, i), StateAt(store, events, j))
    decreases j
  {
    hide Next, Filed;
    if i < j {
      RunKeeps(store, events, i, j - 1);
      StepKeeps(StateAt(store, events, j - 1), events[j - 1]);
      hide Evolved;
      var a, b, c := StateAt(store, events, i), StateAt(store, events, j - 1), StateAt(store, events, j);
      forall id | id in a
        ensures Evolved(a[id], c[id])
      {
        EvolvedTransitive(a[id], b[id], c[id]);
      }
    } else if i > 0 {
      RunKeeps(store, events, i - 1, i - 1);
      StepKeeps(StateAt(store, events, i - 1), events[i - 1]);
    }
  }

  /** The identity of a record never changes, and its review list only grows. */
  lemma IdentityAndHistory(store: Store, events: seq<Event>, i: nat, j: nat, id: string)
    requires Filed(store) && i <= j <= |events| && id in store
    ensures id in StateAt(store, events, i) && id in StateAt(store, events, j)
    ensures var a, b := StateAt(store, events, i)[id], StateAt(store, events, j)[id];
            IdentityOf(a) == IdentityOf(b) && a.reviews <= b.reviews && Chronological(b.reviews)
  {
    hide Next;
    RunKeeps(store, events, 0, i);
    RunKeeps(store, events, i, j);
    var a, b := StateAt(store, events, i)[id], StateAt(store, events, j)[id];
    assert Evolved(a, b);
  }

  /** A record that is not awaiting review (draft, passed or rejected) never changes again. */
  lemma SettledRecordsStay(store: Store, events: seq<Event>, i: nat, j: nat, id: string)
    requires Filed(store) && i <= j <= |events| && id in StateAt(store, events, i)
    requires StateAt(store, events, i)[id].status != ReviewRequired
    ensures id in StateAt(store, events, j) && StateAt(store, events, j)[id] == StateAt(store, events, i)[id]
  {
    hide Next, Filed;
    RunKeeps(store, events, i, j);
    assert Evolved(StateAt(store, events, i)[id], StateAt(store, events, j)[id]);
  }

  /** Once a record's chain is linked and ends in its current decisions it stays so; a changed record's chain always is. */
  lemma ChainsStayLinked(store: Store, events: seq<Event>, j: nat, id: string)
    requires Filed(store) && j <= |events| && id in store
    ensures id in StateAt(store, events, j)
    ensures var b := StateAt(store, events, j)[id];
            Linked(store[id].reviews, store[id].DecisionHash()) || b != store[id] ==> Linked(b.reviews, b.DecisionHash())
  {
    hide Next, Filed;
    RunKeeps(store, events, 0, j);
    assert Evolved(store[id], StateAt(store, events, j)[id]);
  }

  // ----- at most once -----

  /** The delivery passes every check, whether or not its write then succeeds. */
  predicate Accepted(store: Store, e: Event) {
    && e.Deliver?
    && var r := ImportFor(store, e.webhook, e.batch, e.documents);
       r.Success? && r.value.applied
  }

  predicate Applies(store: Store, e: Event) {
    Accepted(store, e) && e.writeOk
  }

  /** Compare and set: a delivery is accepted only against the very snapshot its task hash names. */
  lemma AcceptedHashNamesSnapshot(store: Store, e: Event)
    requires Filed(store) && Accepted(store, e)
    ensures e.webhook.submission.recordId in store
    ensures e.webhook.taskHash == TaskHash(SnapshotTask(store[e.webhook.submission.recordId], e.batch.guideline))
    ensures e.webhook.submission.expected == store[e.webhook.submission.recordId].DecisionHash()
  {
    hide ValidRecord, Validated, MatchesLastReview, ValidReview;
  }

  lemma ApplyingGrowsHistory(store: Store, e: Event)
    requires Filed(store) && Applies(store, e)
    ensures var id := e.webhook.submission.recordId;
            id in store && id in Next(store, e) && |Next(store, e)[id].reviews| == |store[id].reviews| + 1
  {
    StoredIsReviewed(store, e);
    var id := e.webhook.submission.recordId;
    assert Stored(store, e).value.id == id by {
      hide ValidRecord, Validated, MatchesLastReview, ValidReview;
    }
  }

  /** After an application, the snapshot it was made against never comes back. */
  lemma SnapshotNeverRecurs(store: Store, events: seq<Event>, i: nat, j: nat)
    requires Filed(store) && i < j < |events| && events[i].Deliver?
    requires Applies(StateAt(store, events, i), events[i])
    ensures var id := events[i].webhook.submission.recordId;
            && id in StateAt(store, events, i) && id in StateAt(store, events, j)
            && StateAt(store, events, j)[id] != StateAt(store, events, i)[id]
  {
    hide Applies, Next, Filed, StateAt, StoreEvolved;
    RunKeeps(store, events, 0, i);
    ApplyingGrowsHistory(StateAt(store, events, i), events[i]);
    StateAfter(store, events, i);
    HistoryGrows(store, events, i + 1, j, events[i].webhook.submission.recordId);
  }

  lemma HistoryGrows(store: Store, events: seq<Event>, i: nat, j: nat, id: string)
    requires Filed(store) && i <= j <= |events| && id in StateAt(store, events, i)
    ensures id in StateAt(store, events, j)
    ensures |StateAt(store, events, i)[id].reviews| <= |StateAt(store, events, j)[id].reviews|
  {
    hide Next, Filed, StateAt;
    RunKeeps(store, events, i, j);
    assert Evolved(StateAt(store, events, i)[id], StateAt(store, events, j)[id]);
  }

  lemma StateAfter(store: Store, events: seq<Event>, j: nat)
    requires j < |events|
    ensures StateAt(store, events, j + 1) == Next(StateAt(store, events, j), events[j])
  {
  }

  /**
   Once a delivery is applied, no later delivery carrying the same task hash is accepted. In particular one
   webhook payload is applied at most once, and of two reviews of one snapshot only the first counts.
   */
  lemma AtMostOnce(store: Store, events: seq<Event>, i: nat, j: nat)
    requires Filed(store) && i < j < |events|
    requires Applies(StateAt(store, events, i), events[i])
    requires events[j].Deliver? && events[j].webhook.taskHash == events[i].webhook.taskHash
    ensures !Accepted(StateAt(store, events, j), events[j])
  {
    RunKeeps(store, events, i, j);
    SnapshotNeverRecurs(store, events, i, j);
    SameHashSameSnapshot(StateAt(store, events, i), events[i], StateAt(store, events, j), events[j]);
  }

  lemma SameHashSameSnapshot(a: Store, e: Event, b: Store, f: Event)
    requires Filed(a) && Filed(b) && Applies(a, e) && f.Deliver? && f.webhook.taskHash == e.webhook.taskHash
    requires var id := e.webhook.submission.recordId; id in a && id in b && a[id] != b[id]
    ensures !Accepted(b, f)
  {
    hide Accepted;
    AcceptedHashNamesSnapshot(a, e);
    if Accepted(b, f) {
      AcceptedHashNamesSnapshot(b, f);
    }
  }

  /** A later redelivery is reported duplicate or rejected, and leaves the repository as it is. */
  lemma RedeliveryIsHarmless(store: Store, events: seq<Event>, i: nat, j: nat)
    requires Filed(store) && i < j < |events|
    requires Applies(StateAt(store, events, i), events[i])
    requires events[j].Deliver? && events[j].webhook == events[i].webhook
    ensures StateAt(store, events, j + 1) == StateAt(store, events, j)
    ensures var r := ImportFor(StateAt(store, events, j), events[j].webhook, events[j].batch, events[j].documents);
            r.Failure? || r.value.duplicate
  {
    AtMostOnce(store, events, i, j);
    hide ReviewFor, TaskFor, MatchesLastReview, StateAt;
    StateAfter(store, events, j);
  }

  /** While the record is as the application left it, a redelivery is recognised as a duplicate. */
  lemma RedeliveryIsRecognised(store: Store, e: Event, later: Store, b: Batch, documents: Documents)
    requires Filed(store) && Applies(store, e)
    requires var id := e.webhook.submission.recordId;
             id in later && id in Next(store, e) && later[id] == Next(store, e)[id]
    ensures var id := e.webhook.submission.recordId;
            ImportFor(later, e.webhook, b, documents) == Success(Imported(e.webhook.responseId, later[id], false, true))
  {
    var s := e.webhook.submission;
    AcceptedHashNamesSnapshot(store, e);
    AppliedRecord(store, e);
    var record := store[s.recordId];
    assert later[s.recordId] == Candidate(record, s);
    assert MatchesLastReview(Candidate(record, s), s) by {
      hide ValidRecord, Validated;
    }
  }

  lemma AppliedRecord(store: Store, e: Event)
    requires Filed(store) && Applies(store, e)
    ensures var s := e.webhook.submission;
            s.recordId in store && Next(store, e) == store[s.recordId := Candidate(store[s.recordId], s)]
  {
    hide ValidRecord, Validated, MatchesLastReview, ValidReview;
  }

  /** A delivery that failed only in the file write succeeds when it is repeated. */
  lemma FailedWriteCanBeRetried(store: Store, w: Webhook, b: Batch, documents: Documents)
    requires Applies(store, Deliver(w, b, documents, true))
    ensures Next(store, Deliver(w, b, documents, false)) == store
    ensures Applies(Next(store, Deliver(w, b, documents, false)), Deliver(w, b, documents, true))
  {
    hide ImportFor;
  }

  // ----- submissions without the task hash -----

  lemma CandidateTwiceIsValid(record: Record, s: Submission)
    requires ValidRecord(Candidate(record, s)) && s.outcome == Conflict && DecisionsAfter(record, s) == record.decisions
    ensures var once := Candidate(record, s); ValidRecord(Candidate(once, s))
  {
    var once := Candidate(record, s);
    var twice := Candidate(once, s);
    assert twice.reviews == once.reviews + [Attempt(once, s)] && Attempt(once, s) == Attempt(record, s);
    var n := |record.reviews|;
    assert once.reviews[n] == Attempt(record, s);
    hide ValidReview;
    forall i, j | 0 <= i < j < |twice.reviews|
      ensures twice.reviews[i].reviewedAt <= twice.reviews[j].reviewedAt
    {
      assert forall k :: 0 <= k <= n ==> twice.reviews[k] == once.reviews[k];
      if j == n + 1 && i < n {
        assert once.reviews[i].reviewedAt <= once.reviews[n].reviewedAt;
      }
    }
    assert Attempt(record, s) in once.reviews;
    assert forall v :: v in twice.reviews <==> v in once.reviews || v == Attempt(record, s);
  }

  /**
   The decision hash alone does not stop a repeated submission: handed directly to the workflow,
   a submission that was applied is applied a second time exactly when it was a CONFLICT that left
   the decisions as they were.
   */
  lemma SubmissionAppliesTwice(store: Store, s: Submission, d: Document, b: Batch)
    requires Filed(store) && ReviewFor(store, s, d, b).Success?
    ensures ReviewFor(Next(store, Submit(s, d, b, true)), s, d, b).Success?
       <==> s.outcome == Conflict && (s.decisions.None? || s.decisions.value == store[s.recordId].decisions)
  {
    ReviewForReviews(store, s, d, b);
    var record := store[s.recordId];
    var once := Candidate(record, s);
    assert Next(store, Submit(s, d, b, true))[s.recordId] == once;
    if s.outcome == Conflict && DecisionsAfter(record, s) == record.decisions {
      CandidateTwiceIsValid(record, s);
      AppendedReviewKeepsChain(once, s);
      assert Attempt(once, s) == Attempt(record, s);
      SupportedAgain(record, s, d, b);
    }
  }

  lemma SupportedAgain(record: Record, s: Submission, d: Document, b: Batch)
    requires Validated(Candidate(record, s), d, b) && DecisionsAfter(record, s) == record.decisions
    ensures Validated(Candidate(Candidate(record, s), s), d, b)
  {
    AppendedReviewKeepsChain(Candidate(record, s), s);
    hide Linked;
  }
}
