/** Applying human reviews: building tasks, applying submissions, and importing response webhooks. */
module ReviewWorkflow {
  import opened Basics
  import opened ReviewRecords
  import opened ReviewRepository

  /** A response webhook, parsed. */
  datatype Webhook = Webhook(responseId: string, taskHash: Hash, submission: Submission)

  datatype Imported = Imported(responseId: string, record: Record, applied: bool, duplicate: bool)

  type Documents = map<string, Document>

  function StatusAfter(outcome: ReviewOutcome): Status {
    match outcome
    case Accept => Pass
    case Modify => Pass
    case Conflict => ReviewRequired
    case Reject => Rejected
  }

  function DecisionsAfter(record: Record, s: Submission): seq<Decision> {
    if s.decisions.None? then record.decisions else s.decisions.value
  }

  function Attempt(record: Record, s: Submission): Review {
    Review(s.reviewerId, Human, s.guideline, s.reviewedAt, record.DecisionHash(), DecisionsHash(DecisionsAfter(record, s)),
           s.outcome, s.notes)
  }

  function Candidate(record: Record, s: Submission): Record {
    record.(decisions := DecisionsAfter(record, s), reviews := record.reviews + [Attempt(record, s)],
            status := StatusAfter(s.outcome))
  }

  /** The task a reviewable, valid record is exported as. */
  function SnapshotTask(record: Record, guideline: string): Task {
    Task(record, guideline, record.DecisionHash())
  }

  function TaskFor(store: Store, id: string, d: Document, b: Batch): Result<Task, Error> {
    if id !in store then Failure(RecordNotFound)
    else if store[id].status != ReviewRequired then Failure(WrongState)
    else if !Validated(store[id], d, b) then Failure(ValidationFailed)
    else Success(SnapshotTask(store[id], b.guideline))
  }

  function ReviewFor(store: Store, s: Submission, d: Document, b: Batch): Result<Record, Error> {
    if s.recordId !in store then Failure(RecordNotFound)
    else
      var record := store[s.recordId];
      if record.status != ReviewRequired || s.batchId != record.batchId || b.id != record.batchId || s.guideline != b.guideline
      then Failure(WrongState)
      else if s.expected != record.DecisionHash() then Failure(Stale)
      else if !ValidReview(Attempt(record, s)) || !ValidRecord(Candidate(record, s)) then Failure(SchemaInvalid)
      else if !Validated(Candidate(record, s), d, b) then Failure(ValidationFailed)
      else Success(Candidate(record, s))
  }

  /** The record's last review is the one this submission would have left. */
  predicate MatchesLastReview(record: Record, s: Submission) {
    record.reviews != []
    && var last := record.reviews[|record.reviews| - 1];
       && last.reviewerId == s.reviewerId && last.guideline == s.guideline && last.reviewedAt == s.reviewedAt
       && last.outcome == s.outcome && last.before == s.expected
       && last.after == if s.decisions.None? then s.expected else DecisionsHash(s.decisions.value)
  }

  function ImportFor(store: Store, w: Webhook, b: Batch, documents: Documents): Result<Imported, Error> {
    var s := w.submission;
    if s.recordId !in store then Failure(RecordNotFound)
    else
      var record := store[s.recordId];
      if MatchesLastReview(record, s) then Success(Imported(w.responseId, record, false, true))
      else if record.source.documentId !in documents then Failure(DocumentMissing)
      else
        var d := documents[record.source.documentId];
        var task := TaskFor(store, record.id, d, b);
        if task.Failure? then Failure(task.error)
        else if w.taskHash != TaskHash(task.value) then Failure(StaleTask)
        else
          var updated := ReviewFor(store, s, d, b);
          if updated.Failure? then Failure(updated.error)
          else Success(Imported(w.responseId, updated.value, true, false))
  }

  // ----- steps -----

  /** One operation on the repository; `writeOk` is whether its file write, if any, succeeds. */
  datatype Event =
    | Deliver(webhook: Webhook, batch: Batch, documents: Documents, writeOk: bool)
    | Submit(submission: Submission, document: Document, batch: Batch, writeOk: bool)

  /** The record the event stores, if it stores one. */
  function Stored(store: Store, e: Event): Option<Record> {
    match e
    case Deliver(w, b, ds, ok) =>
      var r := ImportFor(store, w, b, ds);
      if r.Success? && r.value.applied && ok then Some(r.value.record) else None
    case Submit(s, d, b, ok) =>
      var r := ReviewFor(store, s, d, b);
      if r.Success? && ok then Some(r.value) else None
  }

  function Next(store: Store, e: Event): Store {
    var r := Stored(store, e);
    if r.Some? then store[r.value.id := r.value] else store
  }

  /** A record is filed under its own id. */
  ghost predicate Filed(store: Store) {
    forall id :: id in store ==> store[id].id == id && ValidRecord(store[id])
  }

  lemma LoadableIsFiled(file: seq<Record>)
    requires Loadable(file)
    ensures Filed(Index(file))
  {
    IndexHolds(file);
  }

  class HumanReviewWorkflow {
    const repository: Repository

    constructor (repository: Repository)
      ensures this.repository == repository
    {
      this.repository := repository;
    }

    method BuildTask(id: string, d: Document, b: Batch) returns (r: Result<Task, Error>)
      ensures !Loadable(repository.file) ==> r == Failure(CorruptFile)
      ensures Loadable(repository.file) ==> r == TaskFor(Index(repository.file), id, d, b)
    {
      var found := repository.Get(id);
      if found.Failure? {
        return Failure(CorruptFile);
      }
      if found.value.None? {
        return Failure(RecordNotFound);
      }
      var record := found.value.value;
      if record.status != ReviewRequired {
        return Failure(WrongState);
      }
      if !Validated(record, d, b) {
        return Failure(ValidationFailed);
      }
      return Success(Task(record, b.guideline, record.DecisionHash()));
    }

    method ApplySubmission(s: Submission, d: Document, b: Batch, writeOk: bool) returns (r: Result<Record, Error>)
      modifies repository
      ensures !Loadable(old(repository.file)) ==> r == Failure(CorruptFile) && repository.file == old(repository.file)
      ensures Loadable(old(repository.file)) ==>
                && Loadable(repository.file)
                && Index(repository.file) == Next(Index(old(repository.file)), Submit(s, d, b, writeOk))
                && var outcome := ReviewFor(Index(old(repository.file)), s, d, b);
                   r == if outcome.Success? && !writeOk then Failure(WriteFailed) else outcome
      ensures r.Failure? ==> repository.file == old(repository.file)
    {
      var found := repository.Get(s.recordId);
      if found.Failure? {
        return Failure(CorruptFile);
      }
      LoadableIsFiled(repository.file);
      if found.value.None? {
        return Failure(RecordNotFound);
      }
      var record := found.value.value;
      if record.status != ReviewRequired || s.batchId != record.batchId || b.id != record.batchId || s.guideline != b.guideline {
        return Failure(WrongState);
      }
      if s.expected != record.DecisionHash() {
        return Failure(Stale);
      }
      var decisions := if s.decisions.None? then record.decisions else s.decisions.value;
      var attempt := Review(s.reviewerId, Human, s.guideline, s.reviewedAt, record.DecisionHash(), DecisionsHash(decisions),
                            s.outcome, s.notes);
      var candidate := record.(decisions := decisions, reviews := record.reviews + [attempt], status := StatusAfter(s.outcome));
      if !ValidReview(attempt) || !ValidRecord(candidate) {
        return Failure(SchemaInvalid);
      }
      if !Validated(candidate, d, b) {
        return Failure(ValidationFailed);
      }
      var saved := repository.Save(candidate, writeOk);
      if saved.Failure? {
        return Failure(WriteFailed);
      }
      return Success(candidate);
    }
  }

  class ReviewOrchestrator {
    const repository: Repository
    const workflow: HumanReviewWorkflow

    constructor (repository: Repository)
      ensures this.repository == repository && workflow.repository == repository
    {
      this.repository := repository;
      this.workflow := new HumanReviewWorkflow(repository);
    }

    method ApplyResponseWebhook(w: Webhook, b: Batch, documents: Documents, writeOk: bool) returns (r: Result<Imported, Error>)
      requires workflow.repository == repository
      modifies repository
      ensures !Loadable(old(repository.file)) ==> r == Failure(CorruptFile) && repository.file == old(repository.file)
      ensures Loadable(old(repository.file)) ==>
                && Loadable(repository.file)
                && Index(repository.file) == Next(Index(old(repository.file)), Deliver(w, b, documents, writeOk))
                && var outcome := ImportFor(Index(old(repository.file)), w, b, documents);
                   r == if outcome.Success? && outcome.value.applied && !writeOk then Failure(WriteFailed) else outcome
      ensures r.Failure? || r.value.duplicate ==> repository.file == old(repository.file)
    {
      hide Validated, ValidRecord, MatchesLastReview;
      var s := w.submission;
      var found := repository.Get(s.recordId);
      if found.Failure? {
        return Failure(CorruptFile);
      }
      LoadableIsFiled(repository.file);
      if found.value.None? {
        return Failure(RecordNotFound);
      }
      var record := found.value.value;
      if MatchesLastReview(record, s) {
        return Success(Imported(w.responseId, record, false, true));
      }
      if record.source.documentId !in documents {
        return Failure(DocumentMissing);
      }
      var d := documents[record.source.documentId];
      var task := workflow.BuildTask(record.id, d, b);
      if task.Failure? {
        return Failure(task.error);
      }
      if w.taskHash != TaskHash(task.value) {
        return Failure(StaleTask);
      }
      var updated := workflow.ApplySubmission(s, d, b, writeOk);
      if updated.Failure? {
        return Failure(updated.error);
      }
      return Success(Imported(w.responseId, updated.value, true, false));
    }
  }
}
