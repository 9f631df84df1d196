/** Pushing review tasks to the remote review dataset, and exporting a batch. */
module ArgillaSync {
  import opened Basics
  import opened ReviewRecords
  import opened ReviewRepository
  import opened ReviewWorkflow

  const CONTRACT_VERSION := "1"
  const QUESTIONS := ["review_outcome", "review_decisions_json", "review_notes"]

  /** Record fields are represented by the task they were built from. */
  datatype Fields = FromTask(task: Task) | OtherFields(text: string)

  datatype Metadata = NotMapping | Mapping(contract: Option<string>, taskHash: Option<Hash>)

  /** `responses` gives the response statuses per question. */
  datatype Remote = Remote(id: string, fields: Fields, metadata: Metadata, responses: map<string, seq<string>>)

  datatype Report = Report(total: nat, created: nat, updated: nat, skipped: nat)

  datatype SyncError =
    DuplicateInputIds | BlankRemoteId | DuplicateRemoteId | BadMetadata(id: string) | ReviewConflict(id: string) | LogFailed
    | ExportRejected(error: Error)

  predicate HasActiveResponse(r: Remote) {
    exists q :: q in QUESTIONS && q in r.responses && exists status :: status in r.responses[q] && status != "discarded"
  }

  function MetadataOf(t: Task): Metadata {
    Mapping(Some(CONTRACT_VERSION), Some(TaskHash(t)))
  }

  predicate UpToDate(r: Remote, t: Task) {
    r.metadata == MetadataOf(t)
  }

  // ----- the remote dataset as a record list with distinct ids -----

  predicate DistinctRemoteIds(rs: seq<Remote>) {
    forall i, j :: 0 <= i < j < |rs| ==> rs[i].id != rs[j].id
  }

  predicate WellFormed(rs: seq<Remote>) {
    DistinctRemoteIds(rs) && forall r :: r in rs ==> r.id != ""
  }

  function Find(rs: seq<Remote>, id: string): (r: Option<Remote>)
    ensures r.Some? ==> r.value in rs && r.value.id == id
    ensures r.None? ==> forall x :: x in rs ==> x.id != id
  {
    if rs == [] then None else if rs[0].id == id then Some(rs[0]) else Find(rs[1..], id)
  }

  lemma {:induction false} FindsMember(rs: seq<Remote>, r: Remote)
    requires DistinctRemoteIds(rs) && r in rs
    ensures Find(rs, r.id) == Some(r)
  {
    if rs[0] != r {
      var i :| 0 <= i < |rs| && rs[i] == r;
      assert rs[0].id != rs[i].id;
      FindsMember(rs[1..], r);
    }
  }

  /** Logging a task replaces the fields and metadata under its id; responses stay with the record. */
  function Log(rs: seq<Remote>, t: Task): seq<Remote> {
    if rs == [] then [Remote(t.record.id, FromTask(t), MetadataOf(t), map[])]
    else if rs[0].id == t.record.id then [rs[0].(fields := FromTask(t), metadata := MetadataOf(t))] + rs[1..]
    else [rs[0]] + Log(rs[1..], t)
  }

  function LogAll(rs: seq<Remote>, ts: seq<Task>): seq<Remote>
    decreases |ts|
  {
    if ts == [] then rs else LogAll(Log(rs, ts[0]), ts[1..])
  }

  lemma {:induction false} LogFinds(rs: seq<Remote>, t: Task, id: string)
    ensures id != t.record.id ==> Find(Log(rs, t), id) == Find(rs, id)
    ensures Find(Log(rs, t), t.record.id).Some? && Find(Log(rs, t), t.record.id).value.metadata == MetadataOf(t)
    ensures Find(Log(rs, t), t.record.id).value.fields == FromTask(t)
    ensures forall x :: x in Log(rs, t) ==> x.id == t.record.id || x in rs
  {
    if rs != [] && rs[0].id != t.record.id {
      LogFinds(rs[1..], t, id);
    }
  }

  lemma {:induction false} LogWellFormed(rs: seq<Remote>, t: Task)
    requires WellFormed(rs) && t.record.id != ""
    ensures WellFormed(Log(rs, t))
  {
    if rs != [] {
      assert WellFormed(rs[1..]);
      if rs[0].id != t.record.id {
        LogWellFormed(rs[1..], t);
        LogFinds(rs[1..], t, "");
        var rest := Log(rs[1..], t);
        forall x | x in rest
          ensures x.id != rs[0].id
        {
          if x.id != t.record.id {
            var i :| 0 <= i < |rs[1..]| && rs[1..][i] == x;
            assert rs[0].id != rs[i + 1].id;
          }
        }
      }
    }
  }

  predicate DistinctTaskIds(ts: seq<Task>) {
    forall i, j :: 0 <= i < j < |ts| ==> ts[i].record.id != ts[j].record.id
  }

  lemma {:induction false} LogAllFinds(rs: seq<Remote>, ts: seq<Task>, id: string)
    requires DistinctTaskIds(ts)
    ensures (forall t :: t in ts ==> t.record.id != id) ==> Find(LogAll(rs, ts), id) == Find(rs, id)
    ensures forall t :: t in ts && t.record.id == id ==>
              Find(LogAll(rs, ts), id).Some? && UpToDate(Find(LogAll(rs, ts), id).value, t)
    decreases |ts|
  {
    if ts != [] {
      LogFinds(rs, ts[0], id);
      assert ts == [ts[0]] + ts[1..];
      forall t | t in ts[1..]
        ensures t.record.id != ts[0].record.id
      {
        var i :| 0 <= i < |ts[1..]| && ts[1..][i] == t;
        assert ts[0].record.id != ts[i + 1].record.id;
      }
      assert DistinctTaskIds(ts[1..]);
      LogAllFinds(Log(rs, ts[0]), ts[1..], id);
    }
  }

  lemma {:induction false} LogAllWellFormed(rs: seq<Remote>, ts: seq<Task>)
    requires WellFormed(rs) && forall t :: t in ts ==> t.record.id != ""
    ensures WellFormed(LogAll(rs, ts))
    decreases |ts|
  {
    if ts != [] {
      LogWellFormed(rs, ts[0]);
      LogAllWellFormed(Log(rs, ts[0]), ts[1..]);
    }
  }

  // ----- what a sync decides about one task -----

  datatype Action = Create | Update | Skip | Refuse(error: SyncError)

  function Decide(rs: seq<Remote>, t: Task): Action {
    var existing := Find(rs, t.record.id);
    if existing.None? then Create
    else if existing.value.metadata.NotMapping? then Refuse(BadMetadata(t.record.id))
    else if UpToDate(existing.value, t) then Skip
    else if HasActiveResponse(existing.value) then Refuse(ReviewConflict(t.record.id))
    else Update
  }

  function Count(rs: seq<Remote>, ts: seq<Task>, a: Action): nat {
    if ts == [] then 0 else Count(rs, ts[..|ts| - 1], a) + (if Decide(rs, ts[|ts| - 1]) == a then 1 else 0)
  }

  /** The tasks a sync writes, in order. */
  function ToLog(rs: seq<Remote>, ts: seq<Task>): seq<Task> {
    if ts == [] then []
    else
      var last := ts[|ts| - 1];
      ToLog(rs, ts[..|ts| - 1]) + (if Decide(rs, last) == Create || Decide(rs, last) == Update then [last] else [])
  }

  lemma {:induction false} ToLogMembers(rs: seq<Remote>, ts: seq<Task>)
    ensures forall t :: t in ToLog(rs, ts) <==> t in ts && (Decide(rs, t) == Create || Decide(rs, t) == Update)
    ensures DistinctTaskIds(ts) ==> DistinctTaskIds(ToLog(rs, ts))
  {
    if ts != [] {
      hide Decide;
      var n := |ts| - 1;
      ToLogMembers(rs, ts[..n]);
      assert ts == ts[..n] + [ts[n]];
      if DistinctTaskIds(ts) {
        forall t | t in ToLog(rs, ts[..n])
          ensures t.record.id != ts[n].record.id
        {
          var i :| 0 <= i < n && ts[..n][i] == t;
          assert ts[i].record.id != ts[n].record.id;
        }
      }
    }
  }

  /** When every task is settled the counts make up the total. */
  lemma {:induction false} CountsAddUp(rs: seq<Remote>, ts: seq<Task>)
    requires forall t :: t in ts ==> !Decide(rs, t).Refuse?
    ensures Count(rs, ts, Create) + Count(rs, ts, Update) + Count(rs, ts, Skip) == |ts|
  {
    if ts != [] {
      hide Decide;
      assert ts[|ts| - 1] in ts;
      CountsAddUp(rs, ts[..|ts| - 1]);
    }
  }

  class ArgillaReviewRemote {
    var records: seq<Remote>

    constructor (records: seq<Remote>)
      ensures this.records == records
    {
      this.records := records;
    }

    /** Checks the ids of the fetched records. */
    method CheckRemoteIds() returns (r: Result<(), SyncError>)
      ensures r.Success? <==> WellFormed(records)
    {
      for i := 0 to |records|
        invariant WellFormed(records[..i])
      {
        assert records[..i + 1] == records[..i] + [records[i]];
        if records[i].id == "" {
          assert records[i] in records;
          return Failure(BlankRemoteId);
        }
        if k :| 0 <= k < i && records[k].id == records[i].id {
          return Failure(DuplicateRemoteId);
        }
      }
      assert records[..|records|] == records;
      return Success(());
    }

    /** `writeOk` is whether the remote service accepts the log call. */
    method SyncTasks(tasks: seq<Task>, writeOk: bool) returns (r: Result<Report, SyncError>)
      requires forall t :: t in tasks ==> t.record.id != ""
      modifies this
      ensures r.Failure? ==> records == old(records)
      ensures r.Success?
         <==> DistinctTaskIds(tasks) && WellFormed(old(records))
              && (forall t :: t in tasks ==> !Decide(old(records), t).Refuse?)
              && (ToLog(old(records), tasks) == [] || writeOk)
      ensures r.Success? ==> records == LogAll(old(records), ToLog(old(records), tasks))
      ensures r.Success? ==>
                r.value == Report(|tasks|, Count(old(records), tasks, Create), Count(old(records), tasks, Update),
                                  Count(old(records), tasks, Skip))
    {
      if !DistinctTaskIds(tasks) {
        return Failure(DuplicateInputIds);
      }
      var checked := CheckRemoteIds();
      if checked.Failure? {
        return Failure(checked.error);
      }
      hide HasActiveResponse;
      var created: nat, updated: nat, skipped: nat := 0, 0, 0;
      var toLog: seq<Task> := [];
      for i := 0 to |tasks|
        invariant records == old(records)
        invariant forall t :: t in tasks[..i] ==> !Decide(records, t).Refuse?
        invariant toLog == ToLog(records, tasks[..i])
        invariant created == Count(records, tasks[..i], Create)
        invariant updated == Count(records, tasks[..i], Update)
        invariant skipped == Count(records, tasks[..i], Skip)
      {
        var task := tasks[i];
        assert tasks[..i + 1] == tasks[..i] + [task] && tasks[..i + 1][..i] == tasks[..i];
        assert task in tasks;
        var existing := Find(records, task.record.id);
        if existing.None? {
          created := created + 1;
          toLog := toLog + [task];
        } else if existing.value.metadata.NotMapping? {
          return Failure(BadMetadata(task.record.id));
        } else if existing.value.metadata.contract == Some(CONTRACT_VERSION)
                  && existing.value.metadata.taskHash == Some(TaskHash(task)) {
          skipped := skipped + 1;
        } else if HasActiveResponse(existing.value) {
          return Failure(ReviewConflict(task.record.id));
        } else {
          updated := updated + 1;
          toLog := toLog + [task];
        }
      }
      assert tasks[..|tasks|] == tasks;
      if toLog != [] {
        if !writeOk {
          return Failure(LogFailed);
        }
        records := LogAll(records, toLog);
      }
      CountsAddUp(old(records), tasks);
      return Success(Report(|tasks|, created, updated, skipped));
    }
  }

  // ----- what syncing means -----

  /** The tasks can be synced with the remote records. */
  predicate Syncable(rs: seq<Remote>, ts: seq<Task>) {
    && DistinctTaskIds(ts) && WellFormed(rs) && (forall t :: t in ts ==> t.record.id != "" && !Decide(rs, t).Refuse?)
  }

  function Synced(rs: seq<Remote>, ts: seq<Task>): seq<Remote> {
    LogAll(rs, ToLog(rs, ts))
  }

  /** After a sync every task is up to date remotely. */
  lemma SyncedIsUpToDate(rs: seq<Remote>, ts: seq<Task>, t: Task)
    requires Syncable(rs, ts) && t in ts
    ensures var found := Find(Synced(rs, ts), t.record.id); found.Some? && UpToDate(found.value, t)
  {
    ToLogMembers(rs, ts);
    LogAllFinds(rs, ToLog(rs, ts), t.record.id);
    if Decide(rs, t) == Skip {
      forall x | x in ToLog(rs, ts)
        ensures x.record.id != t.record.id
      {
        var i :| 0 <= i < |ts| && ts[i] == x;
        var j :| 0 <= j < |ts| && ts[j] == t;
      }
    }
  }

  /** A second sync of the same tasks skips all of them and changes nothing. */
  lemma SecondSyncSkipsAll(rs: seq<Remote>, ts: seq<Task>)
    requires Syncable(rs, ts)
    ensures Syncable(Synced(rs, ts), ts)
    ensures Count(Synced(rs, ts), ts, Skip) == |ts|
    ensures Count(Synced(rs, ts), ts, Create) == Count(Synced(rs, ts), ts, Update) == 0
    ensures Synced(Synced(rs, ts), ts) == Synced(rs, ts)
  {
    var after := Synced(rs, ts);
    SyncedIsWellFormed(rs, ts);
    forall t | t in ts
      ensures Decide(after, t) == Skip
    {
      SyncedIsUpToDate(rs, ts, t);
      hide HasActiveResponse, Synced, Find;
    }
    AllSkipped(after, ts);
    hide Decide, Count, ToLog, WellFormed, DistinctTaskIds;
    assert LogAll(after, []) == after;
  }

  lemma SyncedIsWellFormed(rs: seq<Remote>, ts: seq<Task>)
    requires Syncable(rs, ts)
    ensures WellFormed(Synced(rs, ts))
  {
    ToLogMembers(rs, ts);
    hide Decide, WellFormed, DistinctTaskIds;
    LogAllWellFormed(rs, ToLog(rs, ts));
  }

  lemma {:induction false} AllSkipped(rs: seq<Remote>, ts: seq<Task>)
    requires forall t :: t in ts ==> Decide(rs, t) == Skip
    ensures Count(rs, ts, Skip) == |ts| && Count(rs, ts, Create) == Count(rs, ts, Update) == 0 && ToLog(rs, ts) == []
  {
    if ts != [] {
      hide Decide;
      assert ts[|ts| - 1] in ts;
      AllSkipped(rs, ts[..|ts| - 1]);
    }
  }

  /** A remote record with an active response is never replaced. */
  lemma ActiveResponsesSurvive(rs: seq<Remote>, ts: seq<Task>, r: Remote)
    requires Syncable(rs, ts) && r in rs && HasActiveResponse(r)
    ensures Find(Synced(rs, ts), r.id) == Some(r)
  {
    hide HasActiveResponse;
    FindsMember(rs, r);
    ToLogMembers(rs, ts);
    forall t | t in ToLog(rs, ts)
      ensures t.record.id != r.id
    {
      assert Decide(rs, t) == Create || Decide(rs, t) == Update;
    }
    LogAllFinds(rs, ToLog(rs, ts), r.id);
  }

  /** A remote record no task names is not touched. */
  lemma OtherRecordsUntouched(rs: seq<Remote>, ts: seq<Task>, id: string)
    requires Syncable(rs, ts) && forall t :: t in ts ==> t.record.id != id
    ensures Find(Synced(rs, ts), id) == Find(rs, id)
  {
    ToLogMembers(rs, ts);
    LogAllFinds(rs, ToLog(rs, ts), id);
  }

  /**
   A response to an exported task whose record has not changed since passes the task hash check, so
   it is refused only for what it decides.
   */
  lemma FreshExportIsNotStale(store: Store, w: Webhook, d: Document, b: Batch, documents: Documents)
    requires Filed(store) && TaskFor(store, w.submission.recordId, d, b).Success?
    requires store[w.submission.recordId].source.documentId in documents
    requires documents[store[w.submission.recordId].source.documentId] == d
    requires w.taskHash == TaskHash(TaskFor(store, w.submission.recordId, d, b).value)
    requires w.submission.batchId == b.id && w.submission.guideline == b.guideline
    requires w.submission.expected == store[w.submission.recordId].DecisionHash()
    ensures var r := ImportFor(store, w, b, documents);
            r.Success? || r.error == SchemaInvalid || r.error == ValidationFailed
  {
    hide ValidRecord, MatchesLastReview, ValidReview, Linked, Supported;
  }

  class ExportOrchestrator {
    const workflow: HumanReviewWorkflow
    const remote: ArgillaReviewRemote

    constructor (workflow: HumanReviewWorkflow, remote: ArgillaReviewRemote)
      ensures this.workflow == workflow && this.remote == remote
    {
      this.workflow := workflow;
      this.remote := remote;
    }

    /** Builds every task of the batch before anything is pushed. */
    method ExportBatch(b: Batch, documents: Documents, writeOk: bool) returns (r: Result<Report, SyncError>)
      requires forall i, j :: 0 <= i < j < |b.recordIds| ==> b.recordIds[i] != b.recordIds[j]
      requires "" !in b.recordIds
      modifies remote
      ensures r.Failure? ==> remote.records == old(remote.records)
      ensures r.Success? && b.recordIds != [] ==> Loadable(workflow.repository.file)
      ensures r.Success? ==>
                var store := Index(workflow.repository.file);
                forall id :: id in b.recordIds ==>
                  && id in store && store[id].source.documentId in documents
                  && var task := TaskFor(store, id, documents[store[id].source.documentId], b);
                     && task.Success? && Find(remote.records, id).Some? && UpToDate(Find(remote.records, id).value, task.value)
      ensures r.Success? ==> r.value.total == |b.recordIds|
    {
      hide Validated, ValidRecord;
      var tasks: seq<Task> := [];
      var repository := workflow.repository;
      ghost var store := Index(repository.file);
      for i := 0 to |b.recordIds|
        invariant |tasks| == i && remote.records == old(remote.records) && (i > 0 ==> Loadable(repository.file))
        invariant forall k :: 0 <= k < i ==>
                    && b.recordIds[k] in store && store[b.recordIds[k]].source.documentId in documents
                    && TaskFor(store, b.recordIds[k], documents[store[b.recordIds[k]].source.documentId], b) == Success(tasks[k])
      {
        var id := b.recordIds[i];
        var found := repository.Get(id);
        if found.Failure? {
          return Failure(ExportRejected(CorruptFile));
        }
        if found.value.None? {
          return Failure(ExportRejected(RecordNotFound));
        }
        var record := found.value.value;
        if record.source.documentId !in documents {
          return Failure(ExportRejected(DocumentMissing));
        }
        var task := workflow.BuildTask(id, documents[record.source.documentId], b);
        if task.Failure? {
          return Failure(ExportRejected(task.error));
        }
        tasks := tasks + [task.value];
      }
      ghost var before := remote.records;
      if b.recordIds != [] {
        LoadableIsFiled(repository.file);
      }
      TasksAreTheBatch(store, b, documents, tasks);
      r := remote.SyncTasks(tasks, writeOk);
      if r.Success? {
        forall id | id in b.recordIds
          ensures && id in store && store[id].source.documentId in documents
                  && var task := TaskFor(store, id, documents[store[id].source.documentId], b);
                     && task.Success? && Find(remote.records, id).Some? && UpToDate(Find(remote.records, id).value, task.value)
        {
          var k :| 0 <= k < |b.recordIds| && b.recordIds[k] == id;
          assert tasks[k] in tasks && tasks[k].record.id == id;
          SyncedIsUpToDate(before, tasks, tasks[k]);
        }
      }
    }
  }

  lemma TasksAreTheBatch(store: Store, b: Batch, documents: Documents, tasks: seq<Task>)
    requires (tasks != [] ==> Filed(store)) && |tasks| == |b.recordIds| && "" !in b.recordIds
    requires forall k :: 0 <= k < |tasks| ==>
               && b.recordIds[k] in store && store[b.recordIds[k]].source.documentId in documents
               && TaskFor(store, b.recordIds[k], documents[store[b.recordIds[k]].source.documentId], b) == Success(tasks[k])
    ensures forall k :: 0 <= k < |tasks| ==> tasks[k].record.id == b.recordIds[k]
    ensures forall t :: t in tasks ==> t.record.id != ""
  {
    hide Validated, ValidRecord;
  }
}
