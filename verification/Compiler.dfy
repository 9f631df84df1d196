/** Compiling reviewed working records into a semantic gold dataset. */
module Compiler {
  import opened Basics
  import opened Sorting
  import opened ReviewRecords
  import opened Splits
  import opened Gold
  import opened GoldHashing
  import opened Projection
  import opened GoldValidity

  // ----- one document -----

  method CompileDecisions(es: seq<SourceElement>, r: Record) returns (c: Result<seq<Annotation>, CompileError>)
    ensures c.Success? ==> c.value == RecordAnnotations(es, r)
    ensures c.Success?
       <==> forall d :: d in r.decisions ==> d.state != Undecided && Resolvable(es, d)
    ensures c.Failure? ==> c.error == UndecidedDecision || c.error == UnknownEvidence
    ensures c == Failure(UndecidedDecision) ==> exists d :: d in r.decisions && d.state == Undecided
    ensures c == Failure(UnknownEvidence) ==> exists d :: d in r.decisions && !Resolvable(es, d)
  {
    hide AnnotationOf, Resolvable;
    var ordered := SortBy(DecisionKey, r.decisions);
    SortMembers(DecisionKey, r.decisions);
    var annotations: seq<Annotation> := [];
    for i := 0 to |ordered|
      invariant annotations == AnnotationsOf(es, r, ordered[..i])
      invariant forall d :: d in ordered[..i] ==> d.state != Undecided && Resolvable(es, d)
    {
      var d := ordered[i];
      assert ordered[..i + 1] == ordered[..i] + [d] && ordered[..i + 1][..i] == ordered[..i];
      assert d in ordered;
      if d.state == Undecided {
        return Failure(UndecidedDecision);
      }
      if !Resolvable(es, d) {
        return Failure(UnknownEvidence);
      }
      if d.state == Positive {
        annotations := annotations + [AnnotationOf(es, r, d)];
      }
    }
    assert ordered[..|ordered|] == ordered;
    return Success(annotations);
  }

  method CompileDocument(settings: Settings, d: SourceDocument, rs: seq<Record>, split: Split)
    returns (c: Result<Case, CompileError>)
    ensures c.Success? ==> rs != [] && SourcesMatch(d, rs) && AllDecided(rs) && AllEligible(settings, rs)
    ensures c.Success? ==> DistinctTargets(SortBy(RecordKey, rs))
    ensures c.Success? ==> c.value == DraftCase(settings, d, rs, split) && ValidCase(settings.rules, c.value)
    ensures c.Failure? ==> c.error != MultipleSplits && c.error != MissingDocument
    ensures c.Failure? ==> c.error != MappingMismatch && c.error != InvalidSplit && c.error != RejectedRecords
    ensures c == Failure(NoRecords) ==> rs == []
    ensures c == Failure(SourceMismatch) ==> !SourcesMatch(d, rs)
    ensures c == Failure(UndecidedDecision) ==> !AllDecided(rs)
    ensures c == Failure(Ineligible) ==> !AllEligible(settings, rs)
    ensures c == Failure(DuplicateTarget) ==> SourcesMatch(d, rs) && !DistinctTargets(SortBy(RecordKey, rs))
    ensures c.Failure? && AllHold(settings.rules, d, rs) ==> c.error != UnknownEvidence && (c.error == InvalidGold ==> !TextsFit(d))
    ensures c.Success? ==> TextsFit(d)
  {
    hide ValidCase, RecordAnnotations, RecordKey, SortBy, AllAnnotations, DistinctTargets, ScopeOf, TargetKeyOf, AllHold, Resolvable, TextsFit, ElementsFit;
    if AllHold(settings.rules, d, rs) {
      EvidenceResolves(settings.rules, d, rs);
    }
    if rs == [] {
      return Failure(NoRecords);
    }
    if !SourcesMatch(d, rs) {
      return Failure(SourceMismatch);
    }
    if !AllDecided(rs) {
      return Failure(UndecidedDecision);
    }
    if !AllEligible(settings, rs) {
      return Failure(Ineligible);
    }
    var ordered := SortBy(RecordKey, rs);
    SortMembers(RecordKey, rs);
    var seen: set<GoldTarget> := {};
    var scopes: seq<Scope> := [];
    var annotations: seq<Annotation> := [];
    NothingCompiled(d.elements, ordered[..0]);
    for i := 0 to |ordered|
      invariant scopes == Map(ScopeOf, ordered[..i])
      invariant annotations == AllAnnotations(d.elements, ordered[..i])
      invariant DistinctTargets(ordered[..i])
      invariant forall t :: t in seen <==> exists k :: 0 <= k < i && GoldTargetOf(ordered[k]) == t
    {
      var record := ordered[i];
      OneMoreRecord(d.elements, ordered, i);
      if GoldTargetOf(record) in seen {
        return Failure(DuplicateTarget);
      }
      seen := seen + {GoldTargetOf(record)};
      scopes := scopes + [ScopeOf(record)];
      var compiled := CompileDecisions(d.elements, record);
      if compiled.Failure? {
        return Failure(compiled.error);
      }
      annotations := annotations + compiled.value;
    }
    assert ordered[..|ordered|] == ordered;
    var elements := Map(GoldElementOf, SortBy(SourceElementKey, d.elements));
    var draft := Case(d.id, d.contentHash, settings.rules.snapshot(elements), split, d.language.value, elements,
                      SortBy(ScopeKey, scopes), SortBy(CompiledKey, annotations), "");
    if !ValidCase(settings.rules, draft) {
      if AllHold(settings.rules, d, rs) {
        ValidGoldExactly(settings, d, rs, split);
      }
      return Failure(InvalidGold);
    }
    DraftTexts(settings, d, rs, split);
    ValidHasShortTexts(settings.rules, draft);
    return Success(draft);
  }

  lemma ValidHasShortTexts(rules: Rules, c: Case)
    requires ValidCase(rules, c)
    ensures ElementsFit(c.elements)
  {
    hide ElementsFit;
  }

  // ----- the whole dataset -----

  function GroupSizes(rs: seq<Record>, ids: seq<string>): nat {
    if ids == [] then 0 else GroupSizes(rs, ids[..|ids| - 1]) + |Having(DocumentOf, rs, ids[|ids| - 1])|
  }

  lemma {:induction false} OneGroupGrows(rs: seq<Record>, last: Record, ids: seq<string>)
    requires Distinct(ids)
    ensures GroupSizes(rs + [last], ids) == GroupSizes(rs, ids) + if DocumentOf(last) in ids then 1 else 0
  {
    if ids != [] {
      var n := |ids| - 1;
      assert ids == ids[..n] + [ids[n]];
      OneGroupGrows(rs, last, ids[..n]);
      HavingStep(DocumentOf, rs, last, ids[n]);
    }
  }

  lemma {:induction false} EmptyGroups(ids: seq<string>)
    ensures GroupSizes([], ids) == 0
  {
    if ids != [] {
      EmptyGroups(ids[..|ids| - 1]);
    }
  }

  /** The document groups share out the records. */
  lemma {:induction false} GroupsAddUp(rs: seq<Record>, ids: seq<string>)
    requires Distinct(ids) && forall r :: r in rs ==> DocumentOf(r) in ids
    ensures GroupSizes(rs, ids) == |rs|
  {
    if rs == [] {
      EmptyGroups(ids);
    } else {
      var n := |rs| - 1;
      assert rs == rs[..n] + [rs[n]];
      GroupsAddUp(rs[..n], ids);
      OneGroupGrows(rs[..n], rs[n], ids);
    }
  }

  lemma {:induction false} HavingCounts(rs: seq<Record>, id: string, r: Record)
    ensures multiset(Having(DocumentOf, rs, id))[r] <= multiset(rs)[r]
  {
    if rs != [] {
      var n := |rs| - 1;
      assert rs == rs[..n] + [rs[n]];
      HavingCounts(rs[..n], id, r);
    }
  }

  lemma {:induction false} SeparatedCountsOnce(rs: seq<Record>, r: Record)
    requires forall i, j :: 0 <= i < j < |rs| ==> rs[i].id != rs[j].id
    ensures multiset(rs)[r] <= 1
  {
    if rs != [] {
      var n := |rs| - 1;
      SeparatedCountsOnce(rs[..n], r);
      assert rs == rs[..n] + [rs[n]];
      forall x | x in rs[..n]
        ensures x != rs[n]
      {
        var i :| 0 <= i < n && rs[..n][i] == x;
        assert rs[i].id != rs[n].id;
      }
    }
  }

  lemma SeparatedTargets(rs: seq<Record>, asg: Assignments, x: Record, y: Record)
    requires Separated(rs, asg) && x in rs && y in rs && TargetOf(x) == TargetOf(y)
    ensures x == y
  {
    var i :| 0 <= i < |rs| && rs[i] == x;
    var j :| 0 <= j < |rs| && rs[j] == y;
  }

  /** Records the split validator accepts never claim one target twice within a document revision. */
  lemma SeparatedHasDistinctTargets(rs: seq<Record>, asg: Assignments, d: SourceDocument, id: string)
    requires Separated(rs, asg) && SourcesMatch(d, Having(DocumentOf, rs, id))
    ensures DistinctTargets(SortBy(RecordKey, Having(DocumentOf, rs, id)))
  {
    var group := Having(DocumentOf, rs, id);
    var sorted := SortBy(RecordKey, group);
    SortPermutes(RecordKey, group);
    SortMembers(RecordKey, group);
    hide SortBy, RecordKey;
    forall i, j | 0 <= i < j < |sorted|
      ensures GoldTargetOf(sorted[i]) != GoldTargetOf(sorted[j])
    {
      assert sorted[i] in group && sorted[j] in group;
      HavingCounts(rs, id, sorted[i]);
      SeparatedCountsOnce(rs, sorted[i]);
      if GoldTargetOf(sorted[i]) == GoldTargetOf(sorted[j]) {
        SeparatedTargets(rs, asg, sorted[i], sorted[j]);
        TwiceCountsTwice(sorted, i, j);
      }
    }
  }

  lemma SeparatedHasOneSplit(rs: seq<Record>, asg: Assignments, id: string)
    requires Separated(rs, asg)
    ensures forall x, y :: x in Having(DocumentOf, rs, id) && y in Having(DocumentOf, rs, id) ==>
              GroupOf(x) in asg && GroupOf(y) in asg && asg[GroupOf(x)] == asg[GroupOf(y)]
  {
    var group := Having(DocumentOf, rs, id);
    assert forall x :: x in group ==> x in rs && DocumentOf(x) == id;
    hide Having;
    forall x, y | x in group && y in group
      ensures GroupOf(x) in asg && GroupOf(x) == GroupOf(y)
    {
      assert Splits.IdentityOf(DocumentId, x) == Splits.IdentityOf(DocumentId, y);
    }
  }

  /** `c` is the case of document `id`: its draft from all its records, in their common split. */
  ghost predicate IsCaseOf(settings: Settings, documents: map<string, SourceDocument>, rs: seq<Record>, asg: Assignments,
                           id: string, c: Case)
  {
    && id in documents && documents[id].language.Some? && documents[id].id == id
    && c == DraftCase(settings, documents[id], Having(DocumentOf, rs, id), c.split)
    && SourcesMatch(documents[id], Having(DocumentOf, rs, id)) && ValidCase(settings.rules, c)
    && DistinctTargets(SortBy(RecordKey, Having(DocumentOf, rs, id)))
    && forall r :: r in Having(DocumentOf, rs, id) ==> GroupOf(r) in asg && c.split == asg[GroupOf(r)]
  }

  method CompileGroup(settings: Settings, documents: map<string, SourceDocument>, rs: seq<Record>, asg: Assignments,
                      splits: map<string, Split>, id: string)
    returns (c: Result<Case, CompileError>)
    requires Separated(rs, asg) && Resolved(rs, asg, splits) && Having(DocumentOf, rs, id) != []
    requires forall k :: k in documents ==> documents[k].id == k
    ensures c.Failure? ==> c.error != MultipleSplits && c.error != DuplicateTarget && c.error != RejectedRecords
    ensures c.Failure? ==> c.error != NoRecords && c.error != MappingMismatch && c.error != InvalidSplit
    ensures c == Failure(SourceMismatch) ==> id in documents && !SourcesMatch(documents[id], Having(DocumentOf, rs, id))
    ensures AllDecided(rs) ==> c != Failure(UndecidedDecision)
    ensures AllEligible(settings, rs) ==> c != Failure(Ineligible)
    ensures c.Failure? && id in documents && AllHold(settings.rules, documents[id], Having(DocumentOf, rs, id)) ==>
              c.error != MissingDocument && c.error != UnknownEvidence && (c.error == InvalidGold ==> !TextsFit(documents[id]))
    ensures c.Success? ==> IsCaseOf(settings, documents, rs, asg, id, c.value) && TextsFit(documents[id])
  {
    hide ValidCase, DraftCase, DistinctTargets, RecordKey, SortBy, AllDecided, AllEligible, AllHold, TextsFit;
    if id !in documents {
      return Failure(MissingDocument);
    }
    var group := Having(DocumentOf, rs, id);
    SeparatedHasOneSplit(rs, asg, id);
    var first := group[0];
    assert first in group;
    var found := set r | r in group && r.id in splits :: splits[r.id];
    assert found == {asg[GroupOf(first)]} by {
      assert forall r :: r in group ==> r in rs;
      assert splits[first.id] in found;
    }
    if |found| != 1 {
      return Failure(MultipleSplits);
    }
    var split :| split in found;
    var compiled := CompileDocument(settings, documents[id], group, split);
    if compiled == Failure(DuplicateTarget) {
      SeparatedHasDistinctTargets(rs, asg, documents[id], id);
    }
    DraftKeeps(settings, documents[id], group, split);
    GroupIsDecided(settings, rs, id);
    return compiled;
  }

  lemma GroupIsDecided(settings: Settings, rs: seq<Record>, id: string)
    ensures AllDecided(rs) ==> AllDecided(Having(DocumentOf, rs, id))
    ensures AllEligible(settings, rs) ==> AllEligible(settings, Having(DocumentOf, rs, id))
  {
    assert forall r :: r in Having(DocumentOf, rs, id) ==> r in rs;
  }

  lemma DraftKeeps(settings: Settings, d: SourceDocument, rs: seq<Record>, split: Split)
    ensures d.language.Some? ==> DraftCase(settings, d, rs, split).split == split
  {
  }

  predicate ProperlyKeyed(documents: map<string, SourceDocument>) {
    forall k :: k in documents ==> documents[k].id == k
  }

  /** Some record is about a document without a language. */
  ghost predicate LanguageMissing(documents: map<string, SourceDocument>, rs: seq<Record>) {
    exists r :: r in rs && DocumentOf(r) in documents && documents[DocumentOf(r)].language.None?
  }

  lemma HavingNames(rs: seq<Record>, id: string)
    requires Having(DocumentOf, rs, id) != []
    ensures exists r :: r in rs && DocumentOf(r) == id
  {
    assert Having(DocumentOf, rs, id)[0] in Having(DocumentOf, rs, id);
  }

  method CompileDataset(settings: Settings, name: string, documents: map<string, SourceDocument>, rs: seq<Record>,
                        manifest: Manifest)
    returns (r: Result<Dataset, CompileError>)
    ensures r.Failure? ==> r.error != MultipleSplits && r.error != DuplicateTarget && r.error != RejectedRecords
    ensures r == Failure(NoRecords) ==> rs == []
    ensures r == Failure(MappingMismatch) ==> !ProperlyKeyed(documents)
    ensures r == Failure(InvalidSplit) ==> !Separated(rs, AssignmentsOf(manifest))
    ensures r == Failure(UndecidedDecision) ==> !AllDecided(rs)
    ensures r == Failure(Ineligible) ==> !AllEligible(settings, rs)
    ensures r.Failure? && AllAccepted(settings, documents, rs) ==>
              r.error != MissingDocument && r.error != UnknownEvidence
    ensures r == Failure(InvalidGold) && AllAccepted(settings, documents, rs) ==> TextTooLong(documents, rs) || !ValidName(name)
    ensures r == Failure(SourceMismatch) && AllAccepted(settings, documents, rs) ==> LanguageMissing(documents, rs)
    ensures r.Success? ==> Separated(rs, AssignmentsOf(manifest)) && AllDecided(rs) && AllEligible(settings, rs)
    ensures r.Success? ==> IsCompiled(settings, documents, rs, AssignmentsOf(manifest), r.value.cases) && ValidName(name)
    ensures r.Success? ==>
              r.value == Dataset(name, GOLD_SCHEMA_VERSION, settings.benchmark, r.value.cases,
                                 DatasetMetadata(SplitManifestHash(manifest), settings.compilerVersion, settings.workingSchema))
  {
    hide Separated, Resolved, IsCaseOf, SortBy, Groups, AllEligible, AllDecided, AssignmentsOf, IsCompiled, AllAccepted, AllHold,
      SourcesMatch, TextsFit;
    if rs == [] {
      return Failure(NoRecords);
    }
    if !ProperlyKeyed(documents) {
      return Failure(MappingMismatch);
    }
    var resolved := ResolveRecordSplits(rs, manifest);
    if resolved.Failure? {
      return Failure(InvalidSplit);
    }
    if !AllDecided(rs) {
      return Failure(UndecidedDecision);
    }
    if !AllEligible(settings, rs) {
      return Failure(Ineligible);
    }
    var asg := AssignmentsOf(manifest);
    var keys, members := GroupBy(DocumentOf, rs);
    var ids := SortBy(Codes, keys);
    SortedKeys(rs, keys, members);
    var cases: seq<Case> := [];
    for i := 0 to |ids|
      invariant |cases| == i
      invariant forall k :: 0 <= k < i ==> IsCaseOf(settings, documents, rs, asg, ids[k], cases[k])
    {
      assert ids[i] in ids;
      var compiled := CompileGroup(settings, documents, rs, asg, resolved.value, ids[i]);
      if compiled.Failure? {
        if AllAccepted(settings, documents, rs) {
          AcceptedGroupHolds(settings, documents, rs, ids[i]);
          AcceptedSourcesMatch(settings, documents, rs, ids[i]);
          HavingNames(rs, ids[i]);
        }
        return Failure(compiled.error);
      }
      cases := cases + [compiled.value];
    }
    if !ValidName(name) {
      return Failure(InvalidGold);
    }
    CasesAreCompiled(settings, documents, rs, asg, ids, cases);
    return Success(Dataset(name, GOLD_SCHEMA_VERSION, settings.benchmark, SortBy(DocumentKey, cases),
                           DatasetMetadata(SplitManifestHash(manifest), settings.compilerVersion, settings.workingSchema)));
  }

  /** The documents of compiled records have a language, and texts that fit. */
  lemma CompiledDocuments(settings: Settings, documents: map<string, SourceDocument>, rs: seq<Record>, asg: Assignments,
                          cases: seq<Case>)
    requires IsCompiled(settings, documents, rs, asg, cases)
    ensures !LanguageMissing(documents, rs) && !TextTooLong(documents, rs)
  {
    hide DraftCase, SourcesMatch, ValidCase, DistinctTargets, Having, Sorted, Distinct, TotalScopes, ScopeOf, TextsFit, ElementsFit;
    forall r | r in rs
      ensures DocumentOf(r) in documents && documents[DocumentOf(r)].language.Some? && TextsFit(documents[DocumentOf(r)])
    {
      var c :| c in cases && c.documentId == DocumentOf(r);
      assert IsCaseOf(settings, documents, rs, asg, c.documentId, c);
      ValidHasShortTexts(settings.rules, c);
      DraftTexts(settings, documents[DocumentOf(r)], Having(DocumentOf, rs, DocumentOf(r)), c.split);
    }
  }

  /**
   Compilation behind the validation of the working records. Of the projection's failures five remain, each
   with its cause; the repeated target, the second split, the missing document and unknown evidence cannot happen.
   Gold is invalid only by the length of a text of some referenced document, or of the name.
   */
  method CompileValidated(settings: Settings, name: string, documents: map<string, SourceDocument>, rs: seq<Record>,
                          manifest: Manifest)
    returns (r: Result<Dataset, CompileError>)
    ensures r == Failure(RejectedRecords)
       <==> rs == [] || !ProperlyKeyed(documents) || !AllAccepted(settings, documents, rs)
    ensures r.Failure? ==>
              r.error in {RejectedRecords, InvalidSplit, UndecidedDecision, Ineligible, SourceMismatch, InvalidGold}
    ensures r == Failure(SourceMismatch) ==> LanguageMissing(documents, rs)
    ensures r == Failure(InvalidGold) ==> TextTooLong(documents, rs) || !ValidName(name)
    ensures r.Success?
       <==> && rs != [] && ProperlyKeyed(documents) && AllAccepted(settings, documents, rs)
            && Separated(rs, AssignmentsOf(manifest)) && AllDecided(rs) && AllEligible(settings, rs)
            && !LanguageMissing(documents, rs) && !TextTooLong(documents, rs) && ValidName(name)
    ensures r.Success? ==> IsCompiled(settings, documents, rs, AssignmentsOf(manifest), r.value.cases)
    ensures r.Success? ==> ValidDataset(settings.rules, r.value)
  {
    hide Separated, AllEligible, AllDecided, AssignmentsOf, IsCompiled, AllAccepted, ValidDataset, ProperlyKeyed, LanguageMissing, TextTooLong, ValidName;
    if rs == [] || !ProperlyKeyed(documents) || !AllAccepted(settings, documents, rs) {
      return Failure(RejectedRecords);
    }
    r := CompileDataset(settings, name, documents, rs, manifest);
    if r.Success? {
      CompiledIsValid(settings, documents, rs, AssignmentsOf(manifest), r.value);
      CompiledDocuments(settings, documents, rs, AssignmentsOf(manifest), r.value.cases);
    }
  }

  lemma SortedKeys(rs: seq<Record>, keys: seq<string>, members: map<string, seq<Record>>)
    requires Groups(DocumentOf, rs, keys, members)
    ensures var ids := SortBy(Codes, keys);
            && Distinct(ids) && (forall id :: id in ids ==> Having(DocumentOf, rs, id) != [])
            && (forall r :: r in rs ==> DocumentOf(r) in ids)
  {
    var ids := SortBy(Codes, keys);
    SortPermutes(Codes, keys);
    SortMembers(Codes, keys);
    DistinctPermuted(keys, ids);
    hide Distinct, SortBy;
    forall id | id in ids
      ensures Having(DocumentOf, rs, id) != []
    {
      assert Occurs(DocumentOf, rs, id);
      var r :| r in rs && DocumentOf(r) == id;
      assert r in Having(DocumentOf, rs, id);
    }
    forall r | r in rs
      ensures DocumentOf(r) in ids
    {
      assert Occurs(DocumentOf, rs, DocumentOf(r));
    }
  }

  function TotalScopes(cases: seq<Case>): nat {
    if cases == [] then 0 else TotalScopes(cases[..|cases| - 1]) + |cases[|cases| - 1].scopes|
  }

  /**
   The compiled cases are valid, sorted, one per document; every record has its scope in the case of
   its document, which is in the record's split; and no scope has any other origin.
   */
  ghost predicate IsCompiled(settings: Settings, documents: map<string, SourceDocument>, rs: seq<Record>, asg: Assignments,
                             cases: seq<Case>)
  {
    && Sorted(DocumentKey, cases) && Distinct(Map(DocumentIdOf, cases))
    && (forall c :: c in cases ==> IsCaseOf(settings, documents, rs, asg, c.documentId, c))
    && (forall r :: r in rs ==> exists c :: c in cases && c.documentId == DocumentOf(r) && ScopeOf(r) in c.scopes
                                            && GroupOf(r) in asg && c.split == asg[GroupOf(r)])
    && (forall c, s :: c in cases && s in c.scopes ==> exists r :: r in rs && DocumentOf(r) == c.documentId && s == ScopeOf(r))
    && TotalScopes(cases) == |rs|
  }

  function DocumentIdOf(c: Case): string { c.documentId }

  lemma CaseScopes(settings: Settings, documents: map<string, SourceDocument>, rs: seq<Record>, asg: Assignments, id: string, c: Case)
    requires IsCaseOf(settings, documents, rs, asg, id, c)
    ensures c.documentId == id && |c.scopes| == |Having(DocumentOf, rs, id)|
    ensures forall r :: r in rs && DocumentOf(r) == id ==> ScopeOf(r) in c.scopes && GroupOf(r) in asg && c.split == asg[GroupOf(r)]
    ensures forall s :: s in c.scopes ==> exists r :: r in rs && DocumentOf(r) == id && s == ScopeOf(r)
  {
    hide ValidCase, SortBy, ScopeKey, RecordKey, DistinctTargets, SourcesMatch;
    var group := Having(DocumentOf, rs, id);
    var ordered := SortBy(RecordKey, group);
    SortMembers(RecordKey, group);
    SortMembers(ScopeKey, Map(ScopeOf, ordered));
    var scopes := Map(ScopeOf, ordered);
    forall r | r in rs && DocumentOf(r) == id
      ensures ScopeOf(r) in c.scopes
    {
      assert r in ordered;
      var k :| 0 <= k < |ordered| && ordered[k] == r;
      assert scopes[k] == ScopeOf(r);
    }
    forall s | s in c.scopes
      ensures exists r :: r in rs && DocumentOf(r) == id && s == ScopeOf(r)
    {
      var k :| 0 <= k < |scopes| && scopes[k] == s;
      assert ordered[k] in group;
    }
  }

  lemma {:induction false} ScopesAddUp(settings: Settings, documents: map<string, SourceDocument>, rs: seq<Record>, asg: Assignments,
                                       ids: seq<string>, cases: seq<Case>)
    requires |ids| == |cases| && forall k :: 0 <= k < |ids| ==> IsCaseOf(settings, documents, rs, asg, ids[k], cases[k])
    ensures TotalScopes(cases) == GroupSizes(rs, ids)
  {
    hide IsCaseOf;
    if ids != [] {
      var n := |ids| - 1;
      ScopesAddUp(settings, documents, rs, asg, ids[..n], cases[..n]);
      CaseScopes(settings, documents, rs, asg, ids[n], cases[n]);
    }
  }

  lemma {:induction false} TotalScopesOfMultiset(a: seq<Case>, b: seq<Case>)
    requires multiset(a) == multiset(b)
    ensures TotalScopes(a) == TotalScopes(b)
  {
    assert |multiset(a)| == |a| && |multiset(b)| == |b|;
    if a != [] {
      hide TotalScopes;
      var n := |a| - 1;
      MembersOfMultiset(a, b);
      assert a[n] in b;
      var k :| 0 <= k < |b| && b[k] == a[n];
      var rest := b[..k] + b[k + 1..];
      CaseRemoved(a, n);
      CaseRemoved(b, k);
      assert a[..n] + a[n + 1..] == a[..n];
      TotalScopesOfMultiset(a[..n], rest);
    }
  }

  /** Taking one case out of a list. */
  lemma CaseRemoved(s: seq<Case>, k: nat)
    requires k < |s|
    ensures multiset(s[..k] + s[k + 1..]) == multiset(s) - multiset{s[k]}
    ensures TotalScopes(s) == TotalScopes(s[..k] + s[k + 1..]) + |s[k].scopes|
  {
    assert s == s[..k] + ([s[k]] + s[k + 1..]);
    assert multiset(s) == multiset(s[..k] + s[k + 1..]) + multiset{s[k]};
    TotalAppend(s[..k], [s[k]] + s[k + 1..]);
    TotalAppend([s[k]], s[k + 1..]);
    TotalAppend(s[..k], s[k + 1..]);
    assert [s[k]][..0] == [];
  }

  lemma {:induction false} TotalAppend(a: seq<Case>, b: seq<Case>)
    ensures TotalScopes(a + b) == TotalScopes(a) + TotalScopes(b)
  {
    if b == [] {
      assert a + b == a;
    } else {
      assert (a + b)[..|a + b| - 1] == a + b[..|b| - 1];
      TotalAppend(a, b[..|b| - 1]);
    }
  }

  lemma CasesAreCompiled(settings: Settings, documents: map<string, SourceDocument>, rs: seq<Record>, asg: Assignments,
                         ids: seq<string>, cases: seq<Case>)
    requires Distinct(ids) && (forall r :: r in rs ==> DocumentOf(r) in ids)
    requires |ids| == |cases| && forall k :: 0 <= k < |ids| ==> IsCaseOf(settings, documents, rs, asg, ids[k], cases[k])
    ensures IsCompiled(settings, documents, rs, asg, SortBy(DocumentKey, cases))
  {
    hide IsCaseOf, SortBy, DocumentKey, Sorted, Distinct, Map, TotalScopes, GroupSizes, Having, ScopeOf;
    SortedIds(settings, documents, rs, asg, ids, cases);
    SortPermutes(DocumentKey, cases);
    SortMembers(DocumentKey, cases);
    SortSorts(DocumentKey, cases);
    ScopesAddUp(settings, documents, rs, asg, ids, cases);
    GroupsAddUp(rs, ids);
    TotalScopesOfMultiset(cases, SortBy(DocumentKey, cases));
    RecordsAreCovered(settings, documents, rs, asg, ids, cases);
    CasesHaveOrigins(settings, documents, rs, asg, ids, cases);
  }

  lemma SortedIds(settings: Settings, documents: map<string, SourceDocument>, rs: seq<Record>, asg: Assignments,
                  ids: seq<string>, cases: seq<Case>)
    requires Distinct(ids) && |ids| == |cases|
    requires forall k :: 0 <= k < |ids| ==> IsCaseOf(settings, documents, rs, asg, ids[k], cases[k])
    ensures Distinct(Map(DocumentIdOf, SortBy(DocumentKey, cases)))
  {
    hide IsCaseOf, SortBy, DocumentKey;
    var sorted := SortBy(DocumentKey, cases);
    SortPermutes(DocumentKey, cases);
    SortMembers(DocumentKey, cases);
    forall k | 0 <= k < |ids|
      ensures cases[k].documentId == ids[k]
    {
      CaseScopes(settings, documents, rs, asg, ids[k], cases[k]);
    }
    assert Distinct(cases);
    DistinctPermuted(cases, sorted);
    forall i, j | 0 <= i < j < |sorted|
      ensures Map(DocumentIdOf, sorted)[i] != Map(DocumentIdOf, sorted)[j]
    {
      assert sorted[i] in cases && sorted[j] in cases;
      var k :| 0 <= k < |cases| && cases[k] == sorted[i];
      var l :| 0 <= l < |cases| && cases[l] == sorted[j];
      assert k != l;
    }
  }

  lemma RecordsAreCovered(settings: Settings, documents: map<string, SourceDocument>, rs: seq<Record>, asg: Assignments,
                          ids: seq<string>, cases: seq<Case>)
    requires |ids| == |cases| && forall r :: r in rs ==> DocumentOf(r) in ids
    requires forall k :: 0 <= k < |ids| ==> IsCaseOf(settings, documents, rs, asg, ids[k], cases[k])
    ensures forall r :: r in rs ==> exists c :: c in SortBy(DocumentKey, cases) && c.documentId == DocumentOf(r)
                                                && ScopeOf(r) in c.scopes && GroupOf(r) in asg && c.split == asg[GroupOf(r)]
  {
    hide IsCaseOf, SortBy, DocumentKey;
    SortMembers(DocumentKey, cases);
    forall r | r in rs
      ensures exists c :: c in SortBy(DocumentKey, cases) && c.documentId == DocumentOf(r)
                          && ScopeOf(r) in c.scopes && GroupOf(r) in asg && c.split == asg[GroupOf(r)]
    {
      var k :| 0 <= k < |ids| && ids[k] == DocumentOf(r);
      CaseScopes(settings, documents, rs, asg, ids[k], cases[k]);
      assert cases[k] in SortBy(DocumentKey, cases);
    }
  }

  lemma CasesHaveOrigins(settings: Settings, documents: map<string, SourceDocument>, rs: seq<Record>, asg: Assignments,
                         ids: seq<string>, cases: seq<Case>)
    requires |ids| == |cases| && forall k :: 0 <= k < |ids| ==> IsCaseOf(settings, documents, rs, asg, ids[k], cases[k])
    ensures forall c :: c in SortBy(DocumentKey, cases) ==> IsCaseOf(settings, documents, rs, asg, c.documentId, c)
    ensures forall c, s :: c in SortBy(DocumentKey, cases) && s in c.scopes ==>
              exists r :: r in rs && DocumentOf(r) == c.documentId && s == ScopeOf(r)
  {
    hide IsCaseOf, SortBy, DocumentKey;
    SortMembers(DocumentKey, cases);
    forall c | c in SortBy(DocumentKey, cases)
      ensures IsCaseOf(settings, documents, rs, asg, c.documentId, c)
      ensures forall s :: s in c.scopes ==> exists r :: r in rs && DocumentOf(r) == c.documentId && s == ScopeOf(r)
    {
      assert c in cases;
      var k :| 0 <= k < |cases| && cases[k] == c;
      CaseScopes(settings, documents, rs, asg, ids[k], cases[k]);
    }
  }

  /** What compilation returns is a valid gold dataset. */
  lemma CompiledIsValid(settings: Settings, documents: map<string, SourceDocument>, rs: seq<Record>, asg: Assignments, d: Dataset)
    requires rs != [] && IsCompiled(settings, documents, rs, asg, d.cases) && d.schemaVersion == GOLD_SCHEMA_VERSION
      && ValidName(d.name)
    ensures ValidDataset(settings.rules, d)
  {
    hide ValidCase, DraftCase, SourcesMatch, DistinctTargets, Sorted;
    assert rs[0] in rs;
    forall i, j | 0 <= i < j < |d.cases|
      ensures d.cases[i].documentId != d.cases[j].documentId
    {
      assert Map(DocumentIdOf, d.cases)[i] != Map(DocumentIdOf, d.cases)[j];
    }
  }

  /** Two records joined by shared families, contents or documents end up in cases of one split. */
  lemma NoLeakageBetweenCases(settings: Settings, documents: map<string, SourceDocument>, rs: seq<Record>, asg: Assignments,
                              cases: seq<Case>, chain: seq<Record>, a: Case, b: Case)
    requires Separated(rs, asg) && IsCompiled(settings, documents, rs, asg, cases) && SharedChain(rs, chain)
    requires a in cases && b in cases
    requires a.documentId == DocumentOf(chain[0]) && b.documentId == DocumentOf(chain[|chain| - 1])
    ensures a.split == b.split
  {
    ChainStaysInSplit(rs, asg, chain);
    var x, y := chain[0], chain[|chain| - 1];
    assert x in chain && y in chain;
    hide Separated, DraftCase, ValidCase, SourcesMatch, DistinctTargets, Sorted;
    CaseScopes(settings, documents, rs, asg, a.documentId, a);
    CaseScopes(settings, documents, rs, asg, b.documentId, b);
  }

  /** In a compiled case evidence order never reaches the hash. */
  lemma CompiledHashIgnoresEvidenceOrder(settings: Settings, documents: map<string, SourceDocument>, rs: seq<Record>,
                                         asg: Assignments, id: string, c: Case, other: Case)
    requires IsCaseOf(settings, documents, rs, asg, id, c) && forall r :: r in rs ==> ValidRecord(r)
    requires other == c.(annotations := other.annotations) && SameUpToEvidenceOrder(c.annotations, other.annotations)
    ensures CanonicalCase(c) == CanonicalCase(other)
  {
    hide ValidCase, ValidRecord, SortBy, CanonicalCase, SameUpToEvidenceOrder, CompiledKey, PrefixKey, RecordKey;
    var es := documents[id].elements;
    var ordered := SortBy(RecordKey, Having(DocumentOf, rs, id));
    SortMembers(RecordKey, Having(DocumentOf, rs, id));
    AllAnnotationsDiffer(es, ordered);
    SortPermutes(CompiledKey, AllAnnotations(es, ordered));
    KeysDifferPermuted(CompiledKey, AllAnnotations(es, ordered), c.annotations);
    forall i, j | 0 <= i < j < |c.annotations|
      ensures PrefixKey(c.annotations[i]) != PrefixKey(c.annotations[j])
    {
      if PrefixKey(c.annotations[i]) == PrefixKey(c.annotations[j]) {
        PrefixNamesTargetAndType(c.annotations[i], c.annotations[j]);
        SameTargetAndTypeSameKey(c.annotations[i], c.annotations[j]);
      }
    }
    EvidenceOrderIgnored(c, other);
  }

  // ----- a document that is accepted and still refused -----

  /** A short paragraph, and a code block one character over the limit that no record is about. */
  function LongDocument(): SourceDocument {
    SourceDocument("d", "h", "s", Some("en"),
                   [SourceElement("short", 0, Some("a"), None, "PARAGRAPH"),
                    SourceElement("long", 1, Some(seq(MAX_TEXT + 1, _ => 'x')), None, "CODE")])
  }

  /** A record on the short paragraph, with one negative decision. */
  function ShortRecord(): Record {
    Record("r", "b", Source("d", "h", "s", "en", "f", "g"), Target("ELEMENT", "short", ["short"], [0], ""), [0], [],
           [Decision(0, Negative, Claim(None, None, [], ""))], [], Pass, "")
  }

  lemma LongDocumentIsLong()
    ensures WellFormed(LongDocument().elements) && !TextsFit(LongDocument())
    ensures OrderById(LongDocument().elements, "short") == Some(0)
  {
    var es := LongDocument().elements;
    assert es[..1] == [es[0]] && es[1] in es;
    assert OrderById(es, "short") == OrderById(es[..1], "short");
  }

  lemma ShortRecordHolds(rules: Rules)
    ensures RecordHolds(rules, LongDocument().elements, ShortRecord())
  {
    LongDocumentIsLong();
    hide LongDocument, OrderById;
    var r := ShortRecord();
    assert Map(TypeOf, r.decisions) == [0];
    assert r.decisions[0] in r.decisions;
  }

  /**
   The record is accepted and meets every other condition of compilation, in every setting whose remaining checks
   and policy let it pass; yet the text of the block that no record targets makes the projected gold invalid.
   */
  lemma LongTextIsRefused(settings: Settings)
    requires settings.recordChecks(ShortRecord()) && settings.batchChecks([ShortRecord()]) && settings.eligible(ShortRecord())
    ensures var d, rs, asg := LongDocument(), [ShortRecord()], map["g" := Train];
            var documents := map[d.id := d];
            && ProperlyKeyed(documents) && AllAccepted(settings, documents, rs) && Separated(rs, asg) && AllDecided(rs)
            && AllEligible(settings, rs) && !LanguageMissing(documents, rs) && TextTooLong(documents, rs)
            && !ValidCase(settings.rules, DraftCase(settings, d, rs, Train))
  {
    var d, r := LongDocument(), ShortRecord();
    LongDocumentIsLong();
    ShortRecordHolds(settings.rules);
    ShortRecordPasses();
    assert d.id == "d" && d.language == Some("en");
    hide WellFormed, RecordHolds, TextsFit, ValidCase, DraftCase, ElementsFit, LongDocument, SourceHolds, Linked, Separated, ShortRecord;
    DraftTexts(settings, d, [r], Train);
    if ValidCase(settings.rules, DraftCase(settings, d, [r], Train)) {
      ValidHasShortTexts(settings.rules, DraftCase(settings, d, [r], Train));
    }
  }

  lemma ShortRecordPasses()
    ensures var d, r := LongDocument(), ShortRecord();
            SourceHolds(d, r) && Linked(r.reviews, r.DecisionHash()) && DocumentOf(r) == d.id
            && Separated([r], map["g" := Train]) && AllDecided([r])
  {
    var r := ShortRecord();
    assert GroupOf(r) == "g" && forall d :: d in r.decisions ==> d == r.decisions[0];
  }
}
