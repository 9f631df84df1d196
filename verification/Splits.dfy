/** Validating the assignment of split groups to dataset splits, so that nothing leaks from one split to another. */
module Splits {
  import opened Basics
  import opened Sorting
  import opened ReviewRecords

  datatype Split = Train | Dev | Test

  const SPLITS := [Train, Dev, Test]

  type Assignments = map<string, Split>

  datatype IdentityKind = SourceFamily | ContentHash | DocumentId

  datatype TargetKey = TargetKey(contentHash: string, kind: string, orders: seq<nat>)

  datatype Issue =
    | RecordIdDuplicate(id: string)
    | GroupUnassigned(group: string)
    | GroupUnknown(group: string)
    | CrossesGroup(kind: IdentityKind, identity: string)
    | CrossesSplit(kind: IdentityKind, identity: string)
    | TargetCrossesSplit(key: TargetKey)
    | TargetDuplicate(key: TargetKey)

  /** An assigned group without records is only a warning. */
  predicate IsError(i: Issue) {
    !i.GroupUnknown?
  }

  function IdOf(r: Record): string { r.id }

  function GroupOf(r: Record): string { r.source.splitGroup }

  function IdentityOf(kind: IdentityKind, r: Record): string {
    match kind
    case SourceFamily => r.source.family
    case ContentHash => r.source.contentHash
    case DocumentId => r.source.documentId
  }

  function TargetOf(r: Record): TargetKey {
    TargetKey(r.source.contentHash, r.target.kind, r.target.elementOrders)
  }

  // ----- grouping -----

  /** The records with the given key, in order. */
  function Having<K(==)>(f: Record -> K, rs: seq<Record>, k: K): (g: seq<Record>)
    ensures forall r :: r in g <==> r in rs && f(r) == k
    ensures |g| <= |rs|
  {
    if rs == [] then []
    else
      var n := |rs| - 1;
      assert forall r :: r in rs <==> r in rs[..n] || r == rs[n];
      Having(f, rs[..n], k) + (if f(rs[n]) == k then [rs[n]] else [])
  }

  ghost predicate Occurs<K>(f: Record -> K, rs: seq<Record>, k: K) {
    exists r :: r in rs && f(r) == k
  }

  /** A dictionary from keys to records; `keys` lists the keys in insertion order. */
  ghost predicate Groups<K(!new)>(f: Record -> K, rs: seq<Record>, keys: seq<K>, members: map<K, seq<Record>>) {
    && Distinct(keys) && (forall k :: k in keys <==> k in members)
    && (forall k :: k in members <==> Occurs(f, rs, k))
    && (forall k :: k in members ==> members[k] == Having(f, rs, k))
  }

  lemma GroupOne<K(!new)>(f: Record -> K, rs: seq<Record>, i: nat, keys: seq<K>, members: map<K, seq<Record>>)
    requires i < |rs| && Groups(f, rs[..i], keys, members)
    ensures var k := f(rs[i]);
            Groups(f, rs[..i + 1], if k in members then keys else keys + [k],
                   members[k := (if k in members then members[k] else []) + [rs[i]]])
  {
    hide Distinct, Having, Occurs;
    var k := f(rs[i]);
    assert rs[..i + 1] == rs[..i] + [rs[i]];
    if k !in members {
      DistinctAppend(keys, k);
      NothingHaving(f, rs[..i], k);
    }
    forall x
      ensures Occurs(f, rs[..i + 1], x) <==> Occurs(f, rs[..i], x) || x == k
      ensures Having(f, rs[..i + 1], x) == Having(f, rs[..i], x) + if x == k then [rs[i]] else []
    {
      OccursStep(f, rs[..i], rs[i], x);
      HavingStep(f, rs[..i], rs[i], x);
    }
  }

  lemma {:induction false} NothingHaving<K>(f: Record -> K, rs: seq<Record>, k: K)
    requires !Occurs(f, rs, k)
    ensures Having(f, rs, k) == []
  {
    if rs != [] {
      assert rs[|rs| - 1] in rs && forall r :: r in rs[..|rs| - 1] ==> r in rs;
      NothingHaving(f, rs[..|rs| - 1], k);
    }
  }

  lemma HavingStep<K>(f: Record -> K, rs: seq<Record>, last: Record, k: K)
    ensures Having(f, rs + [last], k) == Having(f, rs, k) + if f(last) == k then [last] else []
  {
    assert (rs + [last])[..|rs|] == rs;
  }

  lemma OccursStep<K>(f: Record -> K, rs: seq<Record>, last: Record, x: K)
    ensures Occurs(f, rs + [last], x) <==> Occurs(f, rs, x) || x == f(last)
  {
    var all := rs + [last];
    assert forall r :: r in all <==> r in rs || r == last;
    if x == f(last) {
      assert last in all;
    } else if Occurs(f, rs, x) {
      var r :| r in rs && f(r) == x;
      assert r in all;
    }
  }

  method GroupBy<K(==, !new)>(f: Record -> K, rs: seq<Record>) returns (keys: seq<K>, members: map<K, seq<Record>>)
    ensures Groups(f, rs, keys, members)
  {
    hide Having, Distinct;
    keys, members := [], map[];
    NothingGrouped(f, rs[..0]);
    for i := 0 to |rs|
      invariant Groups(f, rs[..i], keys, members)
    {
      GroupOne(f, rs, i, keys, members);
      var k := f(rs[i]);
      if k in members {
        members := members[k := members[k] + [rs[i]]];
      } else {
        keys := keys + [k];
        members := members[k := [] + [rs[i]]];
      }
    }
    assert rs[..|rs|] == rs;
  }

  lemma NothingGrouped<K(!new)>(f: Record -> K, rs: seq<Record>)
    requires rs == []
    ensures Groups(f, rs, [], map[])
  {
  }

  lemma {:induction false} HavingGrows<K>(f: Record -> K, rs: seq<Record>, k: K, i: nat, j: nat)
    requires i <= j <= |rs|
    ensures |Having(f, rs[..i], k)| <= |Having(f, rs[..j], k)|
    ensures i < j && f(rs[i]) == k ==> |Having(f, rs[..i], k)| < |Having(f, rs[..j], k)|
    decreases j
  {
    if i < j {
      HavingGrows(f, rs, k, i, j - 1);
      assert rs[..j][..j - 1] == rs[..j - 1];
    }
  }

  lemma {:induction false} WitnessTwo<K>(f: Record -> K, rs: seq<Record>, k: K) returns (i: nat, j: nat)
    requires |Having(f, rs, k)| > 1
    ensures i < j < |rs| && f(rs[i]) == k && f(rs[j]) == k
  {
    var n := |rs| - 1;
    if f(rs[n]) == k {
      j := n;
      assert Having(f, rs[..n], k)[0] in rs[..n];
      i :| 0 <= i < n && rs[..n][i] == Having(f, rs[..n], k)[0];
    } else {
      i, j := WitnessTwo(f, rs[..n], k);
    }
  }

  lemma TwoInGroup<K>(f: Record -> K, rs: seq<Record>, k: K)
    ensures |Having(f, rs, k)| > 1 <==> exists i, j :: 0 <= i < j < |rs| && f(rs[i]) == k && f(rs[j]) == k
  {
    if |Having(f, rs, k)| > 1 {
      var i, j := WitnessTwo(f, rs, k);
    }
    if i, j :| 0 <= i < j < |rs| && f(rs[i]) == k && f(rs[j]) == k {
      HavingGrows(f, rs, k, 0, i);
      HavingGrows(f, rs, k, i, j);
      HavingGrows(f, rs, k, j, |rs|);
      assert rs[..|rs|] == rs;
    }
  }

  // ----- what can go wrong -----

  ghost predicate GroupsDiffer(rs: seq<Record>) {
    exists a, b :: a in rs && b in rs && GroupOf(a) != GroupOf(b)
  }

  ghost predicate SplitsDiffer(rs: seq<Record>, asg: Assignments) {
    exists a, b :: a in rs && b in rs && GroupOf(a) in asg && GroupOf(b) in asg && asg[GroupOf(a)] != asg[GroupOf(b)]
  }

  lemma SeveralMembers<T>(s: set<T>)
    ensures |s| > 1 <==> exists x, y :: x in s && y in s && x != y
  {
    if s != {} {
      var x :| x in s;
      assert s == {x} + (s - {x});
      if |s| > 1 {
        var y :| y in s - {x};
        assert x != y;
      } else {
        assert s - {x} == {};
      }
    }
  }

  function GroupSet(rs: seq<Record>): set<string> {
    set r | r in rs :: GroupOf(r)
  }

  function SplitSet(rs: seq<Record>, asg: Assignments): set<Split> {
    set r | r in rs && GroupOf(r) in asg :: asg[GroupOf(r)]
  }

  lemma GroupSetSize(rs: seq<Record>)
    ensures |GroupSet(rs)| > 1 <==> GroupsDiffer(rs)
  {
    SeveralMembers(GroupSet(rs));
    if GroupsDiffer(rs) {
      var a, b :| a in rs && b in rs && GroupOf(a) != GroupOf(b);
      assert GroupOf(a) in GroupSet(rs) && GroupOf(b) in GroupSet(rs);
    }
  }

  lemma SplitSetSize(rs: seq<Record>, asg: Assignments)
    ensures |SplitSet(rs, asg)| > 1 <==> SplitsDiffer(rs, asg)
  {
    SeveralMembers(SplitSet(rs, asg));
    if SplitsDiffer(rs, asg) {
      var a, b :| a in rs && b in rs && GroupOf(a) in asg && GroupOf(b) in asg && asg[GroupOf(a)] != asg[GroupOf(b)];
      assert asg[GroupOf(a)] in SplitSet(rs, asg) && asg[GroupOf(b)] in SplitSet(rs, asg);
    }
  }

  /** What an issue reports, stated over the records. */
  ghost predicate Reports(i: Issue, rs: seq<Record>, asg: Assignments) {
    match i
    case RecordIdDuplicate(id) => exists a, b :: 0 <= a < b < |rs| && rs[a].id == id && rs[b].id == id
    case GroupUnassigned(g) => g !in asg && exists r :: r in rs && GroupOf(r) == g
    case GroupUnknown(g) => g in asg && forall r :: r in rs ==> GroupOf(r) != g
    case CrossesGroup(kind, x) => GroupsDiffer(Having(r => IdentityOf(kind, r), rs, x))
    case CrossesSplit(kind, x) => SplitsDiffer(Having(r => IdentityOf(kind, r), rs, x), asg)
    case TargetCrossesSplit(k) => |Having(TargetOf, rs, k)| > 1 && SplitsDiffer(Having(TargetOf, rs, k), asg)
    case TargetDuplicate(k) => |Having(TargetOf, rs, k)| > 1 && !SplitsDiffer(Having(TargetOf, rs, k), asg)
  }

  // ----- the checks -----

  function TargetSortKey(k: TargetKey): Key {
    Terminated(k.contentHash) + Terminated(k.kind) + k.orders
  }

  method ValidateRecordIds(rs: seq<Record>) returns (issues: seq<Issue>)
    ensures forall i :: i in issues <==> i.RecordIdDuplicate? && |Having(IdOf, rs, i.id)| > 1
  {
    hide Distinct, SortBy, Occurs;
    var keys, members := GroupBy(IdOf, rs);
    var ordered := SortBy(Codes, keys);
    SortMembers(Codes, keys);
    MultipleOccurs(rs);
    hide Having;
    issues := [];
    for n := 0 to |ordered|
      invariant forall i :: i in issues <==> i.RecordIdDuplicate? && i.id in ordered[..n] && |Having(IdOf, rs, i.id)| > 1
    {
      assert ordered[..n + 1] == ordered[..n] + [ordered[n]];
      assert ordered[n] in ordered;
      if |members[ordered[n]]| > 1 {
        issues := issues + [RecordIdDuplicate(ordered[n])];
      }
    }
    assert ordered[..|ordered|] == ordered;
  }

  lemma MultipleOccurs(rs: seq<Record>)
    ensures forall id :: |Having(IdOf, rs, id)| > 1 ==> Occurs(IdOf, rs, id)
  {
    forall id | |Having(IdOf, rs, id)| > 1
      ensures Occurs(IdOf, rs, id)
    {
      assert Having(IdOf, rs, id)[0] in Having(IdOf, rs, id);
    }
  }

  method ValidateAssignmentCoverage(rs: seq<Record>, groups: seq<string>, manifest: seq<string>, asg: Assignments)
    returns (issues: seq<Issue>)
    requires forall g :: g in groups <==> Occurs(GroupOf, rs, g)
    requires forall g :: g in manifest <==> g in asg
    ensures forall i :: i in issues <==> (i.GroupUnassigned? || i.GroupUnknown?) && Reports(i, rs, asg)
  {
    issues := [];
    var ordered := SortBy(Codes, groups);
    SortMembers(Codes, groups);
    for n := 0 to |ordered|
      invariant forall i :: i in issues <==> i.GroupUnassigned? && i.group in ordered[..n] && i.group !in asg
    {
      assert ordered[..n + 1] == ordered[..n] + [ordered[n]];
      if ordered[n] !in asg {
        issues := issues + [GroupUnassigned(ordered[n])];
      }
    }
    assert ordered[..|ordered|] == ordered;
    var declared := SortBy(Codes, manifest);
    SortMembers(Codes, manifest);
    for n := 0 to |declared|
      invariant forall i :: i in issues
                       <==> || (i.GroupUnassigned? && i.group in groups && i.group !in asg)
                            || (i.GroupUnknown? && i.group in declared[..n] && i.group !in groups)
    {
      assert declared[..n + 1] == declared[..n] + [declared[n]];
      if declared[n] !in groups {
        issues := issues + [GroupUnknown(declared[n])];
      }
    }
    assert declared[..|declared|] == declared;
  }

  method ValidateIdentityTopology(kind: IdentityKind, rs: seq<Record>, asg: Assignments) returns (issues: seq<Issue>)
    ensures forall i :: i in issues <==> ((i.CrossesGroup? || i.CrossesSplit?) && i.kind == kind && Reports(i, rs, asg))
  {
    hide GroupsDiffer, SplitsDiffer, GroupOf, Distinct, ListsCrossings, Reports, CrossingReported;
    var f := (r: Record) => IdentityOf(kind, r);
    var keys, members := GroupBy(f, rs);
    var ordered := SortBy(Codes, keys);
    SortMembers(Codes, keys);
    issues := [];
    NoCrossings(kind, f, rs, asg, ordered[..0]);
    for n := 0 to |ordered|
      invariant ListsCrossings(issues, kind, f, rs, asg, ordered[..n])
    {
      assert ordered[..n + 1] == ordered[..n] + [ordered[n]];
      assert ordered[n] in ordered;
      var records := members[ordered[n]];
      OneIdentity(issues, kind, f, rs, asg, ordered[..n], ordered[n]);
      if |GroupSet(records)| > 1 {
        issues := issues + [CrossesGroup(kind, ordered[n])];
      }
      if |SplitSet(records, asg)| > 1 {
        issues := issues + [CrossesSplit(kind, ordered[n])];
      }
    }
    assert ordered[..|ordered|] == ordered;
    CrossingsAreListed(kind, f, rs, asg, ordered);
    AllCrossings(issues, kind, f, rs, asg, ordered);
  }

  /** The issues are the crossings of the listed identities. */
  ghost predicate ListsCrossings(issues: seq<Issue>, kind: IdentityKind, f: Record -> string, rs: seq<Record>, asg: Assignments,
                                 identities: seq<string>)
  {
    forall i :: i in issues <==> ((i.CrossesGroup? || i.CrossesSplit?) && i.kind == kind && i.identity in identities
                                  && CrossingReported(i, f, rs, asg))
  }

  lemma NoCrossings(kind: IdentityKind, f: Record -> string, rs: seq<Record>, asg: Assignments, identities: seq<string>)
    requires identities == []
    ensures ListsCrossings([], kind, f, rs, asg, identities)
  {
  }

  lemma OneIdentity(issues: seq<Issue>, kind: IdentityKind, f: Record -> string, rs: seq<Record>, asg: Assignments,
                    identities: seq<string>, x: string)
    requires ListsCrossings(issues, kind, f, rs, asg, identities)
    ensures var records := Having(f, rs, x);
            var groups := if |GroupSet(records)| > 1 then issues + [CrossesGroup(kind, x)] else issues;
            var all := if |SplitSet(records, asg)| > 1 then groups + [CrossesSplit(kind, x)] else groups;
            ListsCrossings(all, kind, f, rs, asg, identities + [x])
  {
    hide GroupsDiffer, SplitsDiffer, GroupOf, Having, GroupSet, SplitSet;
    GroupSetSize(Having(f, rs, x));
    SplitSetSize(Having(f, rs, x), asg);
    assert forall y :: y in identities + [x] <==> y in identities || y == x;
  }

  lemma AllCrossings(issues: seq<Issue>, kind: IdentityKind, f: Record -> string, rs: seq<Record>, asg: Assignments, ordered: seq<string>)
    requires ListsCrossings(issues, kind, f, rs, asg, ordered)
    requires forall i: Issue :: (i.CrossesGroup? || i.CrossesSplit?) && i.kind == kind ==>
               (Reports(i, rs, asg) <==> i.identity in ordered && CrossingReported(i, f, rs, asg))
    ensures forall i :: i in issues <==> ((i.CrossesGroup? || i.CrossesSplit?) && i.kind == kind && Reports(i, rs, asg))
  {
    hide Reports, CrossingReported;
  }

  ghost predicate CrossingReported(i: Issue, f: Record -> string, rs: seq<Record>, asg: Assignments)
    requires i.CrossesGroup? || i.CrossesSplit?
  {
    if i.CrossesGroup? then GroupsDiffer(Having(f, rs, i.identity)) else SplitsDiffer(Having(f, rs, i.identity), asg)
  }

  lemma CrossingsAreListed(kind: IdentityKind, f: Record -> string, rs: seq<Record>, asg: Assignments, ordered: seq<string>)
    requires f == (r => IdentityOf(kind, r)) && forall k :: k in ordered <==> Occurs(f, rs, k)
    ensures forall i: Issue :: (i.CrossesGroup? || i.CrossesSplit?) && i.kind == kind ==>
              (Reports(i, rs, asg) <==> i.identity in ordered && CrossingReported(i, f, rs, asg))
  {
  }

  method ValidateSourceTargets(rs: seq<Record>, asg: Assignments) returns (issues: seq<Issue>)
    ensures forall i :: i in issues <==> (i.TargetCrossesSplit? || i.TargetDuplicate?) && Reports(i, rs, asg)
  {
    hide SplitsDiffer, TargetSortKey, Distinct, Reports;
    var keys, members := GroupBy(TargetOf, rs);
    var ordered := SortBy(TargetSortKey, keys);
    SortMembers(TargetSortKey, keys);
    issues := [];
    for n := 0 to |ordered|
      invariant forall i :: i in issues
                       <==> (i.TargetCrossesSplit? || i.TargetDuplicate?) && i.key in ordered[..n] && TargetReported(i, rs, asg)
    {
      assert ordered[..n + 1] == ordered[..n] + [ordered[n]];
      assert ordered[n] in ordered;
      var records := members[ordered[n]];
      if |records| >= 2 {
        SplitSetSize(records, asg);
        if |SplitSet(records, asg)| > 1 {
          issues := issues + [TargetCrossesSplit(ordered[n])];
        } else {
          issues := issues + [TargetDuplicate(ordered[n])];
        }
      }
    }
    assert ordered[..|ordered|] == ordered;
    TargetsAreListed(rs, asg, ordered);
  }

  ghost predicate TargetReported(i: Issue, rs: seq<Record>, asg: Assignments)
    requires i.TargetCrossesSplit? || i.TargetDuplicate?
  {
    |Having(TargetOf, rs, i.key)| > 1 && (i.TargetCrossesSplit? <==> SplitsDiffer(Having(TargetOf, rs, i.key), asg))
  }

  lemma TargetsAreListed(rs: seq<Record>, asg: Assignments, ordered: seq<TargetKey>)
    requires forall k :: k in ordered <==> Occurs(TargetOf, rs, k)
    ensures forall i: Issue :: i.TargetCrossesSplit? || i.TargetDuplicate? ==>
              (Reports(i, rs, asg) <==> i.key in ordered && TargetReported(i, rs, asg))
  {
    hide SplitsDiffer;
    forall i: Issue | (i.TargetCrossesSplit? || i.TargetDuplicate?) && Reports(i, rs, asg)
      ensures i.key in ordered
    {
      var r := Having(TargetOf, rs, i.key)[0];
      assert r in rs && TargetOf(r) == i.key;
    }
  }

  datatype Manifest = Manifest(assignments: seq<(string, Split)>, schemaVersion: string, name: string, version: string)

  /** The manifest validator makes the group ids unique. */
  ghost predicate ValidManifest(m: Manifest) {
    forall i, j :: 0 <= i < j < |m.assignments| ==> m.assignments[i].0 != m.assignments[j].0
  }

  function AssignmentsOf(m: Manifest): Assignments {
    map a | a in m.assignments :: a.0 := SplitOf(m.assignments, a.0)
  }

  function SplitOf(assignments: seq<(string, Split)>, group: string): Split {
    if assignments == [] then Train
    else if assignments[|assignments| - 1].0 == group then assignments[|assignments| - 1].1
    else SplitOf(assignments[..|assignments| - 1], group)
  }

  function GroupIdOf(a: (string, Split)): string { a.0 }

  method Validate(rs: seq<Record>, manifest: Manifest) returns (issues: seq<Issue>)
    ensures forall i :: i in issues <==> Reports(i, rs, AssignmentsOf(manifest))
  {
    hide Having, GroupsDiffer, SplitsDiffer, Distinct;
    var asg := AssignmentsOf(manifest);
    var groups, byGroup := GroupBy(GroupOf, rs);
    var ids := ValidateRecordIds(rs);
    var coverage := ValidateAssignmentCoverage(rs, groups, Map(GroupIdOf, manifest.assignments), asg);
    var families := ValidateIdentityTopology(SourceFamily, rs, asg);
    var contents := ValidateIdentityTopology(ContentHash, rs, asg);
    var documents := ValidateIdentityTopology(DocumentId, rs, asg);
    var targets := ValidateSourceTargets(rs, asg);
    issues := ids + coverage + families + contents + documents + targets;
    forall i
      ensures i in issues <==> Reports(i, rs, asg)
    {
      if i.RecordIdDuplicate? {
        TwoInGroup(IdOf, rs, i.id);
      }
    }
  }

  // ----- what acceptance means -----

  predicate Accepts(issues: seq<Issue>) {
    forall i :: i in issues ==> !IsError(i)
  }

  function Identity(kind: IdentityKind): Record -> string {
    r => IdentityOf(kind, r)
  }

  /** Ids are unique, groups assigned, every identity stays in one group, and no target is claimed twice. */
  ghost predicate Separated(rs: seq<Record>, asg: Assignments) {
    && (forall i, j :: 0 <= i < j < |rs| ==> rs[i].id != rs[j].id)
    && (forall r :: r in rs ==> GroupOf(r) in asg)
    && (forall kind, a, b :: a in rs && b in rs && IdentityOf(kind, a) == IdentityOf(kind, b) ==> GroupOf(a) == GroupOf(b))
    && (forall i, j :: 0 <= i < j < |rs| ==> TargetOf(rs[i]) != TargetOf(rs[j]))
  }

  ghost predicate NoError(rs: seq<Record>, asg: Assignments) {
    forall i: Issue :: IsError(i) ==> !Reports(i, rs, asg)
  }

  lemma SeparatedReportsNothing(rs: seq<Record>, asg: Assignments)
    requires Separated(rs, asg)
    ensures NoError(rs, asg)
  {
    forall i: Issue | IsError(i)
      ensures !Reports(i, rs, asg)
    {
      match i
      case RecordIdDuplicate(id) =>
      case GroupUnassigned(g) =>
      case CrossesGroup(kind, x) =>
      case CrossesSplit(kind, x) =>
      case TargetCrossesSplit(k) => TwoInGroup(TargetOf, rs, k);
      case TargetDuplicate(k) => TwoInGroup(TargetOf, rs, k);
    }
  }

  lemma NothingReportedIsSeparated(rs: seq<Record>, asg: Assignments)
    requires NoError(rs, asg)
    ensures Separated(rs, asg)
  {
    hide Reports;
    forall i, j | 0 <= i < j < |rs|
      ensures rs[i].id != rs[j].id && TargetOf(rs[i]) != TargetOf(rs[j])
    {
      assert !Reports(RecordIdDuplicate(rs[i].id), rs, asg);
      assert !Reports(TargetDuplicate(TargetOf(rs[i])), rs, asg) && !Reports(TargetCrossesSplit(TargetOf(rs[i])), rs, asg);
      PairIsReported(rs, asg, i, j);
    }
    forall r | r in rs
      ensures GroupOf(r) in asg
    {
      assert !Reports(GroupUnassigned(GroupOf(r)), rs, asg);
      UnassignedIsReported(rs, asg, r);
    }
    forall kind, a, b | a in rs && b in rs && IdentityOf(kind, a) == IdentityOf(kind, b)
      ensures GroupOf(a) == GroupOf(b)
    {
      assert !Reports(CrossesGroup(kind, IdentityOf(kind, a)), rs, asg);
      CrossingIsReported(rs, asg, kind, a, b);
    }
  }

  lemma PairIsReported(rs: seq<Record>, asg: Assignments, i: nat, j: nat)
    requires i < j < |rs|
    ensures rs[i].id == rs[j].id ==> Reports(RecordIdDuplicate(rs[i].id), rs, asg)
    ensures TargetOf(rs[i]) == TargetOf(rs[j])
        ==> Reports(TargetDuplicate(TargetOf(rs[i])), rs, asg) || Reports(TargetCrossesSplit(TargetOf(rs[i])), rs, asg)
  {
    TwoInGroup(TargetOf, rs, TargetOf(rs[i]));
  }

  lemma UnassignedIsReported(rs: seq<Record>, asg: Assignments, r: Record)
    requires r in rs
    ensures GroupOf(r) !in asg ==> Reports(GroupUnassigned(GroupOf(r)), rs, asg)
  {
  }

  lemma CrossingIsReported(rs: seq<Record>, asg: Assignments, kind: IdentityKind, a: Record, b: Record)
    requires a in rs && b in rs && IdentityOf(kind, a) == IdentityOf(kind, b)
    ensures GroupOf(a) != GroupOf(b) ==> Reports(CrossesGroup(kind, IdentityOf(kind, a)), rs, asg)
  {
  }

  /** The validator accepts exactly the separated record lists. */
  lemma AcceptsExactly(rs: seq<Record>, asg: Assignments, issues: seq<Issue>)
    requires forall i :: i in issues <==> Reports(i, rs, asg)
    ensures Accepts(issues) <==> Separated(rs, asg)
  {
    if Separated(rs, asg) {
      SeparatedReportsNothing(rs, asg);
    }
    if Accepts(issues) {
      NothingReportedIsSeparated(rs, asg);
    }
  }

  // ----- no leakage -----

  ghost predicate Shares(a: Record, b: Record) {
    exists kind :: IdentityOf(kind, a) == IdentityOf(kind, b)
  }

  /** Each record shares its family, its content hash or its document id with the next. */
  ghost predicate SharedChain(rs: seq<Record>, chain: seq<Record>) {
    && chain != [] && (forall r :: r in chain ==> r in rs)
    && (forall i :: 0 < i < |chain| ==> Shares(chain[i - 1], chain[i]))
  }

  /** Two records joined by such a chain are in one split group, hence in one split. */
  lemma {:induction false} ChainStaysInSplit(rs: seq<Record>, asg: Assignments, chain: seq<Record>)
    requires Separated(rs, asg) && SharedChain(rs, chain)
    ensures var a, b := chain[0], chain[|chain| - 1];
            GroupOf(a) == GroupOf(b) && GroupOf(a) in asg && asg[GroupOf(a)] == asg[GroupOf(b)]
  {
    var n := |chain| - 1;
    assert chain[0] in chain;
    if n > 0 {
      assert forall r :: r in chain[..n] ==> r in chain;
      ChainStaysInSplit(rs, asg, chain[..n]);
      assert chain[n - 1] in chain && chain[n] in chain && Shares(chain[n - 1], chain[n]);
    }
  }

  /** The group rule subsumes the split rule: the validator never reports only the latter. */
  lemma CrossingSplitCrossesGroup(kind: IdentityKind, x: string, rs: seq<Record>, asg: Assignments)
    requires Reports(CrossesSplit(kind, x), rs, asg)
    ensures Reports(CrossesGroup(kind, x), rs, asg)
  {
  }

  function IdKey(r: Record): Key { Codes(r.id) }

  lemma SeparatedIds(rs: seq<Record>, asg: Assignments, x: Record, y: Record)
    requires Separated(rs, asg) && x in rs && y in rs && x.id == y.id
    ensures x == y
  {
    var i :| 0 <= i < |rs| && rs[i] == x;
    var j :| 0 <= j < |rs| && rs[j] == y;
  }

  /** `splits` gives the first records of the list their splits, and no other id any. */
  ghost predicate Resolved(rs: seq<Record>, asg: Assignments, splits: map<string, Split>) {
    && (forall x :: x in rs && GroupOf(x) in asg ==> x.id in splits && splits[x.id] == asg[GroupOf(x)])
    && (forall id :: id in splits ==> Occurs(IdOf, rs, id))
  }

  lemma ResolveOne(rs: seq<Record>, asg: Assignments, ordered: seq<Record>, i: nat, splits: map<string, Split>)
    requires Separated(rs, asg) && (forall x :: x in ordered <==> x in rs)
    requires i < |ordered| && Resolved(ordered[..i], asg, splits) && GroupOf(ordered[i]) in asg
    ensures Resolved(ordered[..i + 1], asg, splits[ordered[i].id := asg[GroupOf(ordered[i])]])
  {
    var r := ordered[i];
    assert ordered[..i + 1] == ordered[..i] + [r];
    assert r in ordered;
    forall x | x in ordered[..i] && x.id == r.id
      ensures x == r
    {
      assert x in ordered;
      SeparatedIds(rs, asg, x, r);
    }
    hide Separated, Occurs;
    var extended := splits[r.id := asg[GroupOf(r)]];
    forall x | x in ordered[..i + 1] && GroupOf(x) in asg
      ensures x.id in extended && extended[x.id] == asg[GroupOf(x)]
    {
      assert x in ordered[..i] || x == r;
    }
    forall id | id in extended
      ensures Occurs(IdOf, ordered[..i + 1], id)
    {
      OccursStep(IdOf, ordered[..i], r, id);
    }
  }

  /** The split of every record id, if the validator accepts. */
  method ResolveRecordSplits(rs: seq<Record>, manifest: Manifest) returns (r: Result<map<string, Split>, seq<Issue>>)
    ensures r.Success? <==> Separated(rs, AssignmentsOf(manifest))
    ensures r.Success? ==> Resolved(rs, AssignmentsOf(manifest), r.value)
  {
    hide Reports, Resolved, SortBy, AssignmentsOf;
    var issues := Validate(rs, manifest);
    var asg := AssignmentsOf(manifest);
    AcceptsExactly(rs, asg, issues);
    if !Accepts(issues) {
      return Failure(issues);
    }
    var ordered := SortBy(IdKey, rs);
    SortMembers(IdKey, rs);
    assert forall x :: x in ordered ==> GroupOf(x) in asg;
    hide Separated;
    var splits: map<string, Split> := map[];
    NothingResolved(ordered[..0], asg);
    for i := 0 to |ordered|
      invariant Resolved(ordered[..i], asg, splits)
    {
      ResolveOne(rs, asg, ordered, i, splits);
      assert ordered[i] in ordered;
      splits := splits[ordered[i].id := asg[GroupOf(ordered[i])]];
    }
    assert ordered[..|ordered|] == ordered;
    ResolvedSame(ordered, rs, asg, splits);
    return Success(splits);
  }

  lemma NothingResolved(rs: seq<Record>, asg: Assignments)
    requires rs == []
    ensures Resolved(rs, asg, map[])
  {
  }

  lemma ResolvedSame(a: seq<Record>, b: seq<Record>, asg: Assignments, splits: map<string, Split>)
    requires Resolved(a, asg, splits) && forall x :: x in a <==> x in b
    ensures Resolved(b, asg, splits)
  {
    forall id | id in splits
      ensures Occurs(IdOf, b, id)
    {
      assert Occurs(IdOf, a, id);
    }
  }

  lemma {:induction false} LastAssignment(assignments: seq<(string, Split)>, i: nat)
    requires i < |assignments|
    requires forall a, b :: 0 <= a < b < |assignments| ==> assignments[a].0 != assignments[b].0
    ensures SplitOf(assignments, assignments[i].0) == assignments[i].1
  {
    var n := |assignments| - 1;
    if i < n {
      LastAssignment(assignments[..n], i);
    }
  }

  /** With unique group ids the dictionary of assignments says what the manifest says. */
  lemma AssignmentsAreTheManifest(m: Manifest)
    requires ValidManifest(m)
    ensures forall i :: 0 <= i < |m.assignments| ==>
              m.assignments[i].0 in AssignmentsOf(m) && AssignmentsOf(m)[m.assignments[i].0] == m.assignments[i].1
  {
    forall i | 0 <= i < |m.assignments|
      ensures m.assignments[i].0 in AssignmentsOf(m) && AssignmentsOf(m)[m.assignments[i].0] == m.assignments[i].1
    {
      assert m.assignments[i] in m.assignments;
      LastAssignment(m.assignments, i);
    }
  }
}
