/** The JSONL repository: one file, rewritten as the id-sorted image of the record map. */
module ReviewRepository {
  import opened Basics
  import opened Sorting
  import opened ReviewRecords

  datatype Error =
    | CorruptFile | DuplicateInput | IdentityConflict | WriteFailed
    | RecordNotFound | WrongState | Stale | StaleTask | DocumentMissing | SchemaInvalid | ValidationFailed

  type Store = map<string, Record>

  function IdKey(r: Record): Key { Codes(r.id) }

  predicate DistinctIds(rs: seq<Record>) {
    forall i, j :: 0 <= i < j < |rs| ==> rs[i].id != rs[j].id
  }

  /** What the loader accepts: every line a valid record, no id twice. */
  predicate Loadable(file: seq<Record>) {
    DistinctIds(file) && forall r :: r in file ==> ValidRecord(r)
  }

  /** The record map a list of records spells out. */
  function Index(rs: seq<Record>): Store {
    if rs == [] then map[] else Index(rs[..|rs| - 1])[rs[|rs| - 1].id := rs[|rs| - 1]]
  }

  /** The file as every write leaves it. */
  ghost predicate Canonical(file: seq<Record>) {
    DistinctIds(file) && Sorted(IdKey, file)
  }

  lemma {:induction false} IndexHolds(rs: seq<Record>)
    requires DistinctIds(rs)
    ensures forall id :: id in Index(rs) ==> Index(rs)[id] in rs && Index(rs)[id].id == id
    ensures forall r :: r in rs ==> r.id in Index(rs) && Index(rs)[r.id] == r
  {
    if rs != [] {
      var n := |rs| - 1;
      IndexHolds(rs[..n]);
      assert rs == rs[..n] + [rs[n]];
      forall r | r in rs[..n]
        ensures r.id != rs[n].id
      {
        var i :| 0 <= i < n && rs[..n][i] == r;
        assert rs[i] == r;
      }
    }
  }

  lemma SameIndexSameRecords(a: seq<Record>, b: seq<Record>)
    requires DistinctIds(a) && DistinctIds(b) && Index(a) == Index(b)
    ensures multiset(a) == multiset(b)
  {
    IndexHolds(a);
    IndexHolds(b);
    forall r
      ensures multiset(a)[r] == multiset(b)[r]
    {
      CountOne(a, r);
      CountOne(b, r);
      assert r in a <==> r.id in Index(a) && Index(a)[r.id] == r;
      assert r in b <==> r.id in Index(b) && Index(b)[r.id] == r;
    }
  }

  lemma {:induction false} CountOne(rs: seq<Record>, r: Record)
    requires DistinctIds(rs)
    ensures multiset(rs)[r] == if r in rs then 1 else 0
  {
    if rs != [] {
      var n := |rs| - 1;
      CountOne(rs[..n], r);
      assert rs == rs[..n] + [rs[n]];
      forall x | x in rs[..n]
        ensures x.id != rs[n].id
      {
        var i :| 0 <= i < n && rs[..n][i] == x;
        assert rs[i] == x;
      }
    }
  }

  lemma IdKeyIdentifies(rs: seq<Record>)
    requires DistinctIds(rs)
    ensures KeyIdentifies(IdKey, rs)
  {
    IndexHolds(rs);
    forall x, y | x in rs && y in rs && IdKey(x) == IdKey(y)
      ensures x == y
    {
      CodesAreInjective(x.id, y.id);
      assert Index(rs)[x.id] == x && Index(rs)[y.id] == y;
    }
  }

  /** The written file is a function of the record map. */
  lemma FileIsImageOfMap(a: seq<Record>, b: seq<Record>)
    requires Canonical(a) && Canonical(b) && Index(a) == Index(b)
    ensures a == b
  {
    SameIndexSameRecords(a, b);
    IdKeyIdentifies(a);
    SortedIsUnique(IdKey, a, b);
  }

  lemma {:induction false} DistinctByCount(rs: seq<Record>, s: seq<Record>)
    requires DistinctIds(rs) && multiset(rs) == multiset(s)
    ensures DistinctIds(s) && Index(s) == Index(rs) && forall r :: r in s <==> r in rs
  {
    MembersOfMultiset(rs, s);
    IndexHolds(rs);
    forall i, j | 0 <= i < j < |s|
      ensures s[i].id != s[j].id
    {
      TwiceCountsTwice(s, i, j);
      CountOne(rs, s[i]);
      assert s[i] in rs && s[j] in rs;
      assert Index(rs)[s[i].id] == s[i] && Index(rs)[s[j].id] == s[j];
    }
    IndexHolds(s);
    assert Index(s).Keys == Index(rs).Keys;
  }

  lemma SortedImage(rs: seq<Record>)
    requires DistinctIds(rs)
    ensures Canonical(SortBy(IdKey, rs)) && Index(SortBy(IdKey, rs)) == Index(rs)
    ensures forall r :: r in SortBy(IdKey, rs) <==> r in rs
  {
    SortSorts(IdKey, rs);
    SortPermutes(IdKey, rs);
    DistinctByCount(rs, SortBy(IdKey, rs));
  }

  // ----- dictionary assignment -----

  /** Assignment to an insertion-ordered dictionary of records by id. */
  function Put(d: seq<Record>, r: Record): seq<Record> {
    if d == [] then [r] else if d[0].id == r.id then [r] + d[1..] else [d[0]] + Put(d[1..], r)
  }

  lemma {:induction false} PutMembers(d: seq<Record>, r: Record)
    requires DistinctIds(d)
    ensures DistinctIds(Put(d, r))
    ensures forall x :: x in Put(d, r) <==> x == r || (x in d && x.id != r.id)
  {
    if d != [] {
      assert d == [d[0]] + d[1..];
      forall x | x in d[1..]
        ensures x.id != d[0].id
      {
        var i :| 0 <= i < |d[1..]| && d[1..][i] == x;
        assert d[0].id != d[i + 1].id;
      }
      assert DistinctIds(d[1..]);
      PutMembers(d[1..], r);
      var rest := if d[0].id == r.id then d[1..] else Put(d[1..], r);
      var head := if d[0].id == r.id then r else d[0];
      ConsDistinct(head, rest);
    }
  }

  lemma ConsDistinct(x: Record, rs: seq<Record>)
    requires DistinctIds(rs) && forall r :: r in rs ==> r.id != x.id
    ensures DistinctIds([x] + rs)
  {
  }

  lemma PutIndex(d: seq<Record>, r: Record)
    requires DistinctIds(d)
    ensures DistinctIds(Put(d, r)) && Index(Put(d, r)) == Index(d)[r.id := r]
  {
    PutMembers(d, r);
    IndexHolds(d);
    IndexHolds(Put(d, r));
    var after := Put(d, r);
    forall id
      ensures id in Index(after) <==> id in Index(d)[r.id := r]
      ensures id in Index(after) ==> Index(after)[id] == Index(d)[r.id := r][id]
    {
      if id == r.id {
        assert r in after;
      } else if id in Index(d) {
        assert Index(d)[id] in after;
      }
    }
  }

  /** The map after all of `incoming` is stored. */
  ghost predicate Overlaid(before: Store, incoming: seq<Record>, after: Store) {
    && (forall r :: r in incoming ==> r.id in after && after[r.id] == r)
    && (forall id :: id in before && (forall r :: r in incoming ==> r.id != id) ==> id in after && after[id] == before[id])
    && (forall id :: id in after && id !in before ==> exists r :: r in incoming && r.id == id)
  }

  predicate KeepsIdentity(store: Store, r: Record) {
    r.id in store ==> IdentityOf(store[r.id]) == IdentityOf(r)
  }

  class Repository {
    var file: seq<Record>

    constructor (file: seq<Record>)
      ensures this.file == file
    {
      this.file := file;
    }

    /** The loaded dictionary, in id order. */
    method LoadIndex() returns (r: Result<seq<Record>, Error>)
      ensures r.Success? <==> Loadable(file)
      ensures r.Success? ==> Loadable(r.value) && Canonical(r.value) && Index(r.value) == Index(file)
    {
      if !Loadable(file) {
        return Failure(CorruptFile);
      }
      SortedImage(file);
      return Success(SortBy(IdKey, file));
    }

    method Get(id: string) returns (r: Result<Option<Record>, Error>)
      ensures r.Success? <==> Loadable(file)
      ensures r.Success? ==> r.value == if id in Index(file) then Some(Index(file)[id]) else None
    {
      var index := LoadIndex();
      if index.Failure? {
        return Failure(index.error);
      }
      var store := Index(index.value);
      return Success(if id in store then Some(store[id]) else None);
    }

    /** `writeOk` is whether the file system accepts the replacement file. */
    method AtomicWrite(records: seq<Record>, writeOk: bool) returns (ok: bool)
      requires Loadable(records)
      modifies this
      ensures ok == writeOk
      ensures !ok ==> file == old(file)
      ensures ok ==> Loadable(file) && Canonical(file) && Index(file) == Index(records)
    {
      SortedImage(records);
      if writeOk {
        file := SortBy(IdKey, records);
      }
      return writeOk;
    }

    method Save(record: Record, writeOk: bool) returns (r: Result<(), Error>)
      requires ValidRecord(record)
      modifies this
      ensures r.Success? <==> Loadable(old(file)) && KeepsIdentity(Index(old(file)), record) && writeOk
      ensures r.Failure? ==> file == old(file)
      ensures r.Success? ==> Loadable(file) && Canonical(file) && Index(file) == Index(old(file))[record.id := record]
    {
      var current := LoadIndex();
      if current.Failure? {
        return Failure(current.error);
      }
      if !KeepsIdentity(Index(current.value), record) {
        return Failure(IdentityConflict);
      }
      PutIndex(current.value, record);
      PutMembers(current.value, record);
      var ok := AtomicWrite(Put(current.value, record), writeOk);
      return if ok then Success(()) else Failure(WriteFailed);
    }

    method SaveMany(incoming: seq<Record>, writeOk: bool) returns (r: Result<(), Error>)
      requires forall x :: x in incoming ==> ValidRecord(x)
      modifies this
      ensures r.Success?
         <==> Loadable(old(file))
              && (incoming == []
                  || (DistinctIds(incoming) && (forall x :: x in incoming ==> KeepsIdentity(Index(old(file)), x)) && writeOk))
      ensures r.Failure? || incoming == [] ==> file == old(file)
      ensures r.Success? && incoming != []
          ==> Loadable(file) && Canonical(file) && Overlaid(Index(old(file)), incoming, Index(file))
    {
      hide ValidRecord, KeepsIdentity, Index, Put, Canonical, Overlaid, SortBy;
      var current := LoadIndex();
      if current.Failure? {
        return Failure(current.error);
      }
      if incoming == [] {
        return Success(());
      }
      if !DistinctIds(incoming) {
        return Failure(DuplicateInput);
      }
      var merged := current.value;
      NothingOverlaid(Index(file), incoming[..0]);
      for i := 0 to |incoming|
        invariant forall x :: x in incoming[..i] ==> KeepsIdentity(Index(file), x)
        invariant Loadable(merged) && Overlaid(Index(file), incoming[..i], Index(merged))
        invariant file == old(file)
      {
        assert incoming[..i + 1] == incoming[..i] + [incoming[i]];
        assert incoming[i] in incoming;
        if !KeepsIdentity(Index(current.value), incoming[i]) {
          return Failure(IdentityConflict);
        }
        PutIndex(merged, incoming[i]);
        PutMembers(merged, incoming[i]);
        OverlayOne(Index(file), incoming, i, Index(merged));
        merged := Put(merged, incoming[i]);
      }
      assert incoming[..|incoming|] == incoming;
      var ok := AtomicWrite(merged, writeOk);
      return if ok then Success(()) else Failure(WriteFailed);
    }
  }

  lemma NothingOverlaid(store: Store, incoming: seq<Record>)
    requires incoming == []
    ensures Overlaid(store, incoming, store)
  {
  }

  lemma OverlayOne(before: Store, incoming: seq<Record>, i: nat, merged: Store)
    requires i < |incoming| && DistinctIds(incoming) && Overlaid(before, incoming[..i], merged)
    ensures Overlaid(before, incoming[..i + 1], merged[incoming[i].id := incoming[i]])
  {
    var r := incoming[i];
    assert incoming[..i + 1] == incoming[..i] + [r];
    forall x | x in incoming[..i]
      ensures x.id != r.id
    {
      var k :| 0 <= k < i && incoming[..i][k] == x;
      assert incoming[k].id != incoming[i].id;
    }
    assert r in incoming[..i + 1];
    forall id | id in merged[r.id := r] && id !in before
      ensures exists x :: x in incoming[..i + 1] && x.id == id
    {
      if id != r.id {
        var x :| x in incoming[..i] && x.id == id;
        assert x in incoming[..i + 1];
      }
    }
    forall id | id in before && (forall x :: x in incoming[..i + 1] ==> x.id != id)
      ensures id in merged[r.id := r] && merged[r.id := r][id] == before[id]
    {
      assert forall x :: x in incoming[..i] ==> x in incoming[..i + 1];
    }
  }
}
