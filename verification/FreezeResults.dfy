/** What freezing and verifying promise together. */
module FreezeResults {
  import opened Basics
  import opened Sorting
  import opened Splits
  import opened Gold
  import opened GoldHashing
  import opened Freeze

  // ----- splitting and recombining -----

  lemma InSplitOfSplit(d: Dataset, s: Split)
    ensures AllIn(SplitDataset(d, s).cases, s)
    ensures InSplit(SplitDataset(d, s).cases, s) == SplitDataset(d, s).cases
  {
    SortMembers(DocumentKey, InSplit(d.cases, s));
    AllInIsInSplit(SplitDataset(d, s).cases, s);
  }

  lemma {:induction false} AllInIsInSplit(cases: seq<Case>, s: Split)
    requires AllIn(cases, s)
    ensures InSplit(cases, s) == cases
  {
    if cases != [] {
      assert cases[0] in cases;
      assert forall c :: c in cases[1..] ==> c in cases;
      AllInIsInSplit(cases[1..], s);
    }
  }

  /** The three splits of a case list are a partition of it. */
  lemma SplitsPartition(cases: seq<Case>)
    ensures multiset(InSplit(cases, Train) + InSplit(cases, Dev) + InSplit(cases, Test)) == multiset(cases)
  {
    var all := InSplit(cases, Train) + InSplit(cases, Dev) + InSplit(cases, Test);
    forall c: Case
      ensures multiset(all)[c] == multiset(cases)[c]
    {
      CountInSplit(cases, Train, c);
      CountInSplit(cases, Dev, c);
      CountInSplit(cases, Test, c);
      assert multiset(all) == multiset(InSplit(cases, Train)) + multiset(InSplit(cases, Dev)) + multiset(InSplit(cases, Test));
    }
  }

  lemma CombinedIsPartition(d: Dataset)
    ensures multiset(Combined(SplitDatasets(d))) == multiset(d.cases)
  {
    var a, b, c := InSplit(d.cases, Train), InSplit(d.cases, Dev), InSplit(d.cases, Test);
    SplitsPartition(d.cases);
    CasesOrNone(d, Train);
    CasesOrNone(d, Dev);
    CasesOrNone(d, Test);
    hide Present, InSplit, SplitDataset, SplitDatasets;
    var x, y, z := CasesOf(d, Train), CasesOf(d, Dev), CasesOf(d, Test);
    assert Combined(SplitDatasets(d)) == x + y + z;
    assert multiset(x + y + z) == multiset(x) + multiset(y) + multiset(z);
    assert multiset(a + b + c) == multiset(a) + multiset(b) + multiset(c);
  }

  function CasesOf(d: Dataset, s: Split): seq<Case> {
    if s in SplitDatasets(d) then SplitDatasets(d)[s].cases else []
  }

  lemma CasesOrNone(d: Dataset, s: Split)
    ensures multiset(CasesOf(d, s)) == multiset(InSplit(d.cases, s))
    ensures s in SplitDatasets(d) <==> InSplit(d.cases, s) != []
  {
    HasSplitDecided(d.cases);
    SortPermutes(DocumentKey, InSplit(d.cases, s));
  }

  /** Splitting and recombining restores the document-sorted corpus. */
  lemma RecombiningRestores(rules: Rules, d: Dataset)
    requires ValidDataset(rules, d)
    ensures CombineSplits(d.name, SplitDatasets(d)).cases == SortBy(DocumentKey, d.cases)
    ensures DistinctDocuments(Combined(SplitDatasets(d)))
  {
    CombinedIsPartition(d);
    DocumentKeysIdentify(rules, d);
    DistinctDocumentsPermuted(d.cases, Combined(SplitDatasets(d)));
    hide ValidDataset, DocumentKey, Combined, SplitDatasets;
    SortForgetsOrder(DocumentKey, d.cases, Combined(SplitDatasets(d)));
  }

  lemma DistinctDocumentsPermuted(a: seq<Case>, b: seq<Case>)
    requires DistinctDocuments(a) && multiset(a) == multiset(b)
    ensures DistinctDocuments(b)
  {
    MembersOfMultiset(a, b);
    forall i, j | 0 <= i < j < |b|
      ensures b[i].documentId != b[j].documentId
    {
      CountedOnce(a, b[i]);
      assert b == b[..i] + [b[i]] + b[i + 1..j] + [b[j]] + b[j + 1..];
      assert b[i] in a && b[j] in a;
      var k :| 0 <= k < |a| && a[k] == b[i];
      var l :| 0 <= l < |a| && a[l] == b[j];
      assert k != l;
    }
  }

  lemma {:induction false} CountedOnce(a: seq<Case>, c: Case)
    requires DistinctDocuments(a)
    ensures multiset(a)[c] <= 1
  {
    if a != [] {
      var n := |a| - 1;
      CountedOnce(a[..n], c);
      assert a == a[..n] + [a[n]];
      forall x | x in a[..n]
        ensures x != a[n]
      {
        var i :| 0 <= i < n && a[..n][i] == x;
        assert a[i].documentId != a[n].documentId;
      }
    }
  }

  // ----- the manifest of a release -----

  lemma CountsOfSplit(d: Dataset, s: Split)
    ensures CountsOf(SplitDataset(d, s))
         == Counts(|InSplit(d.cases, s)|, Total(ScopeCount, InSplit(d.cases, s)), Total(AnnotationCount, InSplit(d.cases, s)))
  {
    SortMembers(DocumentKey, InSplit(d.cases, s));
    TotalSorted(ScopeCount, DocumentKey, InSplit(d.cases, s));
    TotalSorted(AnnotationCount, DocumentKey, InSplit(d.cases, s));
  }

  lemma CountsOfArtifact(d: Dataset, s: Split)
    ensures ArtifactCounts(OptionalArtifact(SplitDatasets(d), s)) == SplitCounts(d, s)
  {
    hide CountsOf, SplitHash;
    CasesOrNone(d, s);
    CountsOfSplit(d, s);
  }

  function SplitCounts(d: Dataset, s: Split): Counts {
    Counts(|InSplit(d.cases, s)|, Total(ScopeCount, InSplit(d.cases, s)), Total(AnnotationCount, InSplit(d.cases, s)))
  }

  lemma SplitCountsSum(d: Dataset)
    ensures CountsOf(d) == AddCounts(SplitCounts(d, Train), AddCounts(SplitCounts(d, Dev), SplitCounts(d, Test)))
  {
    hide Total, InSplit;
    TotalBySplit(ScopeCount, d.cases);
    TotalBySplit(AnnotationCount, d.cases);
    TotalBySplit(One, d.cases);
    TotalOne(d.cases);
    TotalOne(InSplit(d.cases, Train));
    TotalOne(InSplit(d.cases, Dev));
    TotalOne(InSplit(d.cases, Test));
  }

  lemma BuiltCounts(d: Dataset, version: string, splitManifest: Manifest, p: Provenance, now: int)
    ensures var m := BuildManifest(d, version, splitManifest, p, now);
            m.counts == CountsOf(d) && m.train == OptionalArtifact(SplitDatasets(d), Train)
            && m.dev == OptionalArtifact(SplitDatasets(d), Dev) && m.test == OptionalArtifact(SplitDatasets(d), Test)
  {
    hide SplitDatasets, OptionalArtifact, CorpusHash, HashFromSplits, CountsOf, SplitManifestHash;
  }

  /** Per-split counts sum to the totals. */
  lemma CountsSum(d: Dataset, version: string, splitManifest: Manifest, p: Provenance, now: int)
    ensures var m := BuildManifest(d, version, splitManifest, p, now); m.counts == SumCounts(m)
  {
    hide OptionalArtifact, SplitDatasets, BuildManifest, SplitCounts, CountsOf, AddCounts, ArtifactCounts;
    BuiltCounts(d, version, splitManifest, p, now);
    SplitCountsSum(d);
    CountsOfArtifact(d, Train);
    CountsOfArtifact(d, Dev);
    CountsOfArtifact(d, Test);
  }

  lemma SplitHashOfSplit(d: Dataset, s: Split)
    ensures SplitHash(SplitDataset(d, s), s) == SplitHash(d, s)
  {
    InSplitOfSplit(d, s);
    SortSorts(DocumentKey, InSplit(d.cases, s));
    SortedIsFixed(DocumentKey, SplitDataset(d, s).cases);
    hide SortBy, InSplit, DocumentKey, CanonicalCase;
  }

  lemma HashListOfSplits(d: Dataset, hashes: map<Split, Digest>)
    requires forall s: Split :: s in hashes <==> HasSplit(d.cases, s)
    requires forall s: Split :: s in hashes ==> hashes[s] == SplitHash(d, s)
    ensures HashFromSplits(hashes) == DatasetHash(d)
  {
    hide SplitHash, HasSplit;
    var train, dev, test := if Train in hashes then [Train] else [], if Dev in hashes then [Dev] else [], if Test in hashes then [Test] else [];
    assert Present(d.cases) == train + dev + test;
    SplitHashesAppend(d, train + dev, test);
    SplitHashesAppend(d, train, dev);
    assert SplitHashes(d, train) == if Train in hashes then [(Train, hashes[Train])] else [];
    assert SplitHashes(d, dev) == if Dev in hashes then [(Dev, hashes[Dev])] else [];
    assert SplitHashes(d, test) == if Test in hashes then [(Test, hashes[Test])] else [];
  }

  lemma SplitHashesAppend(d: Dataset, a: seq<Split>, b: seq<Split>)
    ensures SplitHashes(d, a + b) == SplitHashes(d, a) + SplitHashes(d, b)
  {
    hide SplitHash;
  }

  /** The dataset hash in the manifest, built from the split artifacts, is the hash of the whole dataset. */
  lemma ManifestCarriesDatasetHash(d: Dataset, version: string, splitManifest: Manifest, p: Provenance, now: int)
    ensures BuildManifest(d, version, splitManifest, p, now).datasetHash == DatasetHash(d)
  {
    var splits := SplitDatasets(d);
    var hashes := map s | s in splits :: ArtifactOf(s, splits[s]).contentHash;
    HasSplitDecided(d.cases);
    forall s: Split
      ensures s in hashes <==> HasSplit(d.cases, s)
      ensures s in hashes ==> hashes[s] == SplitHash(d, s)
    {
      CasesOrNone(d, s);
      SplitHashOfSplit(d, s);
    }
    HashListOfSplits(d, hashes);
    hide HashFromSplits, SplitHash, DatasetHash;
  }

  // ----- freeze, then verify -----

  lemma CandidateFiles(splits: map<Split, Dataset>, m: FrozenManifest, s: Split)
    ensures var files := Candidate(splits, m);
            && MANIFEST_FILENAME in files && files[MANIFEST_FILENAME] == ManifestFile(m)
            && (FileName(s) in files <==> s in splits) && (s in splits ==> files[FileName(s)] == DatasetFile(splits[s]))
  {
    hide FileName;
    FileNamesDiffer(s, Train);
    FileNamesDiffer(s, Dev);
    FileNamesDiffer(s, Test);
    FileNamesDiffer(Train, Dev);
    FileNamesDiffer(Train, Test);
    FileNamesDiffer(Dev, Test);
  }

  lemma SplitDatasetIsValid(rules: Rules, d: Dataset, s: Split)
    requires ValidDataset(rules, d) && s in SplitDatasets(d)
    ensures ValidDataset(rules, SplitDataset(d, s)) && SplitDatasets(d)[s] == SplitDataset(d, s)
    ensures SplitDataset(d, s).cases != []
  {
    hide ValidCase, SplitDataset, InSplit, SortBy, Present;
    CasesOrNone(d, s);
    SplitIsDistinct(d, s);
    SplitCases(d, s);
    SplitKeepsVersions(d, s);
    ValidPart(rules, d, SplitDataset(d, s));
  }

  lemma SplitCases(d: Dataset, s: Split)
    ensures forall c :: c in SplitDataset(d, s).cases ==> c in d.cases
    ensures InSplit(d.cases, s) != [] ==> SplitDataset(d, s).cases != []
  {
    SortMembers(DocumentKey, InSplit(d.cases, s));
    hide SortBy;
  }

  /** A dataset made of some of the cases of a valid one is valid. */
  lemma ValidPart(rules: Rules, d: Dataset, e: Dataset)
    requires ValidDataset(rules, d) && e.name == d.name && e.schemaVersion == d.schemaVersion && e.cases != []
    requires (forall c :: c in e.cases ==> c in d.cases) && DistinctDocuments(e.cases)
    ensures ValidDataset(rules, e)
  {
    hide ValidCase;
  }

  lemma SplitIsDistinct(d: Dataset, s: Split)
    requires DistinctDocuments(d.cases)
    ensures DistinctDocuments(SplitDataset(d, s).cases)
  {
    SortPermutes(DocumentKey, InSplit(d.cases, s));
    InSplitDistinct(d.cases, s);
    DistinctDocumentsPermuted(InSplit(d.cases, s), SplitDataset(d, s).cases);
  }

  lemma {:induction false} InSplitDistinct(cases: seq<Case>, s: Split)
    requires DistinctDocuments(cases)
    ensures DistinctDocuments(InSplit(cases, s))
  {
    if cases != [] {
      assert DistinctDocuments(cases[1..]);
      InSplitDistinct(cases[1..], s);
      forall c | c in cases[1..]
        ensures c.documentId != cases[0].documentId
      {
        var i :| 0 <= i < |cases[1..]| && cases[1..][i] == c;
        assert cases[0].documentId != cases[i + 1].documentId;
      }
    }
  }

  lemma CandidateLoads(rules: Rules, d: Dataset, m: FrozenManifest, s: Split)
    requires ValidDataset(rules, d) && m.ArtifactFor(s) == OptionalArtifact(SplitDatasets(d), s)
    ensures Loaded(rules, m, Candidate(SplitDatasets(d), m), s)
         == if s in SplitDatasets(d) then Some(SplitDatasets(d)[s]) else None
  {
    hide ValidDataset, SplitHash, CountsOf, Candidate, SplitDataset, SplitDatasets, FileName;
    CandidateFiles(SplitDatasets(d), m, s);
    if s in SplitDatasets(d) {
      SplitDatasetIsValid(rules, d, s);
    }
  }

  lemma FrozenSplitIsConsistent(rules: Rules, d: Dataset, m: FrozenManifest, s: Split)
    requires ValidDataset(rules, d) && m.name == d.name && m.goldSchema == d.schemaVersion
    requires m.ArtifactFor(s) == OptionalArtifact(SplitDatasets(d), s)
    ensures SplitConsistent(rules, m, Candidate(SplitDatasets(d), m), s)
  {
    CandidateLoads(rules, d, m, s);
    CandidateFiles(SplitDatasets(d), m, s);
    if s in SplitDatasets(d) {
      SplitDatasetIsValid(rules, d, s);
      InSplitOfSplit(d, s);
      SplitKeepsVersions(d, s);
      hide ValidDataset, SplitHash, CountsOf, Candidate, SplitDataset, SplitDatasets, FileName, Loaded, AllIn, SplitConsistent;
      LoadedIsConsistent(rules, m, Candidate(SplitDatasets(d), m), s, SplitDatasets(d)[s]);
    } else {
      hide Candidate, SplitDatasets, FileName;
    }
  }

  lemma LoadedIsConsistent(rules: Rules, m: FrozenManifest, files: Files, s: Split, d: Dataset)
    requires Loaded(rules, m, files, s) == Some(d) && AllIn(d.cases, s)
    requires d.name == m.name && d.schemaVersion == m.goldSchema && m.ArtifactFor(s) == Some(ArtifactOf(s, d))
    ensures SplitConsistent(rules, m, files, s)
  {
    hide Loaded, AllIn, SplitHash, CountsOf;
  }

  lemma SplitKeepsVersions(d: Dataset, s: Split)
    ensures SplitDataset(d, s).name == d.name && SplitDataset(d, s).schemaVersion == d.schemaVersion
  {
  }

  lemma {:induction false} ScopesPositive(rules: Rules, cases: seq<Case>)
    requires cases != [] && forall c :: c in cases ==> ValidCase(rules, c)
    ensures Total(ScopeCount, cases) >= 1
  {
    assert cases[0] in cases;
  }

  lemma ArtifactIsValid(rules: Rules, d: Dataset, s: Split)
    requires ValidDataset(rules, d) && s in SplitDatasets(d)
    ensures ValidArtifact(OptionalArtifact(SplitDatasets(d), s).value, s)
  {
    SplitDatasetIsValid(rules, d, s);
    ScopesPositive(rules, SplitDataset(d, s).cases);
    hide ValidCase, SplitHash;
  }

  /** The manifest of a valid dataset passes its own validator. */
  lemma BuiltManifestIsValid(rules: Rules, d: Dataset, version: string, splitManifest: Manifest, p: Provenance, now: int)
    requires ValidDataset(rules, d) && ValidRelease(d.name, version)
    ensures ValidFrozenManifest(BuildManifest(d, version, splitManifest, p, now))
  {
    CountsSum(d, version, splitManifest, p, now);
    forall s | s in SplitDatasets(d)
      ensures ValidArtifact(OptionalArtifact(SplitDatasets(d), s).value, s)
    {
      ArtifactIsValid(rules, d, s);
    }
    assert d.cases[0] in d.cases;
    CasesOrNone(d, d.cases[0].split);
    BuiltArtifacts(d, version, splitManifest, p, now);
    var m := BuildManifest(d, version, splitManifest, p, now);
    BuiltNames(d, version, splitManifest, p, now);
    hide ValidDataset, ValidArtifact, BuildManifest, SplitDatasets, SumCounts, ValidRelease;
    forall s: Split
      ensures m.ArtifactFor(s).Some? ==> ValidArtifact(m.ArtifactFor(s).value, s)
    {
      assert m.ArtifactFor(s) == OptionalArtifact(SplitDatasets(d), s);
    }
    assert m.ArtifactFor(d.cases[0].split).Some?;
    ArtifactsMakeManifest(m, d.cases[0].split);
  }

  lemma BuiltNames(d: Dataset, version: string, splitManifest: Manifest, p: Provenance, now: int)
    ensures var m := BuildManifest(d, version, splitManifest, p, now);
            m.name == d.name && m.version == version && m.goldSchema == d.schemaVersion
  {
  }

  lemma ArtifactsMakeManifest(m: FrozenManifest, s: Split)
    requires m.ArtifactFor(s).Some? && m.counts == SumCounts(m)
    requires ValidRelease(m.name, m.version) && |m.goldSchema| <= 128
    requires forall t: Split :: m.ArtifactFor(t).Some? ==> ValidArtifact(m.ArtifactFor(t).value, t)
    ensures ValidFrozenManifest(m)
  {
    hide FileName, ValidRelease;
    assert m.ArtifactFor(Train) == m.train && m.ArtifactFor(Dev) == m.dev && m.ArtifactFor(Test) == m.test;
  }

  lemma SortedCorpus(d: Dataset, e: Dataset)
    requires e.cases == SortBy(DocumentKey, d.cases)
    ensures CorpusHash(e) == CorpusHash(d)
  {
    SortSorts(DocumentKey, d.cases);
    SortedIsFixed(DocumentKey, e.cases);
    hide DocumentKey, SortBy;
  }

  /** Freezing a valid dataset and verifying the result reports no issue: the release is consistent. */
  lemma FreezeThenVerify(rules: Rules, d: Dataset, version: string, splitManifest: Manifest, p: Provenance, now: int)
    requires ValidDataset(rules, d) && ValidRelease(d.name, version)
    ensures Consistent(rules, Candidate(SplitDatasets(d), BuildManifest(d, version, splitManifest, p, now)))
  {
    var m := BuildManifest(d, version, splitManifest, p, now);
    var files := Candidate(SplitDatasets(d), m);
    BuiltManifestIsValid(rules, d, version, splitManifest, p, now);
    CandidateFiles(SplitDatasets(d), m, Train);
    RecombiningRestores(rules, d);
    SortedCorpus(d, CombineSplits(d.name, SplitDatasets(d)));
    BuiltArtifacts(d, version, splitManifest, p, now);
    hide ValidDataset, Candidate, BuildManifest, SplitConsistent, CorpusHash, HashFromSplits, Combined, ValidFrozenManifest, CombineSplits,
      Loaded, Hashed, SplitDatasets, LoadedSplits, ActualHashes, OptionalArtifact, DistinctDocuments, ValidRelease;
    forall s: Split
      ensures SplitConsistent(rules, m, files, s)
      ensures Loaded(rules, m, files, s) == if s in SplitDatasets(d) then Some(SplitDatasets(d)[s]) else None
    {
      FrozenSplitIsConsistent(rules, d, m, s);
      CandidateLoads(rules, d, m, s);
    }
    LoadedAre(rules, m, files, SplitDatasets(d));
    ActualIsBuilt(rules, d, m, files);
  }

  lemma LoadedAre(rules: Rules, m: FrozenManifest, files: Files, splits: map<Split, Dataset>)
    requires forall s: Split :: Loaded(rules, m, files, s) == if s in splits then Some(splits[s]) else None
    ensures LoadedSplits(rules, m, files) == splits
  {
    hide Loaded;
    forall s | s in splits
      ensures s in {Train, Dev, Test}
    {
      EverySplit(s);
    }
  }

  lemma BuiltArtifacts(d: Dataset, version: string, splitManifest: Manifest, p: Provenance, now: int)
    ensures var m := BuildManifest(d, version, splitManifest, p, now);
            && (forall s: Split :: m.ArtifactFor(s) == OptionalArtifact(SplitDatasets(d), s))
            && m.name == d.name && m.goldSchema == d.schemaVersion && m.sourceHash == CorpusHash(d)
            && m.datasetHash == HashFromSplits(map s | s in SplitDatasets(d) :: ArtifactOf(s, SplitDatasets(d)[s]).contentHash)
  {
    hide SplitDatasets, OptionalArtifact, CorpusHash, HashFromSplits, CountsOf, SplitManifestHash;
  }

  /** The hashes verification computes are those the manifest was built from. */
  lemma ActualIsBuilt(rules: Rules, d: Dataset, m: FrozenManifest, files: Files)
    requires forall s: Split :: SplitConsistent(rules, m, files, s)
    requires forall s: Split :: m.ArtifactFor(s) == OptionalArtifact(SplitDatasets(d), s)
    requires forall s: Split ::
               Loaded(rules, m, files, s) == if s in SplitDatasets(d) then Some(SplitDatasets(d)[s]) else None
    ensures ActualHashes(rules, m, files) == map s | s in SplitDatasets(d) :: ArtifactOf(s, SplitDatasets(d)[s]).contentHash
  {
    hide SplitDatasets, SplitHash, CountsOf, Loaded;
    forall s: Split
      ensures s in {Train, Dev, Test} && (Hashed(rules, m, files, s) <==> s in SplitDatasets(d))
    {
      EverySplit(s);
      assert SplitConsistent(rules, m, files, s);
      assert m.ArtifactFor(s) == OptionalArtifact(SplitDatasets(d), s);
    }
    hide Hashed, SplitConsistent;
  }

  // ----- what a verifying release tells -----

  lemma HashListTells(a: map<Split, Digest>, b: map<Split, Digest>)
    requires HashFromSplits(a) == HashFromSplits(b)
    ensures forall s: Split :: (s in a <==> s in b) && (s in a ==> a[s] == b[s])
  {
    forall s: Split
      ensures (s in a <==> s in b) && (s in a ==> a[s] == b[s])
    {
      ListedHash(a, s);
      ListedHash(b, s);
    }
  }

  lemma ListedHash(a: map<Split, Digest>, s: Split)
    ensures s in a <==> exists h :: (s, h) in HashList(a)
    ensures forall h :: (s, h) in HashList(a) ==> s in a && a[s] == h
  {
    if s in a {
      assert (s, a[s]) in HashList(a);
    }
  }

  /** Two verifying releases with equal dataset hash carry the same semantic cases, split by split. */
  lemma EqualHashSameCases(rules: Rules, a: Files, b: Files, s: Split)
    requires Consistent(rules, a) && Consistent(rules, b)
    requires a[MANIFEST_FILENAME].manifest.datasetHash == b[MANIFEST_FILENAME].manifest.datasetHash
    ensures var x := Loaded(rules, a[MANIFEST_FILENAME].manifest, a, s);
            var y := Loaded(rules, b[MANIFEST_FILENAME].manifest, b, s);
            (x.Some? <==> y.Some?)
            && (x.Some? ==> multiset(CanonicalCases(x.value.cases)) == multiset(CanonicalCases(y.value.cases)))
  {
    var m, n := a[MANIFEST_FILENAME].manifest, b[MANIFEST_FILENAME].manifest;
    HashesOfConsistent(rules, a, s);
    HashesOfConsistent(rules, b, s);
    hide Consistent, CanonicalCases, HashFromSplits, SplitHash, Loaded;
    HashListTells(ActualHashes(rules, m, a), ActualHashes(rules, n, b));
    var x, y := Loaded(rules, m, a, s), Loaded(rules, n, b, s);
    if x.Some? && y.Some? {
      SplitHashDetermines(x.value, y.value, s);
      AllCanonicalIn(x.value.cases, s);
      AllCanonicalIn(y.value.cases, s);
    }
  }

  lemma HashesOfConsistent(rules: Rules, files: Files, s: Split)
    requires Consistent(rules, files)
    ensures var m := files[MANIFEST_FILENAME].manifest;
            && HashFromSplits(ActualHashes(rules, m, files)) == m.datasetHash
            && (Loaded(rules, m, files, s).Some? <==> s in ActualHashes(rules, m, files))
            && (Loaded(rules, m, files, s).Some? ==>
                  && ActualHashes(rules, m, files)[s] == SplitHash(Loaded(rules, m, files, s).value, s)
                  && AllIn(Loaded(rules, m, files, s).value.cases, s))
  {
    var m := files[MANIFEST_FILENAME].manifest;
    hide SplitHash, CountsOf, CorpusHash, Loaded, HashFromSplits;
    EverySplit(s);
    HashedIsLoaded(rules, m, files, s);
    assert SplitConsistent(rules, m, files, s);
  }

  lemma AllCanonicalIn(cases: seq<Case>, s: Split)
    requires AllIn(cases, s)
    ensures InSplit(CanonicalCases(cases), s) == CanonicalCases(cases)
  {
    InSplitCommutes(cases, s);
    AllInIsInSplit(cases, s);
  }

  /** A split file of a verifying release cannot be exchanged for one with other semantic cases. */
  lemma ExchangedSplitIsDetected(rules: Rules, files: Files, s: Split, other: Dataset)
    requires Consistent(rules, files) && Loaded(rules, files[MANIFEST_FILENAME].manifest, files, s).Some?
    requires var d := Loaded(rules, files[MANIFEST_FILENAME].manifest, files, s).value;
             multiset(CanonicalCases(other.cases)) != multiset(CanonicalCases(d.cases))
    ensures !Consistent(rules, files[FileName(s) := DatasetFile(other)])
  {
    var changed := files[FileName(s) := DatasetFile(other)];
    FileNamesDiffer(s, s);
    if Consistent(rules, changed) {
      EqualHashSameCases(rules, files, changed, s);
      StillLoaded(rules, files, s, other);
    }
  }

  lemma StillLoaded(rules: Rules, files: Files, s: Split, other: Dataset)
    requires MANIFEST_FILENAME in files && files[MANIFEST_FILENAME].ManifestFile?
    ensures var changed := files[FileName(s) := DatasetFile(other)];
            changed[MANIFEST_FILENAME] == files[MANIFEST_FILENAME]
            && (Loaded(rules, files[MANIFEST_FILENAME].manifest, changed, s).Some? ==>
                  Loaded(rules, files[MANIFEST_FILENAME].manifest, changed, s).value == other)
  {
    hide ValidDataset;
    FileNamesDiffer(s, s);
  }
}
