/** When verification of a release raises an error instead of reporting issues, with files for each way. */
module FreezeFailures {
  import opened Basics
  import opened Splits
  import opened Gold
  import opened GoldHashing
  import opened Freeze
  import opened FreezeResults

  // ----- one document in two splits -----

  /** A dataset of one case, put into a split. */
  function OneCase(c: Case, s: Split): Dataset {
    Dataset("d", GOLD_SCHEMA_VERSION, "", [c.(split := s)], NoMetadata)
  }

  /** One case, released in two splits. */
  function Twice(c: Case): map<Split, Dataset> {
    map[Train := OneCase(c, Train), Dev := OneCase(c, Dev)]
  }

  function TwiceManifest(c: Case): FrozenManifest {
    var splits := Twice(c);
    var n := CountsOf(OneCase(c, Train));
    FrozenManifest("d", "v", GOLD_SCHEMA_VERSION, Provenance("c", "g", "w", "p", "r"), "s", DatasetDigest([]), DatasetDigest([]),
                   HashFromSplits(map s | s in splits :: SplitHash(splits[s], s)),
                   OptionalArtifact(splits, Train), OptionalArtifact(splits, Dev), None, AddCounts(n, n), 0)
  }

  lemma SplitKeepsValidity(rules: Rules, c: Case, s: Split)
    requires ValidCase(rules, c)
    ensures ValidCase(rules, c.(split := s))
  {
    var b := c.(split := s);
    assert forall o :: HasOrder(c, o) ==> HasOrder(b, o);
    assert forall x :: Quotes(c, x) ==> Quotes(b, x);
    hide HasOrder, Quotes, ValidAnnotation, Substantiated, Signature, ValidScope, StrictlyAscending;
    assert forall a :: Grounded(c, a) ==> Grounded(b, a);
    hide Grounded;
  }

  lemma TotalOfOne(f: Case -> nat, c: Case)
    ensures Total(f, [c]) == f(c)
  {
    assert [c][1..] == [];
  }

  lemma OneCaseIsValid(rules: Rules, c: Case, s: Split)
    requires ValidCase(rules, c)
    ensures ValidDataset(rules, OneCase(c, s)) && ValidArtifact(ArtifactOf(s, OneCase(c, s)), s)
    ensures CountsOf(OneCase(c, s)) == Counts(1, |c.scopes|, |c.annotations|)
  {
    SplitKeepsValidity(rules, c, s);
    TotalOfOne(ScopeCount, c.(split := s));
    TotalOfOne(AnnotationCount, c.(split := s));
    assert c.scopes != [];
    hide ValidCase, SplitHash;
  }

  lemma TwiceLoads(rules: Rules, c: Case, s: Split)
    requires ValidCase(rules, c)
    ensures var m := TwiceManifest(c);
            && Loaded(rules, m, Candidate(Twice(c), m), s) == (if s in Twice(c) then Some(Twice(c)[s]) else None)
            && SplitConsistent(rules, m, Candidate(Twice(c), m), s)
  {
    var m := TwiceManifest(c);
    CandidateFiles(Twice(c), m, s);
    if s in Twice(c) {
      OneCaseIsValid(rules, c, s);
      assert Twice(c)[s] == OneCase(c, s) && m.ArtifactFor(s) == Some(ArtifactOf(s, OneCase(c, s)));
      hide ValidDataset, SplitHash, CountsOf, Candidate, FileName, SplitConsistent, TwiceManifest;
      LoadedIsConsistent(rules, m, Candidate(Twice(c), m), s, OneCase(c, s));
    }
  }

  lemma ShortNames()
    ensures ValidRelease("d", "v")
  {
    assert forall c :: c in "d" ==> c == 'd';
    assert forall c :: c in "v" ==> c == 'v';
  }

  lemma TwiceIsReadable(rules: Rules, c: Case)
    requires ValidCase(rules, c)
    ensures var m := TwiceManifest(c); ReadableManifest(Candidate(Twice(c), m)) && Candidate(Twice(c), m)[MANIFEST_FILENAME] == ManifestFile(m)
    ensures var m := TwiceManifest(c); Declared(m, Train) && Declared(m, Dev)
  {
    OneCaseIsValid(rules, c, Train);
    OneCaseIsValid(rules, c, Dev);
    CandidateFiles(Twice(c), TwiceManifest(c), Train);
    ShortNames();
    hide ValidCase, ValidDataset, Candidate, SplitHash, HashFromSplits, ValidRelease;
  }

  /**
   Releasing one valid case in two splits makes verification raise instead of report, although the manifest is
   readable, every split is consistent with it and the dataset hash agrees: nothing short of combining sees the damage.
   */
  lemma SharedDocumentRaises(rules: Rules, c: Case)
    requires ValidCase(rules, c)
    ensures var m, files := TwiceManifest(c), Candidate(Twice(c), TwiceManifest(c));
            && ReadableManifest(files) && files[MANIFEST_FILENAME].manifest == m && Declared(m, Train) && Declared(m, Dev)
            && (forall s: Split :: SplitConsistent(rules, m, files, s))
            && HashFromSplits(ActualHashes(rules, m, files)) == m.datasetHash
            && CombineFails(rules, m, files)
  {
    var m := TwiceManifest(c);
    var files := Candidate(Twice(c), m);
    TwiceIsReadable(rules, c);
    forall s: Split
      ensures Loaded(rules, m, files, s) == if s in Twice(c) then Some(Twice(c)[s]) else None
      ensures SplitConsistent(rules, m, files, s)
    {
      TwiceLoads(rules, c, s);
    }
    hide ValidCase, ReadableManifest, SplitConsistent, Candidate, CountsOf, Loaded;
    LoadedAre(rules, m, files, Twice(c));
    TwiceHashes(rules, c, m, files);
    SharedDocumentRepeats(c);
    assert forall s: Split :: Declared(m, s) ==> s in Twice(c);
  }

  lemma SharedDocumentRepeats(c: Case)
    ensures !DistinctDocuments(Combined(Twice(c)))
  {
    var cases := Combined(Twice(c));
    assert cases[0].documentId == cases[1].documentId;
  }

  lemma TwiceHashes(rules: Rules, c: Case, m: FrozenManifest, files: Files)
    requires m == TwiceManifest(c) && forall s: Split :: SplitConsistent(rules, m, files, s)
    requires forall s: Split :: Loaded(rules, m, files, s) == if s in Twice(c) then Some(Twice(c)[s]) else None
    ensures ActualHashes(rules, m, files) == map s | s in Twice(c) :: SplitHash(Twice(c)[s], s)
  {
    hide Loaded, SplitHash, CountsOf;
    forall s: Split
      ensures s in {Train, Dev, Test} && (Hashed(rules, m, files, s) <==> s in Twice(c))
    {
      EverySplit(s);
      assert SplitConsistent(rules, m, files, s);
    }
    hide Hashed, SplitConsistent, Twice, TwiceManifest;
  }

  /** Whatever the rules, there are files on which verification raises. */
  lemma RaisingHappens(rules: Rules)
    ensures exists files: Files ::
              && ReadableManifest(files) && CombineFails(rules, files[MANIFEST_FILENAME].manifest, files)
              && forall s: Split :: SplitConsistent(rules, files[MANIFEST_FILENAME].manifest, files, s)
  {
    var c := TwoAnnotations(rules, [QUOTED, LAST]);
    TwoAnnotationsIsValid(rules, [QUOTED, LAST]);
    hide ValidCase, SplitConsistent, CombineFails, TwoAnnotations, ReadableManifest, TwiceManifest, Candidate, Twice;
    SharedDocumentRaises(rules, c);
  }

  // ----- which messages can be too long -----

  /** Paths, hashes and quoted strings print at the lengths they have on a usual file system. */
  ghost predicate ShortWording(w: Wording) {
    && (forall name :: |w.place(name)| <= 3968) && (forall d :: |w.digest(d)| <= 100)
    && (forall s :: |w.quoted(s)| <= 10 * |s| + 2)
    && (forall s :: PortableSegment(s) ==> |w.quoted(s)| <= |s| + 2)
  }

  /** An issue that may be too long even so: it quotes the error of reading a file, or counts. */
  predicate QuotesErrorOrCounts(i: ReleaseIssue) {
    i.code == ManifestInvalid || i.code == DatasetSchemaInvalid || i.code == ManifestCountMismatch
  }

  lemma PathIssuesFit(w: Wording, s: Split)
    requires ShortWording(w)
    ensures Fits(UnexpectedIssue(w, s)) && Fits(MissingIssue(w, s)) && Fits(CaseIssue(w, s))
  {
    assert |w.place(FileName(s))| <= 3968 && |SplitName(s)| <= 5;
  }

  lemma HashIssueFits(w: Wording, s: Split, a: Digest, b: Digest)
    requires ShortWording(w)
    ensures Fits(HashIssue(w, s, a, b)) && Fits(DatasetHashIssue(w, a, b)) && Fits(CorpusHashIssue(w, a, b))
  {
    assert |w.place(FileName(s))| <= 3968 && |w.place(MANIFEST_FILENAME)| <= 3968 && |SplitName(s)| <= 5;
    assert |w.digest(a)| <= 100 && |w.digest(b)| <= 100;
    hide FileName, SplitName, ShortWording;
  }

  lemma IdentityIssuesFit(w: Wording, m: FrozenManifest, s: Split, d: Dataset)
    requires ShortWording(w) && ValidRelease(m.name, m.version) && |m.goldSchema| <= 128
    requires ValidName(d.name) && d.schemaVersion == GOLD_SCHEMA_VERSION
    ensures Fits(NameIssue(w, m, s, d)) && Fits(GoldSchemaIssue(w, m, s, d))
  {
    assert |w.place(FileName(s))| <= 3968 && |SplitName(s)| <= 5;
    assert |w.quoted(d.name)| <= 2562 && |w.quoted(m.name)| <= 258;
    assert |w.quoted(d.schemaVersion)| <= 12 && |w.quoted(m.goldSchema)| <= 1282;
    hide FileName, SplitName, ShortWording, PortableSegment;
  }

  lemma ErrorsAndCounts(w: Wording, s: Split, content: Content, a: Counts, b: Counts)
    ensures QuotesErrorOrCounts(SchemaIssue(w, s, content)) && QuotesErrorOrCounts(ManifestIssue(w, content))
    ensures QuotesErrorOrCounts(CountsIssue(w, s, a, b)) && QuotesErrorOrCounts(TotalsIssue(w, a, b))
  {
    hide Mentions;
  }

  lemma SplitIssuesFit(rules: Rules, w: Wording, m: FrozenManifest, files: Files, s: Split, i: ReleaseIssue)
    requires ShortWording(w) && ValidFrozenManifest(m) && i in SplitIssues(rules, w, m, files, s) && !Fits(i)
    ensures QuotesErrorOrCounts(i)
  {
    hide *;
    SplitIssuesAre(rules, w, m, files, s, i);
    PathIssuesFit(w, s);
    if m.ArtifactFor(s).Some? && FileName(s) in files && !files[FileName(s)].NotAFile? {
      var declared := m.ArtifactFor(s).value;
      var loaded := Loaded(rules, m, files, s);
      if loaded.Some? {
        var d := loaded.value;
        NamesAreShort(rules, m, files, s);
        IdentityIssuesFit(w, m, s, d);
        HashIssueFits(w, s, SplitHash(d, s), declared.contentHash);
        ErrorsAndCounts(w, s, files[FileName(s)], CountsOf(d), declared.counts);
      } else {
        ErrorsAndCounts(w, s, files[FileName(s)], declared.counts, declared.counts);
      }
    }
  }

  lemma NamesAreShort(rules: Rules, m: FrozenManifest, files: Files, s: Split)
    requires ValidFrozenManifest(m) && Loaded(rules, m, files, s).Some?
    ensures ValidRelease(m.name, m.version) && |m.goldSchema| <= 128
    ensures var d := Loaded(rules, m, files, s).value; ValidName(d.name) && d.schemaVersion == GOLD_SCHEMA_VERSION
  {
    hide ValidCase, ValidRelease, FileName;
  }

  /** Every issue of a split is one of these. */
  lemma SplitIssuesAre(rules: Rules, w: Wording, m: FrozenManifest, files: Files, s: Split, i: ReleaseIssue)
    requires i in SplitIssues(rules, w, m, files, s)
    ensures || i == UnexpectedIssue(w, s) || i == MissingIssue(w, s) || i == CaseIssue(w, s)
            || (m.ArtifactFor(s).Some? && FileName(s) in files && !files[FileName(s)].NotAFile?
                && var declared, loaded := m.ArtifactFor(s).value, Loaded(rules, m, files, s);
                   if loaded.None? then i == SchemaIssue(w, s, files[FileName(s)])
                   else
                     var d := loaded.value;
                     || i == NameIssue(w, m, s, d) || i == GoldSchemaIssue(w, m, s, d)
                     || i == HashIssue(w, s, SplitHash(d, s), declared.contentHash) || i == CountsIssue(w, s, CountsOf(d), declared.counts))
  {
    hide UnexpectedIssue, MissingIssue, CaseIssue, SchemaIssue, NameIssue, GoldSchemaIssue, HashIssue, CountsIssue, Loaded, SplitHash,
      CountsOf, AllIn, FileName;
  }

  lemma AllSplitIssuesFit(rules: Rules, w: Wording, m: FrozenManifest, files: Files, n: nat, i: ReleaseIssue)
    requires n <= |SPLITS| && ShortWording(w) && ValidFrozenManifest(m) && i in AllSplitIssues(rules, w, m, files, n) && !Fits(i)
    ensures QuotesErrorOrCounts(i)
  {
    hide SplitIssues, ShortWording, ValidFrozenManifest, Fits, QuotesErrorOrCounts;
    if i in AllSplitIssues(rules, w, m, files, n - 1) {
      AllSplitIssuesFit(rules, w, m, files, n - 1, i);
    } else {
      SplitIssuesFit(rules, w, m, files, SPLITS[n - 1], i);
    }
  }

  lemma WholeIssuesFit(rules: Rules, w: Wording, m: FrozenManifest, files: Files, i: ReleaseIssue)
    requires ShortWording(w) && i in WholeIssues(rules, w, m, files) && !Fits(i)
    ensures QuotesErrorOrCounts(i)
  {
    var hash := HashFromSplits(ActualHashes(rules, m, files));
    var corpus := CorpusHash(CombineSplits(m.name, LoadedSplits(rules, m, files)));
    var total := TotalCounts(ActualCountsBySplit(rules, m, files));
    HashIssueFits(w, Train, hash, m.datasetHash);
    HashIssueFits(w, Train, corpus, m.sourceHash);
    ErrorsAndCounts(w, Train, Unreadable, total, m.counts);
    hide *;
    WholeIssuesAre(rules, w, m, files, i);
  }

  lemma WholeIssuesAre(rules: Rules, w: Wording, m: FrozenManifest, files: Files, i: ReleaseIssue)
    requires i in WholeIssues(rules, w, m, files)
    ensures || i == DatasetHashIssue(w, HashFromSplits(ActualHashes(rules, m, files)), m.datasetHash)
            || i == CorpusHashIssue(w, CorpusHash(CombineSplits(m.name, LoadedSplits(rules, m, files))), m.sourceHash)
            || i == TotalsIssue(w, TotalCounts(ActualCountsBySplit(rules, m, files)), m.counts)
  {
    hide AllHashed, AllLoaded, ActualHashes, LoadedSplits, ActualCountsBySplit, HashFromSplits, CorpusHash, CombineSplits, TotalCounts,
      DatasetHashIssue, CorpusHashIssue, TotalsIssue;
  }

  lemma MissingManifestFits(w: Wording)
    requires ShortWording(w)
    ensures Fits(ManifestMissingIssue(w))
  {
    assert |w.place(MANIFEST_FILENAME)| <= 3968;
  }

  /** Only the error of reading a file, or counts of thousands of digits, can make an issue too long. */
  lemma OnlyErrorsAndCounts(rules: Rules, w: Wording, files: Files, i: ReleaseIssue)
    requires ShortWording(w) && i in AllIssues(rules, w, files) && !Fits(i)
    ensures QuotesErrorOrCounts(i)
  {
    MissingManifestFits(w);
    hide AllSplitIssues, WholeIssues, ValidFrozenManifest, Mentions, ManifestIssue, ManifestMissingIssue;
    if UnreadableManifest(files) {
      ErrorsAndCounts(w, Train, files[MANIFEST_FILENAME], NO_COUNTS, NO_COUNTS);
    } else if ReadableManifest(files) {
      var m := files[MANIFEST_FILENAME].manifest;
      hide ShortWording, QuotesErrorOrCounts, Fits;
      if i in AllSplitIssues(rules, w, m, files, 3) {
        AllSplitIssuesFit(rules, w, m, files, 3, i);
      } else {
        WholeIssuesFit(rules, w, m, files, i);
      }
    }
  }

  // ----- files with such issues -----

  /** A release of one case in the train split, whose manifest declares the given counts. */
  function OnceManifest(c: Case, counts: Counts): FrozenManifest {
    FrozenManifest("d", "v", GOLD_SCHEMA_VERSION, Provenance("c", "g", "w", "p", "r"), "s", DatasetDigest([]), DatasetDigest([]),
                   DatasetDigest([]), Some(Artifact(Train, FileName(Train), SplitHash(OneCase(c, Train), Train), counts)), None, None,
                   counts, 0)
  }

  function OnceFiles(m: FrozenManifest, train: Content): Files {
    map[FileName(Train) := train, MANIFEST_FILENAME := ManifestFile(m)]
  }

  lemma OnceIsReadable(m: FrozenManifest, c: Case, counts: Counts, train: Content)
    requires m == OnceManifest(c, counts) && counts.documents >= 1 && counts.targets >= 1
    ensures var files := OnceFiles(m, train);
            && ReadableManifest(files) && files[MANIFEST_FILENAME] == ManifestFile(m)
            && FileName(Train) in files && files[FileName(Train)] == train
  {
    hide *;
    FileNamesDiffer(Train, Dev);
    OnceIsValid(c, counts);
    OnceFilesHold(m, train);
  }

  lemma OnceFilesHold(m: FrozenManifest, train: Content)
    requires ValidFrozenManifest(m)
    ensures var files := OnceFiles(m, train);
            && ReadableManifest(files) && files[MANIFEST_FILENAME] == ManifestFile(m)
            && FileName(Train) in files && files[FileName(Train)] == train
  {
    hide ValidFrozenManifest, FileName;
    FileNamesDiffer(Train, Dev);
  }

  lemma OnceIsValid(c: Case, counts: Counts)
    requires counts.documents >= 1 && counts.targets >= 1
    ensures ValidFrozenManifest(OnceManifest(c, counts))
  {
    hide *;
    ShortNames();
    OnceFields(c, counts);
    TrainOnlyIsValid(OnceManifest(c, counts), counts);
  }

  lemma OnceFields(c: Case, counts: Counts)
    ensures var m := OnceManifest(c, counts);
            && m.name == "d" && m.version == "v" && |m.goldSchema| == 1 && m.counts == counts && m.dev == m.test == None
            && m.train.Some? && m.train.value.split == Train && m.train.value.filename == FileName(Train) && m.train.value.counts == counts
  {
    hide SplitHash, FileName;
  }

  lemma TrainOnlyIsValid(m: FrozenManifest, counts: Counts)
    requires ValidRelease(m.name, m.version) && |m.goldSchema| == 1 && m.counts == counts && m.dev == m.test == None
    requires m.train.Some? && m.train.value.split == Train && m.train.value.filename == FileName(Train) && m.train.value.counts == counts
    requires counts.documents >= 1 && counts.targets >= 1
    ensures ValidFrozenManifest(m)
  {
    AddNothing(counts);
    AddNothing(NO_COUNTS);
    hide FileName, ValidRelease, AddCounts;
  }

  lemma AddNothing(a: Counts)
    ensures AddCounts(a, NO_COUNTS) == a
  {
  }

  lemma FirstIssuesCount(rules: Rules, w: Wording, files: Files, i: ReleaseIssue)
    requires ReadableManifest(files) && i in SplitIssues(rules, w, files[MANIFEST_FILENAME].manifest, files, Train) && !Fits(i)
    ensures !AllFit(AllIssues(rules, w, files))
  {
    var m := files[MANIFEST_FILENAME].manifest;
    SplitIssuesArePosted(rules, w, m, files, 0);
    hide SplitIssues, Fits, ValidFrozenManifest, WholeIssues, AllSplitIssues;
    assert !AllFit(SplitIssues(rules, w, m, files, Train));
  }

  /** A split file whose reading error is long: no split shares a document, since none can be read. */
  lemma LongErrorRaises(rules: Rules, w: Wording, c: Case, n: nat)
    requires n >= 1 && |w.datasetError(Unreadable)| > MAX_MESSAGE
    ensures var m := OnceManifest(c, Counts(n, n, 0));
            var files := OnceFiles(m, Unreadable);
            ReadableManifest(files) && !CombineFails(rules, m, files) && !AllFit(AllIssues(rules, w, files))
  {
    var m := OnceManifest(c, Counts(n, n, 0));
    var files := OnceFiles(m, Unreadable);
    OnceIsReadable(m, c, Counts(n, n, 0), Unreadable);
    assert m.ArtifactFor(Train).Some?;
    hide OnceFiles, FileName, SplitHash, ReadableManifest, OnceManifest, AllIssues;
    LongErrorShows(rules, w, m, files);
    FirstIssuesCount(rules, w, files, SchemaIssue(w, Train, Unreadable));
  }

  lemma LongErrorShows(rules: Rules, w: Wording, m: FrozenManifest, files: Files)
    requires m.ArtifactFor(Train).Some? && FileName(Train) in files && files[FileName(Train)] == Unreadable
    requires |w.datasetError(Unreadable)| > MAX_MESSAGE
    ensures var i := SchemaIssue(w, Train, Unreadable); i in SplitIssues(rules, w, m, files, Train) && !Fits(i)
    ensures !CombineFails(rules, m, files)
  {
    hide FileName;
    assert Loaded(rules, m, files, Train).None? && Declared(m, Train);
  }

  /** A manifest whose reading error is long. */
  lemma LongManifestErrorRaises(rules: Rules, w: Wording)
    requires |w.manifestError(Unreadable)| > MAX_MESSAGE
    ensures var files := map[MANIFEST_FILENAME := Unreadable]; !ReadableManifest(files) && !AllFit(AllIssues(rules, w, files))
  {
    var files := map[MANIFEST_FILENAME := Unreadable];
    hide Mentions;
    assert AllIssues(rules, w, files)[0] in AllIssues(rules, w, files);
  }

  function PowerOfTen(k: nat): nat {
    if k == 0 then 1 else 10 * PowerOfTen(k - 1)
  }

  lemma {:induction false} PowerOfTenDigits(k: nat)
    ensures PowerOfTen(k) >= 1 && |Decimal(PowerOfTen(k))| == k + 1
  {
    if k > 0 {
      PowerOfTenDigits(k - 1);
    }
  }

  /** A valid split file under a manifest that declares a number of documents of thousands of digits, whatever the wording. */
  lemma HugeCountsRaise(rules: Rules, w: Wording, c: Case)
    requires ValidCase(rules, c)
    ensures var m := OnceManifest(c, Counts(PowerOfTen(MAX_MESSAGE), 1, 0));
            var files := OnceFiles(m, DatasetFile(OneCase(c, Train)));
            && ReadableManifest(files) && Loaded(rules, m, files, Train).Some? && !CombineFails(rules, m, files)
            && !AllFit(AllIssues(rules, w, files))
  {
    PowerOfTenDigits(MAX_MESSAGE);
    var counts, d := Counts(PowerOfTen(MAX_MESSAGE), 1, 0), OneCase(c, Train);
    var m := OnceManifest(c, counts);
    var files := OnceFiles(m, DatasetFile(d));
    hide PowerOfTen, Decimal;
    OnceIsReadable(m, c, counts, DatasetFile(d));
    OneCaseIsValid(rules, c, Train);
    OnceArtifacts(c, counts);
    OneIsShort();
    assert AllIn(d.cases, Train) && DistinctDocuments(d.cases) && CountsOf(d).documents == 1;
    hide OnceFiles, FileName, SplitHash, ReadableManifest, OnceManifest, ValidCase, CountsOf, AllIssues, OneCase, AllIn, DistinctDocuments;
    OneSplitLoads(rules, m, files, d);
    OneSplitCombines(rules, m, files, d);
    HugeCountsShow(rules, w, m, files, d, counts);
    FirstIssuesCount(rules, w, files, CountsIssue(w, Train, CountsOf(d), counts));
  }

  lemma OneIsShort()
    ensures |Decimal(1)| == 1
  {
  }

  lemma OnceArtifacts(c: Case, counts: Counts)
    ensures var m := OnceManifest(c, counts);
            && m.ArtifactFor(Train).Some? && m.ArtifactFor(Train).value.counts == counts
            && m.ArtifactFor(Dev).None? && m.ArtifactFor(Test).None?
  {
    hide SplitHash;
  }

  lemma OneSplitLoads(rules: Rules, m: FrozenManifest, files: Files, d: Dataset)
    requires m.ArtifactFor(Train).Some? && ValidDataset(rules, d) && FileName(Train) in files
    requires files[FileName(Train)] == DatasetFile(d)
    ensures Loaded(rules, m, files, Train) == Some(d)
  {
    hide ValidDataset;
  }

  lemma OneSplitCombines(rules: Rules, m: FrozenManifest, files: Files, d: Dataset)
    requires m.ArtifactFor(Dev).None? && m.ArtifactFor(Test).None? && Loaded(rules, m, files, Train) == Some(d)
    requires DistinctDocuments(d.cases)
    ensures !CombineFails(rules, m, files)
  {
    var loaded := LoadedSplits(rules, m, files);
    assert Loaded(rules, m, files, Dev).None? && Loaded(rules, m, files, Test).None?;
    assert Combined(loaded) == d.cases;
  }

  lemma HugeCountsShow(rules: Rules, w: Wording, m: FrozenManifest, files: Files, d: Dataset, counts: Counts)
    requires m.ArtifactFor(Train).Some? && m.ArtifactFor(Train).value.counts == counts
    requires Loaded(rules, m, files, Train) == Some(d) && AllIn(d.cases, Train)
    requires CountsOf(d) != counts && |Decimal(counts.documents)| > MAX_MESSAGE
    ensures var i := CountsIssue(w, Train, CountsOf(d), counts); i in SplitIssues(rules, w, m, files, Train) && !Fits(i)
  {
    hide SplitHash, CountsOf, ValidDataset, AllIn, Decimal;
  }
}
