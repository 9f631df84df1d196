/** Freezing a gold dataset into release files, and verifying release files. */
module Freeze {
  import opened Basics
  import opened Sorting
  import opened Splits
  import opened Gold

  datatype Counts = Counts(documents: nat, targets: nat, annotations: nat)

  datatype Artifact = Artifact(split: Split, filename: string, contentHash: Digest, counts: Counts)

  datatype Provenance = Provenance(compiler: string, guideline: string, workingSchema: string, policy: string, producer: string)

  datatype FrozenManifest = FrozenManifest(
    name: string, version: string, goldSchema: string, provenance: Provenance, splitManifestSchema: string,
    splitManifestHash: Digest, sourceHash: Digest, datasetHash: Digest,
    train: Option<Artifact>, dev: Option<Artifact>, test: Option<Artifact>, counts: Counts, createdAt: int)
  {
    function ArtifactFor(s: Split): Option<Artifact> {
      match s
      case Train => train
      case Dev => dev
      case Test => test
    }
  }

  /** The entries of a release directory, with JSON already decoded. */
  datatype Content = ManifestFile(manifest: FrozenManifest) | DatasetFile(dataset: Dataset) | Unreadable | NotAFile

  type Files = map<string, Content>

  const MANIFEST_FILENAME := "manifest.json"

  function SplitName(s: Split): string {
    match s
    case Train => "train"
    case Dev => "dev"
    case Test => "test"
  }

  function FileName(s: Split): string {
    SplitName(s) + ".json"
  }

  lemma FileNamesDiffer(s: Split, t: Split)
    ensures FileName(s) == FileName(t) ==> s == t
    ensures FileName(s) != MANIFEST_FILENAME
  {
    assert FileName(Train) == "train.json" && FileName(Dev) == "dev.json" && FileName(Test) == "test.json";
    assert "train.json"[1] == 'r' && "test.json"[1] == 'e' && "test.json"[0] == 't' && "dev.json"[0] == 'd';
    assert MANIFEST_FILENAME[0] == 'm';
  }

  // ----- counting -----

  function Total(f: Case -> nat, cases: seq<Case>): nat {
    if cases == [] then 0 else f(cases[0]) + Total(f, cases[1..])
  }

  function One(c: Case): nat { 1 }

  function ScopeCount(c: Case): nat { |c.scopes| }

  function AnnotationCount(c: Case): nat { |c.annotations| }

  function CountsOf(d: Dataset): Counts {
    Counts(|d.cases|, Total(ScopeCount, d.cases), Total(AnnotationCount, d.cases))
  }

  function AddCounts(a: Counts, b: Counts): Counts {
    Counts(a.documents + b.documents, a.targets + b.targets, a.annotations + b.annotations)
  }

  const NO_COUNTS := Counts(0, 0, 0)

  function ArtifactCounts(a: Option<Artifact>): Counts {
    if a.Some? then a.value.counts else NO_COUNTS
  }

  function SumCounts(m: FrozenManifest): Counts {
    AddCounts(ArtifactCounts(m.train), AddCounts(ArtifactCounts(m.dev), ArtifactCounts(m.test)))
  }

  lemma {:induction false} TotalInsert(f: Case -> nat, k: Case -> Key, c: Case, cases: seq<Case>)
    ensures Total(f, Insert(k, c, cases)) == f(c) + Total(f, cases)
  {
    if cases != [] && !Leq(k(c), k(cases[0])) {
      TotalInsert(f, k, c, cases[1..]);
    }
  }

  lemma {:induction false} TotalSorted(f: Case -> nat, k: Case -> Key, cases: seq<Case>)
    ensures Total(f, SortBy(k, cases)) == Total(f, cases)
  {
    if cases != [] {
      TotalSorted(f, k, cases[1..]);
      TotalInsert(f, k, cases[0], SortBy(k, cases[1..]));
    }
  }

  /** Counting split by split loses nothing. */
  lemma {:induction false} TotalBySplit(f: Case -> nat, cases: seq<Case>)
    ensures Total(f, cases)
         == Total(f, InSplit(cases, Train)) + Total(f, InSplit(cases, Dev)) + Total(f, InSplit(cases, Test))
  {
    if cases != [] {
      TotalBySplit(f, cases[1..]);
      var c := cases[0];
      InSplitHead(f, c, cases[1..], Train);
      InSplitHead(f, c, cases[1..], Dev);
      InSplitHead(f, c, cases[1..], Test);
      assert cases == [c] + cases[1..];
    }
  }

  lemma InSplitHead(f: Case -> nat, c: Case, rest: seq<Case>, s: Split)
    ensures Total(f, InSplit([c] + rest, s)) == (if c.split == s then f(c) else 0) + Total(f, InSplit(rest, s))
  {
    assert ([c] + rest)[1..] == rest;
    assert c.split == s ==> ([c] + InSplit(rest, s))[1..] == InSplit(rest, s);
    assert [] + InSplit(rest, s) == InSplit(rest, s);
  }

  lemma {:induction false} TotalOne(cases: seq<Case>)
    ensures Total(One, cases) == |cases|
  {
    if cases != [] {
      TotalOne(cases[1..]);
    }
  }

  // ----- building a release -----

  /** The dataset of one split: its cases in document order. */
  function SplitDataset(d: Dataset, s: Split): Dataset {
    d.(cases := SortBy(DocumentKey, InSplit(d.cases, s)))
  }

  function SplitDatasets(d: Dataset): map<Split, Dataset> {
    map s | s in Present(d.cases) :: SplitDataset(d, s)
  }

  function ArtifactOf(s: Split, d: Dataset): Artifact {
    Artifact(s, FileName(s), SplitHash(d, s), CountsOf(d))
  }

  /** The hashes of the splits that have one, in split order. */
  function HashList(hashes: map<Split, Digest>): seq<(Split, Digest)> {
    (if Train in hashes then [(Train, hashes[Train])] else []) + (if Dev in hashes then [(Dev, hashes[Dev])] else [])
    + (if Test in hashes then [(Test, hashes[Test])] else [])
  }

  function HashFromSplits(hashes: map<Split, Digest>): Digest {
    DatasetDigest(HashList(hashes))
  }

  function OptionalArtifact(splits: map<Split, Dataset>, s: Split): Option<Artifact> {
    if s in splits then Some(ArtifactOf(s, splits[s])) else None
  }

  function BuildManifest(d: Dataset, version: string, splitManifest: Manifest, provenance: Provenance, now: int): FrozenManifest {
    var splits := SplitDatasets(d);
    FrozenManifest(
      d.name, version, d.schemaVersion, provenance, splitManifest.schemaVersion, SplitManifestHash(splitManifest),
      CorpusHash(d), HashFromSplits(map s | s in splits :: ArtifactOf(s, splits[s]).contentHash),
      OptionalArtifact(splits, Train), OptionalArtifact(splits, Dev), OptionalArtifact(splits, Test), CountsOf(d), now)
  }

  /** The files written for a release. */
  function Candidate(splits: map<Split, Dataset>, m: FrozenManifest): Files {
    Written(Written(Written(map[], splits, Train), splits, Dev), splits, Test)[MANIFEST_FILENAME := ManifestFile(m)]
  }

  function Written(files: Files, splits: map<Split, Dataset>, s: Split): Files {
    if s in splits then files[FileName(s) := DatasetFile(splits[s])] else files
  }

  predicate ValidArtifact(a: Artifact, s: Split) {
    a.split == s && a.filename == FileName(s) && a.counts.documents >= 1 && a.counts.targets >= 1
  }

  predicate IsAlphanumeric(c: char) {
    '0' <= c <= '9' || 'A' <= c <= 'Z' || 'a' <= c <= 'z'
  }

  /** Letters, digits, dots, dashes and underscores, starting with a letter or digit. */
  predicate PortableSegment(s: string) {
    s != "" && IsAlphanumeric(s[0]) && forall c :: c in s ==> IsAlphanumeric(c) || c in "._-"
  }

  /** The name and version a manifest can carry. */
  predicate ValidRelease(name: string, version: string) {
    PortableSegment(name) && |name| <= 256 && PortableSegment(version) && |version| <= 128
  }

  /** What the manifest validator asks before it compares totals: artifacts in their own fields, positive totals. */
  predicate ProperFields(m: FrozenManifest) {
    && ValidRelease(m.name, m.version) && |m.goldSchema| <= 128 && (m.train.Some? || m.dev.Some? || m.test.Some?)
    && (m.train.Some? ==> ValidArtifact(m.train.value, Train)) && (m.dev.Some? ==> ValidArtifact(m.dev.value, Dev))
    && (m.test.Some? ==> ValidArtifact(m.test.value, Test))
    && m.counts.documents >= 1 && m.counts.targets >= 1
  }

  /** The manifest validator: proper fields, and totals equal to the sum over splits. */
  predicate ValidFrozenManifest(m: FrozenManifest) {
    ProperFields(m) && m.counts == SumCounts(m)
  }

  // ----- verifying a release -----

  datatype IssueCode =
    | ManifestMissing | ManifestInvalid | SplitFileMissing | SplitFileUnexpected | SplitHashMismatch | DatasetHashMismatch
    | SourceCorpusHashMismatch | DatasetSchemaInvalid | DatasetIdentityMismatch | SplitCaseMismatch | ManifestCountMismatch

  datatype ReleaseIssue = ReleaseIssue(code: IssueCode, message: string, path: string)

  const MAX_MESSAGE := 4096

  /** The issue validator; an issue that does not fit is not built, and an error is raised. */
  predicate Fits(i: ReleaseIssue) {
    |i.message| <= MAX_MESSAGE && |i.path| <= MAX_MESSAGE
  }

  predicate AllFit(issues: seq<ReleaseIssue>) {
    forall i :: i in issues ==> Fits(i)
  }

  /** Verification either reports issues or raises an error instead. */
  datatype Verdict = Reported(issues: seq<ReleaseIssue>) | Raised

  function Posted(issues: seq<ReleaseIssue>): Verdict {
    if AllFit(issues) then Reported(issues) else Raised
  }

  /** Issues collected so far; none once an issue could not be built. */
  function Collected(issues: seq<ReleaseIssue>): Option<seq<ReleaseIssue>> {
    if AllFit(issues) then Some(issues) else None
  }

  function Add(found: Option<seq<ReleaseIssue>>, i: ReleaseIssue): Option<seq<ReleaseIssue>> {
    if found.Some? && Fits(i) then Some(found.value + [i]) else None
  }

  lemma AddCollects(issues: seq<ReleaseIssue>, i: ReleaseIssue)
    ensures Add(Collected(issues), i) == Collected(issues + [i])
  {
    assert forall j :: j in issues ==> j in issues + [i];
    assert i in issues + [i];
  }

  /**
   How issues print what the model does not spell out: the path of an entry of the release, the errors of reading
   an entry as manifest or as dataset, strings in quotes, and hashes.
   */
  datatype Wording = Wording(
    place: string -> string, manifestError: Content -> string, datasetError: Content -> string,
    quoted: string -> string, digest: Digest -> string)

  // ----- the issues -----

  function CountsText(c: Counts): string {
    "(" + Decimal(c.documents) + ", " + Decimal(c.targets) + ", " + Decimal(c.annotations) + ")"
  }

  function ManifestMissingIssue(w: Wording): ReleaseIssue {
    ReleaseIssue(ManifestMissing, "frozen dataset manifest is missing at " + w.place(MANIFEST_FILENAME), w.place(MANIFEST_FILENAME))
  }

  const TOTALS_PHRASE := "total counts must equal per-split counts"

  predicate MentionsAt(text: string, phrase: string, i: nat) {
    i <= |text| - |phrase| && text[i..i + |phrase|] == phrase
  }

  /** The text contains the phrase. */
  predicate Mentions(text: string, phrase: string) {
    exists i :: 0 <= i <= |text| && MentionsAt(text, phrase, i)
  }

  /** Wrong totals are told from other faults by the text of the error. */
  function ManifestIssue(w: Wording, content: Content): ReleaseIssue {
    ReleaseIssue(if Mentions(w.manifestError(content), TOTALS_PHRASE) then ManifestCountMismatch else ManifestInvalid,
          "frozen dataset manifest is invalid: " + w.manifestError(content), w.place(MANIFEST_FILENAME))
  }

  function UnexpectedIssue(w: Wording, s: Split): ReleaseIssue {
    ReleaseIssue(SplitFileUnexpected, "unreferenced " + SplitName(s) + " split artifact exists at " + w.place(FileName(s)), w.place(FileName(s)))
  }

  function MissingIssue(w: Wording, s: Split): ReleaseIssue {
    ReleaseIssue(SplitFileMissing, "manifest-declared " + SplitName(s) + " split artifact is missing at " + w.place(FileName(s)),
          w.place(FileName(s)))
  }

  function SchemaIssue(w: Wording, s: Split, content: Content): ReleaseIssue {
    ReleaseIssue(DatasetSchemaInvalid, SplitName(s) + " split artifact is not a valid semantic gold dataset: " + w.datasetError(content),
          w.place(FileName(s)))
  }

  function NameIssue(w: Wording, m: FrozenManifest, s: Split, d: Dataset): ReleaseIssue {
    ReleaseIssue(DatasetIdentityMismatch,
          SplitName(s) + " dataset name " + w.quoted(d.name) + " does not match manifest name " + w.quoted(m.name), w.place(FileName(s)))
  }

  function GoldSchemaIssue(w: Wording, m: FrozenManifest, s: Split, d: Dataset): ReleaseIssue {
    ReleaseIssue(DatasetIdentityMismatch,
          SplitName(s) + " gold schema " + w.quoted(d.schemaVersion) + " does not match manifest " + w.quoted(m.goldSchema),
          w.place(FileName(s)))
  }

  function CaseIssue(w: Wording, s: Split): ReleaseIssue {
    ReleaseIssue(SplitCaseMismatch, SplitName(s) + " artifact contains a case assigned to another split", w.place(FileName(s)))
  }

  function HashIssue(w: Wording, s: Split, actual: Digest, declared: Digest): ReleaseIssue {
    ReleaseIssue(SplitHashMismatch, SplitName(s) + " split hash mismatch: " + w.digest(actual) + " != " + w.digest(declared), w.place(FileName(s)))
  }

  function CountsIssue(w: Wording, s: Split, actual: Counts, declared: Counts): ReleaseIssue {
    ReleaseIssue(ManifestCountMismatch,
          SplitName(s) + " actual counts " + CountsText(actual) + " do not match manifest counts " + CountsText(declared),
          w.place(FileName(s)))
  }

  function DatasetHashIssue(w: Wording, actual: Digest, declared: Digest): ReleaseIssue {
    ReleaseIssue(DatasetHashMismatch, "dataset hash mismatch: " + w.digest(actual) + " != " + w.digest(declared), w.place(MANIFEST_FILENAME))
  }

  function CorpusHashIssue(w: Wording, actual: Digest, declared: Digest): ReleaseIssue {
    ReleaseIssue(SourceCorpusHashMismatch, "source corpus hash mismatch: " + w.digest(actual) + " != " + w.digest(declared),
          w.place(MANIFEST_FILENAME))
  }

  function TotalsIssue(w: Wording, actual: Counts, declared: Counts): ReleaseIssue {
    ReleaseIssue(ManifestCountMismatch,
          "actual dataset counts " + CountsText(actual) + " do not match manifest counts " + CountsText(declared), w.place(MANIFEST_FILENAME))
  }

  // ----- what is read -----

  function Loaded(rules: Rules, m: FrozenManifest, files: Files, s: Split): Option<Dataset> {
    if m.ArtifactFor(s).None? || FileName(s) !in files then None
    else
      match files[FileName(s)]
      case DatasetFile(d) => if ValidDataset(rules, d) then Some(d) else None
      case _ => None
  }

  predicate AllIn(cases: seq<Case>, s: Split) {
    forall c :: c in cases ==> c.split == s
  }

  /** The split files that load and hold only their own cases get a hash and counts. */
  predicate Hashed(rules: Rules, m: FrozenManifest, files: Files, s: Split) {
    Loaded(rules, m, files, s).Some? && AllIn(Loaded(rules, m, files, s).value.cases, s)
  }

  function SplitIssues(rules: Rules, w: Wording, m: FrozenManifest, files: Files, s: Split): seq<ReleaseIssue> {
    var artifact := m.ArtifactFor(s);
    if artifact.None? then if FileName(s) in files then [UnexpectedIssue(w, s)] else []
    else if FileName(s) !in files || files[FileName(s)].NotAFile? then [MissingIssue(w, s)]
    else if Loaded(rules, m, files, s).None? then [SchemaIssue(w, s, files[FileName(s)])]
    else
      var d := Loaded(rules, m, files, s).value;
      (if d.name != m.name then [NameIssue(w, m, s, d)] else [])
      + (if d.schemaVersion != m.goldSchema then [GoldSchemaIssue(w, m, s, d)] else [])
      + if !AllIn(d.cases, s) then [CaseIssue(w, s)]
        else
          (if SplitHash(d, s) != artifact.value.contentHash then [HashIssue(w, s, SplitHash(d, s), artifact.value.contentHash)] else [])
          + (if CountsOf(d) != artifact.value.counts then [CountsIssue(w, s, CountsOf(d), artifact.value.counts)] else [])
  }

  function Combined(loaded: map<Split, Dataset>): seq<Case> {
    (if Train in loaded then loaded[Train].cases else []) + (if Dev in loaded then loaded[Dev].cases else [])
    + (if Test in loaded then loaded[Test].cases else [])
  }

  function CombineSplits(name: string, loaded: map<Split, Dataset>): Dataset {
    Dataset(name, GOLD_SCHEMA_VERSION, "", SortBy(DocumentKey, Combined(loaded)), NoMetadata)
  }

  predicate DistinctDocuments(cases: seq<Case>) {
    forall i, j :: 0 <= i < j < |cases| ==> cases[i].documentId != cases[j].documentId
  }

  function LoadedSplits(rules: Rules, m: FrozenManifest, files: Files): map<Split, Dataset> {
    map s | s in {Train, Dev, Test} && Loaded(rules, m, files, s).Some? :: Loaded(rules, m, files, s).value
  }

  function ActualHashes(rules: Rules, m: FrozenManifest, files: Files): map<Split, Digest> {
    map s | s in {Train, Dev, Test} && Hashed(rules, m, files, s) :: SplitHash(Loaded(rules, m, files, s).value, s)
  }

  predicate Declared(m: FrozenManifest, s: Split) {
    m.ArtifactFor(s).Some?
  }

  /** Every declared split loads, respectively has a hash. */
  predicate AllLoaded(rules: Rules, m: FrozenManifest, files: Files) {
    forall s: Split :: Declared(m, s) ==> Loaded(rules, m, files, s).Some?
  }

  predicate AllHashed(rules: Rules, m: FrozenManifest, files: Files) {
    forall s: Split :: Declared(m, s) ==> Hashed(rules, m, files, s)
  }

  predicate ReadableManifest(files: Files) {
    MANIFEST_FILENAME in files && files[MANIFEST_FILENAME].ManifestFile? && ValidFrozenManifest(files[MANIFEST_FILENAME].manifest)
  }

  /** An undeclared split has no file; a declared one has a valid file with the declared identity, hash and counts. */
  ghost predicate SplitConsistent(rules: Rules, m: FrozenManifest, files: Files, s: Split) {
    if !Declared(m, s) then FileName(s) !in files
    else
      && Hashed(rules, m, files, s)
      && var d := Loaded(rules, m, files, s).value;
         && d.name == m.name && d.schemaVersion == m.goldSchema
         && SplitHash(d, s) == m.ArtifactFor(s).value.contentHash && CountsOf(d) == m.ArtifactFor(s).value.counts
  }

  /** What a release must satisfy, said outright. */
  ghost predicate Consistent(rules: Rules, files: Files) {
    ReadableManifest(files)
    && var m := files[MANIFEST_FILENAME].manifest;
       && (forall s: Split :: SplitConsistent(rules, m, files, s))
       && HashFromSplits(ActualHashes(rules, m, files)) == m.datasetHash
       && DistinctDocuments(Combined(LoadedSplits(rules, m, files)))
       && CorpusHash(CombineSplits(m.name, LoadedSplits(rules, m, files))) == m.sourceHash
  }

  function AllSplitIssues(rules: Rules, w: Wording, m: FrozenManifest, files: Files, n: nat): seq<ReleaseIssue>
    requires n <= |SPLITS|
  {
    if n == 0 then [] else AllSplitIssues(rules, w, m, files, n - 1) + SplitIssues(rules, w, m, files, SPLITS[n - 1])
  }

  /** The issues found after the splits were looked at one by one. */
  function WholeIssues(rules: Rules, w: Wording, m: FrozenManifest, files: Files): seq<ReleaseIssue> {
    WholeIssuesOf(w, m, LoadedSplits(rules, m, files), AllLoaded(rules, m, files), ActualHashes(rules, m, files),
                  ActualCountsBySplit(rules, m, files), AllHashed(rules, m, files))
  }

  function WholeIssuesOf(w: Wording, m: FrozenManifest, loaded: map<Split, Dataset>, allLoaded: bool, hashes: map<Split, Digest>,
                         counts: map<Split, Counts>, allHashed: bool): seq<ReleaseIssue>
  {
    (if allHashed && HashFromSplits(hashes) != m.datasetHash
     then [DatasetHashIssue(w, HashFromSplits(hashes), m.datasetHash)] else [])
    + (if allLoaded && CorpusHash(CombineSplits(m.name, loaded)) != m.sourceHash
       then [CorpusHashIssue(w, CorpusHash(CombineSplits(m.name, loaded)), m.sourceHash)] else [])
    + if allHashed && TotalCounts(counts) != m.counts then [TotalsIssue(w, TotalCounts(counts), m.counts)] else []
  }

  /** Combining fails when two splits carry the same document. */
  predicate CombineFails(rules: Rules, m: FrozenManifest, files: Files) {
    AllLoaded(rules, m, files) && !DistinctDocuments(Combined(LoadedSplits(rules, m, files)))
  }

  method CheckSplit(rules: Rules, w: Wording, m: FrozenManifest, files: Files, s: Split)
    returns (found: Option<seq<ReleaseIssue>>, loaded: Option<Dataset>, hashed: bool)
    ensures found == Collected(SplitIssues(rules, w, m, files, s))
    ensures loaded == Loaded(rules, m, files, s) && hashed == Hashed(rules, m, files, s)
  {
    hide ValidDataset, SplitHash, CountsOf, AllIn, FileName, Add, AllFit, UnexpectedIssue, MissingIssue, SchemaIssue, NameIssue,
      GoldSchemaIssue, CaseIssue, HashIssue, CountsIssue;
    NothingCollected();
    ghost var issues: seq<ReleaseIssue> := [];
    found := Some([]);
    var artifact := m.ArtifactFor(s);
    if artifact.None? {
      if FileName(s) in files {
        AddCollects([], UnexpectedIssue(w, s));
        assert [] + [UnexpectedIssue(w, s)] == [UnexpectedIssue(w, s)] == SplitIssues(rules, w, m, files, s);
        found := Add(found, UnexpectedIssue(w, s));
      }
      return found, None, false;
    }
    if FileName(s) !in files || files[FileName(s)].NotAFile? {
      AddCollects([], MissingIssue(w, s));
      assert [] + [MissingIssue(w, s)] == [MissingIssue(w, s)] == SplitIssues(rules, w, m, files, s);
      return Add(found, MissingIssue(w, s)), None, false;
    }
    if !files[FileName(s)].DatasetFile? || !ValidDataset(rules, files[FileName(s)].dataset) {
      AddCollects([], SchemaIssue(w, s, files[FileName(s)]));
      assert [] + [SchemaIssue(w, s, files[FileName(s)])] == [SchemaIssue(w, s, files[FileName(s)])] == SplitIssues(rules, w, m, files, s);
      return Add(found, SchemaIssue(w, s, files[FileName(s)])), None, false;
    }
    var d := files[FileName(s)].dataset;
    loaded := Some(d);
    if d.name != m.name {
      AddCollects(issues, NameIssue(w, m, s, d));
      issues, found := issues + [NameIssue(w, m, s, d)], Add(found, NameIssue(w, m, s, d));
    }
    if d.schemaVersion != m.goldSchema {
      AddCollects(issues, GoldSchemaIssue(w, m, s, d));
      issues, found := issues + [GoldSchemaIssue(w, m, s, d)], Add(found, GoldSchemaIssue(w, m, s, d));
    }
    if !AllIn(d.cases, s) {
      AddCollects(issues, CaseIssue(w, s));
      assert issues + [CaseIssue(w, s)] == SplitIssues(rules, w, m, files, s);
      return Add(found, CaseIssue(w, s)), loaded, false;
    }
    var hash, counts := SplitHash(d, s), CountsOf(d);
    if hash != artifact.value.contentHash {
      AddCollects(issues, HashIssue(w, s, hash, artifact.value.contentHash));
      issues, found := issues + [HashIssue(w, s, hash, artifact.value.contentHash)], Add(found, HashIssue(w, s, hash, artifact.value.contentHash));
    }
    if counts != artifact.value.counts {
      AddCollects(issues, CountsIssue(w, s, counts, artifact.value.counts));
      issues, found := issues + [CountsIssue(w, s, counts, artifact.value.counts)], Add(found, CountsIssue(w, s, counts, artifact.value.counts));
    }
    assert issues == SplitIssues(rules, w, m, files, s);
    return found, loaded, true;
  }

  lemma NothingCollected()
    ensures Collected([]) == Some([])
  {
  }

  lemma HashedIsLoaded(rules: Rules, m: FrozenManifest, files: Files, s: Split)
    ensures Hashed(rules, m, files, s) ==> Loaded(rules, m, files, s).Some?
    ensures Loaded(rules, m, files, s).Some? ==> Declared(m, s)
  {
  }

  function TotalCounts(counts: map<Split, Counts>): Counts {
    AddCounts(if Train in counts then counts[Train] else NO_COUNTS,
              AddCounts(if Dev in counts then counts[Dev] else NO_COUNTS, if Test in counts then counts[Test] else NO_COUNTS))
  }

  /** Compares the whole with the manifest, as far as all declared splits could be read. */
  method CheckWhole(w: Wording, m: FrozenManifest, issues: seq<ReleaseIssue>, loaded: map<Split, Dataset>, hashes: map<Split, Digest>,
                    counts: map<Split, Counts>)
    returns (v: Verdict)
    requires AllFit(issues) && hashes.Keys == counts.Keys
    ensures var declared := set s | s in {Train, Dev, Test} && Declared(m, s);
            v == if loaded.Keys == declared && !DistinctDocuments(Combined(loaded)) then Raised
                 else Posted(issues + WholeIssuesOf(w, m, loaded, loaded.Keys == declared, hashes, counts, counts.Keys == declared))
  {
    hide CorpusHash, HashFromSplits, CombineSplits, TotalCounts, DistinctDocuments, Combined, Declared, Add, AllFit, DatasetHashIssue,
      CorpusHashIssue, TotalsIssue;
    var declared := set s | s in {Train, Dev, Test} && Declared(m, s);
    var found := Collected(issues);
    ghost var all := issues;
    var hash := HashFromSplits(hashes);
    if hashes.Keys == declared && hash != m.datasetHash {
      AddCollects(all, DatasetHashIssue(w, hash, m.datasetHash));
      all, found := all + [DatasetHashIssue(w, hash, m.datasetHash)], Add(found, DatasetHashIssue(w, hash, m.datasetHash));
    }
    if loaded.Keys == declared {
      if !DistinctDocuments(Combined(loaded)) {
        return Raised;
      }
      var corpus := CorpusHash(CombineSplits(m.name, loaded));
      if corpus != m.sourceHash {
        AddCollects(all, CorpusHashIssue(w, corpus, m.sourceHash));
        all, found := all + [CorpusHashIssue(w, corpus, m.sourceHash)], Add(found, CorpusHashIssue(w, corpus, m.sourceHash));
      }
    }
    var total := TotalCounts(counts);
    if counts.Keys == declared && total != m.counts {
      AddCollects(all, TotalsIssue(w, total, m.counts));
      all, found := all + [TotalsIssue(w, total, m.counts)], Add(found, TotalsIssue(w, total, m.counts));
    }
    assert all == issues + WholeIssuesOf(w, m, loaded, loaded.Keys == declared, hashes, counts, counts.Keys == declared);
    return if found.Some? then Reported(found.value) else Raised;
  }

  function ActualCountsBySplit(rules: Rules, m: FrozenManifest, files: Files): map<Split, Counts> {
    map s | s in {Train, Dev, Test} && Hashed(rules, m, files, s) :: CountsOf(Loaded(rules, m, files, s).value)
  }

  lemma EverySplit(s: Split)
    ensures s in {Train, Dev, Test}
  {
  }

  lemma DeclaredAreRead(rules: Rules, m: FrozenManifest, files: Files)
    ensures var declared := set s | s in {Train, Dev, Test} && Declared(m, s);
            && (LoadedSplits(rules, m, files).Keys == declared <==> AllLoaded(rules, m, files))
            && (ActualHashes(rules, m, files).Keys == declared <==> AllHashed(rules, m, files))
            && (ActualCountsBySplit(rules, m, files).Keys == declared <==> AllHashed(rules, m, files))
    ensures ActualHashes(rules, m, files).Keys == ActualCountsBySplit(rules, m, files).Keys
  {
    hide Loaded, Hashed, SplitHash, CountsOf;
    forall s
      ensures s in {Train, Dev, Test} && (Hashed(rules, m, files, s) ==> Loaded(rules, m, files, s).Some?)
      ensures Loaded(rules, m, files, s).Some? ==> Declared(m, s)
    {
      EverySplit(s);
      HashedIsLoaded(rules, m, files, s);
    }
    var declared := set s | s in {Train, Dev, Test} && Declared(m, s);
    assert forall s: Split :: s in declared <==> Declared(m, s);
    assert forall s: Split :: s in LoadedSplits(rules, m, files) <==> Loaded(rules, m, files, s).Some?;
    assert forall s: Split :: s in ActualHashes(rules, m, files) <==> Hashed(rules, m, files, s);
    assert forall s: Split :: s in ActualCountsBySplit(rules, m, files) <==> Hashed(rules, m, files, s);
    hide Declared;
    assert AllLoaded(rules, m, files) ==> LoadedSplits(rules, m, files).Keys == declared;
    assert AllHashed(rules, m, files) ==> ActualHashes(rules, m, files).Keys == declared;
    assert AllHashed(rules, m, files) ==> ActualCountsBySplit(rules, m, files).Keys == declared;
  }

  /** A split has no issue exactly when it is consistent. */
  lemma NoSplitIssue(rules: Rules, w: Wording, m: FrozenManifest, files: Files, s: Split)
    ensures SplitIssues(rules, w, m, files, s) == [] <==> SplitConsistent(rules, m, files, s)
  {
    hide ValidDataset, SplitHash, CountsOf;
  }

  lemma NoIssueAnywhere(rules: Rules, w: Wording, m: FrozenManifest, files: Files)
    ensures AllSplitIssues(rules, w, m, files, 3) == [] <==> forall s: Split :: SplitConsistent(rules, m, files, s)
  {
    hide SplitConsistent, SplitIssues;
    NoSplitIssue(rules, w, m, files, Train);
    NoSplitIssue(rules, w, m, files, Dev);
    NoSplitIssue(rules, w, m, files, Test);
    var a, b, c := SplitIssues(rules, w, m, files, Train), SplitIssues(rules, w, m, files, Dev), SplitIssues(rules, w, m, files, Test);
    assert AllSplitIssues(rules, w, m, files, 1) == [] + a;
    assert AllSplitIssues(rules, w, m, files, 2) == [] + a + b;
    assert AllSplitIssues(rules, w, m, files, 3) == [] + a + b + c;
    if SplitConsistent(rules, m, files, Train) && SplitConsistent(rules, m, files, Dev)
       && SplitConsistent(rules, m, files, Test) {
      forall s: Split
        ensures SplitConsistent(rules, m, files, s)
      {
        EverySplit(s);
      }
    }
  }

  lemma CountFollows(rules: Rules, m: FrozenManifest, files: Files, s: Split)
    requires SplitConsistent(rules, m, files, s)
    ensures Declared(m, s) ==> Hashed(rules, m, files, s) && Loaded(rules, m, files, s).Some?
    ensures var counts := ActualCountsBySplit(rules, m, files);
            (if s in counts then counts[s] else NO_COUNTS) == ArtifactCounts(m.ArtifactFor(s))
  {
    hide SplitHash, CountsOf, Loaded, Hashed;
    HashedIsLoaded(rules, m, files, s);
    EverySplit(s);
  }

  /** When the splits agree with their artifacts, the totals agree as well. */
  lemma CountsFollow(rules: Rules, m: FrozenManifest, files: Files)
    requires ValidFrozenManifest(m) && forall s: Split :: SplitConsistent(rules, m, files, s)
    ensures TotalCounts(ActualCountsBySplit(rules, m, files)) == m.counts
    ensures AllHashed(rules, m, files) && AllLoaded(rules, m, files)
  {
    hide SplitConsistent, ActualCountsBySplit, Hashed, Loaded, Declared;
    forall s: Split
      ensures Declared(m, s) ==> Hashed(rules, m, files, s) && Loaded(rules, m, files, s).Some?
    {
      CountFollows(rules, m, files, s);
    }
    CountFollows(rules, m, files, Train);
    CountFollows(rules, m, files, Dev);
    CountFollows(rules, m, files, Test);
  }

  /** All issues of a readable manifest and its files. */
  function ReleaseIssues(rules: Rules, w: Wording, m: FrozenManifest, files: Files): seq<ReleaseIssue> {
    AllSplitIssues(rules, w, m, files, 3) + WholeIssues(rules, w, m, files)
  }

  /** The verdict in terms of what was read is the verdict in terms of consistency. */
  lemma VerdictIsConsistency(rules: Rules, w: Wording, files: Files, v: Verdict)
    requires ReadableManifest(files)
    requires var m := files[MANIFEST_FILENAME].manifest;
             v == if CombineFails(rules, m, files) then Raised else Posted(ReleaseIssues(rules, w, m, files))
    ensures v == Reported([]) <==> Consistent(rules, files)
  {
    var m := files[MANIFEST_FILENAME].manifest;
    NoIssueAnywhere(rules, w, m, files);
    hide SplitConsistent, AllSplitIssues, CorpusHash, HashFromSplits, CombineSplits, ValidFrozenManifest, ActualHashes, LoadedSplits,
      ActualCountsBySplit, Combined, DistinctDocuments, AllHashed, AllLoaded;
    if forall s: Split :: SplitConsistent(rules, m, files, s) {
      CountsFollow(rules, m, files);
    }
  }

  predicate UnreadableManifest(files: Files) {
    MANIFEST_FILENAME in files && !files[MANIFEST_FILENAME].NotAFile? && !ReadableManifest(files)
  }

  /** Everything verification has to say about the files, whether or not it can be built. */
  function AllIssues(rules: Rules, w: Wording, files: Files): seq<ReleaseIssue> {
    if ReadableManifest(files) then ReleaseIssues(rules, w, files[MANIFEST_FILENAME].manifest, files)
    else if UnreadableManifest(files) then [ManifestIssue(w, files[MANIFEST_FILENAME])]
    else [ManifestMissingIssue(w)]
  }

  /** Verification reports all there is to say, unless a message or path is too long or combining the splits fails. */
  method VerifyFrozenDataset(rules: Rules, w: Wording, files: Files) returns (v: Verdict)
    ensures v.Raised? <==> || !AllFit(AllIssues(rules, w, files))
                           || (ReadableManifest(files) && CombineFails(rules, files[MANIFEST_FILENAME].manifest, files))
    ensures v.Reported? ==> v.issues == AllIssues(rules, w, files)
    ensures v == Reported([]) <==> Consistent(rules, files)
  {
    hide ProperFields, SumCounts, SplitHash, SplitIssues, CorpusHash, CountsOf, HashFromSplits, CombineSplits, ReadSoFar, Loaded,
      Consistent, Combined, AllLoaded, AllHashed, TotalCounts, LoadedSplits, ActualHashes, ActualCountsBySplit, AllFit, WholeIssues,
      WholeIssuesOf, AllSplitIssues, ManifestMissingIssue, ManifestIssue;
    ConsistentIsReadable(rules, files);
    if MANIFEST_FILENAME !in files || files[MANIFEST_FILENAME].NotAFile? {
      return Posted([ManifestMissingIssue(w)]);
    }
    if !files[MANIFEST_FILENAME].ManifestFile? || !ValidFrozenManifest(files[MANIFEST_FILENAME].manifest) {
      return Posted([ManifestIssue(w, files[MANIFEST_FILENAME])]);
    }
    var m := files[MANIFEST_FILENAME].manifest;
    var issues: seq<ReleaseIssue> := [];
    var loaded: map<Split, Dataset> := map[];
    var hashes: map<Split, Digest> := map[];
    var counts: map<Split, Counts> := map[];
    NothingRead(rules, w, m, files);
    NothingCollected();
    for i := 0 to |SPLITS|
      invariant ReadSoFar(rules, w, m, files, i, issues, loaded, hashes, counts)
      invariant AllFit(issues)
    {
      var found, dataset, hashed := CheckSplit(rules, w, m, files, SPLITS[i]);
      ReadOne(rules, w, m, files, i, issues, loaded, hashes, counts);
      SplitIssuesArePosted(rules, w, m, files, i);
      if found.None? {
        VerdictIsConsistency(rules, w, files, Raised);
        return Raised;
      }
      FitTogether(issues, found.value);
      issues := issues + found.value;
      if dataset.Some? {
        loaded := loaded[SPLITS[i] := dataset.value];
        if hashed {
          hashes := hashes[SPLITS[i] := SplitHash(dataset.value, SPLITS[i])];
          counts := counts[SPLITS[i] := CountsOf(dataset.value)];
        }
      }
    }
    AllRead(rules, w, m, files, issues, loaded, hashes, counts);
    DeclaredAreRead(rules, m, files);
    v := CheckWhole(w, m, issues, loaded, hashes, counts);
    WholeIssuesUnfold(rules, w, m, files);
    VerdictIsConsistency(rules, w, files, v);
  }

  lemma WholeIssuesUnfold(rules: Rules, w: Wording, m: FrozenManifest, files: Files)
    ensures WholeIssues(rules, w, m, files)
         == WholeIssuesOf(w, m, LoadedSplits(rules, m, files), AllLoaded(rules, m, files), ActualHashes(rules, m, files),
                          ActualCountsBySplit(rules, m, files), AllHashed(rules, m, files))
  {
  }

  lemma FitTogether(a: seq<ReleaseIssue>, b: seq<ReleaseIssue>)
    ensures AllFit(a + b) <==> AllFit(a) && AllFit(b)
  {
    hide Fits;
    assert forall i :: i in a + b <==> i in a || i in b;
  }

  /** The issues of one split are among those of the release. */
  lemma SplitIssuesArePosted(rules: Rules, w: Wording, m: FrozenManifest, files: Files, i: nat)
    requires i < 3
    ensures AllFit(ReleaseIssues(rules, w, m, files)) ==> AllFit(SplitIssues(rules, w, m, files, SPLITS[i]))
  {
    hide SplitIssues, WholeIssues, AllFit;
    FitTogether(AllSplitIssues(rules, w, m, files, 3), WholeIssues(rules, w, m, files));
    FitTogether(AllSplitIssues(rules, w, m, files, 2), SplitIssues(rules, w, m, files, SPLITS[2]));
    FitTogether(AllSplitIssues(rules, w, m, files, 1), SplitIssues(rules, w, m, files, SPLITS[1]));
    FitTogether(AllSplitIssues(rules, w, m, files, 0), SplitIssues(rules, w, m, files, SPLITS[0]));
  }

  /** The loop variables after the first `n` splits. */
  ghost predicate ReadSoFar(rules: Rules, w: Wording, m: FrozenManifest, files: Files, n: nat, issues: seq<ReleaseIssue>,
                            loaded: map<Split, Dataset>, hashes: map<Split, Digest>, counts: map<Split, Counts>)
    requires n <= |SPLITS|
  {
    && issues == AllSplitIssues(rules, w, m, files, n)
    && loaded == LoadedIn(rules, m, files, SPLITS[..n]) && hashes == HashesIn(rules, m, files, SPLITS[..n])
    && counts == CountsIn(rules, m, files, SPLITS[..n])
  }

  function LoadedIn(rules: Rules, m: FrozenManifest, files: Files, splits: seq<Split>): map<Split, Dataset> {
    map s | s in splits && Loaded(rules, m, files, s).Some? :: Loaded(rules, m, files, s).value
  }

  function HashesIn(rules: Rules, m: FrozenManifest, files: Files, splits: seq<Split>): map<Split, Digest> {
    map s | s in splits && Hashed(rules, m, files, s) :: ActualHash(rules, m, files, s)
  }

  function CountsIn(rules: Rules, m: FrozenManifest, files: Files, splits: seq<Split>): map<Split, Counts> {
    map s | s in splits && Hashed(rules, m, files, s) :: ActualCount(rules, m, files, s)
  }

  lemma LoadedOne(rules: Rules, m: FrozenManifest, files: Files, splits: seq<Split>, s: Split)
    ensures LoadedIn(rules, m, files, splits + [s])
         == if Loaded(rules, m, files, s).Some?
            then LoadedIn(rules, m, files, splits)[s := Loaded(rules, m, files, s).value]
            else LoadedIn(rules, m, files, splits)
  {
    hide Loaded;
    assert forall t :: t in splits + [s] <==> t in splits || t == s;
  }

  lemma HashedOne(rules: Rules, m: FrozenManifest, files: Files, splits: seq<Split>, s: Split)
    ensures HashesIn(rules, m, files, splits + [s])
         == if Hashed(rules, m, files, s)
            then HashesIn(rules, m, files, splits)[s := ActualHash(rules, m, files, s)]
            else HashesIn(rules, m, files, splits)
  {
    hide Hashed, ActualHash;
    assert forall t :: t in splits + [s] <==> t in splits || t == s;
  }

  lemma CountedOne(rules: Rules, m: FrozenManifest, files: Files, splits: seq<Split>, s: Split)
    ensures CountsIn(rules, m, files, splits + [s])
         == if Hashed(rules, m, files, s)
            then CountsIn(rules, m, files, splits)[s := ActualCount(rules, m, files, s)]
            else CountsIn(rules, m, files, splits)
  {
    hide Hashed, ActualCount;
    assert forall t :: t in splits + [s] <==> t in splits || t == s;
  }

  function ActualHash(rules: Rules, m: FrozenManifest, files: Files, s: Split): Digest
    requires Hashed(rules, m, files, s)
  {
    SplitHash(Loaded(rules, m, files, s).value, s)
  }

  function ActualCount(rules: Rules, m: FrozenManifest, files: Files, s: Split): Counts
    requires Hashed(rules, m, files, s)
  {
    CountsOf(Loaded(rules, m, files, s).value)
  }

  lemma ConsistentIsReadable(rules: Rules, files: Files)
    ensures Consistent(rules, files) ==> ReadableManifest(files)
  {
  }

  lemma NothingRead(rules: Rules, w: Wording, m: FrozenManifest, files: Files)
    ensures ReadSoFar(rules, w, m, files, 0, [], map[], map[], map[])
  {
  }

  lemma ReadOne(rules: Rules, w: Wording, m: FrozenManifest, files: Files, i: nat, issues: seq<ReleaseIssue>,
                loaded: map<Split, Dataset>, hashes: map<Split, Digest>, counts: map<Split, Counts>)
    requires i < |SPLITS| && ReadSoFar(rules, w, m, files, i, issues, loaded, hashes, counts)
    ensures Hashed(rules, m, files, SPLITS[i]) ==> Loaded(rules, m, files, SPLITS[i]).Some?
    ensures ReadSoFar(rules, w, m, files, i + 1, issues + SplitIssues(rules, w, m, files, SPLITS[i]),
                      if Loaded(rules, m, files, SPLITS[i]).Some?
                      then loaded[SPLITS[i] := Loaded(rules, m, files, SPLITS[i]).value] else loaded,
                      if Hashed(rules, m, files, SPLITS[i])
                      then hashes[SPLITS[i] := ActualHash(rules, m, files, SPLITS[i])] else hashes,
                      if Hashed(rules, m, files, SPLITS[i])
                      then counts[SPLITS[i] := ActualCount(rules, m, files, SPLITS[i])] else counts)
  {
    HashedIsLoaded(rules, m, files, SPLITS[i]);
    hide Loaded, Hashed, ActualHash, ActualCount, SplitIssues, LoadedIn, HashesIn, CountsIn;
    assert SPLITS[..i + 1] == SPLITS[..i] + [SPLITS[i]];
    LoadedOne(rules, m, files, SPLITS[..i], SPLITS[i]);
    HashedOne(rules, m, files, SPLITS[..i], SPLITS[i]);
    CountedOne(rules, m, files, SPLITS[..i], SPLITS[i]);
  }

  lemma AllRead(rules: Rules, w: Wording, m: FrozenManifest, files: Files, issues: seq<ReleaseIssue>,
                loaded: map<Split, Dataset>, hashes: map<Split, Digest>, counts: map<Split, Counts>)
    requires ReadSoFar(rules, w, m, files, 3, issues, loaded, hashes, counts)
    ensures issues == AllSplitIssues(rules, w, m, files, 3) && loaded == LoadedSplits(rules, m, files)
    ensures hashes == ActualHashes(rules, m, files) && counts == ActualCountsBySplit(rules, m, files)
  {
    hide Loaded, Hashed, SplitHash, CountsOf;
    assert SPLITS[..3] == [Train, Dev, Test];
    assert forall s: Split :: s in [Train, Dev, Test] <==> s in {Train, Dev, Test};
  }
}
