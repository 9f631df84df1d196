/**
 Publishing a release: the checks before writing, and the protocol by which concurrent freezers of one
 name and version write to private directories and rename one of them into place.
 */
module Publish {
  import opened Basics
  import opened Splits
  import opened Gold
  import opened Freeze
  import opened FreezeResults

  datatype FreezeError = BadIdentity | MissingSplit | SplitMismatch | MetadataMismatch | AlreadyFrozen | WriteFailed | VerificationFailed

  // ----- the checks before writing -----

  predicate MetadataMatches(d: Dataset, splitManifest: Manifest, p: Provenance) {
    && d.metadata.DatasetMetadata? && d.metadata.splitManifest == SplitManifestHash(splitManifest)
    && d.metadata.compiler == p.compiler && d.metadata.workingSchema == p.workingSchema
  }

  function AssignedSplits(m: Manifest): set<Split> {
    set a | a in m.assignments :: a.1
  }

  /** Checks the inputs and lays out the release files. */
  method PrepareRelease(rules: Rules, d: Dataset, name: string, version: string, splitManifest: Manifest,
                        p: Provenance, required: seq<Split>, now: int)
    returns (r: Result<Files, FreezeError>)
    requires ValidDataset(rules, d)
    ensures r.Success?
       <==> ValidRelease(name, version) && d.name == name
            && (forall s :: s in required ==> s in Present(d.cases))
            && (set s | s in Present(d.cases)) == AssignedSplits(splitManifest) && MetadataMatches(d, splitManifest, p)
    ensures r.Success? ==> Consistent(rules, r.value) && r.value[MANIFEST_FILENAME].manifest.name == name
    ensures r.Success? ==> r.value[MANIFEST_FILENAME].manifest.datasetHash == DatasetHash(d)
  {
    assert ValidName(d.name);
    hide ValidDataset, PortableSegment, Consistent, DatasetHash, SplitManifestHash, CorpusHash, HashFromSplits, CountsOf, BuildManifest,
      SplitDataset, Candidate, Present;
    if !PortableSegment(name) || !PortableSegment(version) || d.name != name {
      return Failure(BadIdentity);
    }
    var splits := SplitDatasets(d);
    var present := set s | s in splits;
    assert present == set s | s in Present(d.cases);
    if !forall s :: s in required ==> s in present {
      return Failure(MissingSplit);
    }
    if present != AssignedSplits(splitManifest) {
      return Failure(SplitMismatch);
    }
    if !MetadataMatches(d, splitManifest, p) {
      return Failure(MetadataMismatch);
    }
    if |version| > 128 {
      return Failure(WriteFailed);
    }
    var m := BuildManifest(d, version, splitManifest, p, now);
    BuiltNames(d, version, splitManifest, p, now);
    FreezeThenVerify(rules, d, version, splitManifest, p, now);
    ManifestCarriesDatasetHash(d, version, splitManifest, p, now);
    CandidateFiles(splits, m, Train);
    return Success(Candidate(splits, m));
  }

  // ----- the protocol -----

  datatype Phase = Idle | Writing | Written | Verified | Rechecked | Published | Failed(error: FreezeError)

  /** One freezer: the files it means to publish and its temporary directory. */
  datatype Freezer = Freezer(expected: Files, temp: Option<Files>, phase: Phase)

  /** The final directory, if it exists, and the freezers. */
  datatype State = State(final: Option<Files>, freezers: seq<Freezer>)

  /**
   One step of freezer `i`. Writes may go wrong in any way; `reported` says whether verification reports
   damage or raises on it, `cleaned` whether the temporary directory of a failing freezer could be removed. Outside is another program creating the directory.
   */
  datatype Action =
    | Check(i: nat, mkdirOk: bool)
    | Write(i: nat, name: string, content: Content)
    | Finish(i: nat)
    | Verify(i: nat, reported: bool, cleaned: bool)
    | Recheck(i: nat, cleaned: bool)
    | Rename(i: nat, renameOk: bool, cleaned: bool)
    | IoError(i: nat, cleaned: bool)
    | Outside(files: Files)

  function Fail(f: Freezer, error: FreezeError, cleaned: bool): Freezer {
    f.(phase := Failed(error), temp := if cleaned then None else f.temp)
  }

  /** Round-trip verification: the release is consistent and reads back as expected. */
  ghost predicate RoundTrips(rules: Rules, files: Files, expected: Files) {
    Consistent(rules, files) && forall name :: name in expected ==> name in files && files[name] == expected[name]
  }

  predicate InProgress(p: Phase) {
    p == Writing || p == Written || p == Verified || p == Rechecked
  }

  /** A rename succeeds only onto nothing or onto an empty directory. */
  predicate CanRename(final: Option<Files>) {
    final.None? || final.value == map[]
  }

  /** The freezer after one of its own steps, given the final directory; a step out of turn changes nothing. */
  ghost function Moved(rules: Rules, f: Freezer, final: Option<Files>, a: Action): Freezer {
    match a
    case Check(_, mkdirOk) =>
      if f.phase != Idle then f
      else if final.Some? then f.(phase := Failed(AlreadyFrozen))
      else if !mkdirOk then f.(phase := Failed(WriteFailed))
      else f.(phase := Writing, temp := Some(map[]))
    case Write(_, name, content) =>
      if f.phase == Writing && f.temp.Some? && name !in f.temp.value then f.(temp := Some(f.temp.value[name := content])) else f
    case Finish(_) =>
      if f.phase == Writing then f.(phase := Written) else f
    case Verify(_, reported, cleaned) =>
      if f.phase != Written then f
      else if f.temp.Some? && RoundTrips(rules, f.temp.value, f.expected) then f.(phase := Verified)
      else Fail(f, if reported then VerificationFailed else WriteFailed, cleaned)
    case Recheck(_, cleaned) =>
      if f.phase != Verified then f else if final.Some? then Fail(f, AlreadyFrozen, cleaned) else f.(phase := Rechecked)
    case Rename(_, renameOk, cleaned) =>
      if f.phase != Rechecked then f
      else if renameOk && CanRename(final) then f.(phase := Published, temp := None)
      else Fail(f, if final.Some? then AlreadyFrozen else WriteFailed, cleaned)
    case IoError(_, cleaned) =>
      if InProgress(f.phase) then Fail(f, WriteFailed, cleaned) else f
    case Outside(_) => f
  }

  predicate Acts(s: State, a: Action) {
    !a.Outside? && a.i < |s.freezers|
  }

  ghost function Step(rules: Rules, s: State, a: Action): State {
    if a.Outside? then if s.final.None? then s.(final := Some(a.files)) else s
    else if !Acts(s, a) then s
    else
      var f := s.freezers[a.i];
      var g := Moved(rules, f, s.final, a);
      State(if f.phase != Published && g.phase == Published then f.temp else s.final, s.freezers[a.i := g])
  }

  ghost function StateAfter(rules: Rules, s: State, actions: seq<Action>, k: nat): State
    requires k <= |actions|
  {
    if k == 0 then s else Step(rules, StateAfter(rules, s, actions, k - 1), actions[k - 1])
  }

  ghost predicate Initial(s: State) {
    forall i :: 0 <= i < |s.freezers| ==> s.freezers[i].phase == Idle && s.freezers[i].temp == None
  }

  ghost predicate SoundFreezer(rules: Rules, f: Freezer, final: Option<Files>) {
    && (f.phase == Verified || f.phase == Rechecked ==> f.temp.Some? && RoundTrips(rules, f.temp.value, f.expected))
    && (f.phase == Published ==> final.Some? && RoundTrips(rules, final.value, f.expected))
  }

  /** What every interleaving keeps: verified work stays verified, and at most one freezer has published. */
  ghost predicate Inv(rules: Rules, s: State) {
    && (forall i :: 0 <= i < |s.freezers| ==> SoundFreezer(rules, s.freezers[i], s.final))
    && (forall i, j :: 0 <= i < j < |s.freezers| ==> s.freezers[i].phase != Published || s.freezers[j].phase != Published)
  }

  ghost predicate SomePublished(s: State) {
    exists i :: 0 <= i < |s.freezers| && s.freezers[i].phase == Published
  }

  /** A verified release is a non-empty directory. */
  lemma ReleaseIsNotEmpty(rules: Rules, files: Files, expected: Files)
    requires RoundTrips(rules, files, expected)
    ensures files != map[]
  {
    assert MANIFEST_FILENAME in files;
  }

  lemma PublishedBlocksRename(rules: Rules, s: State)
    requires Inv(rules, s) && SomePublished(s)
    ensures s.final.Some? && !CanRename(s.final)
  {
    var i :| 0 <= i < |s.freezers| && s.freezers[i].phase == Published;
    ReleaseIsNotEmpty(rules, s.final.value, s.freezers[i].expected);
  }

  /** A freezer publishes only by renaming what it verified. */
  lemma MovedIsSound(rules: Rules, f: Freezer, final: Option<Files>, a: Action)
    requires SoundFreezer(rules, f, final)
    ensures var g := Moved(rules, f, final, a);
            && (f.phase != Published && g.phase == Published ==>
                  a.Rename? && CanRename(final) && f.temp.Some? && SoundFreezer(rules, g, f.temp))
            && (f.phase == Published || g.phase != Published ==> SoundFreezer(rules, g, final))
            && (f.phase == Published || f.phase.Failed? ==> g == f)
            && g.expected == f.expected
  {
    hide RoundTrips;
  }

  lemma StepKeepsInv(rules: Rules, s: State, a: Action)
    requires Inv(rules, s)
    ensures Inv(rules, Step(rules, s, a))
  {
    hide Moved, CanRename;
    if SomePublished(s) {
      PublishedBlocksRename(rules, s);
    }
    if Acts(s, a) {
      MovedIsSound(rules, s.freezers[a.i], s.final, a);
    }
    hide RoundTrips;
  }

  /** A published release never changes. */
  lemma StepKeepsRelease(rules: Rules, s: State, a: Action)
    requires Inv(rules, s) && SomePublished(s)
    ensures Step(rules, s, a).final == s.final && SomePublished(Step(rules, s, a))
  {
    hide Moved, CanRename;
    PublishedBlocksRename(rules, s);
    if Acts(s, a) {
      MovedIsSound(rules, s.freezers[a.i], s.final, a);
      var k :| 0 <= k < |s.freezers| && s.freezers[k].phase == Published;
      assert Step(rules, s, a).freezers[k].phase == Published;
    }
  }

  lemma {:induction false} RunKeepsInv(rules: Rules, s: State, actions: seq<Action>, k: nat)
    requires Initial(s) && k <= |actions|
    ensures Inv(rules, StateAfter(rules, s, actions, k))
  {
    hide Step;
    if k > 0 {
      RunKeepsInv(rules, s, actions, k - 1);
      StepKeepsInv(rules, StateAfter(rules, s, actions, k - 1), actions[k - 1]);
    }
  }

  /** In every interleaving at most one freezer publishes, and what stands published passed verification against its own inputs. */
  lemma AtMostOnePublishes(rules: Rules, s: State, actions: seq<Action>, i: nat, j: nat)
    requires Initial(s)
    requires var t := StateAfter(rules, s, actions, |actions|);
             i < |t.freezers| && j < |t.freezers| && t.freezers[i].phase == Published && t.freezers[j].phase == Published
    ensures i == j
    ensures var t := StateAfter(rules, s, actions, |actions|);
            t.final.Some? && Consistent(rules, t.final.value) && RoundTrips(rules, t.final.value, t.freezers[i].expected)
  {
    RunKeepsInv(rules, s, actions, |actions|);
  }

  /** From the moment a release is published it stays as it is, whatever the freezers do. */
  lemma {:induction false} ReleaseNeverChanges(rules: Rules, s: State, actions: seq<Action>, k: nat, l: nat)
    requires Initial(s) && k <= l <= |actions| && SomePublished(StateAfter(rules, s, actions, k))
    ensures StateAfter(rules, s, actions, l).final == StateAfter(rules, s, actions, k).final
    ensures SomePublished(StateAfter(rules, s, actions, l))
    decreases l
  {
    hide Step, Inv;
    if k < l {
      ReleaseNeverChanges(rules, s, actions, k, l - 1);
      RunKeepsInv(rules, s, actions, l - 1);
      StepKeepsRelease(rules, StateAfter(rules, s, actions, l - 1), actions[l - 1]);
    }
  }

  /** A freezer that fails, at whatever step, leaves the final directory and the other freezers alone. */
  lemma LoserTouchesNothing(rules: Rules, s: State, a: Action)
    requires Acts(s, a) && !s.freezers[a.i].phase.Failed?
    requires Step(rules, s, a).freezers[a.i].phase.Failed?
    ensures Step(rules, s, a).final == s.final
    ensures forall j :: 0 <= j < |s.freezers| && j != a.i ==> Step(rules, s, a).freezers[j] == s.freezers[j]
  {
    hide RoundTrips;
  }

  /** The final directory appears or is replaced only by a rename of verified files onto nothing or an empty directory, or from outside. */
  lemma OnlyVerifiedFilesAppear(rules: Rules, s: State, a: Action)
    requires Inv(rules, s) && Step(rules, s, a).final != s.final
    ensures CanRename(s.final)
    ensures a.Outside? || (Acts(s, a) && a.Rename? && s.freezers[a.i].phase == Rechecked
                           && Step(rules, s, a).final == s.freezers[a.i].temp
                           && RoundTrips(rules, Step(rules, s, a).final.value, s.freezers[a.i].expected))
  {
    hide RoundTrips;
  }

  /** A release already in place makes a later freezer fail with AlreadyFrozen, in whichever step it notices. */
  lemma ReleaseInPlaceIsReported(rules: Rules, f: Freezer, final: Option<Files>, a: Action)
    requires final.Some? && !CanRename(final)
    requires (f.phase == Idle && a.Check?) || (f.phase == Verified && a.Recheck?) || (f.phase == Rechecked && a.Rename?)
    ensures Moved(rules, f, final, a).phase == Failed(AlreadyFrozen)
  {
    hide RoundTrips;
  }

  // ----- an undisturbed freezer -----

  function Writes(names: seq<string>, expected: Files): seq<Action>
    requires forall n :: n in names ==> n in expected
  {
    seq(|names|, k requires 0 <= k < |names| => Write(0, names[k], expected[names[k]]))
  }

  /** The part of the expected files whose names are in the list. */
  function Listed(names: seq<string>, expected: Files): Files {
    map n | n in names && n in expected :: expected[n]
  }

  /** One freezer on its own, before anything is published. */
  function Alone(expected: Files, temp: Option<Files>, phase: Phase): State {
    State(None, [Freezer(expected, temp, phase)])
  }

  lemma AloneSteps(rules: Rules, s: State, a: Action)
    requires s.final.None? && |s.freezers| == 1 && Acts(s, a) && !a.Rename?
    ensures var f := Moved(rules, s.freezers[0], None, a);
            f.phase != Published ==> Step(rules, s, a) == State(None, [f])
  {
    hide RoundTrips;
  }

  lemma OneWrite(rules: Rules, expected: Files, files: Files, n: string)
    requires n in expected && n !in files
    ensures Step(rules, Alone(expected, Some(files), Writing), Write(0, n, expected[n]))
         == Alone(expected, Some(files[n := expected[n]]), Writing)
  {
    hide RoundTrips;
    AloneSteps(rules, Alone(expected, Some(files), Writing), Write(0, n, expected[n]));
  }

  lemma ListedOne(names: seq<string>, expected: Files, k: nat)
    requires 0 < k <= |names| && Distinct(names) && names[k - 1] in expected
    ensures names[k - 1] !in Listed(names[..k - 1], expected)
    ensures Listed(names[..k], expected) == Listed(names[..k - 1], expected)[names[k - 1] := expected[names[k - 1]]]
  {
    var n := names[k - 1];
    assert names[..k] == names[..k - 1] + [n];
    assert n !in names[..k - 1];
  }

  lemma {:induction false} WritingProgress(rules: Rules, names: seq<string>, expected: Files, k: nat)
    requires Distinct(names) && (forall n :: n in names ==> n in expected) && k <= |names|
    ensures StateAfter(rules, Alone(expected, Some(map[]), Writing), Writes(names, expected), k)
         == Alone(expected, Some(Listed(names[..k], expected)), Writing)
  {
    hide RoundTrips, Step;
    if k == 0 {
      assert Listed(names[..0], expected) == map[];
    } else {
      WritingProgress(rules, names, expected, k - 1);
      ListedOne(names, expected, k);
      OneWrite(rules, expected, Listed(names[..k - 1], expected), names[k - 1]);
      hide Listed, Alone, Distinct;
    }
  }

  lemma {:induction false} RunInTwoParts(rules: Rules, s: State, a: seq<Action>, b: seq<Action>, k: nat)
    requires k <= |b|
    ensures StateAfter(rules, s, a + b, |a| + k)
         == StateAfter(rules, StateAfter(rules, s, a, |a|), b, k)
  {
    hide Step;
    if k == 0 {
      Prefix(rules, s, a, b, |a|);
    } else {
      RunInTwoParts(rules, s, a, b, k - 1);
    }
  }

  lemma {:induction false} Prefix(rules: Rules, s: State, a: seq<Action>, b: seq<Action>, k: nat)
    requires k <= |a|
    ensures StateAfter(rules, s, a + b, k) == StateAfter(rules, s, a, k)
  {
    hide Step;
    if k > 0 {
      Prefix(rules, s, a, b, k - 1);
    }
  }

  const CLOSING := [Finish(0), Verify(0, true, true), Recheck(0, true), Rename(0, true, true)]

  lemma Closing(rules: Rules, expected: Files)
    requires Consistent(rules, expected)
    ensures StateAfter(rules, Alone(expected, Some(expected), Writing), CLOSING, 4)
         == State(Some(expected), [Freezer(expected, None, Published)])
  {
    hide Consistent, Step, Moved;
    var written, verified := Alone(expected, Some(expected), Written), Alone(expected, Some(expected), Verified);
    var rechecked := Alone(expected, Some(expected), Rechecked);
    FinishAlone(rules, expected);
    assert StateAfter(rules, Alone(expected, Some(expected), Writing), CLOSING, 1) == written;
    assert StateAfter(rules, Alone(expected, Some(expected), Writing), CLOSING, 2) == verified;
    assert StateAfter(rules, Alone(expected, Some(expected), Writing), CLOSING, 3) == rechecked;
  }

  lemma FinishAlone(rules: Rules, expected: Files)
    requires Consistent(rules, expected)
    ensures Step(rules, Alone(expected, Some(expected), Writing), CLOSING[0]) == Alone(expected, Some(expected), Written)
    ensures Step(rules, Alone(expected, Some(expected), Written), CLOSING[1]) == Alone(expected, Some(expected), Verified)
    ensures Step(rules, Alone(expected, Some(expected), Verified), CLOSING[2]) == Alone(expected, Some(expected), Rechecked)
    ensures Step(rules, Alone(expected, Some(expected), Rechecked), CLOSING[3])
         == State(Some(expected), [Freezer(expected, None, Published)])
  {
    hide Consistent;
  }

  /** Without faults and competitors, a freezer of consistent files publishes exactly them. */
  lemma UndisturbedFreezePublishes(rules: Rules, expected: Files, names: seq<string>)
    requires Consistent(rules, expected) && Distinct(names) && forall n :: n in names <==> n in expected
    ensures var actions := [Check(0, true)] + Writes(names, expected) + CLOSING;
            StateAfter(rules, Alone(expected, None, Idle), actions, |actions|)
              == State(Some(expected), [Freezer(expected, None, Published)])
  {
    hide Consistent, Step, Moved;
    var start, opening, writes := Alone(expected, None, Idle), [Check(0, true)], Writes(names, expected);
    CheckAlone(rules, expected);
    assert StateAfter(rules, start, opening, 1) == Alone(expected, Some(map[]), Writing);
    WritingProgress(rules, names, expected, |names|);
    assert names[..|names|] == names && Listed(names, expected) == expected;
    RunInTwoParts(rules, start, opening, writes, |writes|);
    assert |opening + writes| == |opening| + |writes|;
    RunInTwoParts(rules, start, opening + writes, CLOSING, 4);
    Closing(rules, expected);
  }

  lemma CheckAlone(rules: Rules, expected: Files)
    ensures StateAfter(rules, Alone(expected, None, Idle), [Check(0, true)], 1) == Alone(expected, Some(map[]), Writing)
  {
    assert StateAfter(rules, Alone(expected, None, Idle), [Check(0, true)], 0) == Alone(expected, None, Idle);
  }
}
