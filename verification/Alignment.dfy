/** The conservative one-to-one aligner between gold elements and predicted elements. */
module Alignment {
  import opened Basics

  datatype Anchor = Anchor(
    opcPart: string, sourceZone: Option<string>, sourceKind: Option<string>, occurrence: Option<nat>,
    sourceAnchor: Option<(string, string)>)

  datatype GoldElement = GoldElement(id: string, anchor: Anchor, text: Option<string>, required: bool)

  /** A predicted element with its source attributes already read; strings that are absent are None. */
  datatype Element = Element(
    id: string, rawText: Option<string>, text: Option<string>, opcPart: Option<string>, zone: Option<string>,
    noteKind: Option<string>, nativeTable: bool, hasCellIndex: bool, hasRowIndex: bool, hasAltChunk: bool,
    separatorKind: Option<string>, sourceAnchor: Option<(string, string)>)

  datatype Status = Matched | GoldUnmatched | PredUnmatched | Ambiguous

  datatype How = ExplicitSourceAnchor | ExactSourceText | NormalizedText | SourceKindOccurrence | NoMethod

  datatype Match = Match(status: Status, goldId: Option<string>, predictedId: Option<string>, how: How, candidates: seq<string>)

  datatype Outcome = Outcome(matches: seq<Match>, goldToPredicted: map<string, string>, predictedToGold: map<string, string>)

  function IdOf(e: Element): string { e.id }

  function GoldIdOf(g: GoldElement): string { g.id }

  predicate NonEmpty(s: Option<string>) { s.Some? && s.value != "" }

  function SourceKind(e: Element): string {
    if NonEmpty(e.noteKind) then "note:" + e.noteKind.value
    else if e.nativeTable then if e.hasCellIndex then "table_cell" else if e.hasRowIndex then "table_row" else "table"
    else if e.hasAltChunk then "alt_chunk"
    else if NonEmpty(e.separatorKind) then "separator:" + e.separatorKind.value
    else if e.sourceAnchor.Some? then "anchor:" + e.sourceAnchor.value.0
    else "text"
  }

  // ----- occurrence numbers -----

  type Key = (Option<string>, Option<string>, string)

  function KeyOf(e: Element): Key {
    (e.opcPart, e.zone, SourceKind(e))
  }

  /** How many elements of `es` have the given part, zone and kind. */
  function KeyCount(es: seq<Element>, key: Key): nat {
    if es == [] then 0 else KeyCount(es[..|es| - 1], key) + (if KeyOf(es[|es| - 1]) == key then 1 else 0)
  }

  /** The number of earlier elements with the part, zone and kind of element `i`. */
  function Occurrence(es: seq<Element>, i: nat): nat
    requires i < |es|
  {
    KeyCount(es[..i], KeyOf(es[i]))
  }

  function Counter(counters: map<Key, nat>, key: Key): nat {
    if key in counters then counters[key] else 0
  }

  lemma DistinctIds(es: seq<Element>, i: nat, j: nat)
    requires Distinct(Map(IdOf, es)) && i < j < |es|
    ensures es[i].id != es[j].id
  {
    assert Map(IdOf, es)[i] != Map(IdOf, es)[j];
  }

  /** `table` gives the first `n` elements their kind and occurrence number. */
  ghost predicate Tabulated(table: map<string, (string, nat)>, es: seq<Element>, n: nat)
    requires n <= |es|
  {
    forall i :: 0 <= i < n ==> es[i].id in table && table[es[i].id] == (SourceKind(es[i]), Occurrence(es, i))
  }

  lemma TabulateOne(table: map<string, (string, nat)>, es: seq<Element>, n: nat)
    requires n < |es| && Distinct(Map(IdOf, es)) && Tabulated(table, es, n)
    ensures Tabulated(table[es[n].id := (SourceKind(es[n]), Occurrence(es, n))], es, n + 1)
  {
    hide Distinct, SourceKind, Occurrence;
    forall i | 0 <= i < n
      ensures es[i].id != es[n].id
    {
      DistinctIds(es, i, n);
    }
  }

  ghost predicate Counted(counters: map<Key, nat>, es: seq<Element>) {
    forall key :: Counter(counters, key) == KeyCount(es, key)
  }

  lemma CountOne(counters: map<Key, nat>, es: seq<Element>, n: nat)
    requires n < |es| && Counted(counters, es[..n])
    ensures Counted(counters[KeyOf(es[n]) := Counter(counters, KeyOf(es[n])) + 1], es[..n + 1])
  {
    hide KeyOf;
    assert es[..n + 1][..n] == es[..n] && es[..n + 1][n] == es[n];
    var k := KeyOf(es[n]);
    var next := counters[k := Counter(counters, k) + 1];
    forall key
      ensures Counter(next, key) == KeyCount(es[..n + 1], key)
    {
      assert Counter(counters, key) == KeyCount(es[..n], key);
      assert KeyCount(es[..n + 1], key) == KeyCount(es[..n], key) + (if k == key then 1 else 0);
    }
  }

  method SourceKindOccurrences(es: seq<Element>) returns (output: map<string, (string, nat)>)
    requires Distinct(Map(IdOf, es))
    ensures Tabulated(output, es, |es|)
  {
    hide SourceKind, Distinct, KeyCount, Tabulated, KeyOf;
    var counters: map<Key, nat> := map[];
    output := map[];
    assert Tabulated(output, es, 0) && Counted(counters, es[..0]) by {
      NothingCounted(es);
    }
    for i := 0 to |es|
      invariant Tabulated(output, es, i) && Counted(counters, es[..i])
    {
      var item := es[i];
      var key := KeyOf(item);
      var occurrence := Counter(counters, key);
      TabulateOne(output, es, i);
      CountOne(counters, es, i);
      counters := counters[key := occurrence + 1];
      output := output[item.id := (SourceKind(item), occurrence)];
    }
  }

  lemma NothingCounted(es: seq<Element>)
    ensures Tabulated(map[], es, 0) && Counted(map[], es[..0])
  {
  }

  lemma {:induction false} KeyCountGrows(es: seq<Element>, i: nat, j: nat, key: Key)
    requires i <= j <= |es|
    ensures KeyCount(es[..i], key) <= KeyCount(es[..j], key)
    decreases j
  {
    if i < j {
      KeyCountGrows(es, i, j - 1, key);
      assert es[..j][..j - 1] == es[..j - 1];
    }
  }

  /** Part, zone, kind and occurrence number together identify an element. */
  lemma OccurrenceIdentifies(es: seq<Element>, i: nat, j: nat)
    requires i < |es| && j < |es| && KeyOf(es[i]) == KeyOf(es[j]) && Occurrence(es, i) == Occurrence(es, j)
    ensures i == j
  {
    var key := KeyOf(es[i]);
    var a, b := if i < j then i else j, if i < j then j else i;
    if a < b {
      assert es[..a + 1][..a] == es[..a];
      KeyCountGrows(es, a + 1, b, key);
    }
  }

  // ----- candidates -----

  /** The ids of the elements at positions where `p` holds, in document order. */
  function Select(es: seq<Element>, p: int -> bool): (ids: seq<string>)
    ensures forall id :: id in ids ==> exists i :: 0 <= i < |es| && p(i) && es[i].id == id
    ensures forall i :: 0 <= i < |es| && p(i) ==> es[i].id in ids
    ensures |ids| <= |es|
  {
    if es == [] then [] else
      var last := |es| - 1;
      var rest := Select(es[..last], p);
      assert forall i :: 0 <= i < last ==> es[..last][i] == es[i];
      if p(last) then rest + [es[last].id] else rest
  }

  predicate InPlace(g: GoldElement, e: Element) {
    e.opcPart == Some(g.anchor.opcPart) && (g.anchor.sourceZone.Some? ==> e.zone == g.anchor.sourceZone)
  }

  predicate Available(es: seq<Element>, unmatched: set<string>, g: GoldElement, i: int) {
    0 <= i < |es| && es[i].id in unmatched && InPlace(g, es[i])
  }

  function ByAnchor(g: GoldElement, es: seq<Element>, unmatched: set<string>): seq<string> {
    Select(es, i => Available(es, unmatched, g, i) && es[i].sourceAnchor == g.anchor.sourceAnchor)
  }

  function ByRawText(g: GoldElement, es: seq<Element>, unmatched: set<string>): seq<string> {
    Select(es, i => Available(es, unmatched, g, i) && es[i].rawText == g.text)
  }

  function ByText(g: GoldElement, es: seq<Element>, unmatched: set<string>): seq<string> {
    Select(es, i => Available(es, unmatched, g, i) && es[i].text == g.text)
  }

  function ByOccurrence(g: GoldElement, es: seq<Element>, unmatched: set<string>): seq<string> {
    Select(es, i => Available(es, unmatched, g, i)
                    && Some(SourceKind(es[i])) == g.anchor.sourceKind && Some(Occurrence(es, i)) == g.anchor.occurrence)
  }

  function OfKind(kind: string, ids: seq<string>, es: seq<Element>): seq<string> {
    Select(es, i => 0 <= i < |es| && es[i].id in ids && SourceKind(es[i]) == kind)
  }

  /** Several text candidates are narrowed to those of the expected kind, if there are any. */
  function Narrow(g: GoldElement, ids: seq<string>, es: seq<Element>): seq<string> {
    if g.anchor.sourceKind.None? || |ids| <= 1 then ids
    else
      var narrowed := OfKind(g.anchor.sourceKind.value, ids, es);
      if narrowed != [] then narrowed else ids
  }

  function Candidates(g: GoldElement, es: seq<Element>, unmatched: set<string>): (seq<string>, How) {
    if g.anchor.sourceAnchor.Some? && ByAnchor(g, es, unmatched) != [] then
      (ByAnchor(g, es, unmatched), ExplicitSourceAnchor)
    else if g.text.Some? && ByRawText(g, es, unmatched) != [] then
      (Narrow(g, ByRawText(g, es, unmatched), es), ExactSourceText)
    else if g.text.Some? && ByText(g, es, unmatched) != [] then
      (Narrow(g, ByText(g, es, unmatched), es), NormalizedText)
    else if g.anchor.sourceKind.Some? && g.anchor.occurrence.Some? && ByOccurrence(g, es, unmatched) != [] then
      (ByOccurrence(g, es, unmatched), SourceKindOccurrence)
    else
      ([], NoMethod)
  }

  lemma {:induction false} SelectDistinct(es: seq<Element>, p: int -> bool)
    requires Distinct(Map(IdOf, es))
    ensures Distinct(Select(es, p))
  {
    if es != [] {
      var last := |es| - 1;
      var ids := Map(IdOf, es);
      assert forall i, j :: 0 <= i < j < last ==> ids[i] != ids[j];
      assert Map(IdOf, es[..last]) == ids[..last];
      SelectDistinct(es[..last], p);
      forall i | 0 <= i < last
        ensures es[..last][i].id != es[last].id
      {
        DistinctIds(es, i, last);
      }
      DistinctAppend(Select(es[..last], p), es[last].id);
    }
  }

  /** An element the method `how` may offer for the gold element. */
  predicate Fits(g: GoldElement, es: seq<Element>, how: How, i: nat)
    requires i < |es|
  {
    && InPlace(g, es[i])
    && match how
       case ExplicitSourceAnchor => g.anchor.sourceAnchor.Some? && es[i].sourceAnchor == g.anchor.sourceAnchor
       case ExactSourceText => g.text.Some? && es[i].rawText == g.text
       case NormalizedText => g.text.Some? && es[i].text == g.text
       case SourceKindOccurrence =>
         Some(SourceKind(es[i])) == g.anchor.sourceKind && Some(Occurrence(es, i)) == g.anchor.occurrence
       case NoMethod => false
  }

  ghost predicate Offered(g: GoldElement, es: seq<Element>, unmatched: set<string>, how: How, id: string) {
    id in unmatched && exists i: nat :: i < |es| && es[i].id == id && Fits(g, es, how, i)
  }

  lemma NarrowSelects(g: GoldElement, ids: seq<string>, es: seq<Element>)
    requires Distinct(Map(IdOf, es)) && Distinct(ids)
    ensures Distinct(Narrow(g, ids, es)) && forall id :: id in Narrow(g, ids, es) ==> id in ids
    ensures ids != [] ==> Narrow(g, ids, es) != []
  {
    if g.anchor.sourceKind.Some? {
      SelectDistinct(es, i => 0 <= i < |es| && es[i].id in ids && SourceKind(es[i]) == g.anchor.sourceKind.value);
    }
  }

  lemma ListsDistinct(g: GoldElement, es: seq<Element>, unmatched: set<string>)
    requires Distinct(Map(IdOf, es))
    ensures Distinct(ByAnchor(g, es, unmatched)) && Distinct(ByRawText(g, es, unmatched))
    ensures Distinct(ByText(g, es, unmatched)) && Distinct(ByOccurrence(g, es, unmatched))
  {
    hide Distinct;
    SelectDistinct(es, i => Available(es, unmatched, g, i) && es[i].sourceAnchor == g.anchor.sourceAnchor);
    SelectDistinct(es, i => Available(es, unmatched, g, i) && es[i].rawText == g.text);
    SelectDistinct(es, i => Available(es, unmatched, g, i) && es[i].text == g.text);
    SelectDistinct(es, i => Available(es, unmatched, g, i)
                            && Some(SourceKind(es[i])) == g.anchor.sourceKind && Some(Occurrence(es, i)) == g.anchor.occurrence);
  }

  lemma AnchorOffers(g: GoldElement, es: seq<Element>, unmatched: set<string>)
    ensures g.anchor.sourceAnchor.Some? ==>
              forall id :: id in ByAnchor(g, es, unmatched) ==> Offered(g, es, unmatched, ExplicitSourceAnchor, id)
  {
    hide Select, Occurrence, SourceKind;
  }

  lemma TextOffers(g: GoldElement, es: seq<Element>, unmatched: set<string>)
    requires g.text.Some?
    ensures forall id :: id in ByRawText(g, es, unmatched) ==> Offered(g, es, unmatched, ExactSourceText, id)
    ensures forall id :: id in ByText(g, es, unmatched) ==> Offered(g, es, unmatched, NormalizedText, id)
  {
    hide Select, Occurrence, SourceKind;
  }

  lemma OccurrenceOffers(g: GoldElement, es: seq<Element>, unmatched: set<string>)
    ensures forall id :: id in ByOccurrence(g, es, unmatched) ==> Offered(g, es, unmatched, SourceKindOccurrence, id)
  {
    hide Select, Occurrence, SourceKind;
  }

  /** Candidates are distinct, still unmatched, and fit the gold element by the reported method. */
  lemma CandidatesFit(g: GoldElement, es: seq<Element>, unmatched: set<string>)
    requires Distinct(Map(IdOf, es))
    ensures var c := Candidates(g, es, unmatched);
            && Distinct(c.0) && (c.0 == [] <==> c.1 == NoMethod)
            && forall id :: id in c.0 ==> Offered(g, es, unmatched, c.1, id)
  {
    hide Distinct, Narrow, Offered, ByAnchor, ByRawText, ByText, ByOccurrence;
    ListsDistinct(g, es, unmatched);
    NarrowSelects(g, ByRawText(g, es, unmatched), es);
    NarrowSelects(g, ByText(g, es, unmatched), es);
    AnchorOffers(g, es, unmatched);
    if g.text.Some? {
      TextOffers(g, es, unmatched);
    }
    OccurrenceOffers(g, es, unmatched);
    NothingIsDistinct();
  }

  lemma CandidatesAreUnmatched(g: GoldElement, es: seq<Element>, unmatched: set<string>)
    requires Distinct(Map(IdOf, es))
    ensures forall id :: id in Candidates(g, es, unmatched).0 ==> id in unmatched
  {
    CandidatesFit(g, es, unmatched);
    hide Candidates;
  }

  lemma NothingIsDistinct()
    ensures Distinct<string>([])
  {
  }

  lemma FittingIsListed(g: GoldElement, es: seq<Element>, unmatched: set<string>, i: nat)
    requires i < |es| && es[i].id in unmatched
    ensures Fits(g, es, ExplicitSourceAnchor, i) ==> es[i].id in ByAnchor(g, es, unmatched)
    ensures Fits(g, es, ExactSourceText, i) ==> es[i].id in ByRawText(g, es, unmatched)
    ensures Fits(g, es, NormalizedText, i) ==> es[i].id in ByText(g, es, unmatched)
    ensures Fits(g, es, SourceKindOccurrence, i) ==> es[i].id in ByOccurrence(g, es, unmatched)
  {
    hide InPlace, SourceKind, Occurrence, Select;
  }

  /** The weaker methods are tried only when every stronger one offers nothing. */
  lemma StrongestMethodWins(g: GoldElement, es: seq<Element>, unmatched: set<string>, i: nat)
    requires i < |es| && es[i].id in unmatched
    ensures var how := Candidates(g, es, unmatched).1;
            && (Fits(g, es, ExplicitSourceAnchor, i) ==> how == ExplicitSourceAnchor)
            && (Fits(g, es, ExactSourceText, i) ==> how == ExplicitSourceAnchor || how == ExactSourceText)
            && (Fits(g, es, NormalizedText, i) ==> how != SourceKindOccurrence && how != NoMethod)
            && (Fits(g, es, SourceKindOccurrence, i) ==> how != NoMethod)
  {
    hide ByAnchor, ByRawText, ByText, ByOccurrence, Narrow, Fits;
    FittingIsListed(g, es, unmatched, i);
    FitsNeeds(g, es, i);
  }

  lemma FitsNeeds(g: GoldElement, es: seq<Element>, i: nat)
    requires i < |es|
    ensures Fits(g, es, ExplicitSourceAnchor, i) ==> g.anchor.sourceAnchor.Some?
    ensures Fits(g, es, ExactSourceText, i) || Fits(g, es, NormalizedText, i) ==> g.text.Some?
    ensures Fits(g, es, SourceKindOccurrence, i) ==> g.anchor.sourceKind.Some? && g.anchor.occurrence.Some?
  {
  }

  lemma ListedByOccurrence(g: GoldElement, es: seq<Element>, unmatched: set<string>, id: string) returns (i: nat)
    requires id in ByOccurrence(g, es, unmatched)
    ensures i < |es| && es[i].id == id && Fits(g, es, SourceKindOccurrence, i)
  {
    hide InPlace, SourceKind, Occurrence;
    i :| 0 <= i < |es| && Available(es, unmatched, g, i) && es[i].id == id && Fits(g, es, SourceKindOccurrence, i);
  }

  /** With a zone in the anchor, source kind and occurrence never offer two candidates. */
  lemma OccurrenceIsUnambiguous(g: GoldElement, es: seq<Element>, unmatched: set<string>)
    requires Distinct(Map(IdOf, es)) && g.anchor.sourceZone.Some?
    ensures |ByOccurrence(g, es, unmatched)| <= 1
  {
    ListsDistinct(g, es, unmatched);
    var ids := ByOccurrence(g, es, unmatched);
    if |ids| > 1 {
      hide ByOccurrence, Occurrence, KeyOf, Fits;
      var i := ListedByOccurrence(g, es, unmatched, ids[0]);
      var j := ListedByOccurrence(g, es, unmatched, ids[1]);
      assert i != j;
      FittingKeysAgree(g, es, i, j);
      OccurrenceIdentifies(es, i, j);
    }
  }

  lemma FittingKeysAgree(g: GoldElement, es: seq<Element>, i: nat, j: nat)
    requires i < |es| && j < |es| && g.anchor.sourceZone.Some?
    requires Fits(g, es, SourceKindOccurrence, i) && Fits(g, es, SourceKindOccurrence, j)
    ensures KeyOf(es[i]) == KeyOf(es[j]) && Occurrence(es, i) == Occurrence(es, j)
  {
    hide Occurrence, SourceKind;
  }

  // ----- records -----

  function GoldRecord(g: GoldElement, found: (seq<string>, How)): seq<Match> {
    if |found.0| == 1 then [Match(Matched, Some(g.id), Some(found.0[0]), found.1, [])]
    else if |found.0| > 1 then [Match(Ambiguous, Some(g.id), None, found.1, found.0)]
    else if g.required then [Match(GoldUnmatched, Some(g.id), None, NoMethod, [])]
    else []
  }

  function Taken(found: (seq<string>, How)): set<string> {
    if |found.0| == 1 then {found.0[0]} else {}
  }

  function Leftovers(es: seq<Element>, unmatched: set<string>): seq<Match> {
    if es == [] then []
    else (if es[0].id in unmatched then [Match(PredUnmatched, None, Some(es[0].id), NoMethod, [])] else [])
         + Leftovers(es[1..], unmatched)
  }

  /** The records in order: each gold element against what the earlier ones left, then the leftovers. */
  function Records(gold: seq<GoldElement>, es: seq<Element>, unmatched: set<string>): seq<Match> {
    if gold == [] then Leftovers(es, unmatched)
    else
      var found := Candidates(gold[0], es, unmatched);
      GoldRecord(gold[0], found) + Records(gold[1..], es, unmatched - Taken(found))
  }

  function Ids(es: seq<Element>): set<string> {
    set e | e in es :: e.id
  }

  predicate ValidShape(m: Match)
  {
    match m.status
    case Matched => m.goldId.Some? && m.predictedId.Some? && m.candidates == []
    case GoldUnmatched => m.goldId.Some? && m.predictedId.None?
    case PredUnmatched => m.predictedId.Some? && m.goldId.None?
    case Ambiguous => m.goldId.Some? && m.predictedId.None? && |m.candidates| >= 2
  }

  ghost predicate Pairs(ms: seq<Match>, g: string, p: string) {
    exists k :: 0 <= k < |ms| && ms[k].status == Matched && ms[k].goldId == Some(g) && ms[k].predictedId == Some(p)
  }

  /** The result validators: record shapes, one-to-one inverse maps, and agreement with the records. */
  ghost predicate ValidOutcome(r: Outcome) {
    && (forall k :: 0 <= k < |r.matches| ==> ValidShape(r.matches[k]) && Distinct(r.matches[k].candidates))
    && (forall a, b :: a in r.goldToPredicted && b in r.goldToPredicted && r.goldToPredicted[a] == r.goldToPredicted[b] ==> a == b)
    && (forall a, b :: a in r.predictedToGold && b in r.predictedToGold && r.predictedToGold[a] == r.predictedToGold[b] ==> a == b)
    && (forall g, p :: (g in r.goldToPredicted && r.goldToPredicted[g] == p) <==> (p in r.predictedToGold && r.predictedToGold[p] == g))
    && (forall g, p :: (g in r.goldToPredicted && r.goldToPredicted[g] == p) <==> Pairs(r.matches, g, p))
  }

  function GoldIds(gold: seq<GoldElement>): set<string> {
    set g | g in gold :: g.id
  }

  function PredictedUnmatchedIds(ms: seq<Match>): seq<string> {
    if ms == [] then []
    else (if ms[0].status == PredUnmatched && ms[0].predictedId.Some? then [ms[0].predictedId.value] else [])
         + PredictedUnmatchedIds(ms[1..])
  }

  /** The ids of `left`, in document order. */
  function IdsIn(es: seq<Element>, left: set<string>): seq<string> {
    if es == [] then [] else (if es[0].id in left then [es[0].id] else []) + IdsIn(es[1..], left)
  }

  lemma {:induction false} UnmatchedAppend(a: seq<Match>, b: seq<Match>)
    ensures PredictedUnmatchedIds(a + b) == PredictedUnmatchedIds(a) + PredictedUnmatchedIds(b)
  {
    if a == [] {
      assert a + b == b;
    } else {
      assert (a + b)[1..] == a[1..] + b;
      UnmatchedAppend(a[1..], b);
    }
  }

  lemma {:induction false} LeftoverIds(es: seq<Element>, left: set<string>)
    ensures PredictedUnmatchedIds(Leftovers(es, left)) == IdsIn(es, left)
  {
    if es != [] {
      LeftoverIds(es[1..], left);
      var head := if es[0].id in left then [Match(PredUnmatched, None, Some(es[0].id), NoMethod, [])] else [];
      UnmatchedAppend(head, Leftovers(es[1..], left));
    }
  }

  /** How many records name a gold id, and how many a predicted id. */
  function GoldCount(ms: seq<Match>, id: string): nat {
    if ms == [] then 0 else (if ms[0].goldId == Some(id) then 1 else 0) + GoldCount(ms[1..], id)
  }

  function PredCount(ms: seq<Match>, id: string): nat {
    if ms == [] then 0 else (if ms[0].predictedId == Some(id) then 1 else 0) + PredCount(ms[1..], id)
  }

  lemma {:induction false} CountsAppend(a: seq<Match>, b: seq<Match>, id: string)
    ensures GoldCount(a + b, id) == GoldCount(a, id) + GoldCount(b, id)
    ensures PredCount(a + b, id) == PredCount(a, id) + PredCount(b, id)
  {
    if a == [] {
      assert a + b == b;
    } else {
      assert (a + b)[1..] == a[1..] + b;
      CountsAppend(a[1..], b, id);
    }
  }

  lemma {:induction false} LeftoverCounts(es: seq<Element>, unmatched: set<string>, id: string)
    requires Distinct(Map(IdOf, es))
    ensures PredCount(Leftovers(es, unmatched), id) == if id in unmatched && id in Ids(es) then 1 else 0
    ensures GoldCount(Leftovers(es, unmatched), id) == 0
  {
    if es != [] {
      var ids := Map(IdOf, es);
      assert Map(IdOf, es[1..]) == ids[1..];
      assert forall i, j :: 1 <= i < j < |ids| ==> ids[i] != ids[j];
      LeftoverCounts(es[1..], unmatched, id);
      var head := if es[0].id in unmatched then [Match(PredUnmatched, None, Some(es[0].id), NoMethod, [])] else [];
      CountsAppend(head, Leftovers(es[1..], unmatched), id);
      assert forall e :: e in es <==> e == es[0] || e in es[1..];
      forall e | e in es[1..]
        ensures e.id != es[0].id
      {
        var j :| 0 <= j < |es[1..]| && es[1..][j] == e;
        assert ids[0] != ids[j + 1];
      }
    }
  }

  /** Every predicted id is named by exactly one record, and by none of another id. */
  lemma {:induction false} EachPredictedOnce(gold: seq<GoldElement>, es: seq<Element>, unmatched: set<string>, id: string)
    requires Distinct(Map(IdOf, es)) && unmatched <= Ids(es)
    ensures PredCount(Records(gold, es, unmatched), id) == if id in unmatched then 1 else 0
  {
    if gold == [] {
      LeftoverCounts(es, unmatched, id);
    } else {
      hide Candidates, Distinct;
      CandidatesFit(gold[0], es, unmatched);
      var found := Candidates(gold[0], es, unmatched);
      EachPredictedOnce(gold[1..], es, unmatched - Taken(found), id);
      CountsAppend(GoldRecord(gold[0], found), Records(gold[1..], es, unmatched - Taken(found)), id);
      SingleCounts(gold[0], found, id);
      assert |found.0| == 1 ==> found.0[0] in found.0;
    }
  }

  lemma SingleCounts(g: GoldElement, found: (seq<string>, How), id: string)
    ensures PredCount(GoldRecord(g, found), id) == if id in Taken(found) then 1 else 0
    ensures GoldCount(GoldRecord(g, found), id) == if id == g.id && (g.required || found.0 != []) then 1 else 0
  {
  }

  /** Every required gold id is named by exactly one record, an optional one by at most one, any other by none. */
  lemma {:induction false} EachGoldOnce(gold: seq<GoldElement>, es: seq<Element>, unmatched: set<string>, id: string)
    requires Distinct(Map(IdOf, es)) && Distinct(Map(GoldIdOf, gold))
    ensures GoldCount(Records(gold, es, unmatched), id) <= 1
    ensures (exists g :: g in gold && g.id == id && g.required) ==> GoldCount(Records(gold, es, unmatched), id) == 1
    ensures (forall g :: g in gold ==> g.id != id) ==> GoldCount(Records(gold, es, unmatched), id) == 0
  {
    if gold == [] {
      LeftoverCounts(es, unmatched, id);
    } else {
      var found := Candidates(gold[0], es, unmatched);
      var ids := Map(GoldIdOf, gold);
      assert Map(GoldIdOf, gold[1..]) == ids[1..];
      assert forall i, j :: 1 <= i < j < |ids| ==> ids[i] != ids[j];
      forall g | g in gold[1..]
        ensures g.id != gold[0].id
      {
        var j :| 0 <= j < |gold[1..]| && gold[1..][j] == g;
        assert ids[0] != ids[j + 1];
      }
      hide Candidates, Distinct;
      EachGoldOnce(gold[1..], es, unmatched - Taken(found), id);
      CountsAppend(GoldRecord(gold[0], found), Records(gold[1..], es, unmatched - Taken(found)), id);
      SingleCounts(gold[0], found, id);
      assert forall g :: g in gold <==> g == gold[0] || g in gold[1..];
    }
  }

  // ----- the aligner -----

  /** The maps list exactly the matched pairs. */
  ghost predicate MapsAgree(ms: seq<Match>, goldToPredicted: map<string, string>, predictedToGold: map<string, string>) {
    && (forall g, p :: (g in goldToPredicted && goldToPredicted[g] == p) <==> Pairs(ms, g, p))
    && (forall g, p :: (p in predictedToGold && predictedToGold[p] == g) <==> Pairs(ms, g, p))
  }

  lemma PairsAppend(a: seq<Match>, b: seq<Match>, g: string, p: string)
    ensures Pairs(a + b, g, p) <==> Pairs(a, g, p) || Pairs(b, g, p)
  {
    if Pairs(a, g, p) {
      var k :| 0 <= k < |a| && a[k].status == Matched && a[k].goldId == Some(g) && a[k].predictedId == Some(p);
      assert (a + b)[k] == a[k];
    } else if Pairs(b, g, p) {
      var k :| 0 <= k < |b| && b[k].status == Matched && b[k].goldId == Some(g) && b[k].predictedId == Some(p);
      assert (a + b)[|a| + k] == b[k];
    }
  }

  lemma MapsGrow(ms: seq<Match>, goldToPredicted: map<string, string>, predictedToGold: map<string, string>,
                 g: GoldElement, found: (seq<string>, How))
    requires MapsAgree(ms, goldToPredicted, predictedToGold)
    requires g.id !in goldToPredicted && forall id :: id in found.0 ==> id !in predictedToGold
    ensures var longer := ms + GoldRecord(g, found);
            if |found.0| == 1 then
              MapsAgree(longer, goldToPredicted[g.id := found.0[0]], predictedToGold[found.0[0] := g.id])
            else MapsAgree(longer, goldToPredicted, predictedToGold)
  {
    var added := GoldRecord(g, found);
    assert |found.0| == 1 ==> found.0[0] in found.0;
    forall a, b
      ensures Pairs(added, a, b) <==> |found.0| == 1 && a == g.id && b == found.0[0]
      ensures Pairs(ms + added, a, b) <==> Pairs(ms, a, b) || Pairs(added, a, b)
    {
      PairsAppend(ms, added, a, b);
      if |found.0| == 1 {
        assert added[0].status == Matched;
      }
    }
  }

  lemma {:induction false} LeftoversAreUnpaired(es: seq<Element>, unmatched: set<string>)
    ensures forall m :: m in Leftovers(es, unmatched) ==> ValidShape(m) && m.status == PredUnmatched && m.candidates == []
  {
    if es != [] {
      LeftoversAreUnpaired(es[1..], unmatched);
    }
  }

  lemma NoGoldLeft(es: seq<Element>, unmatched: set<string>)
    ensures Records([], es, unmatched) == Leftovers(es, unmatched)
  {
  }

  lemma NothingMapped()
    ensures MapsAgree([], map[], map[])
  {
    assert forall g, p :: !Pairs([], g, p);
  }

  lemma FreshGoldId(gold: seq<GoldElement>, i: nat)
    requires i < |gold| && Distinct(Map(GoldIdOf, gold))
    ensures gold[i].id !in GoldIds(gold[..i])
  {
    var ids := Map(GoldIdOf, gold);
    forall g | g in gold[..i]
      ensures g.id != gold[i].id
    {
      var j :| 0 <= j < i && gold[..i][j] == g;
      assert ids[j] != ids[i];
    }
  }

  lemma RecordsUnfold(gold: seq<GoldElement>, i: nat, es: seq<Element>, unmatched: set<string>, before: seq<Match>)
    requires i < |gold|
    ensures var found := Candidates(gold[i], es, unmatched);
            before + Records(gold[i..], es, unmatched)
              == before + GoldRecord(gold[i], found) + Records(gold[i + 1..], es, unmatched - Taken(found))
  {
    hide Candidates, GoldRecord;
    assert gold[i..][0] == gold[i] && gold[i..][1..] == gold[i + 1..];
  }

  lemma RecordShape(g: GoldElement, found: (seq<string>, How))
    requires Distinct(found.0)
    ensures forall m :: m in GoldRecord(g, found) ==> ValidShape(m) && Distinct(m.candidates)
    ensures GoldRecord(g, found) ==
            if |found.0| == 1 then [Match(Matched, Some(g.id), Some(found.0[0]), found.1, [])]
            else if |found.0| > 1 then [Match(Ambiguous, Some(g.id), None, found.1, found.0)]
            else if g.required then [Match(GoldUnmatched, Some(g.id), None, NoMethod, [])]
            else []
  {
  }

  lemma LeftoversKeepMaps(ms: seq<Match>, es: seq<Element>, unmatched: set<string>,
                          goldToPredicted: map<string, string>, predictedToGold: map<string, string>)
    requires MapsAgree(ms, goldToPredicted, predictedToGold)
    ensures MapsAgree(ms + Leftovers(es, unmatched), goldToPredicted, predictedToGold)
  {
    LeftoversAreUnpaired(es, unmatched);
    forall g, p
      ensures Pairs(ms + Leftovers(es, unmatched), g, p) <==> Pairs(ms, g, p)
    {
      PairsAppend(ms, Leftovers(es, unmatched), g, p);
    }
  }

  lemma MapsValid(r: Outcome)
    requires MapsAgree(r.matches, r.goldToPredicted, r.predictedToGold)
    requires forall m :: m in r.matches ==> ValidShape(m) && Distinct(m.candidates)
    ensures ValidOutcome(r)
  {
    hide ValidShape, Distinct, Pairs;
    forall a, b | a in r.goldToPredicted && b in r.goldToPredicted && r.goldToPredicted[a] == r.goldToPredicted[b]
      ensures a == b
    {
      var p := r.goldToPredicted[a];
      assert Pairs(r.matches, a, p) && Pairs(r.matches, b, p);
    }
    forall a, b | a in r.predictedToGold && b in r.predictedToGold && r.predictedToGold[a] == r.predictedToGold[b]
      ensures a == b
    {
      var g := r.predictedToGold[a];
      assert Pairs(r.matches, g, a) && Pairs(r.matches, g, b);
    }
    forall g, p
      ensures (g in r.goldToPredicted && r.goldToPredicted[g] == p) <==> (p in r.predictedToGold && r.predictedToGold[p] == g)
    {
      assert (g in r.goldToPredicted && r.goldToPredicted[g] == p) <==> Pairs(r.matches, g, p);
    }
    forall k | 0 <= k < |r.matches|
      ensures ValidShape(r.matches[k]) && Distinct(r.matches[k].candidates)
    {
      assert r.matches[k] in r.matches;
    }
  }

  /** Candidates read from the precomputed table of kinds and occurrence numbers. */
  method FindCandidates(g: GoldElement, es: seq<Element>, unmatched: set<string>, table: map<string, (string, nat)>)
    returns (ids: seq<string>, how: How)
    requires Tabulated(table, es, |es|)
    ensures (ids, how) == Candidates(g, es, unmatched)
  {
    hide Select, Occurrence, SourceKind, InPlace;
    if g.anchor.sourceAnchor.Some? {
      ids := Select(es, i => Available(es, unmatched, g, i) && es[i].sourceAnchor == g.anchor.sourceAnchor);
      if ids != [] {
        return ids, ExplicitSourceAnchor;
      }
    }
    if g.text.Some? {
      ids := Select(es, i => Available(es, unmatched, g, i) && es[i].rawText == g.text);
      if ids != [] {
        ids := NarrowBySourceKind(g, ids, es, table);
        return ids, ExactSourceText;
      }
      ids := Select(es, i => Available(es, unmatched, g, i) && es[i].text == g.text);
      if ids != [] {
        ids := NarrowBySourceKind(g, ids, es, table);
        return ids, NormalizedText;
      }
    }
    if g.anchor.sourceKind.Some? && g.anchor.occurrence.Some? {
      var p := i => Available(es, unmatched, g, i) && es[i].id in table
                    && table[es[i].id] == (g.anchor.sourceKind.value, g.anchor.occurrence.value);
      SelectSame(es, p, i => Available(es, unmatched, g, i) && Some(SourceKind(es[i])) == g.anchor.sourceKind
                             && Some(Occurrence(es, i)) == g.anchor.occurrence);
      ids := Select(es, p);
      if ids != [] {
        return ids, SourceKindOccurrence;
      }
    }
    return [], NoMethod;
  }

  method NarrowBySourceKind(g: GoldElement, ids: seq<string>, es: seq<Element>, table: map<string, (string, nat)>)
    returns (r: seq<string>)
    requires Tabulated(table, es, |es|)
    ensures r == Narrow(g, ids, es)
  {
    if g.anchor.sourceKind.None? || |ids| <= 1 {
      return ids;
    }
    var kind := g.anchor.sourceKind.value;
    var p := i => 0 <= i < |es| && es[i].id in ids && es[i].id in table && table[es[i].id].0 == kind;
    SelectSame(es, p, i => 0 <= i < |es| && es[i].id in ids && SourceKind(es[i]) == kind);
    var narrowed := Select(es, p);
    return if narrowed != [] then narrowed else ids;
  }

  lemma {:induction false} SelectSame(es: seq<Element>, p: int -> bool, q: int -> bool)
    requires forall i :: 0 <= i < |es| ==> p(i) == q(i)
    ensures Select(es, p) == Select(es, q)
  {
    if es != [] {
      SelectSame(es[..|es| - 1], p, q);
    }
  }

  method AddLeftovers(before: seq<Match>, predicted: seq<Element>, unmatched: set<string>) returns (matches: seq<Match>)
    ensures matches == before + Leftovers(predicted, unmatched)
  {
    matches := before;
    var n: nat := 0;
    while n < |predicted|
      invariant n <= |predicted|
      invariant matches + Leftovers(predicted[n..], unmatched) == before + Leftovers(predicted, unmatched)
    {
      assert predicted[n..][0] == predicted[n] && predicted[n..][1..] == predicted[n + 1..];
      if predicted[n].id in unmatched {
        matches := matches + [Match(PredUnmatched, None, Some(predicted[n].id), NoMethod, [])];
      }
      n := n + 1;
    }
  }

  /** What the gold loop keeps after `i` elements. */
  ghost predicate LoopState(gold: seq<GoldElement>, i: nat, es: seq<Element>, unmatched: set<string>, matches: seq<Match>,
                            goldToPredicted: map<string, string>, predictedToGold: map<string, string>)
    requires i <= |gold|
  {
    && matches + Records(gold[i..], es, unmatched) == Records(gold, es, Ids(es))
    && MapsAgree(matches, goldToPredicted, predictedToGold)
    && (forall m :: m in matches ==> ValidShape(m) && Distinct(m.candidates))
    && PredictedUnmatchedIds(matches) == []
    && goldToPredicted.Keys <= GoldIds(gold[..i])
    && unmatched == Ids(es) - predictedToGold.Keys && predictedToGold.Keys <= Ids(es)
  }

  lemma LoopStep(gold: seq<GoldElement>, i: nat, es: seq<Element>, unmatched: set<string>, matches: seq<Match>,
                 goldToPredicted: map<string, string>, predictedToGold: map<string, string>)
    requires i < |gold| && Distinct(Map(GoldIdOf, gold)) && Distinct(Map(IdOf, es))
    requires LoopState(gold, i, es, unmatched, matches, goldToPredicted, predictedToGold)
    ensures var found := Candidates(gold[i], es, unmatched);
            var longer := matches + GoldRecord(gold[i], found);
            if |found.0| == 1 then
              LoopState(gold, i + 1, es, unmatched - {found.0[0]}, longer,
                        goldToPredicted[gold[i].id := found.0[0]], predictedToGold[found.0[0] := gold[i].id])
            else LoopState(gold, i + 1, es, unmatched, longer, goldToPredicted, predictedToGold)
  {
    hide Records, Candidates, GoldRecord, ValidShape, MapsAgree, Distinct, PredictedUnmatchedIds, Offered;
    var found := Candidates(gold[i], es, unmatched);
    CandidatesAreUnmatched(gold[i], es, unmatched);
    CandidatesFit(gold[i], es, unmatched);
    FreshGoldId(gold, i);
    MapsGrow(matches, goldToPredicted, predictedToGold, gold[i], found);
    RecordsUnfold(gold, i, es, unmatched, matches);
    RecordShape(gold[i], found);
    assert gold[..i + 1] == gold[..i] + [gold[i]];
    assert |found.0| == 1 ==> found.0[0] in found.0;
    assert unmatched - {} == unmatched;
    GoldRecordsAreNotLeftovers(gold[i], found);
    UnmatchedAppend(matches, GoldRecord(gold[i], found));
  }

  lemma GoldRecordsAreNotLeftovers(g: GoldElement, found: (seq<string>, How))
    ensures PredictedUnmatchedIds(GoldRecord(g, found)) == []
  {
  }

  method Align(gold: seq<GoldElement>, predicted: seq<Element>) returns (r: Outcome)
    requires Distinct(Map(GoldIdOf, gold)) && Distinct(Map(IdOf, predicted))
    ensures r.matches == Records(gold, predicted, Ids(predicted))
    ensures ValidOutcome(r)
    ensures r.goldToPredicted.Keys <= GoldIds(gold) && r.predictedToGold.Keys <= Ids(predicted)
    ensures PredictedUnmatchedIds(r.matches) == IdsIn(predicted, Ids(predicted) - r.predictedToGold.Keys)
  {
    hide Records, Candidates, ValidShape, MapsAgree, Distinct, LoopState, Leftovers, ValidOutcome;
    var table := SourceKindOccurrences(predicted);
    var unmatched := Ids(predicted);
    var matches: seq<Match> := [];
    var goldToPredicted, predictedToGold := map[], map[];
    LoopStart(gold, predicted);
    for i := 0 to |gold|
      invariant LoopState(gold, i, predicted, unmatched, matches, goldToPredicted, predictedToGold)
    {
      var g := gold[i];
      var ids, how := FindCandidates(g, predicted, unmatched, table);
      LoopStep(gold, i, predicted, unmatched, matches, goldToPredicted, predictedToGold);
      if |ids| == 1 {
        var predictedId := ids[0];
        unmatched := unmatched - {predictedId};
        goldToPredicted := goldToPredicted[g.id := predictedId];
        predictedToGold := predictedToGold[predictedId := g.id];
        matches := matches + [Match(Matched, Some(g.id), Some(predictedId), how, [])];
      } else if |ids| > 1 {
        matches := matches + [Match(Ambiguous, Some(g.id), None, how, ids)];
      } else if g.required {
        matches := matches + [Match(GoldUnmatched, Some(g.id), None, NoMethod, [])];
      } else {
        assert matches + [] == matches;
      }
    }
    LoopEnd(gold, predicted, unmatched, matches, goldToPredicted, predictedToGold);
    matches := AddLeftovers(matches, predicted, unmatched);
    r := Outcome(matches, goldToPredicted, predictedToGold);
  }

  lemma LoopStart(gold: seq<GoldElement>, es: seq<Element>)
    ensures LoopState(gold, 0, es, Ids(es), [], map[], map[])
  {
    NothingMapped();
    assert gold[0..] == gold && gold[..0] == [];
  }

  lemma LoopEnd(gold: seq<GoldElement>, es: seq<Element>, unmatched: set<string>, matches: seq<Match>,
                goldToPredicted: map<string, string>, predictedToGold: map<string, string>)
    requires LoopState(gold, |gold|, es, unmatched, matches, goldToPredicted, predictedToGold)
    ensures Records(gold, es, Ids(es)) == matches + Leftovers(es, unmatched)
    ensures ValidOutcome(Outcome(matches + Leftovers(es, unmatched), goldToPredicted, predictedToGold))
    ensures goldToPredicted.Keys <= GoldIds(gold) && predictedToGold.Keys <= Ids(es)
    ensures PredictedUnmatchedIds(matches + Leftovers(es, unmatched)) == IdsIn(es, Ids(es) - predictedToGold.Keys)
  {
    UnmatchedAppend(matches, Leftovers(es, unmatched));
    LeftoverIds(es, unmatched);
    hide ValidShape, MapsAgree, ValidOutcome, PredictedUnmatchedIds;
    assert gold[|gold|..] == [] && gold[..|gold|] == gold;
    NoGoldLeft(es, unmatched);
    LeftoversKeepMaps(matches, es, unmatched, goldToPredicted, predictedToGold);
    LeftoversAreUnpaired(es, unmatched);
    MapsValid(Outcome(matches + Leftovers(es, unmatched), goldToPredicted, predictedToGold));
  }

  // ----- detection counts -----

  function RequiredIds(gold: seq<GoldElement>): set<string> {
    set g | g in gold && g.required :: g.id
  }

  function OptionalIds(gold: seq<GoldElement>): set<string> {
    set g | g in gold && !g.required :: g.id
  }

  function MatchedRequired(gold: seq<GoldElement>, r: Outcome): set<string> {
    set g | g in r.goldToPredicted && g in RequiredIds(gold)
  }

  /** The predicted ids spent on gold elements of `ids`. */
  function Spent(r: Outcome, ids: set<string>): set<string> {
    set g | g in r.goldToPredicted && g in ids :: r.goldToPredicted[g]
  }

  lemma {:induction false} ImageSize(m: map<string, string>, keys: set<string>)
    requires keys <= m.Keys && forall a, b :: a in m && b in m && m[a] == m[b] ==> a == b
    ensures |set k | k in keys :: m[k]| == |keys|
    decreases |keys|
  {
    var image := set k | k in keys :: m[k];
    assert keys == {} ==> image == {};
    if keys != {} {
      var k :| k in keys;
      ImageSize(m, keys - {k});
      assert image == (set x | x in keys - {k} :: m[x]) + {m[k]};
      assert m[k] !in (set x | x in keys - {k} :: m[x]);
    }
  }

  lemma {:induction false} IdsInSize(es: seq<Element>, left: set<string>)
    requires Distinct(Map(IdOf, es)) && left <= Ids(es)
    ensures |IdsIn(es, left)| == |left|
  {
    hide Distinct, Ids, Map;
    NoIds();
    if es != [] {
      TailIds(es);
      var rest := left - {es[0].id};
      IdsInSize(es[1..], rest);
      SameIdsIn(es[1..], left, rest, es[0].id);
      assert es[0].id in left ==> left == rest + {es[0].id};
      assert es[0].id !in left ==> left == rest;
    }
  }

  lemma NoIds()
    ensures Ids([]) == {}
  {
  }

  lemma TailIds(es: seq<Element>)
    requires es != [] && Distinct(Map(IdOf, es))
    ensures Distinct(Map(IdOf, es[1..])) && (forall e :: e in es[1..] ==> e.id != es[0].id)
    ensures Ids(es) == Ids(es[1..]) + {es[0].id}
  {
    var ids := Map(IdOf, es);
    assert Map(IdOf, es[1..]) == ids[1..];
    assert forall i, j :: 1 <= i < j < |ids| ==> ids[i] != ids[j];
    assert forall e :: e in es <==> e == es[0] || e in es[1..];
    forall e | e in es[1..]
      ensures e.id != es[0].id
    {
      var k :| 0 <= k < |es[1..]| && es[1..][k] == e;
      assert ids[0] != ids[k + 1];
    }
  }

  lemma {:induction false} SameIdsIn(es: seq<Element>, left: set<string>, rest: set<string>, id: string)
    requires rest == left - {id} && forall e :: e in es ==> e.id != id
    ensures IdsIn(es, left) == IdsIn(es, rest)
  {
    if es != [] {
      SameIdsIn(es[1..], left, rest, id);
    }
  }

  lemma {:induction false} IdsSize(es: seq<Element>)
    requires Distinct(Map(IdOf, es))
    ensures |Ids(es)| == |es|
  {
    IdsInSize(es, Ids(es));
    AllIdsIn(es, Ids(es));
  }

  lemma {:induction false} AllIdsIn(es: seq<Element>, all: set<string>)
    requires forall e :: e in es ==> e.id in all
    ensures |IdsIn(es, all)| == |es|
  {
    if es != [] {
      AllIdsIn(es[1..], all);
    }
  }

  lemma RequiredOrOptional(gold: seq<GoldElement>)
    requires Distinct(Map(GoldIdOf, gold))
    ensures RequiredIds(gold) !! OptionalIds(gold) && RequiredIds(gold) + OptionalIds(gold) == GoldIds(gold)
  {
    var ids := Map(GoldIdOf, gold);
    forall g, h | g in gold && h in gold && g.id == h.id
      ensures g == h
    {
      var i :| 0 <= i < |gold| && gold[i] == g;
      var j :| 0 <= j < |gold| && gold[j] == h;
      assert ids[i] == ids[j];
    }
  }

  lemma SpentSize(r: Outcome, ids: set<string>)
    requires ValidOutcome(r)
    ensures |Spent(r, ids)| == |set g | g in r.goldToPredicted && g in ids|
  {
    OneToOne(r);
    hide ValidOutcome;
    var m := r.goldToPredicted;
    var keys := set g | g in m && g in ids;
    ImageSize(m, keys);
    assert Spent(r, ids) == set g | g in keys :: m[g];
  }

  /** True positives, false positives and the matches of optional gold make up the prediction. */
  lemma PredictionAddsUp(gold: seq<GoldElement>, es: seq<Element>, r: Outcome)
    requires Distinct(Map(GoldIdOf, gold)) && Distinct(Map(IdOf, es)) && ValidOutcome(r)
    requires r.goldToPredicted.Keys <= GoldIds(gold) && r.predictedToGold.Keys <= Ids(es)
    requires PredictedUnmatchedIds(r.matches) == IdsIn(es, Ids(es) - r.predictedToGold.Keys)
    ensures |MatchedRequired(gold, r)| + |PredictedUnmatchedIds(r.matches)| + |Spent(r, OptionalIds(gold))| == |es|
  {
    hide ValidOutcome, Distinct, RequiredIds, OptionalIds, GoldIds, IdsIn, Ids, PredictedUnmatchedIds, Map, Spent;
    RequiredOrOptional(gold);
    SpentSize(r, RequiredIds(gold));
    var a, b := Spent(r, RequiredIds(gold)), Spent(r, OptionalIds(gold));
    PartsOfPrediction(gold, r);
    IdsInSize(es, Ids(es) - (a + b));
    IdsSize(es);
    SplitSize(Ids(es), a, b);
  }

  lemma OneToOne(r: Outcome)
    requires ValidOutcome(r)
    ensures forall a, b :: a in r.goldToPredicted && b in r.goldToPredicted && r.goldToPredicted[a] == r.goldToPredicted[b] ==> a == b
  {
  }

  lemma SplitSize(all: set<string>, a: set<string>, b: set<string>)
    requires a + b <= all && a !! b
    ensures |all| == |a| + |b| + |all - (a + b)|
    ensures b == {} ==> |all| == |a| + |all - a|
  {
    assert all == (a + b) + (all - (a + b));
    assert b == {} ==> a + b == a;
  }

  /** The matched predicted ids are those spent on required and on optional gold. */
  lemma PartsOfPrediction(gold: seq<GoldElement>, r: Outcome)
    requires ValidOutcome(r) && r.goldToPredicted.Keys <= GoldIds(gold)
    requires RequiredIds(gold) !! OptionalIds(gold) && RequiredIds(gold) + OptionalIds(gold) == GoldIds(gold)
    ensures r.predictedToGold.Keys == Spent(r, RequiredIds(gold)) + Spent(r, OptionalIds(gold))
    ensures Spent(r, RequiredIds(gold)) !! Spent(r, OptionalIds(gold))
  {
    var a, b := Spent(r, RequiredIds(gold)), Spent(r, OptionalIds(gold));
    hide ValidShape, Pairs, Distinct, RequiredIds, OptionalIds, GoldIds;
    var m, n := r.goldToPredicted, r.predictedToGold;
    forall p | p in n
      ensures p in a + b
    {
      var g := n[p];
      assert g in m && m[g] == p;
      assert g in GoldIds(gold);
    }
    forall p | p in a + b
      ensures p in n
    {
      var g :| g in m && m[g] == p;
    }
  }
}
