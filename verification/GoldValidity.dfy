/**
 Records that pass the working-record checks against their document project to a valid gold case exactly when
 no text of the document is over the limit that gold, unlike canonical documents, puts on element texts.
 */
module GoldValidity {
  import opened Basics
  import opened Sorting
  import opened ReviewRecords
  import opened Splits
  import opened Gold
  import opened GoldHashing
  import opened Projection

  // ----- what the working-record checks establish -----

  /** Document elements have unique ids and stand in strictly ascending order. */
  predicate WellFormed(es: seq<SourceElement>) {
    && (forall i, j :: 0 <= i < j < |es| ==> es[i].id != es[j].id)
    && (forall i, j :: 0 <= i < j < |es| ==> es[i].order < es[j].order)
  }

  /** The target names elements of the document, with their orders. */
  predicate TargetHolds(es: seq<SourceElement>, t: Target) {
    && |t.elementIds| == |t.elementOrders|
    && (forall i :: 0 <= i < |t.elementIds| ==> OrderById(es, t.elementIds[i]) == Some(t.elementOrders[i]))
    && ValidTarget(GoldTarget(t.kind, t.elementOrders))
  }

  function SourceText(x: SourceElement, view: nat): Option<string> {
    if view == 0 then x.rawText else x.normalizedText
  }

  /** The evidence quotes an element of the target. */
  predicate EvidenceHolds(es: seq<SourceElement>, t: Target, e: Evidence) {
    && e.elementId in t.elementIds
    && exists x :: x in es && x.id == e.elementId && SourceText(x, e.view).Some?
                   && e.start <= e.end <= |SourceText(x, e.view).value| && SourceText(x, e.view).value[e.start..e.end] == e.quote
  }

  /** The rules on a positive decision. */
  predicate ValidClaim(rules: Rules, d: Decision) {
    var c := d.claim;
    && (c.value.Some? ==> c.value.value != "") && (c.ontology.Some? ==> ValidOntology(c.ontology.value))
    && (forall e :: e in c.evidence ==> e.start < e.end && e.end - e.start == |e.quote|)
    && (forall i, j :: 0 <= i < j < |c.evidence| ==> c.evidence[i] != c.evidence[j])
    && (d.annotationType == CUSTOM ==> c.ontology.Some?)
    && (Extractive(d.annotationType) ==>
          c.value.Some? && exists e :: e in c.evidence && rules.valueKey(e.quote) == rules.valueKey(c.value.value))
  }

  predicate DecisionHolds(rules: Rules, es: seq<SourceElement>, t: Target, d: Decision) {
    d.state == Positive ==> ValidClaim(rules, d) && forall e :: e in d.claim.evidence ==> EvidenceHolds(es, t, e)
  }

  predicate SuggestionHolds(es: seq<SourceElement>, t: Target, s: Suggestion) {
    forall e :: e in s.claim.evidence ==> EvidenceHolds(es, t, e)
  }

  /** The record is legal, and its target, positive decisions and suggestions hold in the document. */
  predicate RecordHolds(rules: Rules, es: seq<SourceElement>, r: Record) {
    && ValidRecord(r) && TargetHolds(es, r.target)
    && (forall d :: d in r.decisions ==> DecisionHolds(rules, es, r.target, d))
    && (forall s :: s in r.suggestions ==> SuggestionHolds(es, r.target, s))
  }

  // ----- elements by id -----

  lemma {:induction false} OrderOfElement(es: seq<SourceElement>, i: nat)
    requires i < |es| && forall a, b :: 0 <= a < b < |es| ==> es[a].id != es[b].id
    ensures OrderById(es, es[i].id) == Some(es[i].order)
  {
    var n := |es| - 1;
    if i < n {
      assert es[i].id != es[n].id && es[..n][i] == es[i];
      OrderOfElement(es[..n], i);
    }
  }

  lemma {:induction false} ElementOfOrder(es: seq<SourceElement>, id: string) returns (i: nat)
    requires OrderById(es, id).Some?
    ensures i < |es| && es[i].id == id && OrderById(es, id) == Some(es[i].order)
  {
    var n := |es| - 1;
    if es[n].id == id {
      i := n;
    } else {
      i := ElementOfOrder(es[..n], id);
    }
  }

  lemma ElementsDiffer(es: seq<SourceElement>, i: nat, j: nat)
    requires WellFormed(es) && i < |es| && j < |es| && (es[i].order == es[j].order || es[i].id == es[j].id)
    ensures i == j
  {
  }

  /** Elements of one order, or of one id, are one element. */
  lemma SameOrderSameElement(es: seq<SourceElement>, x: SourceElement, y: SourceElement)
    requires WellFormed(es) && x in es && y in es && (x.order == y.order || x.id == y.id)
    ensures x == y
  {
    var i :| 0 <= i < |es| && es[i] == x;
    var j :| 0 <= j < |es| && es[j] == y;
    ElementsDiffer(es, i, j);
  }

  /** The element some evidence quotes, and the span it becomes. */
  lemma EvidenceElement(es: seq<SourceElement>, t: Target, e: Evidence) returns (x: SourceElement)
    requires WellFormed(es) && TargetHolds(es, t) && EvidenceHolds(es, t, e)
    ensures x in es && x.id == e.elementId && OrderById(es, e.elementId) == Some(x.order)
    ensures SpanOf(es, e) == Span(x.order, e.start, e.end, e.quote, e.view) && x.order in t.elementOrders
    ensures SourceText(x, e.view).Some? && e.start <= e.end <= |SourceText(x, e.view).value|
    ensures SourceText(x, e.view).value[e.start..e.end] == e.quote
  {
    x :| x in es && x.id == e.elementId && SourceText(x, e.view).Some?
         && e.start <= e.end <= |SourceText(x, e.view).value| && SourceText(x, e.view).value[e.start..e.end] == e.quote;
    var i :| 0 <= i < |es| && es[i] == x;
    OrderOfElement(es, i);
    var k :| 0 <= k < |t.elementIds| && t.elementIds[k] == e.elementId;
    assert t.elementOrders[k] == x.order;
  }

  // ----- one annotation -----

  lemma SpanMembers(es: seq<SourceElement>, r: Record, d: Decision)
    ensures forall s :: s in AnnotationOf(es, r, d).evidence ==> exists e :: e in d.claim.evidence && s == SpanOf(es, e)
    ensures forall e :: e in d.claim.evidence ==> SpanOf(es, e) in AnnotationOf(es, r, d).evidence
    ensures multiset(AnnotationOf(es, r, d).evidence) == multiset(Map(e => SpanOf(es, e), d.claim.evidence))
  {
    hide SpanOf, EvidenceKey;
    var spans := Map(e => SpanOf(es, e), d.claim.evidence);
    SortMembers(EvidenceKey, spans);
    SortPermutes(EvidenceKey, spans);
    hide SortBy;
    forall e | e in d.claim.evidence
      ensures SpanOf(es, e) in spans
    {
      var k :| 0 <= k < |d.claim.evidence| && d.claim.evidence[k] == e;
      assert spans[k] == SpanOf(es, e);
    }
    forall s | s in spans
      ensures exists e :: e in d.claim.evidence && s == SpanOf(es, e)
    {
      var k :| 0 <= k < |spans| && spans[k] == s;
      assert d.claim.evidence[k] in d.claim.evidence;
    }
  }

  lemma SpansDiffer(rules: Rules, es: seq<SourceElement>, r: Record, d: Decision)
    requires WellFormed(es) && RecordHolds(rules, es, r) && d in r.decisions && d.state == Positive
    ensures Distinct(AnnotationOf(es, r, d).evidence)
  {
    var evidence := d.claim.evidence;
    var spans := Map(e => SpanOf(es, e), evidence);
    assert DecisionHolds(rules, es, r.target, d);
    forall i, j | 0 <= i < j < |spans|
      ensures spans[i] != spans[j]
    {
      assert evidence[i] in evidence && evidence[j] in evidence;
      var x := EvidenceElement(es, r.target, evidence[i]);
      var y := EvidenceElement(es, r.target, evidence[j]);
      assert evidence[i] != evidence[j];
      if spans[i] == spans[j] {
        SameOrderSameElement(es, x, y);
      }
    }
    SpanMembers(es, r, d);
    hide AnnotationOf, RecordHolds, WellFormed;
    DistinctPermuted(spans, AnnotationOf(es, r, d).evidence);
  }

  lemma AnnotationFields(es: seq<SourceElement>, r: Record, d: Decision)
    ensures var a := AnnotationOf(es, r, d);
            a.target == GoldTargetOf(r) && a.annotationType == d.annotationType && a.value == d.claim.value
            && a.ontology == d.claim.ontology
  {
  }

  /** An annotation from a decision that holds is valid and substantiated. */
  lemma AnnotationIsValid(rules: Rules, es: seq<SourceElement>, r: Record, d: Decision)
    requires WellFormed(es) && RecordHolds(rules, es, r) && d in r.decisions && d.state == Positive
    ensures ValidAnnotation(AnnotationOf(es, r, d)) && Substantiated(rules, AnnotationOf(es, r, d))
  {
    var a := AnnotationOf(es, r, d);
    assert DecisionHolds(rules, es, r.target, d);
    SpanMembers(es, r, d);
    SpansDiffer(rules, es, r, d);
    AnnotationFields(es, r, d);
    hide AnnotationOf, RecordHolds, WellFormed, EvidenceHolds;
    forall s | s in a.evidence
      ensures ValidSpan(s)
    {
      var e :| e in d.claim.evidence && s == SpanOf(es, e);
    }
    ValueIsSubstantiated(rules, es, r, d);
  }

  lemma ValueIsSubstantiated(rules: Rules, es: seq<SourceElement>, r: Record, d: Decision)
    requires ValidClaim(rules, d)
    ensures Substantiated(rules, AnnotationOf(es, r, d))
  {
    var a := AnnotationOf(es, r, d);
    SpanMembers(es, r, d);
    AnnotationFields(es, r, d);
    hide AnnotationOf;
    if Extractive(d.annotationType) {
      var e :| e in d.claim.evidence && rules.valueKey(e.quote) == rules.valueKey(d.claim.value.value);
      assert SpanOf(es, e) in a.evidence && SpanOf(es, e).quote == e.quote;
    }
  }

  // ----- elements and scopes of the case -----

  lemma DraftElements(settings: Settings, d: SourceDocument, rs: seq<Record>, split: Split)
    requires d.language.Some? && WellFormed(d.elements)
    ensures DraftCase(settings, d, rs, split).elements == Map(GoldElementOf, d.elements)
    ensures StrictlyAscending(Map(OrderOf, DraftCase(settings, d, rs, split).elements))
    ensures DraftCase(settings, d, rs, split).snapshotHash == settings.rules.snapshot(DraftCase(settings, d, rs, split).elements)
  {
    forall i, j | 0 <= i < j < |d.elements|
      ensures Leq(SourceElementKey(d.elements[i]), SourceElementKey(d.elements[j]))
    {
    }
    SortedIsFixed(SourceElementKey, d.elements);
    hide SortBy;
  }

  lemma GoldElementIn(d: SourceDocument, x: SourceElement)
    requires x in d.elements
    ensures GoldElementOf(x) in Map(GoldElementOf, d.elements)
  {
    var i :| 0 <= i < |d.elements| && d.elements[i] == x;
    assert Map(GoldElementOf, d.elements)[i] == GoldElementOf(x);
  }

  lemma DraftScopes(settings: Settings, d: SourceDocument, rs: seq<Record>, split: Split)
    requires d.language.Some?
    ensures forall s :: s in DraftCase(settings, d, rs, split).scopes ==> exists r :: r in rs && s == ScopeOf(r)
    ensures forall r :: r in rs ==> ScopeOf(r) in DraftCase(settings, d, rs, split).scopes
  {
    var ordered := SortBy(RecordKey, rs);
    var scopes := Map(ScopeOf, ordered);
    SortMembers(RecordKey, rs);
    SortMembers(ScopeKey, scopes);
    hide SortBy, RecordKey, ScopeKey, ScopeOf;
    forall r | r in rs
      ensures ScopeOf(r) in scopes
    {
      assert r in ordered;
      var k :| 0 <= k < |ordered| && ordered[k] == r;
      assert scopes[k] == ScopeOf(r);
    }
    forall s | s in scopes
      ensures exists r :: r in rs && s == ScopeOf(r)
    {
      var k :| 0 <= k < |scopes| && scopes[k] == s;
      assert ordered[k] in ordered;
    }
  }

  lemma ScopesDiffer(settings: Settings, d: SourceDocument, rs: seq<Record>, split: Split)
    requires d.language.Some? && DistinctTargets(SortBy(RecordKey, rs))
    ensures var scopes := DraftCase(settings, d, rs, split).scopes;
            forall i, j :: 0 <= i < j < |scopes| ==> scopes[i].target != scopes[j].target
  {
    var ordered := SortBy(RecordKey, rs);
    var unsorted := Map(ScopeOf, ordered);
    var scopes := SortBy(ScopeKey, unsorted);
    forall i, j | 0 <= i < j < |unsorted|
      ensures ScopeKey(unsorted[i]) != ScopeKey(unsorted[j])
    {
      assert GoldTargetOf(ordered[i]) != GoldTargetOf(ordered[j]);
      if ScopeKey(unsorted[i]) == ScopeKey(unsorted[j]) {
        SameScopeKey(unsorted[i], unsorted[j]);
      }
    }
    SortPermutes(ScopeKey, unsorted);
    KeysDifferPermuted(ScopeKey, unsorted, scopes);
    hide SortBy, RecordKey;
    forall i, j | 0 <= i < j < |scopes|
      ensures scopes[i].target != scopes[j].target
    {
      assert ScopeKey(scopes[i]) != ScopeKey(scopes[j]);
    }
  }

  lemma SameScopeKey(x: Scope, y: Scope)
    requires ScopeKey(x) == ScopeKey(y)
    ensures x.target == y.target
  {
    assert ScopeKey(x) + [] == ScopeKey(x) && ScopeKey(y) + [] == ScopeKey(y);
    TargetsSeparate(x.target, [], y.target, []);
  }

  lemma ScopeIsValid(rules: Rules, d: SourceDocument, c: Case, r: Record)
    requires RecordHolds(rules, d.elements, r) && c.elements == Map(GoldElementOf, d.elements)
    ensures ValidScope(ScopeOf(r)) && forall o :: o in ScopeOf(r).target.orders ==> HasOrder(c, o)
  {
    forall o | o in r.target.elementOrders
      ensures HasOrder(c, o)
    {
      var k :| 0 <= k < |r.target.elementOrders| && r.target.elementOrders[k] == o;
      var i := ElementOfOrder(d.elements, r.target.elementIds[k]);
      GoldElementIn(d, d.elements[i]);
    }
  }

  // ----- annotations of the case -----

  lemma KeysDifferPermuted<T(!new)>(key: T -> Key, s: seq<T>, t: seq<T>)
    requires KeysDiffer(key, s) && multiset(s) == multiset(t)
    ensures KeysDiffer(key, t)
  {
    MembersOfMultiset(s, t);
    assert Distinct(s);
    DistinctPermuted(s, t);
    forall i, j | 0 <= i < j < |t|
      ensures key(t[i]) != key(t[j])
    {
      assert t[i] in s && t[j] in s;
      var k :| 0 <= k < |s| && s[k] == t[i];
      var l :| 0 <= l < |s| && s[l] == t[j];
      assert k != l;
    }
  }

  lemma SameCompiledKey(a: Annotation, b: Annotation)
    requires CompiledKey(a) == CompiledKey(b)
    ensures a.target == b.target && a.annotationType == b.annotationType
  {
    hide TargetKeyOf;
    TargetsSeparate(a.target, [a.annotationType], b.target, [b.annotationType]);
    assert [a.annotationType] == [b.annotationType];
    assert [a.annotationType][0] == [b.annotationType][0];
  }

  lemma {:induction false} OneRecordsAnnotations(es: seq<SourceElement>, r: Record, ds: seq<Decision>)
    requires KeysDiffer(DecisionKey, ds)
    ensures forall a :: a in AnnotationsOf(es, r, ds) ==>
              a.target == GoldTargetOf(r) && exists d :: d in ds && d.annotationType == a.annotationType
    ensures KeysDiffer(CompiledKey, AnnotationsOf(es, r, ds))
  {
    if ds != [] {
      hide CompiledKey, AnnotationOf;
      var n := |ds| - 1;
      OneRecordsAnnotations(es, r, ds[..n]);
      AnnotationNames(es, r, ds[n]);
      assert ds == ds[..n] + [ds[n]];
      var before, a := AnnotationsOf(es, r, ds[..n]), AnnotationOf(es, r, ds[n]);
      forall x | x in before
        ensures CompiledKey(x) != CompiledKey(a)
      {
        var d :| d in ds[..n] && d.annotationType == x.annotationType;
        var k :| 0 <= k < n && ds[..n][k] == d;
        assert DecisionKey(ds[k]) != DecisionKey(ds[n]);
        assert x.annotationType != a.annotationType;
        if CompiledKey(x) == CompiledKey(a) {
          SameCompiledKey(x, a);
        }
      }
    }
  }

  lemma AnnotationNames(es: seq<SourceElement>, r: Record, d: Decision)
    ensures AnnotationOf(es, r, d).target == GoldTargetOf(r) && AnnotationOf(es, r, d).annotationType == d.annotationType
  {
  }

  lemma DecisionsDiffer(r: Record)
    requires ValidRecord(r)
    ensures KeysDiffer(DecisionKey, SortBy(DecisionKey, r.decisions))
  {
    var types := Map(TypeOf, r.decisions);
    forall i, j | 0 <= i < j < |r.decisions|
      ensures DecisionKey(r.decisions[i]) != DecisionKey(r.decisions[j])
    {
      assert types[i] < types[j];
      assert DecisionKey(r.decisions[i])[0] == types[i] && DecisionKey(r.decisions[j])[0] == types[j];
    }
    hide ValidRecord;
    SortPermutes(DecisionKey, r.decisions);
    KeysDifferPermuted(DecisionKey, r.decisions, SortBy(DecisionKey, r.decisions));
  }

  lemma {:induction false} AllAnnotationsDiffer(es: seq<SourceElement>, rs: seq<Record>)
    requires DistinctTargets(rs) && forall r :: r in rs ==> ValidRecord(r)
    ensures KeysDiffer(CompiledKey, AllAnnotations(es, rs))
    ensures forall a :: a in AllAnnotations(es, rs) ==> exists r :: r in rs && a.target == GoldTargetOf(r)
  {
    if rs != [] {
      hide CompiledKey, ValidRecord, AnnotationsOf, SortBy;
      var n := |rs| - 1;
      assert rs == rs[..n] + [rs[n]];
      AllAnnotationsDiffer(es, rs[..n]);
      DecisionsDiffer(rs[n]);
      OneRecordsAnnotations(es, rs[n], SortBy(DecisionKey, rs[n].decisions));
      forall x, y | x in AllAnnotations(es, rs[..n]) && y in RecordAnnotations(es, rs[n])
        ensures CompiledKey(x) != CompiledKey(y)
      {
        var r :| r in rs[..n] && x.target == GoldTargetOf(r);
        var k :| 0 <= k < n && rs[..n][k] == r;
        assert GoldTargetOf(rs[k]) != GoldTargetOf(rs[n]);
        if CompiledKey(x) == CompiledKey(y) {
          SameCompiledKey(x, y);
        }
      }
    }
  }

  lemma PrefixNamesTargetAndType(a: Annotation, b: Annotation)
    requires PrefixKey(a) == PrefixKey(b)
    ensures a.target == b.target && a.annotationType == b.annotationType
  {
    hide TargetKeyOf, Terminated, OntologyKey;
    var x, y := Terminated(OrEmpty(a.value)) + OntologyKey(a.ontology), Terminated(OrEmpty(b.value)) + OntologyKey(b.ontology);
    assert PrefixKey(a) == TargetKeyOf(a.target) + ([a.annotationType] + x);
    assert PrefixKey(b) == TargetKeyOf(b.target) + ([b.annotationType] + y);
    TargetsSeparate(a.target, [a.annotationType] + x, b.target, [b.annotationType] + y);
    HeadSeparates(a.annotationType, x, b.annotationType, y);
  }

  lemma {:induction false} DecisionAnnotations(es: seq<SourceElement>, r: Record, ds: seq<Decision>, a: Annotation)
    requires a in AnnotationsOf(es, r, ds)
    ensures exists d :: d in ds && d.state == Positive && a == AnnotationOf(es, r, d)
  {
    hide AnnotationOf;
    var n := |ds| - 1;
    assert ds[n] in ds && forall d :: d in ds[..n] ==> d in ds;
    if a in AnnotationsOf(es, r, ds[..n]) {
      DecisionAnnotations(es, r, ds[..n], a);
    }
  }

  lemma {:induction false} AnnotationOrigin(es: seq<SourceElement>, rs: seq<Record>, a: Annotation)
    requires a in AllAnnotations(es, rs)
    ensures exists r, d :: r in rs && d in r.decisions && d.state == Positive && a == AnnotationOf(es, r, d)
  {
    hide AnnotationOf, AnnotationsOf, SortBy;
    var n := |rs| - 1;
    assert rs[n] in rs && forall r :: r in rs[..n] ==> r in rs;
    if a in AllAnnotations(es, rs[..n]) {
      AnnotationOrigin(es, rs[..n], a);
    } else {
      DecisionAnnotations(es, rs[n], SortBy(DecisionKey, rs[n].decisions), a);
      SortMembers(DecisionKey, rs[n].decisions);
    }
  }

  lemma DraftAnnotation(settings: Settings, d: SourceDocument, rs: seq<Record>, split: Split, a: Annotation) returns (r: Record, x: Decision)
    requires d.language.Some? && a in DraftCase(settings, d, rs, split).annotations
    ensures r in rs && x in r.decisions && x.state == Positive && a == AnnotationOf(d.elements, r, x)
  {
    var ordered := SortBy(RecordKey, rs);
    SortMembers(RecordKey, rs);
    SortMembers(CompiledKey, AllAnnotations(d.elements, ordered));
    hide SortBy, AnnotationOf, RecordKey, CompiledKey, AllAnnotations;
    AnnotationOrigin(d.elements, ordered, a);
    r, x :| r in ordered && x in r.decisions && x.state == Positive && a == AnnotationOf(d.elements, r, x);
  }

  lemma SpanIsQuoted(rules: Rules, d: SourceDocument, c: Case, r: Record, x: Decision, s: Span)
    requires WellFormed(d.elements) && RecordHolds(rules, d.elements, r) && c.elements == Map(GoldElementOf, d.elements)
    requires x in r.decisions && x.state == Positive && s in AnnotationOf(d.elements, r, x).evidence
    ensures s.order in r.target.elementOrders && Quotes(c, s)
  {
    SpanMembers(d.elements, r, x);
    hide AnnotationOf;
    var e :| e in x.claim.evidence && s == SpanOf(d.elements, e);
    assert DecisionHolds(rules, d.elements, r.target, x);
    var y := EvidenceElement(d.elements, r.target, e);
    GoldElementIn(d, y);
    var g := GoldElementOf(y);
    assert g in c.elements && g.order == s.order && TextForView(g, s.view) == SourceText(y, e.view);
  }

  lemma AnnotationIsGrounded(rules: Rules, d: SourceDocument, c: Case, r: Record, x: Decision)
    requires WellFormed(d.elements) && RecordHolds(rules, d.elements, r) && c.elements == Map(GoldElementOf, d.elements)
    requires ScopeOf(r) in c.scopes && x in r.decisions && x.state == Positive
    ensures Grounded(c, AnnotationOf(d.elements, r, x))
  {
    var a := AnnotationOf(d.elements, r, x);
    AnnotationFields(d.elements, r, x);
    assert x.annotationType in r.evaluatedTypes;
    assert ScopeOf(r).target == a.target && a.annotationType in ScopeOf(r).evaluatedTypes;
    hide AnnotationOf, RecordHolds, WellFormed, Quotes;
    forall s | s in a.evidence
      ensures s.order in a.target.orders && Quotes(c, s)
    {
      SpanIsQuoted(rules, d, c, r, x, s);
    }
  }

  lemma SignaturesDiffer(settings: Settings, d: SourceDocument, rs: seq<Record>, split: Split)
    requires d.language.Some? && DistinctTargets(SortBy(RecordKey, rs)) && forall r :: r in rs ==> ValidRecord(r)
    ensures var s := DraftCase(settings, d, rs, split).annotations;
            forall i, j :: 0 <= i < j < |s| ==> Signature(settings.rules, s[i]) != Signature(settings.rules, s[j])
  {
    var ordered := SortBy(RecordKey, rs);
    SortMembers(RecordKey, rs);
    var unsorted := AllAnnotations(d.elements, ordered);
    hide RecordKey, ValidRecord, AllAnnotations, CompiledKey;
    AllAnnotationsDiffer(d.elements, ordered);
    SortPermutes(CompiledKey, unsorted);
    var s := SortBy(CompiledKey, unsorted);
    KeysDifferPermuted(CompiledKey, unsorted, s);
    hide SortBy;
    forall i, j | 0 <= i < j < |s|
      ensures Signature(settings.rules, s[i]) != Signature(settings.rules, s[j])
    {
      if s[i].target == s[j].target && s[i].annotationType == s[j].annotationType {
        SameTargetAndTypeSameKey(s[i], s[j]);
      }
    }
  }

  lemma SameTargetAndTypeSameKey(a: Annotation, b: Annotation)
    requires a.target == b.target && a.annotationType == b.annotationType
    ensures CompiledKey(a) == CompiledKey(b)
  {
  }

  // ----- the result -----

  lemma DraftScopesAreValid(settings: Settings, d: SourceDocument, rs: seq<Record>, split: Split)
    requires d.language.Some? && WellFormed(d.elements)
    requires forall r :: r in rs ==> RecordHolds(settings.rules, d.elements, r)
    ensures var c := DraftCase(settings, d, rs, split);
            forall s :: s in c.scopes ==> ValidScope(s) && forall o :: o in s.target.orders ==> HasOrder(c, o)
  {
    var c := DraftCase(settings, d, rs, split);
    DraftElements(settings, d, rs, split);
    DraftScopes(settings, d, rs, split);
    hide DraftCase, RecordHolds, WellFormed, ScopeOf, HasOrder, ValidScope, SortBy;
    forall s | s in c.scopes
      ensures ValidScope(s) && forall o :: o in s.target.orders ==> HasOrder(c, o)
    {
      var r :| r in rs && s == ScopeOf(r);
      ScopeIsValid(settings.rules, d, c, r);
    }
  }

  lemma DraftAnnotationsAreValid(settings: Settings, d: SourceDocument, rs: seq<Record>, split: Split)
    requires d.language.Some? && WellFormed(d.elements)
    requires forall r :: r in rs ==> RecordHolds(settings.rules, d.elements, r)
    ensures var c := DraftCase(settings, d, rs, split);
            forall a :: a in c.annotations ==> ValidAnnotation(a) && Substantiated(settings.rules, a) && Grounded(c, a)
  {
    var c := DraftCase(settings, d, rs, split);
    DraftElements(settings, d, rs, split);
    DraftScopes(settings, d, rs, split);
    hide DraftCase, RecordHolds, WellFormed, ScopeOf, AnnotationOf, Grounded, ValidAnnotation, Substantiated, SortBy;
    forall a | a in c.annotations
      ensures ValidAnnotation(a) && Substantiated(settings.rules, a) && Grounded(c, a)
    {
      var r, x := DraftAnnotation(settings, d, rs, split, a);
      AnnotationIsValid(settings.rules, d.elements, r, x);
      AnnotationIsGrounded(settings.rules, d, c, r, x);
    }
  }

  lemma DraftIsPopulated(settings: Settings, d: SourceDocument, rs: seq<Record>, split: Split)
    requires rs != [] && d.elements != [] && d.language.Some?
    ensures DraftCase(settings, d, rs, split).scopes != []
  {
    DraftScopes(settings, d, rs, split);
    hide DraftCase, ScopeOf;
    assert rs[0] in rs;
  }

  /** The document is well formed and every record holds in it. */
  predicate AllHold(rules: Rules, d: SourceDocument, rs: seq<Record>) {
    WellFormed(d.elements) && forall r :: r in rs ==> RecordHolds(rules, d.elements, r)
  }

  lemma HoldingIsValid(rules: Rules, es: seq<SourceElement>, rs: seq<Record>)
    requires forall r :: r in rs ==> RecordHolds(rules, es, r)
    ensures forall r :: r in rs ==> ValidRecord(r)
  {
    hide ValidRecord, TargetHolds, DecisionHolds;
  }

  /** Every text of the document fits into a gold element. */
  predicate TextsFit(d: SourceDocument) {
    forall e :: e in d.elements ==> TextFits(e.rawText) && TextFits(e.normalizedText)
  }

  lemma DraftTexts(settings: Settings, d: SourceDocument, rs: seq<Record>, split: Split)
    requires d.language.Some?
    ensures ElementsFit(DraftCase(settings, d, rs, split).elements) <==> TextsFit(d)
  {
    var ordered := SortBy(SourceElementKey, d.elements);
    var gold := Map(GoldElementOf, ordered);
    SortMembers(SourceElementKey, d.elements);
    assert DraftCase(settings, d, rs, split).elements == gold;
    hide DraftCase, TextFits, SortBy, SourceElementKey;
    if ElementsFit(gold) {
      forall x | x in d.elements
        ensures TextFits(x.rawText) && TextFits(x.normalizedText)
      {
        assert x in ordered;
        var i :| 0 <= i < |ordered| && ordered[i] == x;
        assert gold[i] == GoldElementOf(x) && gold[i] in gold;
      }
    }
    if TextsFit(d) {
      forall e | e in gold
        ensures TextFits(e.rawText) && TextFits(e.normalizedText)
      {
        var i :| 0 <= i < |gold| && gold[i] == e;
        assert ordered[i] in d.elements;
      }
    }
  }

  /**
   Records of one document that hold in it, with distinct targets, project to a valid gold case exactly when
   the texts of the document, targeted or not, fit.
   */
  lemma ValidGoldExactly(settings: Settings, d: SourceDocument, rs: seq<Record>, split: Split)
    requires rs != [] && SourcesMatch(d, rs) && DistinctTargets(SortBy(RecordKey, rs)) && AllHold(settings.rules, d, rs)
    ensures ValidCase(settings.rules, DraftCase(settings, d, rs, split)) <==> TextsFit(d)
  {
    hide ElementsFit, TextsFit, DraftCase, RecordHolds, WellFormed, DistinctTargets, ScopeOf, ValidRecord, Grounded, ValidAnnotation, Substantiated, HasOrder,
      ValidScope, Signature, SortBy, StrictlyAscending;
    DraftElements(settings, d, rs, split);
    DraftTexts(settings, d, rs, split);
    DraftIsPopulated(settings, d, rs, split);
    DraftScopesAreValid(settings, d, rs, split);
    DraftAnnotationsAreValid(settings, d, rs, split);
    ScopesDiffer(settings, d, rs, split);
    HoldingIsValid(settings.rules, d.elements, rs);
    SignaturesDiffer(settings, d, rs, split);
  }

  /** All evidence of a record that holds is found in its document. */
  lemma EvidenceResolves(rules: Rules, d: SourceDocument, rs: seq<Record>)
    requires AllHold(rules, d, rs)
    ensures !EvidenceMissing(d, rs)
  {
    hide ValidClaim, ValidRecord, WellFormed, TargetHolds, EvidenceHolds;
    forall r, x, e | r in rs && x in r.decisions && x.state == Positive && e in x.claim.evidence
      ensures OrderById(d.elements, e.elementId).Some?
    {
      assert DecisionHolds(rules, d.elements, r.target, x);
      var y := EvidenceElement(d.elements, r.target, e);
    }
  }

  /** Some evidence of the records quotes an element the document does not have. */
  ghost predicate EvidenceMissing(d: SourceDocument, rs: seq<Record>) {
    exists r, x :: r in rs && x in r.decisions && !Resolvable(d.elements, x)
  }

  // ----- records against all documents -----

  /** The record names this revision of the document; a document without a language is let through. */
  predicate SourceHolds(d: SourceDocument, r: Record) {
    && r.source.documentId == d.id && r.source.contentHash == d.contentHash && r.source.snapshotHash == d.snapshotHash
    && (d.language.Some? ==> r.source.language == d.language.value)
  }

  /** What the working-record validator, with the schemas of records and documents, asks of a record. */
  predicate Accepted(settings: Settings, documents: map<string, SourceDocument>, r: Record) {
    && DocumentOf(r) in documents && SourceHolds(documents[DocumentOf(r)], r)
    && WellFormed(documents[DocumentOf(r)].elements) && RecordHolds(settings.rules, documents[DocumentOf(r)].elements, r)
    && Linked(r.reviews, r.DecisionHash()) && settings.recordChecks(r)
  }

  predicate AllAccepted(settings: Settings, documents: map<string, SourceDocument>, rs: seq<Record>) {
    settings.batchChecks(rs) && forall r :: r in rs ==> Accepted(settings, documents, r)
  }

  /** Some record is about a document with a text over the limit. */
  ghost predicate TextTooLong(documents: map<string, SourceDocument>, rs: seq<Record>) {
    exists r :: r in rs && DocumentOf(r) in documents && !TextsFit(documents[DocumentOf(r)])
  }

  lemma AcceptedGroupHolds(settings: Settings, documents: map<string, SourceDocument>, rs: seq<Record>, id: string)
    requires AllAccepted(settings, documents, rs) && Having(DocumentOf, rs, id) != []
    ensures id in documents && AllHold(settings.rules, documents[id], Having(DocumentOf, rs, id))
  {
    var group := Having(DocumentOf, rs, id);
    assert forall r :: r in group ==> r in rs && DocumentOf(r) == id;
    assert group[0] in group;
    hide Having, WellFormed, RecordHolds;
  }

  /** The sources of accepted records fit their document, unless it has no language. */
  lemma AcceptedSourcesMatch(settings: Settings, documents: map<string, SourceDocument>, rs: seq<Record>, id: string)
    requires AllAccepted(settings, documents, rs) && Having(DocumentOf, rs, id) != []
    ensures id in documents && (SourcesMatch(documents[id], Having(DocumentOf, rs, id)) <==> documents[id].language.Some?)
  {
    var group := Having(DocumentOf, rs, id);
    assert forall r :: r in group ==> r in rs && DocumentOf(r) == id;
    var r := group[0];
    assert r in group && Accepted(settings, documents, r);
    hide Having, WellFormed, ValidRecord, DecisionHolds;
    assert OrderById(documents[id].elements, r.target.elementIds[0]).Some?;
  }
}
