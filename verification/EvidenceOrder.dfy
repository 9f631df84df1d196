/**
 When the order of evidence inside annotations reaches the hash of a case. The payload lists the
 evidence of each annotation sorted, but sorts the annotations by keys that hold it in its given order.
 */
module EvidenceOrder {
  import opened Basics
  import opened Sorting
  import opened Gold
  import opened GoldHashing

  // ----- the least and the greatest arrangement of evidence -----

  function Reversed<T>(s: seq<T>): seq<T> {
    if s == [] then [] else [s[|s| - 1]] + Reversed(s[..|s| - 1])
  }

  function Least(evidence: seq<Span>): seq<Span> {
    SortBy(SpanKey, evidence)
  }

  function Greatest(evidence: seq<Span>): seq<Span> {
    Reversed(SortBy(SpanKey, evidence))
  }

  lemma LeqReflexive(k: Key)
    ensures Leq(k, k)
  {
    LeqTotal(k, k);
  }

  /** Evidence lists compare by their first difference. */
  lemma SpansCompare(a: Span, x: seq<Span>, b: Span, y: seq<Span>)
    ensures Leq(SpansKey([a] + x), SpansKey([b] + y)) <==> if a == b then Leq(SpansKey(x), SpansKey(y)) else Leq(SpanKey(a), SpanKey(b))
  {
    assert ([a] + x)[1..] == x && ([b] + y)[1..] == y;
    assert SpansKey([a] + x) == SpanKey(a) + SpansKey(x) && SpansKey([b] + y) == SpanKey(b) + SpansKey(y);
    if a == b {
      SharedFront(SpanKey(a), SpansKey(x), SpansKey(y));
    } else {
      DifferentSpanKeys(a, b);
      FrontDecides(SpanKey(a), SpansKey(x), SpanKey(b), SpansKey(y));
    }
  }

  lemma DifferentSpanKeys(a: Span, b: Span)
    requires a != b
    ensures SpanKey(a) != SpanKey(b) && forall u: Key, v: Key :: SpanKey(a) + u != SpanKey(b) + v
  {
    SpanKeysIdentify([a, b]);
    assert a in [a, b] && b in [a, b];
    forall u: Key, v: Key
      ensures SpanKey(a) + u != SpanKey(b) + v
    {
      if SpanKey(a) + u == SpanKey(b) + v {
        SpanSeparates(a, u, b, v);
      }
    }
  }

  lemma TailsAgree(x: seq<Span>, y: seq<Span>, i: nat)
    requires x != [] && i < |y| && multiset(x) == multiset(y) && x[0] == y[i]
    ensures multiset(x[1..]) == multiset(y[..i] + y[i + 1..])
  {
    assert x == [x[0]] + x[1..] && y == y[..i] + [y[i]] + y[i + 1..];
    assert multiset(x[1..]) == multiset(x) - multiset{x[0]};
    assert multiset(y[..i] + y[i + 1..]) == multiset(y) - multiset{y[i]};
  }

  lemma {:induction false} SortedIsLeast(s: seq<Span>, x: seq<Span>)
    requires Sorted(SpanKey, s) && multiset(s) == multiset(x)
    ensures Leq(SpansKey(s), SpansKey(x))
  {
    assert |multiset(s)| == |s| && |multiset(x)| == |x|;
    if s == [] {
      LeqReflexive(SpansKey([]));
    } else {
      MembersOfMultiset(s, x);
      HeadIsLeast(SpanKey, s);
      SortedTail(SpanKey, s);
      assert x[0] in s && s == [s[0]] + s[1..] && x == [x[0]] + x[1..];
      if s[0] == x[0] {
        TailsAgree(s, x, 0);
        assert x[..0] + x[0 + 1..] == x[1..];
        SortedIsLeast(s[1..], x[1..]);
      }
      SpansCompare(s[0], s[1..], x[0], x[1..]);
    }
  }

  lemma LastIsGreatest(s: seq<Span>)
    requires Sorted(SpanKey, s) && s != []
    ensures Sorted(SpanKey, s[..|s| - 1]) && forall x :: x in s ==> Leq(SpanKey(x), SpanKey(s[|s| - 1]))
  {
    forall x | x in s
      ensures Leq(SpanKey(x), SpanKey(s[|s| - 1]))
    {
      var i :| 0 <= i < |s| && s[i] == x;
      LeqReflexive(SpanKey(x));
    }
  }

  lemma {:induction false} ReversedIsGreatest(s: seq<Span>, x: seq<Span>)
    requires Sorted(SpanKey, s) && multiset(s) == multiset(x)
    ensures Leq(SpansKey(x), SpansKey(Reversed(s)))
  {
    assert |multiset(s)| == |s| && |multiset(x)| == |x|;
    if s == [] {
      LeqReflexive(SpansKey([]));
    } else {
      var n := |s| - 1;
      MembersOfMultiset(s, x);
      LastIsGreatest(s);
      assert x[0] in s && x == [x[0]] + x[1..];
      if x[0] == s[n] {
        TailsAgree(x, s, n);
        assert s[..n] + s[n + 1..] == s[..n];
        ReversedIsGreatest(s[..n], x[1..]);
      }
      SpansCompare(x[0], x[1..], s[n], Reversed(s[..n]));
    }
  }

  lemma {:induction false} ReversedPermutes(s: seq<Span>)
    ensures multiset(Reversed(s)) == multiset(s)
  {
    if s != [] {
      ReversedPermutes(s[..|s| - 1]);
      assert s == s[..|s| - 1] + [s[|s| - 1]];
    }
  }

  /** Every arrangement of the evidence lies between the least and the greatest, which are arrangements too. */
  lemma ArrangementsLieBetween(evidence: seq<Span>, x: seq<Span>)
    requires multiset(x) == multiset(evidence)
    ensures Leq(SpansKey(Least(evidence)), SpansKey(x)) && Leq(SpansKey(x), SpansKey(Greatest(evidence)))
    ensures multiset(Least(evidence)) == multiset(Greatest(evidence)) == multiset(evidence)
    ensures Least(x) == Least(evidence)
  {
    SortSorts(SpanKey, evidence);
    SortPermutes(SpanKey, evidence);
    ReversedPermutes(Least(evidence));
    SortedIsLeast(Least(evidence), x);
    ReversedIsGreatest(Least(evidence), x);
    SpanKeysIdentify(x);
    SortForgetsOrder(SpanKey, x, evidence);
  }

  // ----- the condition -----

  /** Whatever their arrangements, the two evidence lists sort the same way. */
  predicate Apart(x: Annotation, y: Annotation) {
    || Leq(SpansKey(Greatest(x.evidence)), SpansKey(Least(y.evidence)))
    || Leq(SpansKey(Greatest(y.evidence)), SpansKey(Least(x.evidence)))
  }

  predicate NothingInterleaves(s: seq<Annotation>) {
    forall i, j :: 0 <= i < j < |s| ==> !Interleaves(s, i, j)
  }

  /** Two annotations that agree in target, type, value and ontology, but not in all their evidence, have interleaving evidence. */
  predicate Interleaves(s: seq<Annotation>, i: nat, j: nat)
    requires i < |s| && j < |s|
  {
    PrefixKey(s[i]) == PrefixKey(s[j]) && CanonicalAnnotation(s[i]) != CanonicalAnnotation(s[j]) && !Apart(s[i], s[j])
  }

  /** The same case with evidence in another order. */
  ghost predicate Rearranged(a: Case, b: Case) {
    b == a.(annotations := b.annotations) && SameUpToEvidenceOrder(a.annotations, b.annotations)
  }

  // ----- one annotation and its arrangements -----

  ghost predicate Arranges(x: Annotation, y: Annotation) {
    y == x.(evidence := y.evidence) && multiset(x.evidence) == multiset(y.evidence)
  }

  lemma ArrangedIsSame(x: Annotation, y: Annotation)
    requires Arranges(x, y)
    ensures CanonicalAnnotation(x) == CanonicalAnnotation(y) && PrefixKey(x) == PrefixKey(y)
    ensures CanonicalAnnotation(x).evidence == Least(x.evidence) && PrefixKey(CanonicalAnnotation(x)) == PrefixKey(x)
  {
    ArrangementsLieBetween(x.evidence, y.evidence);
    CanonicalPrefix();
    hide TargetKeyOf, OntologyKey, Terminated, SortBy;
  }

  /** Annotation keys compare by prefix first, then by evidence. */
  lemma KeysCompare(x: Annotation, y: Annotation)
    ensures Leq(AnnotationKey(x), AnnotationKey(y))
       <==> if PrefixKey(x) == PrefixKey(y) then Leq(SpansKey(x.evidence), SpansKey(y.evidence)) else Leq(PrefixKey(x), PrefixKey(y))
  {
    KeyIsPrefixAndEvidence(x);
    KeyIsPrefixAndEvidence(y);
    hide AnnotationKey, PrefixKey;
    if PrefixKey(x) == PrefixKey(y) {
      SharedFront(PrefixKey(x), SpansKey(x.evidence), SpansKey(y.evidence));
    } else {
      forall u: Key, v: Key | PrefixKey(x) + u == PrefixKey(y) + v
        ensures u == v
      {
        PrefixesSeparate(x, u, y, v);
      }
      FrontDecides(PrefixKey(x), SpansKey(x.evidence), PrefixKey(y), SpansKey(y.evidence));
    }
  }

  /** Sorting arranged annotations and then sorting their evidence keeps the order. */
  lemma CanonicalKeepsOrder(x: Annotation, y: Annotation, x': Annotation, y': Annotation)
    requires Arranges(x, x') && Arranges(y, y') && Leq(AnnotationKey(x'), AnnotationKey(y'))
    requires PrefixKey(x) == PrefixKey(y) && CanonicalAnnotation(x) != CanonicalAnnotation(y) ==> Apart(x, y)
    ensures Leq(AnnotationKey(CanonicalAnnotation(x')), AnnotationKey(CanonicalAnnotation(y')))
  {
    ArrangedIsSame(x, x');
    ArrangedIsSame(y, y');
    var u, v := CanonicalAnnotation(x'), CanonicalAnnotation(y');
    KeysCompare(x', y');
    KeysCompare(u, v);
    ArrangementsLieBetween(x.evidence, x'.evidence);
    ArrangementsLieBetween(y.evidence, y'.evidence);
    hide AnnotationKey, PrefixKey, SpansKey, CanonicalAnnotation, Leq, Least, Greatest;
    if PrefixKey(x) == PrefixKey(y) {
      if u == v {
        LeqReflexive(SpansKey(u.evidence));
      } else if Leq(SpansKey(Greatest(x.evidence)), SpansKey(Least(y.evidence))) {
        LeqTransitive(SpansKey(Least(x.evidence)), SpansKey(x'.evidence), SpansKey(Greatest(x.evidence)));
        LeqTransitive(SpansKey(Least(x.evidence)), SpansKey(Greatest(x.evidence)), SpansKey(Least(y.evidence)));
      } else {
        LeqTransitive(SpansKey(y'.evidence), SpansKey(Greatest(y.evidence)), SpansKey(Least(x.evidence)));
        LeqTransitive(SpansKey(y'.evidence), SpansKey(Least(x.evidence)), SpansKey(x'.evidence));
        LeqAntisymmetric(SpansKey(x'.evidence), SpansKey(y'.evidence));
        SpansKeyIsInjective(x'.evidence, y'.evidence);
        LeqReflexive(SpansKey(Least(x.evidence)));
        assert Least(x.evidence) == Least(y.evidence);
      }
    }
  }

  // ----- the condition suffices -----

  lemma ArrangedMember(s: seq<Annotation>, t: seq<Annotation>, y: Annotation) returns (i: nat)
    requires SameUpToEvidenceOrder(s, t) && y in t
    ensures i < |s| && t[i] == y && Arranges(s[i], y)
  {
    i :| 0 <= i < |t| && t[i] == y;
  }

  lemma ApartIsSymmetric(x: Annotation, y: Annotation)
    ensures Apart(x, y) <==> Apart(y, x)
  {
    hide Leq, SpansKey, Greatest, Least;
  }

  lemma PairIsApart(s: seq<Annotation>, i: nat, j: nat)
    requires NothingInterleaves(s) && i < |s| && j < |s|
    requires PrefixKey(s[i]) == PrefixKey(s[j]) && CanonicalAnnotation(s[i]) != CanonicalAnnotation(s[j])
    ensures Apart(s[i], s[j])
  {
    hide Apart, PrefixKey, CanonicalAnnotation;
    if j < i {
      ApartIsSymmetric(s[i], s[j]);
      assert !Interleaves(s, j, i);
    } else if i < j {
      assert !Interleaves(s, i, j);
    }
  }

  lemma CanonicalKeepsOrderIn(s: seq<Annotation>, t: seq<Annotation>, y: Annotation, z: Annotation)
    requires NothingInterleaves(s) && SameUpToEvidenceOrder(s, t) && y in t && z in t
    ensures Leq(AnnotationKey(y), AnnotationKey(z)) ==> Leq(AnnotationKey(CanonicalAnnotation(y)), AnnotationKey(CanonicalAnnotation(z)))
  {
    hide *;
    var i := ArrangedMember(s, t, y);
    var j := ArrangedMember(s, t, z);
    if PrefixKey(s[i]) == PrefixKey(s[j]) && CanonicalAnnotation(s[i]) != CanonicalAnnotation(s[j]) {
      PairIsApart(s, i, j);
    }
    if Leq(AnnotationKey(y), AnnotationKey(z)) {
      CanonicalKeepsOrder(s[i], s[j], y, z);
    }
  }

  /** For valid labels the sort key of a canonical annotation is all there is to it. */
  lemma CanonicalKeyDecides(s: seq<Annotation>, t: seq<Annotation>, y: Annotation, z: Annotation)
    requires (forall x :: x in s ==> ValidAnnotation(x)) && SameUpToEvidenceOrder(s, t) && y in t && z in t
    ensures AnnotationKey(CanonicalAnnotation(y)) == AnnotationKey(CanonicalAnnotation(z)) ==> CanonicalAnnotation(y) == CanonicalAnnotation(z)
  {
    hide AnnotationKey, CanonicalAnnotation, ValidAnnotation, SameUpToEvidenceOrder, Arranges;
    var i := ArrangedMember(s, t, y);
    var j := ArrangedMember(s, t, z);
    assert s[i] in s && s[j] in s;
    CanonicalLabels(s[i], y);
    CanonicalLabels(s[j], z);
    if AnnotationKey(CanonicalAnnotation(y)) == AnnotationKey(CanonicalAnnotation(z)) {
      LabelsAndKeyDecide(CanonicalAnnotation(y), CanonicalAnnotation(z));
    }
  }

  /** A hashed annotation with a legal value and ontology. */
  predicate Labelled(u: Annotation) {
    (u.value.Some? ==> u.value.value != "") && (u.ontology.Some? ==> ValidOntology(u.ontology.value)) && u.metadata == ""
  }

  lemma CanonicalLabels(x: Annotation, y: Annotation)
    requires ValidAnnotation(x) && Arranges(x, y)
    ensures Labelled(CanonicalAnnotation(y))
  {
    hide SortBy;
  }

  lemma LabelsAndKeyDecide(u: Annotation, v: Annotation)
    requires Labelled(u) && Labelled(v) && AnnotationKey(u) == AnnotationKey(v)
    ensures u == v
  {
    hide AnnotationKey;
    SameKeySameParts(u, v);
  }

  lemma SameCanonicals(s: seq<Annotation>, t: seq<Annotation>)
    requires SameUpToEvidenceOrder(s, t)
    ensures Map(CanonicalAnnotation, s) == Map(CanonicalAnnotation, t)
  {
    forall i | 0 <= i < |s|
      ensures CanonicalAnnotation(s[i]) == CanonicalAnnotation(t[i])
    {
      ArrangedIsSame(s[i], t[i]);
    }
    hide CanonicalAnnotation;
  }

  lemma SortedCanonically(s: seq<Annotation>, t: seq<Annotation>)
    requires (forall x :: x in s ==> ValidAnnotation(x)) && NothingInterleaves(s) && SameUpToEvidenceOrder(s, t)
    ensures Map(CanonicalAnnotation, SortBy(AnnotationKey, t)) == SortBy(AnnotationKey, Map(CanonicalAnnotation, s))
  {
    hide *;
    forall y, z | y in t && z in t
      ensures Leq(AnnotationKey(y), AnnotationKey(z)) ==> Leq(AnnotationKey(CanonicalAnnotation(y)), AnnotationKey(CanonicalAnnotation(z)))
      ensures AnnotationKey(CanonicalAnnotation(y)) == AnnotationKey(CanonicalAnnotation(z)) ==> CanonicalAnnotation(y) == CanonicalAnnotation(z)
    {
      CanonicalKeepsOrderIn(s, t, y, z);
      CanonicalKeyDecides(s, t, y, z);
    }
    SameCanonicals(s, t);
    MonotoneSortCommutes(CanonicalAnnotation, AnnotationKey, t);
  }

  lemma OnlyAnnotationsMatter(a: Case, b: Case)
    requires b == a.(annotations := b.annotations)
    ensures CanonicalCase(a) == CanonicalCase(b)
       <==> Map(CanonicalAnnotation, SortBy(AnnotationKey, a.annotations)) == Map(CanonicalAnnotation, SortBy(AnnotationKey, b.annotations))
  {
    hide CanonicalAnnotation, AnnotationKey, SortBy, Map;
  }

  lemma NothingInterleavesSuffices(rules: Rules, a: Case, b: Case)
    requires ValidCase(rules, a) && NothingInterleaves(a.annotations) && Rearranged(a, b)
    ensures CanonicalCase(a) == CanonicalCase(b)
  {
    assert SameUpToEvidenceOrder(a.annotations, a.annotations);
    hide NothingInterleaves, CanonicalCase;
    SortedCanonically(a.annotations, a.annotations);
    SortedCanonically(a.annotations, b.annotations);
    OnlyAnnotationsMatter(a, b);
  }

  // ----- the condition is needed -----

  /** The annotation with evidence `p` if it is one of those like `x`, and `q` if it is one of those like `y`. */
  function Chosen(x: Annotation, p: seq<Span>, y: Annotation, q: seq<Span>): Annotation -> Annotation {
    (z: Annotation) =>
      if CanonicalAnnotation(z) == CanonicalAnnotation(x) then z.(evidence := p)
      else if CanonicalAnnotation(z) == CanonicalAnnotation(y) then z.(evidence := q)
      else z
  }

  lemma SameCanonicalSameEvidence(x: Annotation, z: Annotation)
    requires CanonicalAnnotation(z) == CanonicalAnnotation(x)
    ensures multiset(z.evidence) == multiset(x.evidence) && PrefixKey(z) == PrefixKey(x)
  {
    SortPermutes(SpanKey, z.evidence);
    SortPermutes(SpanKey, x.evidence);
    assert CanonicalAnnotation(z).evidence == CanonicalAnnotation(x).evidence;
    CanonicalPrefix();
    hide PrefixKey;
    assert PrefixKey(CanonicalAnnotation(z)) == PrefixKey(CanonicalAnnotation(x));
  }

  lemma ChosenArranges(x: Annotation, p: seq<Span>, y: Annotation, q: seq<Span>, z: Annotation)
    requires multiset(p) == multiset(x.evidence) && multiset(q) == multiset(y.evidence)
    ensures Arranges(z, Chosen(x, p, y, q)(z))
  {
    if CanonicalAnnotation(z) == CanonicalAnnotation(x) {
      SameCanonicalSameEvidence(x, z);
    } else if CanonicalAnnotation(z) == CanonicalAnnotation(y) {
      SameCanonicalSameEvidence(y, z);
    }
    hide CanonicalAnnotation;
  }

  /** The case with the chosen evidence. */
  function Choose(a: Case, x: Annotation, p: seq<Span>, y: Annotation, q: seq<Span>): Case {
    a.(annotations := Map(Chosen(x, p, y, q), a.annotations))
  }

  lemma ChooseRearranges(a: Case, x: Annotation, p: seq<Span>, y: Annotation, q: seq<Span>)
    requires multiset(p) == multiset(x.evidence) && multiset(q) == multiset(y.evidence)
    ensures Rearranged(a, Choose(a, x, p, y, q))
  {
    forall i | 0 <= i < |a.annotations|
      ensures Arranges(a.annotations[i], Choose(a, x, p, y, q).annotations[i])
    {
      ChosenArranges(x, p, y, q, a.annotations[i]);
    }
    hide Chosen;
  }

  /** What the payload lists for the annotations of a case. */
  function Listing(a: Case): seq<Annotation> {
    Map(CanonicalAnnotation, SortBy(AnnotationKey, a.annotations))
  }

  /** In the listing, everything like `y` comes before everything like `x`. */
  ghost predicate AllBefore(listing: seq<Annotation>, y: Annotation, x: Annotation) {
    forall m, n :: 0 <= m < |listing| && 0 <= n < |listing| ==>
      (listing[m] == CanonicalAnnotation(x) && listing[n] == CanonicalAnnotation(y) ==> n < m)
  }

  lemma ChosenEvidence(a: Case, x: Annotation, p: seq<Span>, y: Annotation, q: seq<Span>, z: Annotation)
    requires multiset(p) == multiset(x.evidence) && multiset(q) == multiset(y.evidence)
    requires z in Choose(a, x, p, y, q).annotations && CanonicalAnnotation(x) != CanonicalAnnotation(y)
    ensures CanonicalAnnotation(z) == CanonicalAnnotation(x) ==> z.evidence == p && PrefixKey(z) == PrefixKey(x)
    ensures CanonicalAnnotation(z) == CanonicalAnnotation(y) ==> z.evidence == q && PrefixKey(z) == PrefixKey(y)
  {
    var b := Choose(a, x, p, y, q);
    var i :| 0 <= i < |b.annotations| && b.annotations[i] == z;
    var w := a.annotations[i];
    assert z == Chosen(x, p, y, q)(w);
    ChosenArranges(x, p, y, q, w);
    ArrangedIsSame(w, z);
    if CanonicalAnnotation(z) == CanonicalAnnotation(x) {
      SameCanonicalSameEvidence(x, z);
    }
    if CanonicalAnnotation(z) == CanonicalAnnotation(y) {
      SameCanonicalSameEvidence(y, z);
    }
    hide CanonicalAnnotation, PrefixKey;
  }

  lemma ChosenOrder(a: Case, x: Annotation, p: seq<Span>, y: Annotation, q: seq<Span>)
    requires multiset(p) == multiset(x.evidence) && multiset(q) == multiset(y.evidence)
    requires PrefixKey(x) == PrefixKey(y) && CanonicalAnnotation(x) != CanonicalAnnotation(y)
    requires !Leq(SpansKey(p), SpansKey(q))
    ensures AllBefore(Listing(Choose(a, x, p, y, q)), y, x)
  {
    var b := Choose(a, x, p, y, q);
    var sorted := SortBy(AnnotationKey, b.annotations);
    SortSorts(AnnotationKey, b.annotations);
    SortMembers(AnnotationKey, b.annotations);
    hide CanonicalAnnotation, PrefixKey, AnnotationKey, Leq, SpansKey, Choose, SortBy;
    forall m, n | 0 <= m < |sorted| && 0 <= n < |sorted|
                  && CanonicalAnnotation(sorted[m]) == CanonicalAnnotation(x) && CanonicalAnnotation(sorted[n]) == CanonicalAnnotation(y)
      ensures n < m
    {
      assert sorted[m] in b.annotations && sorted[n] in b.annotations;
      ChosenEvidence(a, x, p, y, q, sorted[m]);
      ChosenEvidence(a, x, p, y, q, sorted[n]);
      KeysCompare(sorted[m], sorted[n]);
      assert m != n;
    }
  }

  lemma ListingHas(a: Case, x: Annotation) returns (m: nat)
    requires x in a.annotations
    ensures m < |Listing(a)| && Listing(a)[m] == CanonicalAnnotation(x)
  {
    SortMembers(AnnotationKey, a.annotations);
    hide CanonicalAnnotation, AnnotationKey, SortBy;
    var sorted := SortBy(AnnotationKey, a.annotations);
    m :| 0 <= m < |sorted| && sorted[m] == x;
  }

  /** Interleaving evidence shows: some valid arrangement changes the payload. */
  lemma InterleavingShows(rules: Rules, a: Case, i: nat, j: nat) returns (b: Case)
    requires ValidCase(rules, a) && i < |a.annotations| && j < |a.annotations| && Interleaves(a.annotations, i, j)
    requires Alone(rules, a.annotations, i) && Alone(rules, a.annotations, j)
    ensures Rearranged(a, b) && ValidCase(rules, b) && CanonicalCase(b) != CanonicalCase(a)
  {
    var x, y := a.annotations[i], a.annotations[j];
    ArrangementsLieBetween(x.evidence, x.evidence);
    ArrangementsLieBetween(y.evidence, y.evidence);
    hide Leq, SpansKey, Greatest, Least, PrefixKey, CanonicalAnnotation, CanonicalCase, Choose, Rearranged, Listing, AllBefore, Alone,
      ValidCase;
    ChosenStaysValid(rules, a, i, Greatest(x.evidence), j, Least(y.evidence));
    ChosenStaysValid(rules, a, i, Least(x.evidence), j, Greatest(y.evidence));
    var first := Choose(a, x, Greatest(x.evidence), y, Least(y.evidence));
    var second := Choose(a, x, Least(x.evidence), y, Greatest(y.evidence));
    ChooseRearranges(a, x, Greatest(x.evidence), y, Least(y.evidence));
    ChooseRearranges(a, x, Least(x.evidence), y, Greatest(y.evidence));
    ChosenOrder(a, x, Greatest(x.evidence), y, Least(y.evidence));
    SecondOrder(a, x, y);
    var m := ListingHas(a, x);
    var n := ListingHas(a, y);
    ListingDecides(a, first);
    ListingDecides(a, second);
    OppositeOrders(Listing(a), x, y, m, n);
    hide *;
    b := if CanonicalCase(first) != CanonicalCase(a) then first else second;
  }

  lemma OppositeOrders(listing: seq<Annotation>, x: Annotation, y: Annotation, m: nat, n: nat)
    requires m < |listing| && n < |listing| && listing[m] == CanonicalAnnotation(x) && listing[n] == CanonicalAnnotation(y)
    ensures !(AllBefore(listing, y, x) && AllBefore(listing, x, y))
  {
    hide CanonicalAnnotation;
  }

  lemma SecondOrder(a: Case, x: Annotation, y: Annotation)
    requires PrefixKey(x) == PrefixKey(y) && CanonicalAnnotation(x) != CanonicalAnnotation(y)
    requires !Leq(SpansKey(Greatest(y.evidence)), SpansKey(Least(x.evidence)))
    ensures AllBefore(Listing(Choose(a, x, Least(x.evidence), y, Greatest(y.evidence))), x, y)
  {
    ArrangementsLieBetween(x.evidence, x.evidence);
    ArrangementsLieBetween(y.evidence, y.evidence);
    ChosenOrder(a, y, Greatest(y.evidence), x, Least(x.evidence));
    SwapChoice(a, x, Least(x.evidence), y, Greatest(y.evidence));
  }

  lemma SwapChoice(a: Case, x: Annotation, p: seq<Span>, y: Annotation, q: seq<Span>)
    requires CanonicalAnnotation(x) != CanonicalAnnotation(y)
    ensures Choose(a, x, p, y, q) == Choose(a, y, q, x, p)
  {
    hide CanonicalAnnotation;
    var b, c := Choose(a, x, p, y, q), Choose(a, y, q, x, p);
    assert b.annotations == c.annotations;
  }

  lemma ListingDecides(a: Case, b: Case)
    requires Rearranged(a, b)
    ensures CanonicalCase(a) == CanonicalCase(b) <==> Listing(a) == Listing(b)
  {
    OnlyAnnotationsMatter(a, b);
    hide CanonicalCase;
  }

  // ----- which rearrangements stay valid -----

  /** The two differ in nothing the validator tells annotations apart by, except the order of evidence. */
  ghost predicate SameRanges(rules: Rules, x: Annotation, y: Annotation) {
    && Signature(rules, x).0 == Signature(rules, y).0 && Signature(rules, x).1 == Signature(rules, y).1
    && Signature(rules, x).2 == Signature(rules, y).2
    && multiset(Signature(rules, x).3) == multiset(Signature(rules, y).3)
  }

  /** No other annotation of the list could be given the same signature. */
  ghost predicate Alone(rules: Rules, s: seq<Annotation>, i: nat)
    requires i < |s|
  {
    forall j :: 0 <= j < |s| && j != i ==> !SameRanges(rules, s[i], s[j])
  }

  lemma ArrangedHasSameRanges(rules: Rules, x: Annotation, y: Annotation)
    requires Arranges(x, y)
    ensures SameRanges(rules, x, y)
  {
    MapPermutes(RangeOf, x.evidence, y.evidence);
  }

  lemma SameCanonicalSameRanges(rules: Rules, x: Annotation, y: Annotation)
    requires CanonicalAnnotation(x) == CanonicalAnnotation(y)
    ensures SameRanges(rules, x, y)
  {
    SameCanonicalSameEvidence(x, y);
    assert CanonicalAnnotation(x).target == CanonicalAnnotation(y).target && CanonicalAnnotation(x).value == CanonicalAnnotation(y).value;
    assert CanonicalAnnotation(x).annotationType == CanonicalAnnotation(y).annotationType;
    hide CanonicalAnnotation;
    MapPermutes(RangeOf, x.evidence, y.evidence);
  }

  lemma ArrangedKeepsRanges(rules: Rules, x: Annotation, x': Annotation, y: Annotation, y': Annotation)
    requires Arranges(x, x') && Arranges(y, y')
    ensures SameRanges(rules, x', y') <==> SameRanges(rules, x, y)
    ensures SameRanges(rules, x, y) <==> SameRanges(rules, y, x)
  {
    ArrangedHasSameRanges(rules, x, x');
    ArrangedHasSameRanges(rules, y, y');
    hide Signature;
  }

  lemma EqualSignatures(rules: Rules, x: Annotation, y: Annotation)
    ensures Signature(rules, x) == Signature(rules, y) ==> SameRanges(rules, x, y)
  {
  }

  /** Annotations keep distinct signatures if only those that stand alone are rearranged. */
  lemma SignaturesStayDistinct(rules: Rules, s: seq<Annotation>, t: seq<Annotation>, k: nat, l: nat)
    requires SameUpToEvidenceOrder(s, t) && k < |s| && l < |s| && k != l
    requires t[k] == s[k] || Alone(rules, s, k)
    requires t[l] == s[l] || Alone(rules, s, l)
    requires Signature(rules, s[k]) != Signature(rules, s[l])
    ensures Signature(rules, t[k]) != Signature(rules, t[l])
  {
    ArrangedKeepsRanges(rules, s[k], t[k], s[l], t[l]);
    EqualSignatures(rules, t[k], t[l]);
    hide SameRanges, Signature;
  }

  lemma ArrangedStaysValid(rules: Rules, a: Case, b: Case, x: Annotation, y: Annotation)
    requires Rearranged(a, b) && Arranges(x, y) && ValidAnnotation(x) && Substantiated(rules, x) && Grounded(a, x)
    ensures ValidAnnotation(y) && Substantiated(rules, y) && Grounded(b, y)
  {
    MembersOfMultiset(x.evidence, y.evidence);
    assert Distinct(x.evidence);
    DistinctPermuted(x.evidence, y.evidence);
    forall s | s in y.evidence
      ensures Quotes(b, s)
    {
      assert Quotes(a, s);
    }
  }

  /** A rearrangement with distinct signatures is valid again. */
  lemma RearrangedIsValid(rules: Rules, a: Case, b: Case)
    requires ValidCase(rules, a) && Rearranged(a, b)
    requires forall k, l :: 0 <= k < l < |b.annotations| ==>
               Signature(rules, b.annotations[k]) != Signature(rules, b.annotations[l])
    ensures ValidCase(rules, b)
  {
    forall y | y in b.annotations
      ensures ValidAnnotation(y) && Substantiated(rules, y) && Grounded(b, y)
    {
      var k :| 0 <= k < |b.annotations| && b.annotations[k] == y;
      assert a.annotations[k] in a.annotations;
      ArrangedStaysValid(rules, a, b, a.annotations[k], y);
    }
    forall s, o | s in b.scopes && o in s.target.orders
      ensures HasOrder(b, o)
    {
      assert HasOrder(a, o);
    }
    hide ValidAnnotation, Substantiated, Grounded, HasOrder, Signature, ValidScope, StrictlyAscending, ElementsFit;
  }

  /** Choosing evidence for two annotations that stand alone changes only these two. */
  lemma ChosenStaysValid(rules: Rules, a: Case, i: nat, p: seq<Span>, j: nat, q: seq<Span>)
    requires ValidCase(rules, a) && i < |a.annotations| && j < |a.annotations|
    requires Alone(rules, a.annotations, i) && Alone(rules, a.annotations, j)
    requires multiset(p) == multiset(a.annotations[i].evidence) && multiset(q) == multiset(a.annotations[j].evidence)
    ensures ValidCase(rules, Choose(a, a.annotations[i], p, a.annotations[j], q))
  {
    var s, x, y := a.annotations, a.annotations[i], a.annotations[j];
    var b := Choose(a, x, p, y, q);
    ChooseRearranges(a, x, p, y, q);
    forall k | 0 <= k < |s|
      ensures b.annotations[k] == s[k] || Alone(rules, s, k)
    {
      ChosenOrAlone(rules, s, i, p, j, q, k);
    }
    forall k, l | 0 <= k < l < |s|
      ensures Signature(rules, b.annotations[k]) != Signature(rules, b.annotations[l])
    {
      assert Signature(rules, s[k]) != Signature(rules, s[l]);
      SignaturesStayDistinct(rules, s, b.annotations, k, l);
    }
    hide Choose, Rearranged, ValidCase, Signature, Alone;
    RearrangedIsValid(rules, a, b);
  }

  lemma ChosenOrAlone(rules: Rules, s: seq<Annotation>, i: nat, p: seq<Span>, j: nat, q: seq<Span>, k: nat)
    requires i < |s| && j < |s| && k < |s| && Alone(rules, s, i) && Alone(rules, s, j)
    ensures Chosen(s[i], p, s[j], q)(s[k]) == s[k] || Alone(rules, s, k)
  {
    if CanonicalAnnotation(s[k]) == CanonicalAnnotation(s[i]) {
      SameCanonicalSameRanges(rules, s[i], s[k]);
    } else if CanonicalAnnotation(s[k]) == CanonicalAnnotation(s[j]) {
      SameCanonicalSameRanges(rules, s[j], s[k]);
    }
    hide CanonicalAnnotation, SameRanges;
  }

  // ----- the results -----

  /** Whatever valid order the evidence of its annotations is in, the case has the same hash payload. */
  ghost predicate IgnoresEvidenceOrder(rules: Rules, a: Case) {
    forall b :: Rearranged(a, b) && ValidCase(rules, b) ==> CanonicalCase(b) == CanonicalCase(a)
  }

  /**
   The payload of a valid case is the same for every valid order of evidence if no two annotations interleave,
   that is, if the greatest arrangement of one sorts before the least arrangement of the other; and only if no two
   that stand alone do. Where all annotations stand alone this is exact.
   */
  lemma EvidenceOrderExactly(rules: Rules, a: Case)
    requires ValidCase(rules, a)
    ensures NothingInterleaves(a.annotations) ==> IgnoresEvidenceOrder(rules, a)
    ensures IgnoresEvidenceOrder(rules, a) ==>
              forall i, j :: 0 <= i < j < |a.annotations| && Alone(rules, a.annotations, i) && Alone(rules, a.annotations, j) ==>
                !Interleaves(a.annotations, i, j)
    ensures (forall i :: 0 <= i < |a.annotations| ==> Alone(rules, a.annotations, i)) ==>
              (IgnoresEvidenceOrder(rules, a) <==> NothingInterleaves(a.annotations))
  {
    hide ValidCase, PrefixKey, CanonicalAnnotation, Apart, CanonicalCase, Rearranged, Alone;
    if NothingInterleaves(a.annotations) {
      forall b | Rearranged(a, b)
        ensures CanonicalCase(b) == CanonicalCase(a)
      {
        NothingInterleavesSuffices(rules, a, b);
      }
    }
    var s := a.annotations;
    forall i, j | 0 <= i < j < |s| && Alone(rules, s, i) && Alone(rules, s, j) && Interleaves(s, i, j)
      ensures !IgnoresEvidenceOrder(rules, a)
    {
      var b := InterleavingShows(rules, a, i, j);
    }
  }

  // ----- one given rearrangement -----

  /** No two annotations agree in everything but metadata and the order of evidence. */
  ghost predicate NoTwins(s: seq<Annotation>) {
    forall i, j :: 0 <= i < j < |s| ==> CanonicalAnnotation(s[i]) != CanonicalAnnotation(s[j])
  }

  /** Annotations with equal prefix are sorted the same way in both lists. */
  ghost predicate SameOrders(s: seq<Annotation>, t: seq<Annotation>)
    requires |s| == |t|
  {
    forall i, j :: 0 <= i < j < |s| && PrefixKey(s[i]) == PrefixKey(s[j]) ==>
      (Leq(AnnotationKey(s[i]), AnnotationKey(s[j])) <==> Leq(AnnotationKey(t[i]), AnnotationKey(t[j])))
  }

  function Item(s: seq<Annotation>): int -> Annotation {
    i => if 0 <= i < |s| then s[i] else Annotation(GoldTarget("", []), 0, None, None, [], "")
  }

  function ItemKey(s: seq<Annotation>): int -> Key {
    i => AnnotationKey(Item(s)(i))
  }

  function ItemCanonical(s: seq<Annotation>): int -> Annotation {
    i => CanonicalAnnotation(Item(s)(i))
  }

  function Positions(n: nat): (r: seq<int>)
    ensures |r| == n && forall i :: 0 <= i < n ==> r[i] == i
  {
    seq(n, i => i)
  }

  lemma PositionMembers(n: nat)
    ensures forall i :: i in Positions(n) <==> 0 <= i < n
  {
    forall i
      ensures i in Positions(n) <==> 0 <= i < n
    {
      if 0 <= i < n {
        assert Positions(n)[i] == i;
      }
    }
  }

  lemma ItemAt(s: seq<Annotation>, i: int)
    requires 0 <= i < |s|
    ensures Item(s)(i) == s[i] && ItemKey(s)(i) == AnnotationKey(s[i]) && ItemCanonical(s)(i) == CanonicalAnnotation(s[i])
  {
    hide AnnotationKey, CanonicalAnnotation;
  }

  /** The positions of the annotations in sorted order. */
  function Sequence(s: seq<Annotation>): seq<int> {
    SortBy(ItemKey(s), Positions(|s|))
  }

  lemma SequenceLists(s: seq<Annotation>)
    ensures Map(CanonicalAnnotation, SortBy(AnnotationKey, s)) == Map(ItemCanonical(s), Sequence(s))
    ensures |Sequence(s)| == |s| && (forall i :: i in Sequence(s) <==> 0 <= i < |s|)
  {
    hide AnnotationKey, CanonicalAnnotation, SortBy;
    assert Map(Item(s), Positions(|s|)) == s;
    SortCommutes(Item(s), ItemKey(s), AnnotationKey, Positions(|s|));
    SortMembers(ItemKey(s), Positions(|s|));
    PositionMembers(|s|);
    assert Map(CanonicalAnnotation, Map(Item(s), Sequence(s))) == Map(ItemCanonical(s), Sequence(s));
  }

  lemma SamePairOrder(s: seq<Annotation>, t: seq<Annotation>, i: nat, j: nat)
    requires SameUpToEvidenceOrder(s, t) && i < j < |s|
    requires PrefixKey(s[i]) == PrefixKey(s[j]) ==>
               (Leq(AnnotationKey(s[i]), AnnotationKey(s[j])) <==> Leq(AnnotationKey(t[i]), AnnotationKey(t[j])))
    ensures Leq(ItemKey(s)(i), ItemKey(s)(j)) <==> Leq(ItemKey(t)(i), ItemKey(t)(j))
  {
    ArrangedIsSame(s[i], t[i]);
    ArrangedIsSame(s[j], t[j]);
    KeysCompare(s[i], s[j]);
    KeysCompare(t[i], t[j]);
    ItemAt(s, i);
    ItemAt(s, j);
    ItemAt(t, i);
    ItemAt(t, j);
    hide AnnotationKey, PrefixKey, CanonicalAnnotation, Leq, ItemKey;
  }

  lemma SameOrdersSuffice(s: seq<Annotation>, t: seq<Annotation>)
    requires SameUpToEvidenceOrder(s, t) && SameOrders(s, t)
    ensures Map(CanonicalAnnotation, SortBy(AnnotationKey, s)) == Map(CanonicalAnnotation, SortBy(AnnotationKey, t))
  {
    hide AnnotationKey, CanonicalAnnotation, SortBy, PrefixKey, Leq;
    var positions := Positions(|s|);
    forall i, j | 0 <= i < j < |s|
      ensures Leq(ItemKey(s)(positions[i]), ItemKey(s)(positions[j])) <==> Leq(ItemKey(t)(positions[i]), ItemKey(t)(positions[j]))
    {
      SamePairOrder(s, t, i, j);
    }
    SortByOrder(ItemKey(s), ItemKey(t), positions);
    SequenceLists(s);
    SequenceLists(t);
    SameItems(s, t, Sequence(s));
  }

  lemma SameItems(s: seq<Annotation>, t: seq<Annotation>, positions: seq<int>)
    requires SameUpToEvidenceOrder(s, t) && forall i :: i in positions ==> 0 <= i < |s|
    ensures Map(ItemCanonical(s), positions) == Map(ItemCanonical(t), positions)
  {
    SameCanonicals(s, t);
    hide CanonicalAnnotation;
    forall k | 0 <= k < |positions|
      ensures ItemCanonical(s)(positions[k]) == ItemCanonical(t)(positions[k])
    {
      assert positions[k] in positions;
      ItemAt(s, positions[k]);
      ItemAt(t, positions[k]);
      assert Map(CanonicalAnnotation, s)[positions[k]] == Map(CanonicalAnnotation, t)[positions[k]];
    }
  }

  /** Without twins equal listings come from equal sequences. */
  lemma EqualListingsSameSequence(s: seq<Annotation>, t: seq<Annotation>)
    requires SameUpToEvidenceOrder(s, t) && NoTwins(s)
    requires Map(CanonicalAnnotation, SortBy(AnnotationKey, s)) == Map(CanonicalAnnotation, SortBy(AnnotationKey, t))
    ensures Sequence(s) == Sequence(t)
  {
    SequenceLists(s);
    SequenceLists(t);
    hide AnnotationKey, CanonicalAnnotation, SortBy, Sequence;
    SameItems(s, t, Sequence(t));
    forall k | 0 <= k < |s|
      ensures Sequence(s)[k] == Sequence(t)[k]
    {
      var i, j := Sequence(s)[k], Sequence(t)[k];
      assert i in Sequence(s) && j in Sequence(t);
      assert Map(ItemCanonical(s), Sequence(s))[k] == Map(ItemCanonical(s), Sequence(t))[k];
      ItemAt(s, i);
      ItemAt(s, j);
      assert CanonicalAnnotation(s[i]) == CanonicalAnnotation(s[j]);
    }
  }

  lemma SequenceDecidesPair(s: seq<Annotation>, i: nat, j: nat, p: nat, q: nat)
    requires i < |s| && j < |s| && p < |Sequence(s)| && q < |Sequence(s)| && Sequence(s)[p] == i && Sequence(s)[q] == j
    requires AnnotationKey(s[i]) != AnnotationKey(s[j])
    ensures Leq(AnnotationKey(s[i]), AnnotationKey(s[j])) <==> p < q
  {
    SortSorts(ItemKey(s), Positions(|s|));
    ItemAt(s, i);
    ItemAt(s, j);
    hide AnnotationKey, SortBy, ItemKey;
    assert p != q;
    if p < q {
      assert Leq(ItemKey(s)(Sequence(s)[p]), ItemKey(s)(Sequence(s)[q]));
    } else {
      assert Leq(ItemKey(s)(Sequence(s)[q]), ItemKey(s)(Sequence(s)[p]));
      if Leq(AnnotationKey(s[i]), AnnotationKey(s[j])) {
        LeqAntisymmetric(AnnotationKey(s[i]), AnnotationKey(s[j]));
      }
    }
  }

  lemma DifferentKeys(x: Annotation, y: Annotation, x': Annotation, y': Annotation)
    requires ValidAnnotation(x) && ValidAnnotation(y) && Arranges(x, x') && Arranges(y, y')
    requires CanonicalAnnotation(x) != CanonicalAnnotation(y)
    ensures AnnotationKey(x') != AnnotationKey(y')
  {
    ArrangedIsSame(x, x');
    ArrangedIsSame(y, y');
    if AnnotationKey(x') == AnnotationKey(y') {
      SameKeySameParts(x', y');
      hide AnnotationKey;
    }
  }

  lemma EqualListingsSameOrders(s: seq<Annotation>, t: seq<Annotation>)
    requires (forall x :: x in s ==> ValidAnnotation(x)) && SameUpToEvidenceOrder(s, t) && NoTwins(s)
    requires Map(CanonicalAnnotation, SortBy(AnnotationKey, s)) == Map(CanonicalAnnotation, SortBy(AnnotationKey, t))
    ensures SameOrders(s, t)
  {
    EqualListingsSameSequence(s, t);
    SequenceLists(s);
    hide AnnotationKey, CanonicalAnnotation, SortBy, PrefixKey, Leq, Sequence, ValidAnnotation;
    forall i, j | 0 <= i < j < |s|
      ensures Leq(AnnotationKey(s[i]), AnnotationKey(s[j])) <==> Leq(AnnotationKey(t[i]), AnnotationKey(t[j]))
    {
      assert i in Sequence(s) && j in Sequence(s);
      var p :| 0 <= p < |Sequence(s)| && Sequence(s)[p] == i;
      var q :| 0 <= q < |Sequence(s)| && Sequence(s)[q] == j;
      assert s[i] in s && s[j] in s;
      DifferentKeys(s[i], s[j], s[i], s[j]);
      DifferentKeys(s[i], s[j], t[i], t[j]);
      SequenceDecidesPair(s, i, j, p, q);
      SequenceDecidesPair(t, i, j, p, q);
    }
  }

  /**
   One given rearrangement of a valid case without twins has the same payload exactly when it sorts
   every two annotations with equal prefix as before.
   */
  lemma RearrangementExactly(rules: Rules, a: Case, b: Case)
    requires ValidCase(rules, a) && NoTwins(a.annotations) && Rearranged(a, b)
    ensures CanonicalCase(a) == CanonicalCase(b) <==> SameOrders(a.annotations, b.annotations)
  {
    OnlyAnnotationsMatter(a, b);
    hide CanonicalCase, SameOrders, NoTwins, SortBy, Map;
    if SameOrders(a.annotations, b.annotations) {
      SameOrdersSuffice(a.annotations, b.annotations);
    }
    if CanonicalCase(a) == CanonicalCase(b) {
      EqualListingsSameOrders(a.annotations, b.annotations);
    }
  }

  function Twins(rules: Rules, p: seq<Span>, q: seq<Span>): Case {
    TwoAnnotations(rules, p).(annotations := [WithEvidence(p), WithEvidence(q)])
  }

  /** Twins hide a change of order: two annotations with the same evidence the other way round can swap places. */
  lemma TwinsHideOrder(rules: Rules)
    ensures exists a: Case, b: Case ::
              && ValidCase(rules, a) && Rearranged(a, b)
              && !SameOrders(a.annotations, b.annotations) && CanonicalCase(a) == CanonicalCase(b)
  {
    var p, q := [QUOTED, LAST], [LAST, QUOTED];
    var a, b := Twins(rules, p, q), Twins(rules, q, p);
    TwinsAreValid(rules);
    TwinsDiffer();
    assert multiset(p) == multiset(q);
    assert Arranges(a.annotations[0], b.annotations[0]) && Arranges(a.annotations[1], b.annotations[1]);
    hide ValidCase, CanonicalCase, PrefixKey, AnnotationKey, CanonicalAnnotation, Apart;
    assert Rearranged(a, b);
    assert CanonicalAnnotation(a.annotations[0]) == CanonicalAnnotation(a.annotations[1]) by {
      ArrangedIsSame(a.annotations[0], a.annotations[1]);
    }
    assert NothingInterleaves(a.annotations);
    NothingInterleavesSuffices(rules, a, b);
  }

  lemma TwinsAreValid(rules: Rules)
    ensures ValidCase(rules, Twins(rules, [QUOTED, LAST], [LAST, QUOTED]))
  {
    var c := Twins(rules, [QUOTED, LAST], [LAST, QUOTED]);
    var e := c.elements[0];
    assert e in c.elements && c.scopes[0] in c.scopes && 0 in [0];
    assert "abc"[0..1] == "a" && "abc"[2..3] == "c";
    assert Quotes(c, QUOTED) && Quotes(c, LAST) && HasOrder(c, 0);
    assert Signature(rules, c.annotations[0]).3[0] == (0, 0, 1) && Signature(rules, c.annotations[1]).3[0] == (0, 2, 3);
  }

  lemma TwinsDiffer()
    ensures var p, q := [QUOTED, LAST], [LAST, QUOTED];
            !SameOrders([WithEvidence(p), WithEvidence(q)], [WithEvidence(q), WithEvidence(p)])
  {
    var p, q := [QUOTED, LAST], [LAST, QUOTED];
    var x, y := WithEvidence(p), WithEvidence(q);
    assert PrefixKey(x) == PrefixKey(y);
    KeysCompare(x, y);
    KeysCompare(y, x);
    assert p == [QUOTED] + [LAST] && q == [LAST] + [QUOTED];
    SpanStartDecides(QUOTED, [LAST], LAST, [QUOTED]);
    SpanStartDecides(LAST, [QUOTED], QUOTED, [LAST]);
    hide AnnotationKey, PrefixKey, Leq;
    assert [x, y][0] == x && [x, y][1] == y && [y, x][0] == y && [y, x][1] == x;
  }

  // A valid case with interleaving evidence that has no valid rearrangement but the swap of two annotations.

  function Surrounded(rules: Rules): Case {
    TwoAnnotations(rules, [QUOTED, LAST]).(
      annotations := [WithEvidence([QUOTED, LAST]), WithEvidence([LAST, QUOTED]), WithEvidence([MIDDLE])])
  }

  lemma SurroundedIsValid(rules: Rules)
    ensures ValidCase(rules, Surrounded(rules))
  {
    var c := Surrounded(rules);
    var e := c.elements[0];
    assert e in c.elements && c.scopes[0] in c.scopes && 0 in [0];
    assert "abc"[0..1] == "a" && "abc"[1..2] == "b" && "abc"[2..3] == "c";
    assert Quotes(c, QUOTED) && Quotes(c, MIDDLE) && Quotes(c, LAST) && HasOrder(c, 0);
    assert Signature(rules, c.annotations[0]).3[0] == (0, 0, 1) && Signature(rules, c.annotations[1]).3[0] == (0, 2, 3);
    assert |Signature(rules, c.annotations[0]).3| == |Signature(rules, c.annotations[1]).3| == 2 && |Signature(rules, c.annotations[2]).3| == 1;
  }

  lemma SurroundingArrangements()
    ensures Least([QUOTED, LAST]) == [QUOTED, LAST] && Greatest([QUOTED, LAST]) == [LAST, QUOTED]
    ensures Least([MIDDLE]) == [MIDDLE] == Greatest([MIDDLE])
  {
    assert SpanKey(QUOTED)[2] == 0 && SpanKey(LAST)[2] == 2;
    SharedFront([0, 0], SpanKey(QUOTED)[2..], SpanKey(LAST)[2..]);
    assert SpanKey(QUOTED) == [0, 0] + SpanKey(QUOTED)[2..] && SpanKey(LAST) == [0, 0] + SpanKey(LAST)[2..];
    assert Leq(SpanKey(QUOTED), SpanKey(LAST));
    hide SpanKey, Leq;
    assert [QUOTED, LAST][1..] == [LAST] && [LAST][1..] == [] && [MIDDLE][1..] == [];
    assert SortBy(SpanKey, [LAST]) == [LAST] && SortBy(SpanKey, [MIDDLE]) == [MIDDLE];
    assert [QUOTED, LAST][..1] == [QUOTED] && [QUOTED][..0] == [] && [MIDDLE][..0] == [];
    assert Reversed([QUOTED]) == [QUOTED] && Reversed([MIDDLE]) == [MIDDLE];
  }

  lemma SurroundedInterleaves(rules: Rules)
    ensures Interleaves(Surrounded(rules).annotations, 0, 2)
  {
    var x, y := WithEvidence([QUOTED, LAST]), WithEvidence([MIDDLE]);
    SurroundingArrangements();
    assert |CanonicalAnnotation(x).evidence| == 2 && |CanonicalAnnotation(y).evidence| == 1 && PrefixKey(x) == PrefixKey(y);
    hide PrefixKey, CanonicalAnnotation, Least, Greatest;
    assert [QUOTED, LAST] == [QUOTED] + [LAST] && [LAST, QUOTED] == [LAST] + [QUOTED] && [MIDDLE] == [MIDDLE] + [];
    SpanStartDecides(LAST, [QUOTED], MIDDLE, []);
    SpanStartDecides(MIDDLE, [], QUOTED, [LAST]);
    hide SpansKey, Leq;
    assert Surrounded(rules).annotations[0] == x && Surrounded(rules).annotations[2] == y;
  }

  lemma TwoOrders(evidence: seq<Span>, x: Span, y: Span)
    requires multiset(evidence) == multiset([x, y]) && x != y
    ensures evidence == [x, y] || evidence == [y, x]
  {
    assert |multiset(evidence)| == |evidence| == 2;
    assert evidence == [evidence[0], evidence[1]];
    assert evidence[0] in multiset([x, y]) && evidence[1] in multiset([x, y]);
    assert multiset(evidence)[x] == 1 && multiset(evidence)[y] == 1;
  }

  lemma OneOrder(evidence: seq<Span>, x: Span)
    requires multiset(evidence) == multiset([x])
    ensures evidence == [x]
  {
    assert |multiset(evidence)| == |evidence| == 1;
    assert evidence[0] in multiset([x]);
  }

  lemma SurroundedIsRigid(rules: Rules, b: Case)
    requires Rearranged(Surrounded(rules), b) && ValidCase(rules, b)
    ensures multiset(b.annotations) == multiset(Surrounded(rules).annotations)
  {
    var s, t := Surrounded(rules).annotations, b.annotations;
    assert Signature(rules, t[0]) != Signature(rules, t[1]);
    assert t[0] != t[1];
    hide ValidCase, Signature;
    assert multiset([LAST, QUOTED]) == multiset([QUOTED, LAST]);
    TwoOrders(t[0].evidence, QUOTED, LAST);
    TwoOrders(t[1].evidence, QUOTED, LAST);
    OneOrder(t[2].evidence, MIDDLE);
    assert t[2] == s[2];
    assert (t[0] == s[0] && t[1] == s[1]) || (t[0] == s[1] && t[1] == s[0]);
    hide Surrounded, SameUpToEvidenceOrder, Rearranged;
    ThreePermuted(s, t);
  }

  lemma ThreePermuted(s: seq<Annotation>, t: seq<Annotation>)
    requires |s| == |t| == 3 && t[2] == s[2] && ((t[0] == s[0] && t[1] == s[1]) || (t[0] == s[1] && t[1] == s[0]))
    ensures multiset(t) == multiset(s)
  {
    ThreeParts(s);
    ThreeParts(t);
    assert multiset{s[0]} + multiset{s[1]} == multiset{s[1]} + multiset{s[0]};
  }

  lemma ThreeParts<T>(s: seq<T>)
    requires |s| == 3
    ensures multiset(s) == multiset{s[0]} + multiset{s[1]} + multiset{s[2]}
  {
    assert s == [s[0]] + [s[1]] + [s[2]];
  }

  /** Without annotations standing alone interleaving evidence need not show: the two orders around the middle are both taken. */
  lemma AloneIsNeeded(rules: Rules)
    ensures var a := Surrounded(rules);
            ValidCase(rules, a) && IgnoresEvidenceOrder(rules, a) && !NothingInterleaves(a.annotations)
  {
    SurroundedIsValid(rules);
    SurroundedInterleaves(rules);
    var a := Surrounded(rules);
    assert |a.annotations| == 3;
    hide ValidCase, CanonicalCase, Surrounded, Interleaves, Rearranged;
    forall b | Rearranged(a, b) && ValidCase(rules, b)
      ensures CanonicalCase(b) == CanonicalCase(a)
    {
      SurroundedIsRigid(rules, b);
      RearrangedKeepsRest(a, b);
      PayloadIgnoresOrder(rules, a, b);
    }
  }

  lemma RearrangedKeepsRest(a: Case, b: Case)
    requires Rearranged(a, b) && multiset(a.annotations) == multiset(b.annotations)
    ensures SameUpToOrder(a, b)
  {
  }
}
