/** What the split, dataset and corpus hashes depend on, and what they determine. */
module GoldHashing {
  import opened Basics
  import opened Sorting
  import opened Splits
  import opened Gold

  // ----- one case -----

  /** The same case up to the order of its elements, scopes and annotations, and its metadata. */
  ghost predicate SameUpToOrder(a: Case, b: Case) {
    && b == a.(elements := b.elements, scopes := b.scopes, annotations := b.annotations, metadata := b.metadata)
    && multiset(a.elements) == multiset(b.elements) && multiset(a.scopes) == multiset(b.scopes)
    && multiset(a.annotations) == multiset(b.annotations)
  }

  /** Valid cases that agree up to order have the same hash payload, because validation makes every sort key unique. */
  lemma PayloadIgnoresOrder(rules: Rules, a: Case, b: Case)
    requires ValidCase(rules, a) && SameUpToOrder(a, b)
    ensures CanonicalCase(a) == CanonicalCase(b)
  {
    ElementKeysIdentify(rules, a);
    ScopeKeysIdentify(rules, a);
    AnnotationKeysIdentify(rules, a);
    hide ValidCase;
    SortForgetsOrder(ElementKey, a.elements, b.elements);
    SortForgetsOrder(ScopeKey, a.scopes, b.scopes);
    SortForgetsOrder(AnnotationKey, a.annotations, b.annotations);
  }

  // ----- whole datasets -----

  function CanonicalCases(cases: seq<Case>): seq<Case> {
    Map(CanonicalCase, cases)
  }

  lemma InSplitCons(c: Case, rest: seq<Case>, s: Split)
    ensures InSplit([c] + rest, s) == (if c.split == s then [c] else []) + InSplit(rest, s)
  {
    assert ([c] + rest)[1..] == rest;
  }

  lemma CanonicalCons(c: Case, rest: seq<Case>)
    ensures CanonicalCases([c] + rest) == [CanonicalCase(c)] + CanonicalCases(rest)
  {
    hide CanonicalCase;
  }

  lemma {:induction false} InSplitCommutes(cases: seq<Case>, s: Split)
    ensures CanonicalCases(InSplit(cases, s)) == InSplit(CanonicalCases(cases), s)
  {
    if cases != [] {
      hide *;
      var c, rest := cases[0], cases[1..];
      assert cases == [c] + rest;
      InSplitCommutes(rest, s);
      CanonicalKeepsIdentity(c);
      CanonicalCons(c, rest);
      InSplitCons(c, rest, s);
      InSplitCons(CanonicalCase(c), CanonicalCases(rest), s);
      CanonicalCons(c, InSplit(rest, s));
      assert [] + InSplit(rest, s) == InSplit(rest, s);
    }
  }

  lemma CanonicalKeepsIdentity(c: Case)
    ensures CanonicalCase(c).split == c.split && DocumentKey(CanonicalCase(c)) == DocumentKey(c)
    ensures CorpusEntry(CanonicalCase(c)) == CorpusEntry(c)
  {
  }

  /** The case list a split hash digests is the sorted list of canonical cases of that split. */
  lemma PayloadOfSplit(cases: seq<Case>, s: Split)
    ensures Map(CanonicalCase, SortBy(DocumentKey, InSplit(cases, s)))
         == SortBy(DocumentKey, InSplit(CanonicalCases(cases), s))
  {
    hide CanonicalCase, DocumentKey;
    forall c
      ensures DocumentKey(CanonicalCase(c)) == DocumentKey(c)
    {
      CanonicalKeepsIdentity(c);
    }
    SortCommutes(CanonicalCase, DocumentKey, DocumentKey, InSplit(cases, s));
    InSplitCommutes(cases, s);
  }

  lemma {:induction false} CountInSplit(cases: seq<Case>, s: Split, c: Case)
    ensures multiset(InSplit(cases, s))[c] == if c.split == s then multiset(cases)[c] else 0
  {
    if cases != [] {
      CountInSplit(cases[1..], s, c);
      assert cases == [cases[0]] + cases[1..];
    }
  }

  lemma InSplitOfSame(a: seq<Case>, b: seq<Case>, s: Split)
    requires multiset(a) == multiset(b)
    ensures multiset(InSplit(a, s)) == multiset(InSplit(b, s))
  {
    forall c
      ensures multiset(InSplit(a, s))[c] == multiset(InSplit(b, s))[c]
    {
      CountInSplit(a, s, c);
      CountInSplit(b, s, c);
    }
  }

  lemma {:induction false} PresentSplits(cases: seq<Case>, s: Split)
    ensures s in Present(cases) <==> InSplit(CanonicalCases(cases), s) != []
  {
    InSplitCommutes(cases, s);
    HasSplitDecided(cases);
  }

  lemma CanonicalIdsIdentify(rules: Rules, d: Dataset, s: Split)
    requires ValidDataset(rules, d)
    ensures KeyIdentifies(DocumentKey, InSplit(CanonicalCases(d.cases), s))
  {
    DocumentKeysIdentify(rules, d);
    hide ValidDataset, DocumentKey, CanonicalCase;
    var all := CanonicalCases(d.cases);
    forall x, y | x in InSplit(all, s) && y in InSplit(all, s) && DocumentKey(x) == DocumentKey(y)
      ensures x == y
    {
      var i :| 0 <= i < |all| && all[i] == x;
      var j :| 0 <= j < |all| && all[j] == y;
      CanonicalKeepsIdentity(d.cases[i]);
      CanonicalKeepsIdentity(d.cases[j]);
    }
  }

  /** A split hash depends only on the versions and the collection of canonical cases. */
  lemma SplitHashForgetsOrder(rules: Rules, d: Dataset, e: Dataset, s: Split)
    requires ValidDataset(rules, d)
    requires d.schemaVersion == e.schemaVersion && d.benchmark == e.benchmark
    requires multiset(CanonicalCases(d.cases)) == multiset(CanonicalCases(e.cases))
    ensures SplitHash(d, s) == SplitHash(e, s) && (s in Present(d.cases) <==> s in Present(e.cases))
  {
    var a, b := InSplit(CanonicalCases(d.cases), s), InSplit(CanonicalCases(e.cases), s);
    PayloadOfSplit(d.cases, s);
    PayloadOfSplit(e.cases, s);
    InSplitOfSame(CanonicalCases(d.cases), CanonicalCases(e.cases), s);
    CanonicalIdsIdentify(rules, d, s);
    hide ValidDataset, CanonicalCase, DocumentKey, CanonicalCases, InSplit;
    SortForgetsOrder(DocumentKey, a, b);
    PresentSplits(d.cases, s);
    PresentSplits(e.cases, s);
    assert |multiset(a)| == |a| && |multiset(b)| == |b|;
  }

  lemma SamePresent(a: seq<Case>, b: seq<Case>)
    requires forall s :: s in Present(a) <==> s in Present(b)
    ensures Present(a) == Present(b)
  {
    HasSplitDecided(a);
    HasSplitDecided(b);
    hide HasSplit;
    assert forall s :: HasSplit(a, s) <==> s in Present(a);
    assert forall s :: HasSplit(b, s) <==> s in Present(b);
  }

  lemma SameSplitHashes(d: Dataset, e: Dataset, splits: seq<Split>)
    requires forall s :: s in splits ==> SplitHash(d, s) == SplitHash(e, s)
    ensures SplitHashes(d, splits) == SplitHashes(e, splits)
  {
    hide SplitHash;
  }

  lemma EqualCasesEqualHash(rules: Rules, d: Dataset, e: Dataset)
    requires ValidDataset(rules, d)
    requires d.schemaVersion == e.schemaVersion && d.benchmark == e.benchmark
    requires multiset(CanonicalCases(d.cases)) == multiset(CanonicalCases(e.cases))
    ensures DatasetHash(d) == DatasetHash(e)
  {
    hide ValidDataset, CanonicalCases, SplitHash, Present, SplitHashes;
    forall s
      ensures SplitHash(d, s) == SplitHash(e, s) && (s in Present(d.cases) <==> s in Present(e.cases))
    {
      SplitHashForgetsOrder(rules, d, e, s);
    }
    SamePresent(d.cases, e.cases);
    SameSplitHashes(d, e, Present(d.cases));
  }

  lemma SplitHashDetermines(d: Dataset, e: Dataset, s: Split)
    requires SplitHash(d, s) == SplitHash(e, s)
    ensures d.schemaVersion == e.schemaVersion && d.benchmark == e.benchmark
    ensures multiset(InSplit(CanonicalCases(d.cases), s)) == multiset(InSplit(CanonicalCases(e.cases), s))
  {
    hide CanonicalCase, DocumentKey, CanonicalCases;
    PayloadOfSplit(d.cases, s);
    PayloadOfSplit(e.cases, s);
    SortPermutes(DocumentKey, InSplit(CanonicalCases(d.cases), s));
    SortPermutes(DocumentKey, InSplit(CanonicalCases(e.cases), s));
  }

  lemma EqualHashEqualCases(d: Dataset, e: Dataset)
    requires d.cases != [] && DatasetHash(d) == DatasetHash(e)
    ensures d.schemaVersion == e.schemaVersion && d.benchmark == e.benchmark
    ensures forall s :: multiset(InSplit(CanonicalCases(d.cases), s)) == multiset(InSplit(CanonicalCases(e.cases), s))
  {
    var p, q := Present(d.cases), Present(e.cases);
    PresentFirst(d);
    hide CanonicalCases, SplitHash, InSplit, Present;
    var a, b := SplitHashes(d, p), SplitHashes(e, q);
    assert a == b && |p| == |q|;
    forall i | 0 <= i < |p|
      ensures p[i] == q[i] && SplitHash(d, p[i]) == SplitHash(e, p[i])
    {
      assert a[i] == (p[i], SplitHash(d, p[i])) && b[i] == (q[i], SplitHash(e, q[i]));
    }
    SplitHashDetermines(d, e, p[0]);
    forall s
      ensures multiset(InSplit(CanonicalCases(d.cases), s)) == multiset(InSplit(CanonicalCases(e.cases), s))
    {
      if s in p {
        SplitHashDetermines(d, e, s);
      } else {
        assert p == q;
        PresentSplits(d.cases, s);
        PresentSplits(e.cases, s);
      }
    }
  }

  lemma PresentFirst(d: Dataset)
    requires d.cases != []
    ensures Present(d.cases) != []
  {
    assert d.cases[0] in d.cases;
    assert d.cases[0].split in Present(d.cases);
  }

  lemma SplitsMakeTheWhole(a: seq<Case>, b: seq<Case>)
    requires forall s :: multiset(InSplit(a, s)) == multiset(InSplit(b, s))
    ensures multiset(a) == multiset(b)
  {
    forall c: Case
      ensures multiset(a)[c] == multiset(b)[c]
    {
      CountInSplit(a, c.split, c);
      CountInSplit(b, c.split, c);
      assert multiset(InSplit(a, c.split)) == multiset(InSplit(b, c.split));
    }
  }

  /**
   The dataset hash identifies the semantic content exactly: two valid datasets have the same hash
   if and only if their versions agree and they have the same canonical cases, in any order.
   */
  lemma DatasetHashExactly(rules: Rules, d: Dataset, e: Dataset)
    requires ValidDataset(rules, d) && ValidDataset(rules, e)
    ensures DatasetHash(d) == DatasetHash(e)
       <==> d.schemaVersion == e.schemaVersion && d.benchmark == e.benchmark
            && multiset(CanonicalCases(d.cases)) == multiset(CanonicalCases(e.cases))
  {
    hide CanonicalCases, DatasetHash;
    assert d.cases != [];
    if DatasetHash(d) == DatasetHash(e) {
      EqualHashEqualCases(d, e);
      SplitsMakeTheWhole(CanonicalCases(d.cases), CanonicalCases(e.cases));
    } else if d.schemaVersion == e.schemaVersion && d.benchmark == e.benchmark
              && multiset(CanonicalCases(d.cases)) == multiset(CanonicalCases(e.cases)) {
      EqualCasesEqualHash(rules, d, e);
    }
  }

  /** The corpus hash, too, depends only on the canonical cases. */
  lemma CorpusHashForgetsOrder(rules: Rules, d: Dataset, e: Dataset)
    requires ValidDataset(rules, d)
    requires multiset(CanonicalCases(d.cases)) == multiset(CanonicalCases(e.cases))
    ensures CorpusHash(d) == CorpusHash(e)
  {
    CorpusOfCanonical(d.cases);
    CorpusOfCanonical(e.cases);
    AllCanonicalIdsIdentify(rules, d);
    hide CanonicalCases, DocumentKey, CorpusEntry;
    SortForgetsOrder(DocumentKey, CanonicalCases(d.cases), CanonicalCases(e.cases));
  }

  lemma AllCanonicalIdsIdentify(rules: Rules, d: Dataset)
    requires ValidDataset(rules, d)
    ensures KeyIdentifies(DocumentKey, CanonicalCases(d.cases))
  {
    DocumentKeysIdentify(rules, d);
    hide ValidDataset, DocumentKey, CanonicalCase;
    var all := CanonicalCases(d.cases);
    forall x, y | x in all && y in all && DocumentKey(x) == DocumentKey(y)
      ensures x == y
    {
      var i :| 0 <= i < |all| && all[i] == x;
      var j :| 0 <= j < |all| && all[j] == y;
      CanonicalKeepsIdentity(d.cases[i]);
      CanonicalKeepsIdentity(d.cases[j]);
    }
  }

  lemma CorpusOfCanonical(cases: seq<Case>)
    ensures Map(CorpusEntry, SortBy(DocumentKey, cases)) == Map(CorpusEntry, SortBy(DocumentKey, CanonicalCases(cases)))
  {
    hide CanonicalCase, DocumentKey, CorpusEntry;
    forall c
      ensures DocumentKey(CanonicalCase(c)) == DocumentKey(c) && CorpusEntry(CanonicalCase(c)) == CorpusEntry(c)
    {
      CanonicalKeepsIdentity(c);
    }
    SortCommutes(CanonicalCase, DocumentKey, DocumentKey, cases);
    var sorted := SortBy(DocumentKey, cases);
    assert Map(CorpusEntry, sorted) == Map(CorpusEntry, Map(CanonicalCase, sorted));
  }

  // ----- evidence order -----

  /** The part of the annotation sort key before the evidence. */
  function PrefixKey(a: Annotation): Key {
    TargetKeyOf(a.target) + [a.annotationType] + Terminated(OrEmpty(a.value)) + OntologyKey(a.ontology)
  }

  /** The annotations of both cases agree one by one up to the order of evidence. */
  ghost predicate SameUpToEvidenceOrder(a: seq<Annotation>, b: seq<Annotation>) {
    && |a| == |b|
    && forall i :: 0 <= i < |a| ==>
         b[i] == a[i].(evidence := b[i].evidence) && multiset(a[i].evidence) == multiset(b[i].evidence)
  }

  lemma SpanKeysIdentify(spans: seq<Span>)
    ensures KeyIdentifies(SpanKey, spans)
  {
    forall x, y | x in spans && y in spans && SpanKey(x) == SpanKey(y)
      ensures x == y
    {
      assert SpanKey(x) + [] == SpanKey(x) && SpanKey(y) + [] == SpanKey(y);
      SpanSeparates(x, [], y, []);
    }
  }

  lemma PrefixesSeparate(a: Annotation, x: Key, b: Annotation, y: Key)
    requires PrefixKey(a) + x == PrefixKey(b) + y
    ensures x == y
  {
    hide TargetKeyOf, Terminated, OntologyKey;
    var ta, va, oa := TargetKeyOf(a.target), Terminated(OrEmpty(a.value)), OntologyKey(a.ontology);
    var tb, vb, ob := TargetKeyOf(b.target), Terminated(OrEmpty(b.value)), OntologyKey(b.ontology);
    assert PrefixKey(a) + x == ta + ([a.annotationType] + (va + (oa + x)));
    assert PrefixKey(b) + y == tb + ([b.annotationType] + (vb + (ob + y)));
    TargetsSeparate(a.target, [a.annotationType] + (va + (oa + x)), b.target, [b.annotationType] + (vb + (ob + y)));
    HeadSeparates(a.annotationType, va + (oa + x), b.annotationType, vb + (ob + y));
    ComponentsSeparate(OrEmpty(a.value), oa + x, OrEmpty(b.value), ob + y);
    OntologySeparates(a.ontology, x, b.ontology, y);
  }

  lemma SortByPrefix(s: seq<Annotation>)
    requires KeysDiffer(PrefixKey, s)
    ensures SortBy(AnnotationKey, s) == SortBy(PrefixKey, s)
  {
    forall i, j | 0 <= i < j < |s|
      ensures Leq(AnnotationKey(s[i]), AnnotationKey(s[j])) <==> Leq(PrefixKey(s[i]), PrefixKey(s[j]))
    {
      forall u: Key, v: Key | PrefixKey(s[i]) + u == PrefixKey(s[j]) + v
        ensures u == v
      {
        PrefixesSeparate(s[i], u, s[j], v);
      }
      KeyIsPrefixAndEvidence(s[i]);
      KeyIsPrefixAndEvidence(s[j]);
      FrontDecides(PrefixKey(s[i]), SpansKey(s[i].evidence), PrefixKey(s[j]), SpansKey(s[j].evidence));
    }
    hide AnnotationKey, PrefixKey;
    SortByOrder(AnnotationKey, PrefixKey, s);
  }

  lemma KeyIsPrefixAndEvidence(a: Annotation)
    ensures AnnotationKey(a) == PrefixKey(a) + SpansKey(a.evidence)
  {
  }

  /** When no two annotations of a case agree in target, type, value and ontology, evidence order does not reach the hash. */
  lemma EvidenceOrderIgnored(a: Case, b: Case)
    requires b == a.(annotations := b.annotations) && SameUpToEvidenceOrder(a.annotations, b.annotations)
    requires KeysDiffer(PrefixKey, a.annotations)
    ensures CanonicalCase(a) == CanonicalCase(b)
  {
    var s, t := a.annotations, b.annotations;
    forall i | 0 <= i < |s|
      ensures CanonicalAnnotation(s[i]) == CanonicalAnnotation(t[i]) && PrefixKey(s[i]) == PrefixKey(t[i])
    {
      SpanKeysIdentify(s[i].evidence);
      SortForgetsOrder(SpanKey, s[i].evidence, t[i].evidence);
    }
    hide PrefixKey, CanonicalAnnotation, AnnotationKey;
    assert Map(CanonicalAnnotation, s) == Map(CanonicalAnnotation, t);
    SortByPrefix(s);
    SortByPrefix(t);
    CanonicalPrefix();
    SortCommutes(CanonicalAnnotation, PrefixKey, PrefixKey, s);
    SortCommutes(CanonicalAnnotation, PrefixKey, PrefixKey, t);
  }

  lemma CanonicalPrefix()
    ensures forall a :: PrefixKey(CanonicalAnnotation(a)) == PrefixKey(a)
  {
  }

  // A case whose hash payload changes when one annotation lists the same evidence in another order.

  const QUOTED := Span(0, 0, 1, "a", 0)
  const MIDDLE := Span(0, 1, 2, "b", 0)
  const LAST := Span(0, 2, 3, "c", 0)
  const ONLY_TARGET := GoldTarget("ELEMENT", [0])

  function WithEvidence(spans: seq<Span>): Annotation {
    Annotation(ONLY_TARGET, 0, None, None, spans, "")
  }

  const ONLY_ELEMENT := GoldElement(0, Some("abc"), None, "PARAGRAPH")

  function TwoAnnotations(rules: Rules, spans: seq<Span>): Case {
    Case("d", "h", rules.snapshot([ONLY_ELEMENT]), Train, "en", [ONLY_ELEMENT], [Scope(ONLY_TARGET, [0])],
         [WithEvidence(spans), WithEvidence([MIDDLE])], "")
  }

  lemma SpanStartDecides(a: Span, x: seq<Span>, b: Span, y: seq<Span>)
    requires a.order == b.order && a.view == b.view && a.start != b.start
    ensures Leq(SpansKey([a] + x), SpansKey([b] + y)) <==> a.start < b.start
  {
    var s, t := SpansKey([a] + x), SpansKey([b] + y);
    assert ([a] + x)[1..] == x && ([b] + y)[1..] == y;
    var front: Key := [a.order, a.view];
    var u: Key := [a.start, a.end] + Terminated(a.quote) + SpansKey(x);
    var v: Key := [b.start, b.end] + Terminated(b.quote) + SpansKey(y);
    assert s == front + u && t == front + v;
    SharedFront(front, u, v);
    assert u[0] == a.start && v[0] == b.start;
  }

  lemma TwoSorted(rules: Rules, spans: seq<Span>)
    requires spans != [] && spans[0].order == 0 && spans[0].view == 0 && spans[0].start != 1
    ensures SortBy(AnnotationKey, TwoAnnotations(rules, spans).annotations)
         == if spans[0].start < 1 then [WithEvidence(spans), WithEvidence([MIDDLE])]
            else [WithEvidence([MIDDLE]), WithEvidence(spans)]
  {
    var a, b := WithEvidence(spans), WithEvidence([MIDDLE]);
    KeyIsPrefixAndEvidence(a);
    KeyIsPrefixAndEvidence(b);
    assert PrefixKey(a) == PrefixKey(b);
    SharedFront(PrefixKey(a), SpansKey(spans), SpansKey([MIDDLE]));
    assert spans == [spans[0]] + spans[1..] && [MIDDLE] == [MIDDLE] + [];
    SpanStartDecides(spans[0], spans[1..], MIDDLE, []);
    hide AnnotationKey, PrefixKey;
    var s := TwoAnnotations(rules, spans).annotations;
    assert s[1..] == [b] && [b][1..] == [];
    assert SortBy(AnnotationKey, [b]) == [b];
    assert SortBy(AnnotationKey, s) == Insert(AnnotationKey, a, [b]);
  }

  lemma TwoAnnotationsIsValid(rules: Rules, spans: seq<Span>)
    requires spans == [QUOTED, LAST] || spans == [LAST, QUOTED]
    ensures ValidCase(rules, TwoAnnotations(rules, spans))
  {
    var c := TwoAnnotations(rules, spans);
    var e := c.elements[0];
    assert e in c.elements && c.scopes[0] in c.scopes && 0 in [0];
    assert "abc"[0..1] == "a" && "abc"[1..2] == "b" && "abc"[2..3] == "c";
    assert Quotes(c, QUOTED) && Quotes(c, MIDDLE) && Quotes(c, LAST);
    assert HasOrder(c, 0);
    assert |Signature(rules, c.annotations[0]).3| == 2 && |Signature(rules, c.annotations[1]).3| == 1;
  }

  /** The order of evidence inside an annotation can reach the hash: it decides how annotations that agree otherwise are sorted. */
  lemma EvidenceOrderCanMatter(rules: Rules)
    ensures exists a: Case, b: Case ::
              && ValidCase(rules, a) && ValidCase(rules, b)
              && b == a.(annotations := b.annotations) && SameUpToEvidenceOrder(a.annotations, b.annotations)
              && CanonicalCase(a) != CanonicalCase(b)
  {
    hide ValidCase, CanonicalCase, SameUpToEvidenceOrder;
    var a, b := TwoAnnotations(rules, [QUOTED, LAST]), TwoAnnotations(rules, [LAST, QUOTED]);
    TwoAnnotationsIsValid(rules, [QUOTED, LAST]);
    TwoAnnotationsIsValid(rules, [LAST, QUOTED]);
    FirstEvidenceSize(rules, [QUOTED, LAST]);
    FirstEvidenceSize(rules, [LAST, QUOTED]);
    SwappedEvidence(rules);
  }

  lemma SwappedEvidence(rules: Rules)
    ensures var a, b := TwoAnnotations(rules, [QUOTED, LAST]), TwoAnnotations(rules, [LAST, QUOTED]);
            b == a.(annotations := b.annotations) && SameUpToEvidenceOrder(a.annotations, b.annotations)
  {
    var a, b := TwoAnnotations(rules, [QUOTED, LAST]), TwoAnnotations(rules, [LAST, QUOTED]);
    assert multiset([QUOTED, LAST]) == multiset([LAST, QUOTED]);
    assert b.annotations[0] == a.annotations[0].(evidence := [LAST, QUOTED]) && b.annotations[1] == a.annotations[1];
  }

  lemma FirstEvidenceSize(rules: Rules, spans: seq<Span>)
    requires |spans| == 2 && spans[0].order == 0 && spans[0].view == 0 && spans[0].start != 1
    ensures var sorted := CanonicalCase(TwoAnnotations(rules, spans)).annotations;
            |sorted| == 2 && |sorted[0].evidence| == if spans[0].start < 1 then 2 else 1
  {
    TwoSorted(rules, spans);
    SortPermutes(SpanKey, spans);
    SortPermutes(SpanKey, [MIDDLE]);
    hide AnnotationKey, SortBy;
  }
}
