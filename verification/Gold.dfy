/** Semantic gold documents, their validators, sort keys and content hashes. */
module Gold {
  import opened Basics
  import opened Sorting
  import opened ReviewRecords
  import opened Splits

  datatype GoldTarget = GoldTarget(kind: string, orders: seq<nat>)

  datatype Scope = Scope(target: GoldTarget, evaluatedTypes: seq<AnnotationType>)

  datatype Span = Span(order: nat, start: nat, end: nat, quote: string, view: nat)

  datatype Annotation = Annotation(
    target: GoldTarget, annotationType: AnnotationType, value: Option<string>, ontology: Option<Ontology>,
    evidence: seq<Span>, metadata: string)

  datatype GoldElement = GoldElement(order: nat, rawText: Option<string>, normalizedText: Option<string>, kind: string)

  datatype Case = Case(
    documentId: string, contentHash: string, snapshotHash: string, split: Split, language: string,
    elements: seq<GoldElement>, scopes: seq<Scope>, annotations: seq<Annotation>, metadata: string)

  /** `splitManifest` and the version strings are the metadata entries that freezing consults. */
  datatype DatasetMetadata = NoMetadata | DatasetMetadata(splitManifest: Digest, compiler: string, workingSchema: string)

  datatype Dataset = Dataset(name: string, schemaVersion: string, benchmark: string, cases: seq<Case>, metadata: DatasetMetadata)

  /** A content hash, represented by the payload it digests. */
  datatype Digest =
    | SplitDigest(schemaVersion: string, benchmark: string, split: Split, cases: seq<Case>)
    | DatasetDigest(splits: seq<(Split, Digest)>)
    | CorpusDigest(documents: seq<(string, string, string)>)
    | ManifestDigest(schemaVersion: string, name: string, version: string, assignments: seq<(string, Split)>)
    | OtherDigest(text: string)

  const GOLD_SCHEMA_VERSION := "3"

  /**
   The functions of text the validators use: the normalization of annotation values, the key by which an
   extractive value must match a quote, and the snapshot hash of elements.
   */
  datatype Rules = Rules(normalize: string -> string, valueKey: string -> string, snapshot: seq<GoldElement> -> string)

  const CONCEPT: AnnotationType := 1
  const ENTITY: AnnotationType := 2
  const KEYWORD: AnnotationType := 3
  const CUSTOM: AnnotationType := 17

  // ----- validators -----

  function Signature(rules: Rules, a: Annotation): (GoldTarget, AnnotationType, Option<string>, seq<(nat, nat, nat)>) {
    (a.target, a.annotationType, if a.value.None? then None else Some(rules.normalize(a.value.value)), Map(RangeOf, a.evidence))
  }

  function RangeOf(s: Span): (nat, nat, nat) { (s.order, s.start, s.end) }

  predicate StrictlyAscending(s: seq<nat>) {
    forall i, j :: 0 <= i < j < |s| ==> s[i] < s[j]
  }

  predicate ValidSpan(s: Span) {
    s.start < s.end && s.end - s.start == |s.quote|
  }

  /** An ontology label has a key, and a version only if it is non-empty. */
  predicate ValidOntology(o: Ontology) {
    o.key != "" && (o.version.Some? ==> o.version.value != "")
  }

  predicate ValidAnnotation(a: Annotation) {
    && (a.value.Some? ==> a.value.value != "") && (a.ontology.Some? ==> ValidOntology(a.ontology.value))
    && (forall s :: s in a.evidence ==> ValidSpan(s))
    && (forall i, j :: 0 <= i < j < |a.evidence| ==> a.evidence[i] != a.evidence[j])
  }

  predicate Extractive(t: AnnotationType) {
    t == CONCEPT || t == ENTITY || t == KEYWORD
  }

  /** CUSTOM needs an ontology label; an extractive value needs a quote that matches it. */
  predicate Substantiated(rules: Rules, a: Annotation) {
    && (a.annotationType == CUSTOM ==> a.ontology.Some?)
    && (Extractive(a.annotationType) ==>
          a.value.Some? && exists s :: s in a.evidence && rules.valueKey(s.quote) == rules.valueKey(a.value.value))
  }

  predicate ValidTarget(t: GoldTarget) {
    t.orders != [] && StrictlyAscending(t.orders) && (t.kind == "ELEMENT" ==> |t.orders| == 1)
  }

  predicate ValidScope(s: Scope) {
    StrictlyAscending(s.evaluatedTypes) && s.evaluatedTypes != [] && ValidTarget(s.target)
  }

  function OrderOf(e: GoldElement): nat { e.order }

  /** The longest text of an element in gold; canonical documents have no such limit. */
  const MAX_TEXT := 32768

  predicate TextFits(text: Option<string>) {
    text.Some? ==> |text.value| <= MAX_TEXT
  }

  predicate ElementsFit(es: seq<GoldElement>) {
    forall e :: e in es ==> TextFits(e.rawText) && TextFits(e.normalizedText)
  }

  predicate ValidName(name: string) {
    1 <= |name| <= 256
  }

  /**
   The gold document validator: ordered elements of limited length that match their hash, one scope per target, no repeated
   annotation, substantiated values and grounded evidence.
   */
  predicate ValidCase(rules: Rules, c: Case) {
    && StrictlyAscending(Map(OrderOf, c.elements)) && ElementsFit(c.elements) && c.elements != [] && c.scopes != []
    && c.snapshotHash == rules.snapshot(c.elements)
    && (forall s :: s in c.scopes ==> ValidScope(s) && forall o :: o in s.target.orders ==> HasOrder(c, o))
    && (forall i, j :: 0 <= i < j < |c.scopes| ==> c.scopes[i].target != c.scopes[j].target)
    && (forall a :: a in c.annotations ==> ValidAnnotation(a) && Substantiated(rules, a) && Grounded(c, a))
    && (forall i, j :: 0 <= i < j < |c.annotations| ==>
          Signature(rules, c.annotations[i]) != Signature(rules, c.annotations[j]))
  }

  predicate HasOrder(c: Case, o: nat) {
    exists e :: e in c.elements && e.order == o
  }

  function TextForView(e: GoldElement, view: nat): Option<string> {
    if view == 0 then e.rawText else e.normalizedText
  }

  predicate Quotes(c: Case, s: Span) {
    exists e :: e in c.elements && e.order == s.order
                && TextForView(e, s.view).Some? && s.start <= s.end <= |TextForView(e, s.view).value|
                && TextForView(e, s.view).value[s.start..s.end] == s.quote
  }

  predicate Grounded(c: Case, a: Annotation) {
    && (exists s :: s in c.scopes && s.target == a.target && a.annotationType in s.evaluatedTypes)
    && (forall s :: s in a.evidence ==> s.order in a.target.orders && Quotes(c, s))
  }

  predicate ValidDataset(rules: Rules, d: Dataset) {
    && ValidName(d.name) && d.cases != [] && d.schemaVersion == GOLD_SCHEMA_VERSION
    && (forall c :: c in d.cases ==> ValidCase(rules, c))
    && (forall i, j :: 0 <= i < j < |d.cases| ==> d.cases[i].documentId != d.cases[j].documentId)
  }

  // ----- sort keys -----

  function DocumentKey(c: Case): Key { Codes(c.documentId) }

  function ElementKey(e: GoldElement): Key { [e.order] }

  function TypeKey(t: AnnotationType): Key { [t] }

  function OrdersKey(orders: seq<nat>): Key { var key: Key := orders; key + [-1] }

  function TargetKeyOf(t: GoldTarget): Key { Terminated(t.kind) + OrdersKey(t.orders) }

  function ScopeKey(s: Scope): Key { TargetKeyOf(s.target) }

  function SpanKey(s: Span): Key { [s.order, s.view, s.start, s.end] + Terminated(s.quote) }

  function SpansKey(spans: seq<Span>): Key {
    if spans == [] then [-1] else SpanKey(spans[0]) + SpansKey(spans[1..])
  }

  function OrEmpty(s: Option<string>): string {
    if s.None? then "" else s.value
  }

  function OntologyKey(o: Option<Ontology>): Key {
    if o.None? then Terminated("") + Terminated("") else Terminated(o.value.key) + Terminated(OrEmpty(o.value.version))
  }

  /** The evidence enters the key in its given order. */
  function AnnotationKey(a: Annotation): Key {
    TargetKeyOf(a.target) + [a.annotationType] + Terminated(OrEmpty(a.value)) + OntologyKey(a.ontology) + SpansKey(a.evidence)
  }

  lemma OrdersSeparate(a: seq<nat>, x: Key, b: seq<nat>, y: Key)
    requires OrdersKey(a) + x == OrdersKey(b) + y
    ensures a == b && x == y
  {
    var s, t := OrdersKey(a) + x, OrdersKey(b) + y;
    assert s[|a|] == -1 && t[|b|] == -1;
    assert forall i :: 0 <= i < |a| ==> s[i] == a[i];
    assert forall i :: 0 <= i < |b| ==> t[i] == b[i];
    assert |a| == |b|;
    assert a == s[..|a|] && b == t[..|b|];
    assert x == s[|a| + 1..] && y == t[|b| + 1..];
  }

  lemma TargetsSeparate(a: GoldTarget, x: Key, b: GoldTarget, y: Key)
    requires TargetKeyOf(a) + x == TargetKeyOf(b) + y
    ensures a == b && x == y
  {
    assert TargetKeyOf(a) + x == Terminated(a.kind) + (OrdersKey(a.orders) + x);
    assert TargetKeyOf(b) + y == Terminated(b.kind) + (OrdersKey(b.orders) + y);
    ComponentsSeparate(a.kind, OrdersKey(a.orders) + x, b.kind, OrdersKey(b.orders) + y);
    OrdersSeparate(a.orders, x, b.orders, y);
  }

  lemma SpanSeparates(a: Span, x: Key, b: Span, y: Key)
    requires SpanKey(a) + x == SpanKey(b) + y
    ensures a == b && x == y
  {
    var s, t := SpanKey(a) + x, SpanKey(b) + y;
    assert s[0] == a.order && s[1] == a.view && s[2] == a.start && s[3] == a.end;
    assert t[0] == b.order && t[1] == b.view && t[2] == b.start && t[3] == b.end;
    assert s[4..] == Terminated(a.quote) + x && t[4..] == Terminated(b.quote) + y;
    ComponentsSeparate(a.quote, x, b.quote, y);
  }

  lemma {:induction false} SpansKeyIsInjective(a: seq<Span>, b: seq<Span>)
    requires SpansKey(a) == SpansKey(b)
    ensures a == b
  {
    if a != [] {
      assert SpansKey(a)[0] == a[0].order;
    }
    if b != [] {
      assert SpansKey(b)[0] == b[0].order;
    }
    if a != [] && b != [] {
      SpanSeparates(a[0], SpansKey(a[1..]), b[0], SpansKey(b[1..]));
      SpansKeyIsInjective(a[1..], b[1..]);
      assert a == [a[0]] + a[1..] && b == [b[0]] + b[1..];
    }
  }

  function OntologyName(o: Option<Ontology>): string {
    if o.None? then "" else o.value.key
  }

  function OntologyVersion(o: Option<Ontology>): string {
    if o.None? then "" else OrEmpty(o.value.version)
  }

  lemma Regroup(a: Key, b: Key, x: Key)
    ensures (a + b) + x == a + (b + x)
  {
  }

  lemma OntologySeparates(a: Option<Ontology>, x: Key, b: Option<Ontology>, y: Key)
    requires OntologyKey(a) + x == OntologyKey(b) + y
    ensures x == y && OntologyName(a) == OntologyName(b) && OntologyVersion(a) == OntologyVersion(b)
  {
    hide Terminated;
    var ka, va, kb, vb := OntologyName(a), OntologyVersion(a), OntologyName(b), OntologyVersion(b);
    assert OntologyKey(a) == Terminated(ka) + Terminated(va) && OntologyKey(b) == Terminated(kb) + Terminated(vb);
    Regroup(Terminated(ka), Terminated(va), x);
    Regroup(Terminated(kb), Terminated(vb), y);
    ComponentsSeparate(ka, Terminated(va) + x, kb, Terminated(vb) + y);
    ComponentsSeparate(va, x, vb, y);
  }

  lemma HeadSeparates(m: nat, x: Key, n: nat, y: Key)
    requires [m] + x == [n] + y
    ensures m == n && x == y
  {
    assert ([m] + x)[0] == m && ([n] + y)[0] == n;
    assert ([m] + x)[1..] == x && ([n] + y)[1..] == y;
  }

  /** An annotation key, taken apart from the front. */
  lemma AnnotationKeyParts(a: Annotation)
    ensures AnnotationKey(a)
         == TargetKeyOf(a.target) + ([a.annotationType]
            + (Terminated(OrEmpty(a.value)) + (OntologyKey(a.ontology) + SpansKey(a.evidence))))
  {
    hide Terminated, TargetKeyOf, OntologyKey, SpansKey;
    var t, v, o, e := TargetKeyOf(a.target), Terminated(OrEmpty(a.value)), OntologyKey(a.ontology), SpansKey(a.evidence);
    assert t + [a.annotationType] + v + o + e == t + ([a.annotationType] + (v + (o + e)));
  }

  lemma SameKeySameParts(a: Annotation, b: Annotation)
    requires AnnotationKey(a) == AnnotationKey(b)
    ensures a.target == b.target && a.annotationType == b.annotationType && OrEmpty(a.value) == OrEmpty(b.value)
    ensures a.evidence == b.evidence
    ensures OntologyName(a.ontology) == OntologyName(b.ontology) && OntologyVersion(a.ontology) == OntologyVersion(b.ontology)
  {
    hide Terminated, TargetKeyOf, OntologyKey, SpansKey, AnnotationKey;
    AnnotationKeyParts(a);
    AnnotationKeyParts(b);
    var u, v := OntologyKey(a.ontology) + SpansKey(a.evidence), OntologyKey(b.ontology) + SpansKey(b.evidence);
    var p, q := Terminated(OrEmpty(a.value)) + u, Terminated(OrEmpty(b.value)) + v;
    TargetsSeparate(a.target, [a.annotationType] + p, b.target, [b.annotationType] + q);
    HeadSeparates(a.annotationType, p, b.annotationType, q);
    ComponentsSeparate(OrEmpty(a.value), u, OrEmpty(b.value), v);
    OntologySeparates(a.ontology, SpansKey(a.evidence), b.ontology, SpansKey(b.evidence));
    SpansKeyIsInjective(a.evidence, b.evidence);
  }

  /** Annotations with equal sort keys agree on everything the validator tells annotations apart by. */
  lemma SameKeySameSignature(rules: Rules, a: Annotation, b: Annotation)
    requires AnnotationKey(a) == AnnotationKey(b) && ValidAnnotation(a) && ValidAnnotation(b)
    ensures Signature(rules, a) == Signature(rules, b)
  {
    SameKeySameParts(a, b);
    hide AnnotationKey, Map;
  }

  lemma AnnotationKeysIdentify(rules: Rules, c: Case)
    requires ValidCase(rules, c)
    ensures KeyIdentifies(AnnotationKey, c.annotations)
  {
    forall x, y | x in c.annotations && y in c.annotations && AnnotationKey(x) == AnnotationKey(y)
      ensures x == y
    {
      var i :| 0 <= i < |c.annotations| && c.annotations[i] == x;
      var j :| 0 <= j < |c.annotations| && c.annotations[j] == y;
      SameKeySameSignature(rules, x, y);
    }
  }

  lemma ScopeKeysIdentify(rules: Rules, c: Case)
    requires ValidCase(rules, c)
    ensures KeyIdentifies(ScopeKey, c.scopes)
  {
    forall x, y | x in c.scopes && y in c.scopes && ScopeKey(x) == ScopeKey(y)
      ensures x == y
    {
      var i :| 0 <= i < |c.scopes| && c.scopes[i] == x;
      var j :| 0 <= j < |c.scopes| && c.scopes[j] == y;
      assert ScopeKey(x) + [] == ScopeKey(x) && ScopeKey(y) + [] == ScopeKey(y);
      TargetsSeparate(x.target, [], y.target, []);
    }
  }

  lemma ElementKeysIdentify(rules: Rules, c: Case)
    requires ValidCase(rules, c)
    ensures KeyIdentifies(ElementKey, c.elements)
  {
    var orders := Map(OrderOf, c.elements);
    forall x, y | x in c.elements && y in c.elements && ElementKey(x) == ElementKey(y)
      ensures x == y
    {
      var i :| 0 <= i < |c.elements| && c.elements[i] == x;
      var j :| 0 <= j < |c.elements| && c.elements[j] == y;
      assert orders[i] == [orders[i]][0] && ElementKey(x)[0] == orders[i] && ElementKey(y)[0] == orders[j];
    }
  }

  lemma DocumentKeysIdentify(rules: Rules, d: Dataset)
    requires ValidDataset(rules, d)
    ensures KeyIdentifies(DocumentKey, d.cases)
  {
    hide ValidCase;
    forall x, y | x in d.cases && y in d.cases && DocumentKey(x) == DocumentKey(y)
      ensures x == y
    {
      CodesAreInjective(x.documentId, y.documentId);
      var i :| 0 <= i < |d.cases| && d.cases[i] == x;
      var j :| 0 <= j < |d.cases| && d.cases[j] == y;
    }
  }

  // ----- canonical cases and hashes -----

  function CanonicalScope(s: Scope): Scope {
    s.(evaluatedTypes := SortBy(TypeKey, s.evaluatedTypes))
  }

  /** An annotation as hashed: evidence sorted, metadata dropped. */
  function CanonicalAnnotation(a: Annotation): Annotation {
    a.(evidence := SortBy(SpanKey, a.evidence), metadata := "")
  }

  /** The payload of one case: everything sorted, metadata dropped. */
  function CanonicalCase(c: Case): Case {
    c.(elements := SortBy(ElementKey, c.elements),
       scopes := Map(CanonicalScope, SortBy(ScopeKey, c.scopes)),
       annotations := Map(CanonicalAnnotation, SortBy(AnnotationKey, c.annotations)),
       metadata := "")
  }

  function InSplit(cases: seq<Case>, split: Split): (r: seq<Case>)
    ensures forall c :: c in r <==> c in cases && c.split == split
  {
    if cases == [] then []
    else
      assert cases == [cases[0]] + cases[1..];
      (if cases[0].split == split then [cases[0]] else []) + InSplit(cases[1..], split)
  }

  function SplitHash(d: Dataset, split: Split): Digest {
    SplitDigest(d.schemaVersion, d.benchmark, split, Map(CanonicalCase, SortBy(DocumentKey, InSplit(d.cases, split))))
  }

  /** The splits that have cases, in split order. */
  function Present(cases: seq<Case>): (r: seq<Split>)
    ensures forall s :: s in r <==> exists c :: c in cases && c.split == s
  {
    HasSplitDecided(cases);
    hide HasSplit, InSplit;
    (if HasSplit(cases, Train) then [Train] else []) + (if HasSplit(cases, Dev) then [Dev] else [])
    + (if HasSplit(cases, Test) then [Test] else [])
  }

  predicate HasSplit(cases: seq<Case>, s: Split) {
    InSplit(cases, s) != []
  }

  lemma HasSplitDecided(cases: seq<Case>)
    ensures forall s :: HasSplit(cases, s) <==> exists c :: c in cases && c.split == s
  {
    forall s
      ensures HasSplit(cases, s) <==> exists c :: c in cases && c.split == s
    {
      if HasSplit(cases, s) {
        assert InSplit(cases, s)[0] in InSplit(cases, s);
      }
    }
  }

  function SplitHashes(d: Dataset, splits: seq<Split>): seq<(Split, Digest)> {
    Map(s => (s, SplitHash(d, s)), splits)
  }

  function DatasetHash(d: Dataset): Digest {
    DatasetDigest(SplitHashes(d, Present(d.cases)))
  }

  function CorpusEntry(c: Case): (string, string, string) {
    (c.documentId, c.contentHash, c.snapshotHash)
  }

  function CorpusHash(d: Dataset): Digest {
    CorpusDigest(Map(CorpusEntry, SortBy(DocumentKey, d.cases)))
  }

  function AssignmentKey(a: (string, Split)): Key { Codes(a.0) }

  function SplitManifestHash(m: Manifest): Digest {
    ManifestDigest(m.schemaVersion, m.name, m.version, SortBy(AssignmentKey, m.assignments))
  }
}
