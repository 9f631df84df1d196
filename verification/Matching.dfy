/**
 Greedy one-to-one matching: of gold and predicted evidence spans by largest overlap, and of
 table contracts and predicted tables by first fit.  Items on the left are named by their
 position in the scanning order, so that the results hold whatever that order is.
 */
module Matching {
  import opened Basics

  // ----- matchings in general -----

  /** `m` pairs left items below `count` with distinct right items, compatible ones only. */
  ghost predicate IsMatching<P(!new)>(m: map<nat, P>, count: nat, right: set<P>, fits: (nat, P) -> bool) {
    && (forall k :: k in m ==> k < count && m[k] in right && fits(k, m[k]))
    && (forall j, k :: j in m && k in m && m[j] == m[k] ==> j == k)
  }

  /** The right items taken by left items before `k`. */
  ghost function TakenBefore<P>(m: map<nat, P>, k: nat): set<P> {
    set j | j in m && j < k :: m[j]
  }

  /** A left item stays unmatched only when no compatible right item was left for it. */
  ghost predicate LeavesNothing<P(!new)>(m: map<nat, P>, count: nat, right: set<P>, fits: (nat, P) -> bool) {
    forall k: nat, p :: k < count && k !in m && p in right && fits(k, p) ==> p in TakenBefore(m, k)
  }

  ghost function Extend<P>(m: map<nat, P>, i: nat, choice: Option<P>): map<nat, P> {
    if choice.Some? then m[i := choice.value] else m
  }

  lemma ExtendTaken<P>(m: map<nat, P>, i: nat, choice: Option<P>)
    requires forall k :: k in m ==> k < i
    ensures forall k: nat :: k <= i ==> TakenBefore(Extend(m, i, choice), k) == TakenBefore(m, k)
    ensures TakenBefore(Extend(m, i, choice), i + 1) == TakenBefore(m, i) + (if choice.Some? then {choice.value} else {})
  {
    var after := Extend(m, i, choice);
    forall k: nat | k <= i
      ensures TakenBefore(after, k) == TakenBefore(m, k)
    {
      assert forall j :: j in m && j < k ==> j in after && after[j] == m[j];
      assert forall j :: j in after && j < k ==> j in m && after[j] == m[j];
    }
    var before, now := TakenBefore(m, i), TakenBefore(after, i + 1);
    forall p | p in before
      ensures p in now
    {
      var j :| j in m && j < i && m[j] == p;
      assert after[j] == p;
    }
    if choice.Some? {
      assert after[i] == choice.value;
    }
  }

  /** One step of the scan: left item `i` takes a free compatible item, or none is left for it. */
  lemma ExtendMatching<P(!new)>(m: map<nat, P>, i: nat, choice: Option<P>, right: set<P>, fits: (nat, P) -> bool)
    requires IsMatching(m, i, right, fits) && LeavesNothing(m, i, right, fits)
    requires choice.Some? ==> choice.value in right - TakenBefore(m, i) && fits(i, choice.value)
    requires choice.None? ==> forall p :: p in right - TakenBefore(m, i) ==> !fits(i, p)
    ensures IsMatching(Extend(m, i, choice), i + 1, right, fits)
    ensures LeavesNothing(Extend(m, i, choice), i + 1, right, fits)
    ensures |Extend(m, i, choice)| == |m| + (if choice.Some? then 1 else 0)
  {
    var after := Extend(m, i, choice);
    ExtendTaken(m, i, choice);
    forall k: nat, p | k < i + 1 && k !in after && p in right && fits(k, p)
      ensures p in TakenBefore(after, k)
    {
      assert TakenBefore(after, k) == TakenBefore(m, k);
    }
    assert forall k :: k in m ==> m[k] in TakenBefore(m, i);
  }

  lemma {:induction false} ImageSize<P>(m: map<nat, P>, keys: set<nat>)
    requires keys <= m.Keys
    requires forall j, k :: j in keys && k in keys && m[j] == m[k] ==> j == k
    ensures |set k | k in keys :: m[k]| == |keys|
  {
    if keys != {} {
      var k :| k in keys;
      ImageSize(m, keys - {k});
      assert (set j | j in keys :: m[j]) == (set j | j in keys - {k} :: m[j]) + {m[k]};
    }
  }

  lemma SubsetSize<T>(a: set<T>, b: set<T>)
    requires a <= b
    ensures |a| <= |b|
  {
    assert b == a + (b - a);
  }

  /** A maximal matching has at least half the size of every matching. */
  lemma HalfOfAnyMatching<P(!new)>(greedy: map<nat, P>, other: map<nat, P>, count: nat, right: set<P>, fits: (nat, P) -> bool)
    requires IsMatching(greedy, count, right, fits) && LeavesNothing(greedy, count, right, fits)
    requires IsMatching(other, count, right, fits)
    ensures |other| <= 2 * |greedy|
  {
    var taken := set k | k in greedy :: greedy[k];
    var blocked := set k | k in other && other[k] in taken;
    var images := set k | k in blocked :: other[k];
    forall k | k in other
      ensures k in greedy.Keys + blocked
    {
      if k !in greedy {
        assert other[k] in TakenBefore(greedy, k);
      }
    }
    SubsetSize(other.Keys, greedy.Keys + blocked);
    ImageSize(other, blocked);
    SubsetSize(images, taken);
    ImageSize(greedy, greedy.Keys);
    assert |other| == |other.Keys| && |greedy| == |greedy.Keys|;
  }

  /** A matching uses up at most every item of either side, so both leftover counts are natural numbers. */
  lemma MatchingSize<P(!new)>(m: map<nat, P>, count: nat, right: set<P>, fits: (nat, P) -> bool)
    requires IsMatching(m, count, right, fits)
    ensures |m| <= count && |m| <= |right|
  {
    var indices := Below(count);
    IndexCount(count);
    SubsetSize(m.Keys, indices);
    ImageSize(m, m.Keys);
    SubsetSize(set k | k in m.Keys :: m[k], right);
    assert |m| == |m.Keys|;
  }

  function Below(count: nat): (r: set<nat>)
    ensures forall k: nat :: k in r <==> k < count
  {
    if count == 0 then {} else Below(count - 1) + {count - 1}
  }

  lemma {:induction false} IndexCount(count: nat)
    ensures |Below(count)| == count
  {
    if count > 0 {
      IndexCount(count - 1);
      assert Below(count) == Below(count - 1) + {count - 1};
    }
  }

  // ----- evidence spans -----

  /** What must agree before two spans are compared; only typed spans carry an annotation type. */
  datatype SpanKey = Typed(annotationType: string, elementOrder: nat, view: string)
                 | Untyped(elementOrder: nat, view: string)

  datatype Span = Span(key: SpanKey, start: int, end: int)

  function Overlap(gold: Span, predicted: Span): int {
    if gold.key != predicted.key then 0
    else (if gold.end <= predicted.end then gold.end else predicted.end)
         - (if gold.start >= predicted.start then gold.start else predicted.start)
  }

  function Overlapping(gold: seq<Span>): (nat, Span) -> bool {
    (k: nat, p: Span) => k < |gold| && Overlap(gold[k], p) > 0
  }

  /** In scanning order, every gold span takes a free predicted span it overlaps most. */
  ghost predicate TakesBest(m: map<nat, Span>, gold: seq<Span>, predicted: set<Span>) {
    forall k, p :: k in m && k < |gold| && p in predicted && p !in TakenBefore(m, k)
      ==> Overlap(gold[k], p) <= Overlap(gold[k], m[k])
  }

  ghost predicate OverlapRun(m: map<nat, Span>, gold: seq<Span>, predicted: set<Span>) {
    IsMatching(m, |gold|, predicted, Overlapping(gold))
    && LeavesNothing(m, |gold|, predicted, Overlapping(gold))
    && TakesBest(m, gold, predicted)
  }

  datatype Counts = Counts(truePositive: nat, falsePositive: nat, falseNegative: nat)

  /** The free span that overlaps `gold` most, scanning the set in an arbitrary order. */
  method BestOverlap(gold: Span, remaining: set<Span>) returns (best: Option<Span>)
    ensures best.None? ==> forall p :: p in remaining ==> Overlap(gold, p) <= 0
    ensures best.Some? ==> best.value in remaining && Overlap(gold, best.value) > 0
    ensures best.Some? ==> forall p :: p in remaining ==> Overlap(gold, p) <= Overlap(gold, best.value)
  {
    best := None;
    var bestOverlap := 0;
    var unseen := remaining;
    while unseen != {}
      invariant unseen <= remaining
      invariant bestOverlap == if best.None? then 0 else Overlap(gold, best.value)
      invariant best.Some? ==> best.value in remaining && bestOverlap > 0
      invariant forall p :: p in remaining - unseen ==> Overlap(gold, p) <= bestOverlap
      decreases unseen
    {
      var candidate :| candidate in unseen;
      unseen := unseen - {candidate};
      var overlap := Overlap(gold, candidate);
      if overlap > bestOverlap {
        best, bestOverlap := Some(candidate), overlap;
      }
    }
  }

  lemma ExtendBest(m: map<nat, Span>, i: nat, best: Option<Span>, gold: seq<Span>, predicted: set<Span>)
    requires i < |gold| && TakesBest(m, gold, predicted)
    requires forall k :: k in m ==> k < i
    requires forall k: nat :: k <= i ==> TakenBefore(Extend(m, i, best), k) == TakenBefore(m, k)
    requires best.Some? ==>
               forall p :: p in predicted - TakenBefore(m, i) ==> Overlap(gold[i], p) <= Overlap(gold[i], best.value)
    ensures TakesBest(Extend(m, i, best), gold, predicted)
  {}

  /** The state of the scan before gold span `i`. */
  ghost predicate SpanProgress(m: map<nat, Span>, i: nat, gold: seq<Span>, predicted: set<Span>, remaining: set<Span>) {
    i <= |gold| && remaining == predicted - TakenBefore(m, i)
    && IsMatching(m, i, predicted, Overlapping(gold)) && LeavesNothing(m, i, predicted, Overlapping(gold))
    && TakesBest(m, gold, predicted)
  }

  lemma SpanStep(m: map<nat, Span>, i: nat, gold: seq<Span>, predicted: set<Span>, remaining: set<Span>, best: Option<Span>)
    requires i < |gold| && SpanProgress(m, i, gold, predicted, remaining)
    requires best.None? ==> forall p :: p in remaining ==> Overlap(gold[i], p) <= 0
    requires best.Some? ==> best.value in remaining && Overlap(gold[i], best.value) > 0
    requires best.Some? ==> forall p :: p in remaining ==> Overlap(gold[i], p) <= Overlap(gold[i], best.value)
    ensures SpanProgress(Extend(m, i, best), i + 1, gold, predicted,
                         if best.Some? then remaining - {best.value} else remaining)
    ensures |Extend(m, i, best)| == |m| + (if best.Some? then 1 else 0)
  {
    ExtendTaken(m, i, best);
    ExtendMatching(m, i, best, predicted, Overlapping(gold));
    ExtendBest(m, i, best, gold, predicted);
  }

  lemma SpanEnd(m: map<nat, Span>, gold: seq<Span>, predicted: set<Span>, remaining: set<Span>)
    requires SpanProgress(m, |gold|, gold, predicted, remaining)
    ensures OverlapRun(m, gold, predicted) && |m| <= |predicted| && |m| <= |gold|
  {
    MatchingSize(m, |gold|, predicted, Overlapping(gold));
  }

  lemma SpanStart(gold: seq<Span>, predicted: set<Span>)
    ensures SpanProgress(map[], 0, gold, predicted, predicted)
  {}

  /** The overlap counts; both leftovers are natural numbers and the matching behind them is greedy. */
  method OverlapCounts(gold: seq<Span>, predicted: set<Span>) returns (counts: Counts)
    ensures exists m :: OverlapRun(m, gold, predicted) && counts.truePositive == |m|
    ensures counts.truePositive + counts.falsePositive == |predicted|
    ensures counts.truePositive + counts.falseNegative == |gold|
  {
    hide SpanProgress, OverlapRun;
    var remaining := predicted;
    var matched := 0;
    ghost var m: map<nat, Span> := map[];
    SpanStart(gold, predicted);
    for i := 0 to |gold|
      invariant matched == |m| && SpanProgress(m, i, gold, predicted, remaining)
    {
      var best := BestOverlap(gold[i], remaining);
      SpanStep(m, i, gold, predicted, remaining, best);
      m := Extend(m, i, best);
      if best.Some? {
        remaining := remaining - {best.value};
        matched := matched + 1;
      }
    }
    SpanEnd(m, gold, predicted, remaining);
    counts := Counts(matched, |predicted| - matched, |gold| - matched);
  }

  /** The count is at least half of any one-to-one matching of overlapping spans. */
  lemma OverlapRunAtLeastHalf(m: map<nat, Span>, other: map<nat, Span>, gold: seq<Span>, predicted: set<Span>)
    requires OverlapRun(m, gold, predicted)
    requires IsMatching(other, |gold|, predicted, Overlapping(gold))
    ensures |other| <= 2 * |m|
  {
    HalfOfAnyMatching(m, other, |gold|, predicted, Overlapping(gold));
  }

  function Plain(start: int, end: int): Span { Span(Untyped(0, "RAW_TEXT"), start, end) }

  /** The factor two is attained: every greedy run here finds one pair where two are possible. */
  lemma HalfIsAttained(m: map<nat, Span>)
    requires OverlapRun(m, [Plain(0, 10), Plain(8, 10)], {Plain(4, 10), Plain(0, 4)})
    ensures |m| == 1
    ensures exists other: map<nat, Span> ::
              IsMatching(other, 2, {Plain(4, 10), Plain(0, 4)}, Overlapping([Plain(0, 10), Plain(8, 10)])) && |other| == 2
  {
    var gold := [Plain(0, 10), Plain(8, 10)];
    var left, right := Plain(0, 4), Plain(4, 10);
    var fits := Overlapping(gold);
    assert fits(0, left) && fits(0, right) && !fits(1, left) && fits(1, right);
    assert TakenBefore(m, 0) == {};
    assert 0 in m && m[0] == right;
    assert 1 !in m;
    assert m.Keys == {0};
    assert |m| == |m.Keys|;
    var other: map<nat, Span> := map[0 := left, 1 := right];
    assert IsMatching(other, 2, {right, left}, fits);
  }

  // ----- table contracts -----

  /** In order, every contract takes the first free prediction it fits. */
  ghost predicate TakesFirst(m: map<nat, nat>, right: set<nat>, fits: (nat, nat) -> bool) {
    forall k, p: nat :: k in m && p in right && p !in TakenBefore(m, k) && fits(k, p) ==> m[k] <= p
  }

  function Fitting<C, P>(contracts: seq<C>, predictions: seq<P>, matches: (C, P) -> bool): (nat, nat) -> bool {
    (k: nat, p: nat) => k < |contracts| && p < |predictions| && matches(contracts[k], predictions[p])
  }

  ghost predicate FirstFitRun<C, P>(m: map<nat, nat>, contracts: seq<C>, predictions: seq<P>, matches: (C, P) -> bool) {
    var right := Below(|predictions|);
    var fits := Fitting(contracts, predictions, matches);
    IsMatching(m, |contracts|, right, fits) && LeavesNothing(m, |contracts|, right, fits) && TakesFirst(m, right, fits)
  }

  method FirstFree<P>(predictions: seq<P>, unused: set<nat>, accepts: P -> bool) returns (found: Option<nat>)
    ensures found.None? ==> forall p: nat :: p < |predictions| && p in unused ==> !accepts(predictions[p])
    ensures found.Some? ==> found.value in unused && found.value < |predictions| && accepts(predictions[found.value])
    ensures found.Some? ==> forall p: nat :: p < found.value && p in unused ==> !accepts(predictions[p])
  {
    found := None;
    for index := 0 to |predictions|
      invariant found.None?
      invariant forall p: nat :: p < index && p in unused ==> !accepts(predictions[p])
    {
      if index in unused && accepts(predictions[index]) {
        return Some(index);
      }
    }
  }

  ghost predicate FitProgress(m: map<nat, nat>, i: nat, right: set<nat>, fits: (nat, nat) -> bool, unused: set<nat>) {
    unused == right - TakenBefore(m, i)
    && IsMatching(m, i, right, fits) && LeavesNothing(m, i, right, fits) && TakesFirst(m, right, fits)
  }

  lemma FitStep(m: map<nat, nat>, i: nat, right: set<nat>, fits: (nat, nat) -> bool, unused: set<nat>, found: Option<nat>)
    requires FitProgress(m, i, right, fits, unused)
    requires found.None? ==> forall p :: p in unused ==> !fits(i, p)
    requires found.Some? ==> found.value in unused && fits(i, found.value)
    requires found.Some? ==> forall p: nat :: p < found.value && p in unused ==> !fits(i, p)
    ensures FitProgress(Extend(m, i, found), i + 1, right, fits, if found.Some? then unused - {found.value} else unused)
    ensures |Extend(m, i, found)| == |m| + (if found.Some? then 1 else 0)
  {
    ExtendTaken(m, i, found);
    ExtendMatching(m, i, found, right, fits);
  }

  method MatchStructuralContracts<C, P>(contracts: seq<C>, predictions: seq<P>, matches: (C, P) -> bool)
    returns (matched: nat)
    ensures exists m :: FirstFitRun(m, contracts, predictions, matches) && matched == |m|
    ensures matched <= |contracts| && matched <= |predictions|
  {
    ghost var right := Below(|predictions|);
    ghost var fits := Fitting(contracts, predictions, matches);
    var unused := Below(|predictions|);
    matched := 0;
    ghost var m: map<nat, nat> := map[];
    assert FitProgress(m, 0, right, fits, unused);
    for i := 0 to |contracts|
      invariant matched == |m| && FitProgress(m, i, right, fits, unused)
    {
      var found := FirstFree(predictions, unused, p => matches(contracts[i], p));
      FitStep(m, i, right, fits, unused, found);
      m := Extend(m, i, found);
      if found.Some? {
        unused := unused - {found.value};
        matched := matched + 1;
      }
    }
    MatchingSize(m, |contracts|, right, fits);
    IndexCount(|predictions|);
    assert FirstFitRun(m, contracts, predictions, matches);
  }

  /** First fit, too, finds at least half of what any assignment of tables to contracts could. */
  lemma FirstFitAtLeastHalf<C, P>(m: map<nat, nat>, other: map<nat, nat>,
                                  contracts: seq<C>, predictions: seq<P>, matches: (C, P) -> bool)
    requires FirstFitRun(m, contracts, predictions, matches)
    requires IsMatching(other, |contracts|, Below(|predictions|), Fitting(contracts, predictions, matches))
    ensures |other| <= 2 * |m|
  {
    HalfOfAnyMatching(m, other, |contracts|, Below(|predictions|), Fitting(contracts, predictions, matches));
  }

  // ----- precision, recall and F1 -----

  datatype Score = Score(counts: Counts, precision: Option<real>, recall: Option<real>, f1: Option<real>)

  function Ratio(part: nat, whole: nat): Option<real> {
    if whole == 0 then None else Some(part as real / whole as real)
  }

  function ScoreOf(c: Counts): Score {
    var precision := Ratio(c.truePositive, c.truePositive + c.falsePositive);
    var recall := Ratio(c.truePositive, c.truePositive + c.falseNegative);
    var f1 :=
      if c.truePositive == 0 && (c.falsePositive > 0 || c.falseNegative > 0) then Some(0.0)
      else if precision.None? || recall.None? then None
      else if precision.value + recall.value == 0.0 then Some(0.0)
      else Some(2.0 * precision.value * recall.value / (precision.value + recall.value));
    Score(c, precision, recall, f1)
  }

  /** F1 is undefined only when nothing was expected and nothing predicted, and otherwise is the
      share of matched items among all gold and predicted ones. */
  lemma F1IsDice(c: Counts)
    ensures var s := ScoreOf(c);
            var total := 2 * c.truePositive + c.falsePositive + c.falseNegative;
            (s.f1.None? <==> total == 0)
            && (s.f1.Some? ==> s.f1.value == (2 * c.truePositive) as real / total as real)
  {
    if c.truePositive > 0 {
      HarmonicMean(c.truePositive as real, (c.truePositive + c.falsePositive) as real, (c.truePositive + c.falseNegative) as real);
    }
  }

  lemma HarmonicMean(t: real, a: real, b: real)
    requires t > 0.0 && a > 0.0 && b > 0.0
    ensures t / a + t / b > 0.0
    ensures 2.0 * (t / a) * (t / b) / (t / a + t / b) == 2.0 * t / (a + b)
  {
    var p, r := t / a, t / b;
    assert p * a == t && r * b == t;
    assert p > 0.0 && r > 0.0;
    assert p * r * (a + b) == r * (p * a) + p * (r * b);
    assert p * r * (a + b) == t * (p + r);
    CrossDivide(2.0 * p * r, p + r, 2.0 * t, a + b);
  }

  lemma CrossDivide(x: real, y: real, u: real, v: real)
    requires y > 0.0 && v > 0.0 && x * v == u * y
    ensures x / y == u / v
  {
    assert x / y * y == x;
    assert u / v * v == u;
    assert (x / y - u / v) * (y * v) == x * v - u * y;
  }
}
