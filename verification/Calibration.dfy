/**
 Calibration binning of confidence/outcome pairs and the pooling of the metrics of several
 documents.  Floating point is modelled by exact reals.
 */
module Calibration {
  import opened Basics

  /** A scored prediction: its confidence and whether it was right (1) or wrong (0). */
  datatype Observation = Observation(confidence: real, outcome: int)

  datatype Bin = Bin(
    lower: real, upper: real, count: nat, meanConfidence: Option<real>, accuracy: Option<real>)

  datatype Metrics = Metrics(count: nat, brier: Option<real>, ece: Option<real>, bins: seq<Bin>)

  datatype PoolError = LayoutMismatch

  function Abs(x: real): (r: real) {
    if x < 0.0 then -x else x
  }

  function Sum<T>(xs: seq<T>, f: T -> real): real {
    if xs == [] then 0.0 else f(xs[0]) + Sum(xs[1..], f)
  }

  function Confidence(v: Observation): real { v.confidence }

  function Outcome(v: Observation): real { v.outcome as real }

  function SquaredError(v: Observation): real {
    (v.confidence - v.outcome as real) * (v.confidence - v.outcome as real)
  }

  function AbsoluteError(v: Observation): real {
    Abs(v.confidence - v.outcome as real)
  }

  /** Bin `index` of `binCount` is half open, except the last one, which also owns its upper edge. */
  predicate InBin(v: Observation, index: nat, binCount: nat)
    requires index < binCount
  {
    var lower := index as real / binCount as real;
    var upper := (index + 1) as real / binCount as real;
    v.confidence >= lower && (v.confidence < upper || (index == binCount - 1 && v.confidence <= upper))
  }

  function Selected(values: seq<Observation>, index: nat, binCount: nat): seq<Observation>
    requires index < binCount
  {
    if values == [] then []
    else (if InBin(values[0], index, binCount) then [values[0]] else []) + Selected(values[1..], index, binCount)
  }

  function Mean(values: seq<Observation>, f: Observation -> real): Option<real> {
    if values == [] then None else Some(Sum(values, f) / |values| as real)
  }

  function BinOf(values: seq<Observation>, index: nat, binCount: nat): Bin
    requires index < binCount
  {
    var selected := Selected(values, index, binCount);
    Bin(index as real / binCount as real, (index + 1) as real / binCount as real,
        |selected|, Mean(selected, Confidence), Mean(selected, Outcome))
  }

  function BinsOf(values: seq<Observation>, binCount: nat): seq<Bin> {
    seq(binCount, i requires 0 <= i < binCount => BinOf(values, i, binCount))
  }

  /** The weight of one bin in the expected calibration error. */
  function BinError(b: Bin): real {
    if b.count > 0 && b.meanConfidence.Some? && b.accuracy.Some?
    then b.count as real * Abs(b.meanConfidence.value - b.accuracy.value)
    else 0.0
  }

  /** The metrics of one list of observations, as a value. */
  function MetricsOf(values: seq<Observation>, binCount: nat): Metrics {
    var bins := BinsOf(values, binCount);
    Metrics(|values|, Mean(values, SquaredError),
            if values == [] then None else Some(Sum(bins, BinError) / |values| as real), bins)
  }

  method CalibrationMetrics(values: seq<Observation>, binCount: nat) returns (metrics: Metrics)
    ensures metrics == MetricsOf(values, binCount)
  {
    hide Mean, BinOf, BinError;
    var bins: seq<Bin> := [];
    var weightedError := 0.0;
    for index := 0 to binCount
      invariant |bins| == index && forall i :: 0 <= i < index ==> bins[i] == BinOf(values, i, binCount)
      invariant weightedError == Sum(bins, BinError)
    {
      var bin := MeasureBin(values, index, binCount);
      weightedError := AddBinError(weightedError, bin);
      BinErrorStep(bins, bin);
      bins := bins + [bin];
    }
    assert bins == BinsOf(values, binCount);
    metrics := Metrics(|values|, Mean(values, SquaredError),
                       if values == [] then None else Some(weightedError / |values| as real), bins);
  }

  method AddBinError(weightedError: real, bin: Bin) returns (total: real)
    ensures total == weightedError + BinError(bin)
  {
    total := weightedError;
    if bin.count > 0 && bin.meanConfidence.Some? && bin.accuracy.Some? {
      total := total + bin.count as real * Abs(bin.meanConfidence.value - bin.accuracy.value);
    }
  }

  /** The positions of the observations a bin owns. */
  function Owned(values: seq<Observation>, index: nat, binCount: nat): set<nat>
    requires index < binCount
  {
    set i: nat | i < |values| && InBin(values[i], index, binCount)
  }

  /** A bin counts the observations it owns, and its mean confidence lies between its edges. */
  method MeasureBin(values: seq<Observation>, index: nat, binCount: nat) returns (bin: Bin)
    requires index < binCount
    ensures bin == BinOf(values, index, binCount)
    ensures bin.count == |Owned(values, index, binCount)|
    ensures bin.count > 0 ==> bin.meanConfidence.Some? && bin.lower <= bin.meanConfidence.value <= bin.upper
  {
    hide InBin, Selected, Owned;
    var count: nat, confidences, outcomes := 0, 0.0, 0.0;
    NothingOwned(values, index, binCount);
    for i := 0 to |values|
      invariant count == |Owned(values[..i], index, binCount)|
      invariant count == |Selected(values[..i], index, binCount)|
      invariant confidences == Sum(Selected(values[..i], index, binCount), Confidence)
      invariant outcomes == Sum(Selected(values[..i], index, binCount), Outcome)
    {
      OneMoreOwned(values, i, index, binCount);
      if InBin(values[i], index, binCount) {
        count := count + 1;
        confidences := confidences + values[i].confidence;
        outcomes := outcomes + values[i].outcome as real;
      }
    }
    assert values[..|values|] == values;
    bin := Bin(index as real / binCount as real, (index + 1) as real / binCount as real, count,
               if count == 0 then None else Some(confidences / count as real),
               if count == 0 then None else Some(outcomes / count as real));
    MeanBetweenEdges(values, index, binCount);
  }

  lemma NothingOwned(values: seq<Observation>, index: nat, binCount: nat)
    requires index < binCount
    ensures Owned(values[..0], index, binCount) == {} && Selected(values[..0], index, binCount) == []
  {
  }

  lemma OneMoreOwned(values: seq<Observation>, i: nat, index: nat, binCount: nat)
    requires i < |values| && index < binCount
    ensures var was, now := Selected(values[..i], index, binCount), Selected(values[..i + 1], index, binCount);
            if InBin(values[i], index, binCount)
            then |now| == |was| + 1 && Sum(now, Confidence) == Sum(was, Confidence) + values[i].confidence
                 && Sum(now, Outcome) == Sum(was, Outcome) + values[i].outcome as real
            else now == was
    ensures |Owned(values[..i + 1], index, binCount)|
         == |Owned(values[..i], index, binCount)| + if InBin(values[i], index, binCount) then 1 else 0
  {
    var last := [values[i]];
    assert values[..i + 1] == values[..i] + last;
    SelectedAppend(values[..i], last, index, binCount);
    SumAppend(Selected(values[..i], index, binCount), Selected(last, index, binCount), Confidence);
    SumAppend(Selected(values[..i], index, binCount), Selected(last, index, binCount), Outcome);
    assert last[1..] == [];
    hide InBin;
    assert forall k: nat :: k < i ==> values[..i + 1][k] == values[..i][k];
    assert Owned(values[..i + 1], index, binCount)
        == Owned(values[..i], index, binCount) + if InBin(values[i], index, binCount) then {i} else {};
  }

  /** Terms between two bounds have their mean between them. */
  lemma {:induction false} SumBetween(s: seq<Observation>, lower: real, upper: real)
    requires forall v :: v in s ==> lower <= v.confidence <= upper
    ensures lower * |s| as real <= Sum(s, Confidence) <= upper * |s| as real
  {
    if s != [] {
      SumBetween(s[1..], lower, upper);
      assert |s| as real == 1.0 + |s[1..]| as real;
      Distribute(lower, |s[1..]| as real);
      Distribute(upper, |s[1..]| as real);
    }
  }

  lemma Distribute(x: real, n: real)
    ensures x * (1.0 + n) == x + x * n
  {
  }

  lemma MeanBetweenEdges(values: seq<Observation>, index: nat, binCount: nat)
    requires index < binCount
    ensures var b := BinOf(values, index, binCount);
            b.count > 0 ==> b.meanConfidence.Some? && b.lower <= b.meanConfidence.value <= b.upper
  {
    var selected := Selected(values, index, binCount);
    var lower, upper := index as real / binCount as real, (index + 1) as real / binCount as real;
    SelectedSubset(values, index, binCount);
    hide Selected, InBin, Sum;
    forall v | v in selected
      ensures lower <= v.confidence <= upper
    {
      BetweenEdges(v, index, binCount);
    }
    MeanBetween(selected, lower, upper);
  }

  lemma BetweenEdges(v: Observation, index: nat, binCount: nat)
    requires index < binCount && InBin(v, index, binCount)
    ensures index as real / binCount as real <= v.confidence <= (index + 1) as real / binCount as real
  {
  }

  lemma MeanBetween(s: seq<Observation>, lower: real, upper: real)
    requires forall v :: v in s ==> lower <= v.confidence <= upper
    ensures s != [] ==> Mean(s, Confidence).Some? && lower <= Mean(s, Confidence).value <= upper
  {
    SumBetween(s, lower, upper);
    hide Sum;
    if s != [] {
      QuotientBetween(lower, Sum(s, Confidence), upper, |s| as real);
    }
  }

  lemma QuotientBetween(lower: real, sum: real, upper: real, n: real)
    requires n > 0.0 && lower * n <= sum <= upper * n
    ensures lower <= sum / n <= upper
  {
    EdgeScale(sum, lower, n);
    EdgeScale(sum, upper, n);
  }

  function OrZero(x: Option<real>): real {
    if x.Some? then x.value else 0.0
  }

  function TotalCount(metrics: seq<Metrics>): nat {
    if metrics == [] then 0 else metrics[0].count + TotalCount(metrics[1..])
  }

  function BinTotal(bins: seq<Bin>): nat {
    if bins == [] then 0 else bins[0].count + BinTotal(bins[1..])
  }

  function WeightedConfidence(b: Bin): real { OrZero(b.meanConfidence) * b.count as real }

  function WeightedAccuracy(b: Bin): real { OrZero(b.accuracy) * b.count as real }

  function WeightedBrier(m: Metrics): real { OrZero(m.brier) * m.count as real }

  /** The bins with one index, across documents. */
  function Column(metrics: seq<Metrics>, index: nat): (r: seq<Bin>)
    requires forall m :: m in metrics ==> index < |m.bins|
    ensures |r| == |metrics|
  {
    seq(|metrics|, k requires 0 <= k < |metrics| => metrics[k].bins[index])
  }

  function PoolBin(column: seq<Bin>): Bin
    requires column != []
  {
    var count := BinTotal(column);
    Bin(column[0].lower, column[0].upper, count,
        if count > 0 then Some(Sum(column, WeightedConfidence) / count as real) else None,
        if count > 0 then Some(Sum(column, WeightedAccuracy) / count as real) else None)
  }

  /** Pools metrics that share one bin layout; no metrics pool to no bins. */
  function Pool(metrics: seq<Metrics>): Result<Metrics, PoolError> {
    if metrics == [] then Success(Metrics(0, None, None, []))
    else
      var binCount := |metrics[0].bins|;
      if exists m :: m in metrics && |m.bins| != binCount then Failure(LayoutMismatch)
      else
        var count := TotalCount(metrics);
        var bins := seq(binCount, i requires 0 <= i < binCount => PoolBin(Column(metrics, i)));
        Success(Metrics(
          count,
          if count > 0 then Some(Sum(metrics, WeightedBrier) / count as real) else None,
          if count > 0 then Some(Sum(bins, BinError) / count as real) else None,
          bins))
  }

  // ----- sums -----

  lemma {:induction false} SumAppend<T>(a: seq<T>, b: seq<T>, f: T -> real)
    ensures Sum(a + b, f) == Sum(a, f) + Sum(b, f)
  {
    if a == [] {
      assert a + b == b;
    } else {
      assert (a + b)[1..] == a[1..] + b;
      SumAppend(a[1..], b, f);
    }
  }

  lemma {:induction false} SelectedAppend(a: seq<Observation>, b: seq<Observation>, index: nat, binCount: nat)
    requires index < binCount
    ensures Selected(a + b, index, binCount) == Selected(a, index, binCount) + Selected(b, index, binCount)
  {
    if a == [] {
      assert a + b == b;
      assert [] + Selected(b, index, binCount) == Selected(b, index, binCount);
    } else {
      assert (a + b)[1..] == a[1..] + b;
      SelectedAppend(a[1..], b, index, binCount);
      var head := if InBin(a[0], index, binCount) then [a[0]] else [];
      assert Selected(a + b, index, binCount) == head + Selected(a[1..] + b, index, binCount);
      assert Selected(a, index, binCount) == head + Selected(a[1..], index, binCount);
      hide Selected, InBin;
    }
  }

  /** A mean times its count is the sum it was taken from, the empty case included. */
  lemma MeanTimesCount(values: seq<Observation>, f: Observation -> real)
    ensures OrZero(Mean(values, f)) * |values| as real == Sum(values, f)
  {}

  lemma BinErrorStep(bins: seq<Bin>, bin: Bin)
    ensures Sum(bins + [bin], BinError) == Sum(bins, BinError) + BinError(bin)
  {
    SumAppend(bins, [bin], BinError);
    assert Sum([bin], BinError) == BinError(bin);
  }

  // ----- pooling is exact -----

  function MeasureEach(lists: seq<seq<Observation>>, binCount: nat): (r: seq<Metrics>)
    ensures |r| == |lists|
    ensures forall m :: m in r ==> |m.bins| == binCount
  {
    if lists == [] then [] else [MetricsOf(lists[0], binCount)] + MeasureEach(lists[1..], binCount)
  }

  lemma {:induction false} PooledCount(lists: seq<seq<Observation>>, binCount: nat)
    ensures TotalCount(MeasureEach(lists, binCount)) == |Flatten(lists)|
  {
    if lists != [] {
      PooledCount(lists[1..], binCount);
      assert MeasureEach(lists, binCount)[1..] == MeasureEach(lists[1..], binCount);
    }
  }

  lemma {:induction false} PooledBrier(lists: seq<seq<Observation>>, binCount: nat)
    ensures Sum(MeasureEach(lists, binCount), WeightedBrier) == Sum(Flatten(lists), SquaredError)
  {
    if lists != [] {
      PooledBrier(lists[1..], binCount);
      var metrics := MeasureEach(lists, binCount);
      assert metrics[1..] == MeasureEach(lists[1..], binCount);
      BrierWeight(lists[0], binCount);
      SumAppend(lists[0], Flatten(lists[1..]), SquaredError);
    }
  }

  lemma BrierWeight(values: seq<Observation>, binCount: nat)
    ensures WeightedBrier(MetricsOf(values, binCount)) == Sum(values, SquaredError)
  {
    hide Mean, BinsOf, BinError;
    MeanTimesCount(values, SquaredError);
  }

  lemma BinWeights(values: seq<Observation>, index: nat, binCount: nat)
    requires index < binCount
    ensures var selected := Selected(values, index, binCount);
            var b := BinOf(values, index, binCount);
            b.count == |selected|
            && WeightedConfidence(b) == Sum(selected, Confidence) && WeightedAccuracy(b) == Sum(selected, Outcome)
  {
    hide Selected, Sum, Mean;
    var selected := Selected(values, index, binCount);
    MeanTimesCount(selected, Confidence);
    MeanTimesCount(selected, Outcome);
  }

  lemma {:induction false} PooledColumn(lists: seq<seq<Observation>>, index: nat, binCount: nat)
    requires index < binCount
    ensures var column := Column(MeasureEach(lists, binCount), index);
            var selected := Selected(Flatten(lists), index, binCount);
            BinTotal(column) == |selected|
            && Sum(column, WeightedConfidence) == Sum(selected, Confidence)
            && Sum(column, WeightedAccuracy) == Sum(selected, Outcome)
  {
    if lists != [] {
      var metrics := MeasureEach(lists, binCount);
      var rest := Column(MeasureEach(lists[1..], binCount), index);
      PooledColumn(lists[1..], index, binCount);
      assert metrics[1..] == MeasureEach(lists[1..], binCount);
      ColumnCons(lists, index, binCount);
      var first := Selected(lists[0], index, binCount);
      var others := Selected(Flatten(lists[1..]), index, binCount);
      SelectedAppend(lists[0], Flatten(lists[1..]), index, binCount);
      BinWeights(lists[0], index, binCount);
      SumAppend(first, others, Confidence);
      SumAppend(first, others, Outcome);
      ConsTotals(BinOf(lists[0], index, binCount), rest);
    }
  }

  lemma ColumnCons(lists: seq<seq<Observation>>, index: nat, binCount: nat)
    requires index < binCount && lists != []
    ensures Column(MeasureEach(lists, binCount), index)
         == [BinOf(lists[0], index, binCount)] + Column(MeasureEach(lists[1..], binCount), index)
  {
    var m, rest := MetricsOf(lists[0], binCount), MeasureEach(lists[1..], binCount);
    assert m.bins[index] == BinOf(lists[0], index, binCount);
    assert MeasureEach(lists, binCount) == [m] + rest;
    hide MetricsOf, BinOf, MeasureEach;
    ColumnOfCons(m, rest, index);
  }

  lemma ColumnOfCons(m: Metrics, rest: seq<Metrics>, index: nat)
    requires index < |m.bins| && forall r :: r in rest ==> index < |r.bins|
    ensures Column([m] + rest, index) == [m.bins[index]] + Column(rest, index)
  {
    forall k | 0 <= k < |rest|
      ensures ([m] + rest)[k + 1].bins[index] == rest[k].bins[index]
    {
    }
  }

  lemma ConsTotals(b: Bin, rest: seq<Bin>)
    ensures BinTotal([b] + rest) == b.count + BinTotal(rest)
    ensures Sum([b] + rest, WeightedConfidence) == WeightedConfidence(b) + Sum(rest, WeightedConfidence)
    ensures Sum([b] + rest, WeightedAccuracy) == WeightedAccuracy(b) + Sum(rest, WeightedAccuracy)
  {
    assert ([b] + rest)[1..] == rest;
  }

  /** Pooling the metrics of non-empty many lists equals measuring their concatenation once. */
  lemma PoolingIsExact(lists: seq<seq<Observation>>, binCount: nat)
    requires lists != []
    ensures Pool(MeasureEach(lists, binCount)) == Success(MetricsOf(Flatten(lists), binCount))
  {
    var metrics := MeasureEach(lists, binCount);
    var whole := Flatten(lists);
    PooledCount(lists, binCount);
    PooledBrier(lists, binCount);
    forall i | 0 <= i < binCount
      ensures PoolBin(Column(metrics, i)) == BinOf(whole, i, binCount)
    {
      PooledColumn(lists, i, binCount);
      assert metrics[0] == MetricsOf(lists[0], binCount);
    }
    assert seq(binCount, i requires 0 <= i < binCount => PoolBin(Column(metrics, i))) == BinsOf(whole, binCount);
  }

  // ----- the bins partition [0, 1] -----

  ghost predicate Calibratable(values: seq<Observation>) {
    forall v :: v in values ==> 0.0 <= v.confidence <= 1.0 && (v.outcome == 0 || v.outcome == 1)
  }

  lemma BinEdges(v: Observation, index: nat, binCount: nat)
    requires index < binCount
    ensures InBin(v, index, binCount) <==>
            index as real <= v.confidence * binCount as real
            && (v.confidence * binCount as real < (index + 1) as real
                || (index == binCount - 1 && v.confidence * binCount as real <= (index + 1) as real))
  {
    EdgeScale(index as real, v.confidence, binCount as real);
    EdgeScale((index + 1) as real, v.confidence, binCount as real);
  }

  lemma EdgeScale(edge: real, x: real, n: real)
    requires n > 0.0
    ensures edge / n <= x <==> edge <= x * n
    ensures x <= edge / n <==> x * n <= edge
  {
    assert edge / n * n == edge;
    ScaleOrder(edge / n, x, n);
    ScaleOrder(x, edge / n, n);
  }

  lemma ScaleOrder(a: real, b: real, n: real)
    requires n > 0.0
    ensures a <= b <==> a * n <= b * n
  {
    if a <= b {
      assert 0.0 <= (b - a) * n;
    } else {
      assert 0.0 < (a - b) * n;
    }
  }

  lemma ScaledUnit(c: real, n: real)
    requires 0.0 <= c <= 1.0 && n > 0.0
    ensures 0.0 <= c * n <= n
  {
    ScaleOrder(c, 1.0, n);
    assert 1.0 * n == n;
  }

  function FloorOf(x: real): (n: nat)
    requires 0.0 <= x
    ensures n == x.Floor
  {
    assert 0.0 < x.Floor as real + 1.0;
    assert 0 < x.Floor + 1;
    x.Floor
  }

  /** Every confidence in [0, 1] falls in exactly one bin. */
  lemma ExactlyOneBin(v: Observation, binCount: nat) returns (index: nat)
    requires binCount > 0 && 0.0 <= v.confidence <= 1.0
    ensures index < binCount
    ensures forall i: nat :: i < binCount ==> (InBin(v, i, binCount) <==> i == index)
  {
    var x := v.confidence * binCount as real;
    ScaledUnit(v.confidence, binCount as real);
    index := if x.Floor >= binCount then binCount - 1 else FloorOf(x);
    forall i: nat | i < binCount
      ensures InBin(v, i, binCount) <==> i == index
    {
      BinEdges(v, i, binCount);
      hide InBin;
      FloorIsBin(x, i, binCount);
    }
  }

  /** The unit interval a number lies in starts at its floor, the last interval owning its upper end. */
  lemma FloorIsBin(x: real, i: nat, n: nat)
    requires 0.0 <= x <= n as real && i < n
    ensures (i as real <= x && (x < (i + 1) as real || (i == n - 1 && x <= (i + 1) as real)))
       <==> i == if x.Floor >= n then n - 1 else x.Floor
  {
    assert i as real <= x <==> i <= x.Floor;
    assert x < (i + 1) as real <==> x.Floor < i + 1;
    assert x.Floor <= n;
  }

  /** The sum of `f` over the observations of the first `k` bins. */
  function SumOverBins(values: seq<Observation>, f: Observation -> real, k: nat, binCount: nat): real
    requires k <= binCount
  {
    if k == 0 then 0.0
    else SumOverBins(values, f, k - 1, binCount) + Sum(Selected(values, k - 1, binCount), f)
  }

  lemma {:induction false} SumOverBinsCons(values: seq<Observation>, f: Observation -> real, k: nat, binCount: nat, index: nat)
    requires values != [] && k <= binCount && index < binCount
    requires forall i: nat :: i < binCount ==> (InBin(values[0], i, binCount) <==> i == index)
    ensures SumOverBins(values, f, k, binCount)
         == (if index < k then f(values[0]) else 0.0) + SumOverBins(values[1..], f, k, binCount)
  {
    if k > 0 {
      SumOverBinsCons(values, f, k - 1, binCount, index);
      if index == k - 1 {
        SumAppend([values[0]], Selected(values[1..], k - 1, binCount), f);
        assert Sum([values[0]], f) == f(values[0]);
      } else {
        assert Selected(values, k - 1, binCount) == Selected(values[1..], k - 1, binCount);
      }
    }
  }

  /** Summing bin by bin loses and repeats no observation. */
  lemma {:induction false} BinsPartition(values: seq<Observation>, f: Observation -> real, binCount: nat)
    requires binCount > 0 && Calibratable(values)
    ensures SumOverBins(values, f, binCount, binCount) == Sum(values, f)
  {
    if values == [] {
      EmptySumOverBins(f, binCount, binCount);
    } else {
      var index := ExactlyOneBin(values[0], binCount);
      SumOverBinsCons(values, f, binCount, binCount, index);
      BinsPartition(values[1..], f, binCount);
    }
  }

  lemma {:induction false} EmptySumOverBins(f: Observation -> real, k: nat, binCount: nat)
    requires k <= binCount
    ensures SumOverBins([], f, k, binCount) == 0.0
  {
    if k > 0 {
      EmptySumOverBins(f, k - 1, binCount);
    }
  }

  lemma {:induction false} BinTotalAppend(bins: seq<Bin>, b: Bin)
    ensures BinTotal(bins + [b]) == BinTotal(bins) + b.count
  {
    if bins == [] {
      assert bins + [b] == [b];
    } else {
      assert (bins + [b])[1..] == bins[1..] + [b];
      BinTotalAppend(bins[1..], b);
    }
  }

  function One(v: Observation): real { 1.0 }

  lemma {:induction false} SumOfOnes(values: seq<Observation>)
    ensures Sum(values, One) == |values| as real
  {
    if values != [] {
      SumOfOnes(values[1..]);
    }
  }

  lemma {:induction false} BinTotalPrefix(values: seq<Observation>, k: nat, binCount: nat)
    requires k <= binCount
    ensures BinTotal(BinsOf(values, binCount)[..k]) as real == SumOverBins(values, One, k, binCount)
  {
    var bins := BinsOf(values, binCount);
    if k > 0 {
      var count := |Selected(values, k - 1, binCount)|;
      hide *;
      BinTotalPrefix(values, k - 1, binCount);
      PrefixGrows(values, k, binCount);
      assert (BinTotal(bins[..k - 1]) + count) as real == BinTotal(bins[..k - 1]) as real + count as real;
    }
  }

  lemma PrefixGrows(values: seq<Observation>, k: nat, binCount: nat)
    requires 0 < k <= binCount
    ensures var bins, count := BinsOf(values, binCount), |Selected(values, k - 1, binCount)|;
            && BinTotal(bins[..k]) == BinTotal(bins[..k - 1]) + count
            && SumOverBins(values, One, k, binCount) == SumOverBins(values, One, k - 1, binCount) + count as real
  {
    hide BinTotal, Sum, Selected, Mean;
    var bins := BinsOf(values, binCount);
    assert bins[k - 1] == BinOf(values, k - 1, binCount);
    assert bins[..k] == bins[..k - 1] + [bins[k - 1]];
    BinTotalAppend(bins[..k - 1], bins[k - 1]);
    SumOfOnes(Selected(values, k - 1, binCount));
  }

  /** The bin counts add up to the number of observations. */
  lemma BinCountsSumToTotal(values: seq<Observation>, binCount: nat)
    requires binCount > 0 && Calibratable(values)
    ensures BinTotal(MetricsOf(values, binCount).bins) == MetricsOf(values, binCount).count
  {
    BinTotalPrefix(values, binCount, binCount);
    assert BinsOf(values, binCount)[..binCount] == BinsOf(values, binCount);
    BinsPartition(values, One, binCount);
    SumOfOnes(values);
  }

  // ----- ECE and Brier -----

  lemma {:induction false} SumBounds(values: seq<Observation>, f: Observation -> real)
    requires forall v :: v in values ==> 0.0 <= f(v) <= 1.0
    ensures 0.0 <= Sum(values, f) <= |values| as real
  {
    if values != [] {
      SumBounds(values[1..], f);
    }
  }

  lemma {:induction false} SelectedSubset(values: seq<Observation>, index: nat, binCount: nat)
    requires index < binCount
    ensures forall v :: v in Selected(values, index, binCount) ==> v in values && InBin(v, index, binCount)
  {
    if values != [] {
      SelectedSubset(values[1..], index, binCount);
    }
  }

  /** The triangle inequality for the gap of one bin. */
  lemma {:induction false} GapBelowErrors(values: seq<Observation>)
    ensures Abs(Sum(values, Confidence) - Sum(values, Outcome)) <= Sum(values, AbsoluteError)
  {
    if values != [] {
      GapBelowErrors(values[1..]);
    }
  }

  lemma BinErrorIsGap(values: seq<Observation>, index: nat, binCount: nat)
    requires index < binCount
    ensures var s := Selected(values, index, binCount);
            BinError(BinOf(values, index, binCount)) == Abs(Sum(s, Confidence) - Sum(s, Outcome))
  {
    var s, b := Selected(values, index, binCount), BinOf(values, index, binCount);
    BinParts(values, index, binCount);
    assert s == [] ==> Sum(s, Confidence) == Sum(s, Outcome) == 0.0;
    hide Selected, Sum, Abs, BinOf, BinError, Scaled;
    BinErrorGap(b, Sum(s, Confidence), Sum(s, Outcome));
    AbsZero();
  }

  function Scaled(mean: real, count: nat): real {
    mean * count as real
  }

  lemma BinErrorGap(b: Bin, x: real, y: real)
    requires b.count > 0 ==> b.meanConfidence.Some? && Scaled(b.meanConfidence.value, b.count) == x
    requires b.count > 0 ==> b.accuracy.Some? && Scaled(b.accuracy.value, b.count) == y
    ensures BinError(b) == if b.count > 0 then Abs(x - y) else 0.0
  {
    if b.count > 0 {
      GapScales(b.count as real, b.meanConfidence.value, b.accuracy.value, x, y);
    }
  }

  lemma BinParts(values: seq<Observation>, index: nat, binCount: nat)
    requires index < binCount
    ensures var s, b := Selected(values, index, binCount), BinOf(values, index, binCount);
            b.count == |s|
            && (s != [] ==> b.meanConfidence.Some? && Scaled(b.meanConfidence.value, b.count) == Sum(s, Confidence))
            && (s != [] ==> b.accuracy.Some? && Scaled(b.accuracy.value, b.count) == Sum(s, Outcome))
  {
    hide Selected, Sum;
  }

  lemma AbsZero()
    ensures Abs(0.0 - 0.0) == 0.0
  {
  }

  lemma GapScales(n: real, x: real, y: real, a: real, b: real)
    requires n > 0.0 && x * n == a && y * n == b
    ensures n * Abs(x - y) == Abs(a - b)
  {
    AbsScale(n, x - y);
    assert n * (x - y) == x * n - y * n;
    hide Abs;
  }

  lemma AbsScale(n: real, x: real)
    requires n > 0.0
    ensures n * Abs(x) == Abs(n * x)
  {
    if x < 0.0 {
      assert n * (-x) > 0.0;
    } else {
      assert n * x >= 0.0;
    }
  }

  lemma BinErrorBelow(values: seq<Observation>, index: nat, binCount: nat)
    requires index < binCount
    ensures 0.0 <= BinError(BinOf(values, index, binCount)) <= Sum(Selected(values, index, binCount), AbsoluteError)
  {
    BinErrorIsGap(values, index, binCount);
    GapBelowErrors(Selected(values, index, binCount));
  }

  lemma {:induction false} WeightedErrorBelow(values: seq<Observation>, bins: seq<Bin>, k: nat, binCount: nat)
    requires k <= binCount == |bins|
    requires forall i :: 0 <= i < binCount ==> bins[i] == BinOf(values, i, binCount)
    ensures 0.0 <= Sum(bins[..k], BinError) <= SumOverBins(values, AbsoluteError, k, binCount)
  {
    if k > 0 {
      WeightedErrorBelow(values, bins, k - 1, binCount);
      assert bins[..k] == bins[..k - 1] + [bins[k - 1]];
      BinErrorStep(bins[..k - 1], bins[k - 1]);
      BinErrorBelow(values, k - 1, binCount);
    }
  }

  /** The squared deviations of the errors from any `t` are non-negative in total. */
  lemma {:induction false} DeviationsNonNegative(values: seq<Observation>, t: real)
    ensures Sum(values, SquaredError) - 2.0 * t * Sum(values, AbsoluteError) + |values| as real * t * t >= 0.0
  {
    if values != [] {
      DeviationsNonNegative(values[1..], t);
      var v := values[0];
      var e := AbsoluteError(v);
      assert SquaredError(v) == e * e;
      assert (e - t) * (e - t) >= 0.0;
      var n, q, s := |values[1..]| as real, Sum(values[1..], SquaredError), Sum(values[1..], AbsoluteError);
      assert (n + 1.0) * t * t == n * t * t + t * t;
      assert 2.0 * t * (e + s) == 2.0 * t * e + 2.0 * t * s;
      assert (e - t) * (e - t) == e * e - 2.0 * t * e + t * t;
    }
  }

  /** The mean of the errors, squared, is at most the mean of the squared errors; both sides are multiplied out. */
  lemma MeanErrorSquared(values: seq<Observation>)
    requires values != []
    ensures Sum(values, AbsoluteError) * Sum(values, AbsoluteError) <= |values| as real * Sum(values, SquaredError)
  {
    var n, s, q := |values| as real, Sum(values, AbsoluteError), Sum(values, SquaredError);
    var t := Quotient(s, n);
    DeviationsNonNegative(values, t);
    hide Sum, Quotient;
    SquareBelow(n, t, s, q);
  }

  function Quotient(a: real, n: real): (r: real)
    requires n > 0.0
    ensures r * n == a
  {
    a / n
  }

  lemma SquareBelow(n: real, t: real, s: real, q: real)
    requires n > 0.0 && t * n == s && q - 2.0 * t * s + n * t * t >= 0.0
    ensures s * s <= n * q
  {
    var d := q - 2.0 * t * s + n * t * t;
    assert 0.0 <= n * d;
    assert n * d == n * q - 2.0 * ((t * n) * s) + (t * n) * (t * n);
  }

  /** Dividing by the square of the count turns the multiplied form into one about means. */
  lemma MeansFromSums(n: real, x: real, y: real, s: real, q: real)
    requires n > 0.0 && x * n == s && y * n == q && s * s <= n * q
    ensures x * x <= y
  {
    var u := x * x;
    assert u * n * n == (x * n) * (x * n);
    ScaleOrder(u * n, q, n);
    ScaleOrder(u, y, n);
  }

  lemma ErrorRange(v: Observation)
    requires 0.0 <= v.confidence <= 1.0 && (v.outcome == 0 || v.outcome == 1)
    ensures 0.0 <= AbsoluteError(v) <= 1.0 && 0.0 <= SquaredError(v) <= 1.0
  {
    SquareOrder(AbsoluteError(v), 1.0);
  }

  /** The sums behind both scores. */
  lemma ErrorSums(values: seq<Observation>, binCount: nat)
    requires binCount > 0 && Calibratable(values)
    ensures 0.0 <= Sum(BinsOf(values, binCount), BinError) <= Sum(values, AbsoluteError) <= |values| as real
    ensures 0.0 <= Sum(values, SquaredError) <= |values| as real
  {
    hide BinOf, BinError, SquaredError, AbsoluteError;
    forall v | v in values
      ensures 0.0 <= AbsoluteError(v) <= 1.0 && 0.0 <= SquaredError(v) <= 1.0
    {
      ErrorRange(v);
    }
    SumBounds(values, AbsoluteError);
    SumBounds(values, SquaredError);
    var bins := BinsOf(values, binCount);
    WeightedErrorBelow(values, bins, binCount, binCount);
    assert bins[..binCount] == bins;
    BinsPartition(values, AbsoluteError, binCount);
  }

  /** Both scores are in [0, 1], and the squared calibration error never exceeds the Brier score. */
  lemma EceBelowBrier(values: seq<Observation>, binCount: nat)
    requires binCount > 0 && values != [] && Calibratable(values)
    ensures var m := MetricsOf(values, binCount);
            m.brier.Some? && m.ece.Some?
            && 0.0 <= m.brier.value <= 1.0 && 0.0 <= m.ece.value <= 1.0
            && m.ece.value * m.ece.value <= m.brier.value
  {
    hide BinsOf, BinError, SquaredError, AbsoluteError;
    ErrorSums(values, binCount);
    MeanErrorSquared(values);
    ScoreBounds(Sum(BinsOf(values, binCount), BinError), Sum(values, AbsoluteError),
                Sum(values, SquaredError), |values| as real);
  }

  lemma ScoreBounds(weighted: real, errors: real, squares: real, n: real)
    requires n > 0.0 && 0.0 <= weighted <= errors <= n && 0.0 <= squares <= n
    requires errors * errors <= n * squares
    ensures 0.0 <= weighted / n <= 1.0 && 0.0 <= squares / n <= 1.0
    ensures (weighted / n) * (weighted / n) <= squares / n
  {
    DivideOrder(0.0, weighted, n);
    DivideOrder(weighted, errors, n);
    DivideOrder(errors, n, n);
    DivideOrder(0.0, squares, n);
    DivideOrder(squares, n, n);
    SquareOrder(weighted / n, errors / n);
    MeansFromSums(n, errors / n, squares / n, errors, squares);
  }

  lemma DivideOrder(a: real, b: real, n: real)
    requires n > 0.0 && a <= b
    ensures a / n <= b / n
    ensures n / n == 1.0
  {
    ScaleOrder(a / n, b / n, n);
  }

  lemma SquareOrder(a: real, b: real)
    requires 0.0 <= a <= b
    ensures a * a <= b * b
  {
    assert 0.0 <= (b - a) * (b + a);
  }

  /** The means of a list whose terms lie in [0, 1] are in [0, 1], so every bin is a legal report row. */
  lemma BinsAreLegal(values: seq<Observation>, index: nat, binCount: nat)
    requires index < binCount && Calibratable(values)
    ensures var b := BinOf(values, index, binCount);
            0.0 <= b.lower < b.upper <= 1.0
            && (b.count > 0 <==> b.meanConfidence.Some?) && (b.count > 0 <==> b.accuracy.Some?)
            && (b.count > 0 ==> 0.0 <= b.meanConfidence.value <= 1.0 && 0.0 <= b.accuracy.value <= 1.0)
  {
    SelectedSubset(values, index, binCount);
    hide Selected, Mean;
    EdgesAreLegal(index, binCount);
    MeansAreLegal(Selected(values, index, binCount));
  }

  lemma EdgesAreLegal(index: nat, binCount: nat)
    requires index < binCount
    ensures 0.0 <= index as real / binCount as real < (index + 1) as real / binCount as real <= 1.0
  {
    var i, n := index as real, binCount as real;
    DivideOrder(0.0, i, n);
    DivideOrder(i + 1.0, n, n);
    ScaleOrder((i + 1.0) / n, i / n, n);
  }

  lemma MeansAreLegal(s: seq<Observation>)
    requires Calibratable(s)
    ensures s != [] ==> Mean(s, Confidence).Some? && 0.0 <= Mean(s, Confidence).value <= 1.0
    ensures s != [] ==> Mean(s, Outcome).Some? && 0.0 <= Mean(s, Outcome).value <= 1.0
    ensures s == [] ==> Mean(s, Confidence).None? && Mean(s, Outcome).None?
  {
    SumBounds(s, Confidence);
    SumBounds(s, Outcome);
    hide Sum, Calibratable;
    if s != [] {
      var n := |s| as real;
      DivideOrder(0.0, Sum(s, Confidence), n);
      DivideOrder(Sum(s, Confidence), n, n);
      DivideOrder(0.0, Sum(s, Outcome), n);
      DivideOrder(Sum(s, Outcome), n, n);
    }
  }

  lemma {:induction false} FlattenCalibratable(lists: seq<seq<Observation>>)
    requires forall l :: l in lists ==> Calibratable(l)
    ensures Calibratable(Flatten(lists))
  {
    if lists != [] {
      FlattenCalibratable(lists[1..]);
      assert Calibratable(lists[0]);
    }
  }

  /** After pooling the same bounds hold, and the pooled bin counts still add up. */
  lemma PooledBounds(lists: seq<seq<Observation>>, binCount: nat)
    requires binCount > 0 && lists != [] && forall l :: l in lists ==> Calibratable(l)
    ensures var p := Pool(MeasureEach(lists, binCount));
            p.Success? && BinTotal(p.value.bins) == p.value.count
            && (p.value.count > 0 ==>
                  p.value.brier.Some? && p.value.ece.Some?
                  && 0.0 <= p.value.brier.value <= 1.0 && 0.0 <= p.value.ece.value <= 1.0
                  && p.value.ece.value * p.value.ece.value <= p.value.brier.value)
  {
    hide Pool, Sum, BinTotal, MeasureEach, Calibratable, BinsOf;
    PoolingIsExact(lists, binCount);
    FlattenCalibratable(lists);
    BinCountsSumToTotal(Flatten(lists), binCount);
    if Flatten(lists) != [] {
      EceBelowBrier(Flatten(lists), binCount);
    }
  }
}
