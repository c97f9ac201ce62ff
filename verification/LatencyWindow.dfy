/**
 The latency of a handler: a ring buffer of the most recent durations, and the percentiles computed
 from it. Quantiles and positions are reals; durations are int64, and wrap as in the code.
 */
module LatencyWindow {
  import opened Basics

  const LATENCY_SAMPLE_SIZE: nat := 256

  // ---- sorting and summing ----

  predicate Sorted(s: seq<int>) {
    forall i, j :: 0 <= i < j < |s| ==> s[i] <= s[j]
  }

  function Insert(x: int, s: seq<int>): seq<int> {
    if s == [] || x <= s[0] then [x] + s else [s[0]] + Insert(x, s[1..])
  }

  lemma {:induction false} InsertKeeps(x: int, s: seq<int>)
    ensures multiset(Insert(x, s)) == multiset([x]) + multiset(s)
  {
    if s != [] && s[0] < x {
      InsertKeeps(x, s[1..]);
      assert s == [s[0]] + s[1..];
    }
  }

  lemma FromMultiset(r: seq<int>, x: int, s: seq<int>, i: nat)
    requires multiset(r) == multiset([x]) + multiset(s) && i < |r|
    ensures r[i] == x || r[i] in s
  {
    assert r[i] in multiset(r);
  }

  lemma {:induction false} InsertSorts(x: int, s: seq<int>)
    requires Sorted(s)
    ensures Sorted(Insert(x, s))
  {
    if s != [] && s[0] < x {
      var rest := Insert(x, s[1..]);
      InsertSorts(x, s[1..]);
      InsertKeeps(x, s[1..]);
      forall i: nat | i < |rest|
        ensures s[0] <= rest[i]
      {
        FromMultiset(rest, x, s[1..], i);
      }
    }
  }

  /** Stands for sort.Slice. */
  function SortSamples(s: seq<int>): seq<int> {
    if s == [] then [] else Insert(s[0], SortSamples(s[1..]))
  }

  lemma SameSize(s: seq<int>, t: seq<int>)
    requires multiset(s) == multiset(t)
    ensures |s| == |t|
  {
    assert |multiset(s)| == |s|;
  }

  lemma InsertSortedKeeps(x: int, s: seq<int>, rest: seq<int>)
    requires s != [] && x == s[0] && multiset(rest) == multiset(s[1..])
    ensures multiset(Insert(x, rest)) == multiset(s)
  {
    InsertKeeps(x, rest);
    assert s == [s[0]] + s[1..];
  }

  /** In order, and the same samples. */
  lemma {:induction false} SortSamplesSorts(s: seq<int>)
    ensures Sorted(SortSamples(s)) && multiset(SortSamples(s)) == multiset(s) && |SortSamples(s)| == |s|
  {
    if s != [] {
      SortSamplesSorts(s[1..]);
      InsertSorts(s[0], SortSamples(s[1..]));
      InsertSortedKeeps(s[0], s, SortSamples(s[1..]));
      SameSize(SortSamples(s), s);
    }
  }

  lemma {:induction false} SumOfParts(s: seq<int>, t: seq<int>)
    ensures Sum(s + t) == Sum(s) + Sum(t)
  {
    if t == [] {
      assert s + t == s;
    } else {
      SumOfParts(s, t[..|t| - 1]);
      assert (s + t)[..|s + t| - 1] == s + t[..|t| - 1];
    }
  }

  lemma SumFromTheFront(s: seq<int>)
    requires s != []
    ensures Sum(s) == s[0] + Sum(s[1..])
  {
    assert s == [s[0]] + s[1..];
    SumOfParts([s[0]], s[1..]);
    assert [s[0]][..0] == [];
  }

  lemma {:induction false} SumOfInsert(x: int, s: seq<int>)
    ensures Sum(Insert(x, s)) == x + Sum(s)
  {
    var r := Insert(x, s);
    SumFromTheFront(r);
    if s == [] || x <= s[0] {
      assert r[1..] == s;
    } else {
      SumOfInsert(x, s[1..]);
      SumFromTheFront(s);
      assert r[1..] == Insert(x, s[1..]);
    }
  }

  lemma {:induction false} SumOfSorted(s: seq<int>)
    ensures Sum(SortSamples(s)) == Sum(s)
  {
    if s != [] {
      SumOfSorted(s[1..]);
      SumOfInsert(s[0], SortSamples(s[1..]));
      SumFromTheFront(s);
    }
  }

  lemma WrapAfterWrap(a: int, b: int)
    ensures WrapInt64(WrapInt64(a) + b) == WrapInt64(a + b)
  {
    var k := (a + TWO_TO_THE_63) / TWO_TO_THE_64;
    assert WrapInt64(a) == a - k * TWO_TO_THE_64;
  }

  // ---- percentiles ----

  predicate IsInt64(x: int) {
    -TWO_TO_THE_63 <= x < TWO_TO_THE_63
  }

  predicate Durations(s: seq<int>) {
    forall i :: 0 <= i < |s| ==> IsInt64(s[i])
  }

  function Ceil(x: real): int {
    if x.Floor as real == x then x.Floor else x.Floor + 1
  }

  /** The value between two neighbouring samples, a fraction of the way from the lower to the upper one. */
  function Between(lower: int, upper: int, frac: real): int {
    WrapInt64(lower + Truncate(WrapInt64(upper - lower) as real * frac))
  }

  /** The value at a position in the samples. */
  function ValueAt(samples: seq<int>, pos: real): int
    requires 0.0 <= pos <= (|samples| - 1) as real
  {
    if pos.Floor == Ceil(pos) then samples[pos.Floor]
    else Between(samples[pos.Floor], samples[Ceil(pos)], pos - pos.Floor as real)
  }

  lemma ProductOfNonNegatives(a: real, x: real)
    requires 0.0 <= a && 0.0 <= x
    ensures 0.0 <= a * x
  {
  }

  lemma ScaledInOrder(p: real, q: real, x: real)
    requires 0.0 <= p <= q <= 1.0 && 0.0 <= x
    ensures 0.0 <= p * x <= q * x <= x
  {
    ProductOfNonNegatives(p, x);
    ProductOfNonNegatives(q - p, x);
    assert (q - p) * x == q * x - p * x;
    ProductOfNonNegatives(1.0 - q, x);
    assert (1.0 - q) * x == x - q * x;
  }

  /** pos in the code: how far into n samples a quantile lies. */
  function Scaled(q: real, n: nat): real {
    q * (n - 1) as real
  }

  lemma FractionsInOrder(p: real, q: real, n: nat)
    requires 0.0 <= p <= q <= 1.0 && 0 < n
    ensures 0.0 <= Scaled(p, n) <= Scaled(q, n) <= (n - 1) as real
  {
    ScaledInOrder(p, q, (n - 1) as real);
  }

  /** The position in n samples that a quantile stands for. */
  function Position(q: real, n: nat): real
    requires 0 < n
  {
    if q <= 0.0 then 0.0 else if q >= 1.0 then (n - 1) as real else Scaled(q, n)
  }

  lemma PositionsInOrder(p: real, q: real, n: nat)
    requires p <= q && 0 < n
    ensures 0.0 <= Position(p, n) <= Position(q, n) <= (n - 1) as real
  {
    if 0.0 < p < 1.0 {
      FractionsInOrder(p, if q < 1.0 then q else p, n);
    } else if 0.0 < q < 1.0 {
      FractionsInOrder(q, q, n);
    }
  }

  function Percentile(samples: seq<int>, q: real): int {
    if samples == [] then 0
    else if q <= 0.0 then samples[0]
    else if q >= 1.0 then samples[|samples| - 1]
    else
      PositionsInOrder(q, q, |samples|);
      ValueAt(samples, Position(q, |samples|))
  }

  /** Two neighbouring samples are so far apart that their difference wraps, to something other than -1. */
  predicate TooFar(lower: int, upper: int) {
    TWO_TO_THE_63 <= upper - lower < TWO_TO_THE_64 - 1
  }

  predicate NoneTooFar(samples: seq<int>) {
    forall i :: 0 <= i < |samples| - 1 ==> !TooFar(samples[i], samples[i + 1])
  }

  lemma TruncatedInOrder(x: real, y: real, d: nat)
    requires 0.0 <= x <= y <= d as real
    ensures 0 <= Truncate(x) <= Truncate(y) <= d
  {
  }

  lemma FractionBounds(d: nat, f: real, g: real)
    requires 0.0 <= f <= g < 1.0
    ensures 0 <= Truncate(d as real * f) <= Truncate(d as real * g) <= d
  {
    ScaledInOrder(f, g, d as real);
    TruncatedInOrder(d as real * f, d as real * g, d);
  }

  lemma BetweenNear(lower: int, upper: int, f: real, t: int)
    requires IsInt64(lower) && IsInt64(upper) && 0 <= upper - lower < TWO_TO_THE_63
    requires t == Truncate((upper - lower) as real * f) && 0 <= t <= upper - lower
    ensures Between(lower, upper, f) == lower + t
  {
    var d := WrapInt64(upper - lower);
    assert d == upper - lower;
    assert d as real * f == (upper - lower) as real * f;
    assert Between(lower, upper, f) == WrapInt64(lower + t);
  }

  lemma BetweenFarthest(lower: int, upper: int, f: real)
    requires IsInt64(lower) && upper - lower == TWO_TO_THE_64 - 1 && 0.0 <= f < 1.0
    ensures Between(lower, upper, f) == lower
  {
    assert WrapInt64(upper - lower) == -1;
    assert (-1) as real * f == -f;
    assert Truncate(-f) == 0;
  }

  lemma BetweenIsMonotone(lower: int, upper: int, f: real, g: real)
    requires IsInt64(lower) && IsInt64(upper) && lower <= upper && !TooFar(lower, upper)
    requires 0.0 <= f <= g < 1.0
    ensures lower <= Between(lower, upper, f) <= Between(lower, upper, g) <= upper
  {
    var d := upper - lower;
    if d < TWO_TO_THE_63 {
      FractionBounds(d, f, g);
      BetweenNear(lower, upper, f, Truncate(d as real * f));
      BetweenNear(lower, upper, g, Truncate(d as real * g));
    } else {
      BetweenFarthest(lower, upper, f);
      BetweenFarthest(lower, upper, g);
    }
  }

  /** The position lies in the cell that starts at its floor; its value, between the cell's samples. */
  lemma ValueInCell(samples: seq<int>, pos: real)
    requires 0.0 <= pos <= (|samples| - 1) as real
    requires Sorted(samples) && Durations(samples) && NoneTooFar(samples)
    ensures samples[pos.Floor] <= ValueAt(samples, pos)
    ensures pos.Floor + 1 < |samples| ==> ValueAt(samples, pos) <= samples[pos.Floor + 1]
    ensures pos.Floor + 1 == |samples| ==> ValueAt(samples, pos) == samples[pos.Floor]
  {
    var i := pos.Floor;
    if Ceil(pos) != i {
      BetweenIsMonotone(samples[i], samples[i + 1], pos - i as real, pos - i as real);
    }
  }

  lemma ValueIsMonotone(samples: seq<int>, p: real, q: real)
    requires 0.0 <= p <= q <= (|samples| - 1) as real
    requires Sorted(samples) && Durations(samples) && NoneTooFar(samples)
    ensures samples[0] <= ValueAt(samples, p) <= ValueAt(samples, q) <= samples[|samples| - 1]
  {
    ValueInCell(samples, p);
    ValueInCell(samples, q);
    if p.Floor == q.Floor && Ceil(q) != q.Floor {
      var i := p.Floor;
      BetweenIsMonotone(samples[i], samples[i + 1], p - i as real, q - i as real);
    }
  }

  lemma ValueAtTheEnds(samples: seq<int>)
    requires samples != []
    ensures ValueAt(samples, 0.0) == samples[0]
    ensures ValueAt(samples, (|samples| - 1) as real) == samples[|samples| - 1]
  {
  }

  lemma PercentileIsValueAt(samples: seq<int>, q: real)
    requires samples != []
    ensures 0.0 <= Position(q, |samples|) <= (|samples| - 1) as real
    ensures Percentile(samples, q) == ValueAt(samples, Position(q, |samples|))
  {
    PositionsInOrder(q, q, |samples|);
    ValueAtTheEnds(samples);
  }

  /** The percentile grows with the quantile and stays within the samples. */
  predicate WellBehaved(samples: seq<int>, p: real, q: real) {
    samples != [] && p <= q ==>
      samples[0] <= Percentile(samples, p) <= Percentile(samples, q) <= samples[|samples| - 1]
  }

  lemma PercentileIsMonotone(samples: seq<int>, p: real, q: real)
    requires Sorted(samples) && Durations(samples) && NoneTooFar(samples)
    ensures WellBehaved(samples, p, q)
  {
    if samples != [] && p <= q {
      PercentileIsValueAt(samples, p);
      PercentileIsValueAt(samples, q);
      PositionsInOrder(p, q, |samples|);
      ValueIsMonotone(samples, Position(p, |samples|), Position(q, |samples|));
    }
  }

  lemma BetweenTooFar(lower: int, upper: int)
    requires IsInt64(lower) && IsInt64(upper) && TooFar(lower, upper)
    ensures Between(lower, upper, 0.5) < lower || upper < Between(lower, upper, 0.5)
  {
    var w := WrapInt64(upper - lower);
    assert w == upper - lower - TWO_TO_THE_64;
    var t := Truncate(w as real * 0.5);
    assert w < t <= -1;
  }

  lemma SignOfProduct(a: real, x: real)
    requires 0.0 < x
    ensures 0.0 <= a * x <==> 0.0 <= a
  {
    if 0.0 <= a {
      ProductOfNonNegatives(a, x);
    } else {
      assert (-a) * x > 0.0;
      assert a * x == -((-a) * x);
    }
  }

  lemma QuotientInRange(q: real, x: real)
    requires 0.0 < x && 0.0 <= q * x <= x
    ensures 0.0 <= q <= 1.0
  {
    SignOfProduct(q, x);
    SignOfProduct(1.0 - q, x);
    assert (1.0 - q) * x == x - q * x;
  }

  lemma QuantileOfPosition(n: nat, pos: real) returns (q: real)
    requires 1 < n && 0.0 <= pos <= (n - 1) as real
    ensures 0.0 <= q <= 1.0 && Position(q, n) == pos
  {
    var x := (n - 1) as real;
    q := pos / x;
    assert q * x == pos;
    QuotientInRange(q, x);
  }

  /** Samples too far apart spoil the percentiles: half way between them the value leaves their range. */
  lemma TooFarSpoils(samples: seq<int>, i: nat)
    requires Sorted(samples) && Durations(samples) && i < |samples| - 1 && TooFar(samples[i], samples[i + 1])
    ensures exists p, q :: !WellBehaved(samples, p, q)
  {
    var n := |samples|;
    var a := QuantileOfPosition(n, i as real);
    var b := QuantileOfPosition(n, i as real + 0.5);
    var c := QuantileOfPosition(n, (i + 1) as real);
    InOrderBack(n, a, b);
    InOrderBack(n, b, c);
    PercentileIsValueAt(samples, a);
    PercentileIsValueAt(samples, b);
    PercentileIsValueAt(samples, c);
    BetweenTooFar(samples[i], samples[i + 1]);
    assert Percentile(samples, b) == Between(samples[i], samples[i + 1], 0.5);
    assert !WellBehaved(samples, a, b) || !WellBehaved(samples, b, c);
  }

  lemma InOrderBack(n: nat, p: real, q: real)
    requires 0 < n && Position(p, n) < Position(q, n)
    ensures p <= q
  {
    if q < p {
      PositionsInOrder(q, p, n);
    }
  }

  /** Exactly when percentiles are ordered and bounded: no two neighbouring samples are too far apart. */
  lemma PercentilesOrderedIff(samples: seq<int>)
    requires Sorted(samples) && Durations(samples)
    ensures (forall p, q :: WellBehaved(samples, p, q)) <==> NoneTooFar(samples)
  {
    if NoneTooFar(samples) {
      forall p, q
        ensures WellBehaved(samples, p, q)
      {
        PercentileIsMonotone(samples, p, q);
      }
    } else {
      var i :| 0 <= i < |samples| - 1 && TooFar(samples[i], samples[i + 1]);
      TooFarSpoils(samples, i);
    }
  }

  // ---- what a percentile is ----

  /**
   v is the value at a position in the samples: the sample there, or on the line between the two samples
   around it, rounded down. Where the difference of the two does not fit int64 this says nothing.
   */
  predicate OnLine(samples: seq<int>, pos: real, v: int) {
    var i := pos.Floor;
    && 0 <= i < |samples|
    && (pos == i as real ==> v == samples[i])
    && (pos != i as real ==> i + 1 < |samples|)
    && (pos != i as real && samples[i + 1] - samples[i] < 0x8000_0000_0000_0000 ==>
          var exact := samples[i] as real + (samples[i + 1] - samples[i]) as real * (pos - i as real);
          v as real <= exact < v as real + 1.0)
  }

  lemma RoundedDown(d: nat, f: real)
    requires 0.0 <= f < 1.0
    ensures 0 <= Truncate(d as real * f) <= d
    ensures Truncate(d as real * f) as real <= d as real * f < Truncate(d as real * f) as real + 1.0
  {
    FractionBounds(d, f, f);
    ProductOfNonNegatives(d as real, f);
  }

  lemma ValueOnLine(samples: seq<int>, pos: real)
    requires 0.0 <= pos <= (|samples| - 1) as real
    requires Sorted(samples) && Durations(samples)
    ensures OnLine(samples, pos, ValueAt(samples, pos))
  {
    var i := pos.Floor;
    if pos != i as real && samples[i + 1] - samples[i] < TWO_TO_THE_63 {
      var d, f := samples[i + 1] - samples[i], pos - i as real;
      RoundedDown(d, f);
      BetweenNear(samples[i], samples[i + 1], f, Truncate(d as real * f));
    }
  }

  /** v lies that part of the way, from 0 to 1, through the samples. */
  predicate IsQuantile(samples: seq<int>, q: real, v: int) {
    OnLine(samples, q * (|samples| - 1) as real, v)
  }

  /** The percentile for a quantile between 0 and 1 interpolates between the two samples around that part of the way. */
  lemma PercentileInterpolates(samples: seq<int>, q: real)
    requires samples != [] && Sorted(samples) && Durations(samples) && 0.0 < q < 1.0
    ensures IsQuantile(samples, q, Percentile(samples, q))
  {
    PercentileIsValueAt(samples, q);
    ValueOnLine(samples, Position(q, |samples|));
  }

  // ---- the ring buffer ----

  datatype LatencyMetrics = LatencyMetrics(
    averageNs: int, p50Ns: int, p95Ns: int, p99Ns: int, lastNs: int, sampleSize: nat)

  /** The last min(size, |history|) durations, oldest first. */
  function Recent(history: seq<int>, size: nat): seq<int> {
    history[|history| - Min(|history|, size)..]
  }

  /** What a snapshot has to say about the durations added so far. */
  function MetricsOf(history: seq<int>, size: nat): LatencyMetrics
    requires 0 < size
  {
    if history == [] then LatencyMetrics(0, 0, 0, 0, 0, 0)
    else
      var recent := Recent(history, size);
      var sorted := SortSamples(recent);
      LatencyMetrics(TruncatedDiv(WrapInt64(Sum(recent)), |recent|),
                     Percentile(sorted, 0.50), Percentile(sorted, 0.95), Percentile(sorted, 0.99),
                     history[|history| - 1], |recent|)
  }

  predicate Within(s: seq<int>, lo: int, hi: int) {
    forall i :: 0 <= i < |s| ==> lo <= s[i] <= hi
  }

  lemma SortedDurations(s: seq<int>)
    requires Durations(s)
    ensures Durations(SortSamples(s))
    ensures forall x :: x in SortSamples(s) <==> x in s
  {
    var sorted := SortSamples(s);
    SortSamplesSorts(s);
    forall x
      ensures x in sorted <==> x in s
    {
      assert x in sorted <==> x in multiset(sorted);
      assert x in s <==> x in multiset(s);
    }
    forall i | 0 <= i < |sorted|
      ensures IsInt64(sorted[i])
    {
      assert sorted[i] in s;
    }
  }

  /** The metrics tell the median, the 95th and the 99th percentile of samples in order. */
  predicate TellsQuantiles(m: LatencyMetrics, sorted: seq<int>) {
    IsQuantile(sorted, 0.50, m.p50Ns) && IsQuantile(sorted, 0.95, m.p95Ns) && IsQuantile(sorted, 0.99, m.p99Ns)
  }

  lemma PercentilesTell(m: LatencyMetrics, sorted: seq<int>)
    requires sorted != [] && Sorted(sorted) && Durations(sorted)
    requires m.p50Ns == Percentile(sorted, 0.50) && m.p95Ns == Percentile(sorted, 0.95) && m.p99Ns == Percentile(sorted, 0.99)
    ensures TellsQuantiles(m, sorted)
  {
    PercentileInterpolates(sorted, 0.50);
    PercentileInterpolates(sorted, 0.95);
    PercentileInterpolates(sorted, 0.99);
  }

  lemma MetricsTellQuantiles(history: seq<int>, size: nat)
    requires 0 < size && Durations(history) && history != []
    ensures TellsQuantiles(MetricsOf(history, size), SortSamples(Recent(history, size)))
  {
    SortSamplesSorts(Recent(history, size));
    SortedDurations(Recent(history, size));
    PercentilesTell(MetricsOf(history, size), SortSamples(Recent(history, size)));
  }

  /** The percentiles of every snapshot are ordered and within every range of its samples; the average is exact if the sum fits. */
  lemma SnapshotsAreOrdered(history: seq<int>, size: nat, lo: int, hi: int)
    requires 0 < size && history != [] && Durations(history)
    requires NoneTooFar(SortSamples(Recent(history, size)))
    ensures var m, recent := MetricsOf(history, size), Recent(history, size);
            && m.sampleSize == Min(|history|, size)
            && m.p50Ns <= m.p95Ns <= m.p99Ns
            && (Within(recent, lo, hi) ==> lo <= m.p50Ns && m.p99Ns <= hi)
            && (IsInt64(Sum(recent)) ==> m.averageNs == TruncatedDiv(Sum(recent), m.sampleSize))
  {
    var recent := Recent(history, size);
    var sorted := SortSamples(recent);
    SortSamplesSorts(recent);
    SortedDurations(recent);
    PercentileIsMonotone(sorted, 0.50, 0.95);
    PercentileIsMonotone(sorted, 0.95, 0.99);
    assert sorted[0] in recent && sorted[|sorted| - 1] in recent;
  }

  /** Durations that are not negative are never too far apart. */
  lemma NonNegativeNearEnough(samples: seq<int>)
    requires Durations(samples) && forall i :: 0 <= i < |samples| ==> 0 <= samples[i]
    ensures NoneTooFar(samples)
  {
  }

  lemma NextInRing(i: nat, size: nat)
    requires i < size
    ensures (i + 1) % size == if i + 1 == size then 0 else i + 1
  {
  }

  class LatencyWindow {
    const samples: array<int>
    var next: nat
    var filled: nat
    var last: int
    ghost var history: seq<int>

    /** The place of a sample that is idx places from the start of the array, or before it. */
    function Wrapped(idx: int): int {
      if idx < 0 then idx + samples.Length else idx
    }

    predicate InBounds()
      reads this
    {
      next < samples.Length && filled <= samples.Length && (filled < samples.Length ==> next == filled)
    }

    /** The i-th of the samples, oldest first. */
    function SampleAt(i: nat): int
      requires InBounds() && i < filled
      reads this, samples
    {
      samples[Wrapped(next - filled + i)]
    }

    ghost predicate Valid()
      reads this, samples
    {
      && InBounds()
      && filled == Min(|history|, samples.Length)
      && last == (if history == [] then 0 else history[|history| - 1])
      && forall i: nat :: i < filled ==> SampleAt(i) == history[|history| - filled + i]
    }

    constructor (size: int)
      ensures Valid() && history == [] && fresh(samples)
      ensures samples.Length == if size <= 0 then 256 else size
    {
      samples := new int[if size <= 0 then LATENCY_SAMPLE_SIZE else size](_ => 0);
      next, filled, last := 0, 0, 0;
      history := [];
    }

    method Add(d: int)
      requires Valid()
      modifies this, samples
      ensures Valid() && history == old(history) + [d]
    {
      ghost var dropped := if filled < samples.Length then 0 else 1;
      samples[next] := d;
      last := d;
      NextInRing(next, samples.Length);
      next := (next + 1) % samples.Length;
      if filled < samples.Length {
        filled := filled + 1;
      }
      history := history + [d];
      forall i: nat | i < filled
        ensures SampleAt(i) == history[|history| - filled + i]
      {
        if i + 1 < filled {
          assert SampleAt(i) == old(SampleAt(i + dropped));
          assert old(SampleAt(i + dropped)) == old(history)[|old(history)| - old(filled) + i + dropped];
        }
      }
    }

    method Snapshot() returns (m: LatencyMetrics)
      requires Valid()
      ensures m == MetricsOf(history, samples.Length)
      ensures Durations(history) && history != [] ==> TellsQuantiles(m, SortSamples(Recent(history, samples.Length)))
    {
      if Durations(history) && history != [] {
        MetricsTellQuantiles(history, samples.Length);
      }
      if filled == 0 {
        return LatencyMetrics(0, 0, 0, 0, last, 0);
      }
      var recent := CopyRecent();
      var sorted := SortSamples(recent);
      var sum := AddUp(sorted);
      SumOfSorted(recent);
      m := LatencyMetrics(TruncatedDiv(sum, filled), Percentile(sorted, 0.50), Percentile(sorted, 0.95),
                          Percentile(sorted, 0.99), last, filled);
    }

    method CopyRecent() returns (recent: seq<int>)
      requires Valid()
      ensures recent == Recent(history, samples.Length)
    {
      recent := [];
      for i := 0 to filled
        invariant |recent| == i
        invariant forall j :: 0 <= j < i ==> recent[j] == history[|history| - filled + j]
      {
        var idx := next - filled + i;
        if idx < 0 {
          idx := idx + samples.Length;
        }
        assert samples[idx] == SampleAt(i);
        recent := recent + [samples[idx]];
      }
    }
  }

  /** The sum as int64 arithmetic has it: it wraps at every step, and so only once. */
  method AddUp(samples: seq<int>) returns (sum: int)
    ensures sum == WrapInt64(Sum(samples))
  {
    sum := 0;
    for i := 0 to |samples|
      invariant sum == WrapInt64(Sum(samples[..i]))
    {
      assert samples[..i + 1][..i] == samples[..i];
      WrapAfterWrap(Sum(samples[..i]), samples[i]);
      sum := WrapInt64(sum + samples[i]);
    }
    assert samples[..|samples|] == samples;
  }
}
