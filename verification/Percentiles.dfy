/**
 * Bucketed durations. Samples are counted in a fixed ladder of buckets, two to an
 * octave, and a percentile is answered as the bucket its rank falls in. The answer is
 * sound for the exact order statistic of every sample ever counted.
 */
module Percentiles {
  import opened Wrappers

  // ---- The ladder -----------------------------------------------------------

  const BOUND_COUNT: nat := 35
  const BUCKET_COUNT: nat := BOUND_COUNT + 1

  /** Boundary `i`: half a millisecond doubled every two steps, with the midpoint of each octave between. */
  function Bound(i: nat): real {
    if i == 0 then 0.5 else if i == 1 then 0.75 else 2.0 * Bound(i - 2)
  }

  function BoundsMs(): (bounds: seq<real>)
    ensures |bounds| == BOUND_COUNT && forall i :: 0 <= i < BOUND_COUNT ==> bounds[i] == Bound(i)
  {
    seq(BOUND_COUNT, (i: nat) => Bound(i))
  }

  lemma {:induction false} Midpoint(k: nat)
    ensures Bound(2 * k + 1) == Bound(2 * k) * 1.5
  {
    if k > 0 {
      Midpoint(k - 1);
      assert Bound(2 * k) == 2.0 * Bound(2 * (k - 1)) && Bound(2 * k + 1) == 2.0 * Bound(2 * (k - 1) + 1);
    }
  }

  function Doubled(k: nat): real {
    if k == 0 then 1.0 else 2.0 * Doubled(k - 1)
  }

  /** The octaves begin at half a millisecond doubled again and again. */
  lemma {:induction false} LadderIs(k: nat)
    ensures Bound(2 * k) == 0.5 * Doubled(k) && Bound(2 * k + 1) == 0.75 * Doubled(k)
  {
    if k > 0 {
      LadderIs(k - 1);
      assert Bound(2 * k) == 2.0 * Bound(2 * (k - 1)) && Bound(2 * k + 1) == 2.0 * Bound(2 * (k - 1) + 1);
    }
  }

  lemma {:induction false} DoubledAdds(j: nat, k: nat)
    ensures Doubled(j + k) == Doubled(j) * Doubled(k)
  {
    if k > 0 {
      DoubledAdds(j, k - 1);
      assert j + k - 1 == j + (k - 1);
    }
  }

  /** The ladder runs from half a millisecond to 65,536, and its last boundary is its 35th. */
  lemma LadderEnds()
    ensures var bounds := BoundsMs();
            |bounds| == 35 && bounds[0] == 0.5 && bounds[1] == 0.75 && bounds[2] == 1.0 && bounds[34] == 65536.0
  {
    LadderIs(17);
    assert Doubled(4) == 16.0;
    DoubledAdds(4, 4);
    DoubledAdds(8, 8);
    assert Doubled(17) == 2.0 * Doubled(16);
    LadderIs(1);
    assert Doubled(1) == 2.0;
  }

  /** One octave of the ladder: its base and, except at the top, its midpoint. */
  lemma OctaveExtends(bounds: seq<real>, k: nat, more: seq<real>)
    requires |bounds| == 2 * k && forall i :: 0 <= i < |bounds| ==> bounds[i] == Bound(i)
    requires more == [Bound(2 * k)] || more == [Bound(2 * k), Bound(2 * k) * 1.5]
    ensures forall i :: 0 <= i < |bounds + more| ==> (bounds + more)[i] == Bound(i)
  {
    Midpoint(k);
  }

  /** Builds the ladder octave by octave; the top octave has no midpoint. */
  method BuildBounds() returns (bounds: seq<real>)
    ensures bounds == BoundsMs()
  {
    bounds := [];
    var octave := 0;
    var base := 0.5;
    while octave <= 17
      invariant octave <= 18 && base == Bound(2 * octave)
      invariant |bounds| == if octave == 18 then BOUND_COUNT else 2 * octave
      invariant forall i :: 0 <= i < |bounds| ==> bounds[i] == Bound(i)
    {
      var more := if octave < 17 then [base, base * 1.5] else [base];
      OctaveExtends(bounds, octave, more);
      bounds := bounds + more;
      assert Bound(2 * (octave + 1)) == 2.0 * Bound(2 * octave);
      base := 2.0 * base;
      octave := octave + 1;
    }
  }

  lemma {:induction false} BoundsStep(i: nat)
    ensures 0.5 <= Bound(i) < Bound(i + 1) <= 1.5 * Bound(i)
  {
    if i >= 2 {
      BoundsStep(i - 2);
    }
  }

  lemma {:induction false} BoundsAscend(i: nat, j: nat)
    requires i < j
    ensures Bound(i) < Bound(j)
    decreases j
  {
    BoundsStep(j - 1);
    if i < j - 1 {
      BoundsAscend(i, j - 1);
    }
  }

  // ---- One duration ---------------------------------------------------------

  /** The edges of a bucket; the bottom one has no lower edge of its own and the top one no upper. */
  ghost predicate InBucket(ms: real, bucket: nat) {
    && bucket < BUCKET_COUNT
    && (bucket > 0 ==> Bound(bucket - 1) <= ms)
    && (bucket < BOUND_COUNT ==> ms < Bound(bucket))
  }

  function Reached(ms: real): set<nat> {
    set i: nat | i < BOUND_COUNT && Bound(i) <= ms
  }

  function FirstN(n: nat): set<nat> {
    if n == 0 then {} else FirstN(n - 1) + {n - 1}
  }

  lemma {:induction false} FirstNSize(n: nat)
    ensures |FirstN(n)| == n && forall i: nat :: i in FirstN(n) <==> i < n
  {
    if n > 0 {
      FirstNSize(n - 1);
    }
  }

  lemma SubsetSize(a: set<nat>, b: set<nat>)
    requires a <= b
    ensures |a| <= |b|
  {
    assert b == a + (b - a);
  }

  /** The number of boundaries at or below a duration. */
  function Bucket(ms: real): (b: nat)
    ensures b < BUCKET_COUNT
  {
    ReachedSize(ms, BOUND_COUNT);
    |Reached(ms)|
  }

  lemma ReachedSize(ms: real, n: nat)
    requires n == BOUND_COUNT
    ensures |Reached(ms)| <= n
  {
    FirstNSize(n);
    SubsetSize(Reached(ms), FirstN(n));
  }

  lemma BoundOf(ms: real, b: nat, i: nat)
    requires InBucket(ms, b) && i < BOUND_COUNT
    ensures Bound(i) <= ms <==> i < b
  {
    if i < b - 1 { BoundsAscend(i, b - 1); }
    if i > b { BoundsAscend(b, i); }
  }

  lemma InBucketIsBucket(ms: real, b: nat)
    requires InBucket(ms, b)
    ensures b == Bucket(ms)
  {
    forall i: nat | i < BOUND_COUNT ensures Bound(i) <= ms <==> i < b {
      BoundOf(ms, b, i);
    }
    FirstNSize(b);
    assert Reached(ms) == FirstN(b);
  }

  lemma {:induction false} SomeBucket(ms: real, n: nat) returns (b: nat)
    requires n <= BOUND_COUNT && (n > 0 ==> Bound(n - 1) <= ms)
    ensures InBucket(ms, b)
    decreases BOUND_COUNT - n
  {
    if n == BOUND_COUNT || ms < Bound(n) {
      b := n;
    } else {
      b := SomeBucket(ms, n + 1);
    }
  }

  /** Every duration is in its bucket, and in no other. */
  lemma BucketHolds(ms: real, b: nat)
    ensures InBucket(ms, b) <==> b == Bucket(ms)
  {
    var own := SomeBucket(ms, 0);
    InBucketIsBucket(ms, own);
    if InBucket(ms, b) {
      InBucketIsBucket(ms, b);
    }
  }

  method BucketOf(ms: real) returns (index: nat)
    ensures index == Bucket(ms) && InBucket(ms, index)
  {
    index := 0;
    while index < BOUND_COUNT && ms >= BoundsMs()[index]
      invariant index <= BOUND_COUNT
      invariant index > 0 ==> Bound(index - 1) <= ms
    {
      index := index + 1;
    }
    BucketHolds(ms, index);
  }

  // ---- Aggregates -----------------------------------------------------------

  datatype Aggregate = Aggregate(count: nat, abandoned: nat, totalMs: real, maxMs: real, buckets: seq<nat>)

  function NewAggregate(): (aggregate: Aggregate)
    ensures |aggregate.buckets| == BUCKET_COUNT && forall b :: 0 <= b < BUCKET_COUNT ==> aggregate.buckets[b] == 0
  {
    Aggregate(0, 0, 0.0, 0.0, seq(BUCKET_COUNT, _ => 0))
  }

  function Tallied(aggregate: Aggregate, ms: real): Aggregate
    requires |aggregate.buckets| == BUCKET_COUNT
  {
    var b := Bucket(ms);
    aggregate.(count := aggregate.count + 1,
               totalMs := aggregate.totalMs + ms,
               maxMs := if aggregate.count == 0 || ms > aggregate.maxMs then ms else aggregate.maxMs,
               buckets := aggregate.buckets[b := aggregate.buckets[b] + 1])
  }

  method Tally(aggregate: Aggregate, ms: real) returns (r: Aggregate)
    requires |aggregate.buckets| == BUCKET_COUNT
    ensures r == Tallied(aggregate, ms)
  {
    r := aggregate.(count := aggregate.count + 1, totalMs := aggregate.totalMs + ms);
    if r.count == 1 || ms > r.maxMs {
      r := r.(maxMs := ms);
    }
    var bucket := BucketOf(ms);
    r := r.(buckets := r.buckets[bucket := r.buckets[bucket] + 1]);
  }

  /** An aggregate after a history of samples, oldest first. */
  function After(samples: seq<real>): (aggregate: Aggregate)
    ensures |aggregate.buckets| == BUCKET_COUNT
  {
    if samples == [] then NewAggregate()
    else Tallied(After(samples[..|samples| - 1]), samples[|samples| - 1])
  }

  function InBucketCount(samples: seq<real>, b: nat): nat {
    if samples == [] then 0
    else InBucketCount(samples[..|samples| - 1], b) + if Bucket(samples[|samples| - 1]) == b then 1 else 0
  }

  function Total(samples: seq<real>): real {
    if samples == [] then 0.0 else Total(samples[..|samples| - 1]) + samples[|samples| - 1]
  }

  /** An aggregate is exact about the count, the sum, the maximum and every bucket. */
  lemma {:induction false} AggregateIsExact(samples: seq<real>)
    ensures var aggregate := After(samples);
            && aggregate.count == |samples|
            && aggregate.totalMs == Total(samples)
            && (forall b :: 0 <= b < BUCKET_COUNT ==> aggregate.buckets[b] == InBucketCount(samples, b))
            && (samples != [] ==> aggregate.maxMs in samples && forall x :: x in samples ==> x <= aggregate.maxMs)
  {
    if samples != [] {
      var n := |samples| - 1;
      AggregateIsExact(samples[..n]);
      BucketHolds(samples[n], Bucket(samples[n]));
      assert forall x :: x in samples <==> x in samples[..n] || x == samples[n];
    }
  }

  // ---- Ranks ----------------------------------------------------------------

  function Cumulative(buckets: seq<nat>, n: nat): nat
    requires n <= |buckets|
  {
    if n == 0 then 0 else Cumulative(buckets, n - 1) + buckets[n - 1]
  }

  function CountBelow(samples: seq<real>, x: real): nat {
    if samples == [] then 0
    else CountBelow(samples[..|samples| - 1], x) + if samples[|samples| - 1] < x then 1 else 0
  }

  function CountAtMost(samples: seq<real>, x: real): nat {
    if samples == [] then 0
    else CountAtMost(samples[..|samples| - 1], x) + if samples[|samples| - 1] <= x then 1 else 0
  }

  /** `x` is the `rank`-th smallest sample, counting from one and counting repeats. */
  predicate IsRanked(samples: seq<real>, rank: int, x: real) {
    x in samples && CountBelow(samples, x) < rank <= CountAtMost(samples, x)
  }

  function Ceil(x: real): int {
    -((-x).Floor)
  }

  function TargetRank(quantile: real, count: nat): int {
    Ceil(quantile * count as real)
  }

  function BucketsBelow(samples: seq<real>, n: nat): nat {
    if n == 0 then 0 else BucketsBelow(samples, n - 1) + InBucketCount(samples, n - 1)
  }

  /** The buckets below a boundary hold exactly the samples below it. */
  lemma {:induction false} BucketsBelowBound(samples: seq<real>, n: nat)
    requires n <= BOUND_COUNT
    ensures BucketsBelow(samples, n + 1) == if n == BOUND_COUNT then |samples| else CountBelow(samples, Bound(n))
    decreases |samples|
  {
    if samples == [] {
      NoSamples(n + 1);
    } else {
      var last := samples[|samples| - 1];
      var before := samples[..|samples| - 1];
      BucketsBelowBound(before, n);
      OneMoreSample(samples, n + 1);
      BucketHolds(last, Bucket(last));
      var b := Bucket(last);
      if n < BOUND_COUNT {
        if b <= n {
          if b < n { BoundsAscend(b, n); }
        } else if b > n + 1 {
          BoundsAscend(n, b - 1);
        }
      }
    }
  }

  lemma {:induction false} NoSamples(n: nat)
    ensures BucketsBelow([], n) == 0
  {
    if n > 0 {
      NoSamples(n - 1);
    }
  }

  lemma {:induction false} OneMoreSample(samples: seq<real>, n: nat)
    requires samples != []
    ensures BucketsBelow(samples, n) ==
            BucketsBelow(samples[..|samples| - 1], n) + if Bucket(samples[|samples| - 1]) < n then 1 else 0
  {
    if n > 0 {
      OneMoreSample(samples, n - 1);
    }
  }

  lemma {:induction false} CumulativeIsBucketsBelow(samples: seq<real>, n: nat)
    requires n <= BUCKET_COUNT
    ensures Cumulative(After(samples).buckets, n) == BucketsBelow(samples, n)
  {
    AggregateIsExact(samples);
    if n > 0 {
      CumulativeIsBucketsBelow(samples, n - 1);
    }
  }

  lemma {:induction false} RanksAreOrdered(samples: seq<real>, x: real, y: real)
    ensures x < y ==> CountAtMost(samples, x) <= CountBelow(samples, y)
    ensures x <= y ==> CountBelow(samples, x) <= CountBelow(samples, y)
    ensures CountAtMost(samples, x) <= |samples|
  {
    if samples != [] {
      RanksAreOrdered(samples[..|samples| - 1], x, y);
    }
  }

  // ---- Percentiles ----------------------------------------------------------

  datatype Range = Range(atLeastMs: real, belowMs: Option<real>)

  function Edges(index: nat): Range
    requires index < BUCKET_COUNT
  {
    Range(if index == 0 then 0.0 else Bound(index - 1), if index == BOUND_COUNT then None else Some(Bound(index)))
  }

  predicate Contains(range: Range, x: real) {
    range.atLeastMs <= x && (range.belowMs.Some? ==> x < range.belowMs.value)
  }

  /** The bucket a rank falls in, scanning from the bottom; the top one when the counts fall short. */
  function RankBucket(buckets: seq<nat>, rank: int, index: nat): (r: nat)
    requires |buckets| == BUCKET_COUNT && index <= BUCKET_COUNT
    ensures r < BUCKET_COUNT
    decreases BUCKET_COUNT - index
  {
    if index == BUCKET_COUNT then BOUND_COUNT
    else if Cumulative(buckets, index + 1) >= rank then index
    else RankBucket(buckets, rank, index + 1)
  }

  method PercentileOf(buckets: seq<nat>, count: nat, quantile: real) returns (r: Option<Range>)
    requires |buckets| == BUCKET_COUNT
    ensures r == if count == 0 then None else Some(Edges(RankBucket(buckets, TargetRank(quantile, count), 0)))
  {
    if count == 0 {
      return None;
    }
    var targetRank := TargetRank(quantile, count);
    var seen := 0;
    var index := 0;
    while index < BUCKET_COUNT
      invariant index <= BUCKET_COUNT && seen == Cumulative(buckets, index)
      invariant RankBucket(buckets, targetRank, index) == RankBucket(buckets, targetRank, 0)
    {
      seen := seen + buckets[index];
      if seen >= targetRank {
        return Some(Edges(index));
      }
      index := index + 1;
    }
    return Some(Range(Bound(BOUND_COUNT - 1), None));
  }

  lemma {:induction false} RankBucketSplits(buckets: seq<nat>, rank: int, index: nat)
    requires |buckets| == BUCKET_COUNT && index < BUCKET_COUNT
    requires Cumulative(buckets, index) < rank <= Cumulative(buckets, BUCKET_COUNT)
    ensures var b := RankBucket(buckets, rank, index);
            Cumulative(buckets, b) < rank <= Cumulative(buckets, b + 1)
    decreases BUCKET_COUNT - index
  {
    if Cumulative(buckets, index + 1) < rank {
      RankBucketSplits(buckets, rank, index + 1);
    }
  }

  lemma RankIsInRange(quantile: real, count: nat)
    requires 0.0 < quantile <= 1.0 && count > 0
    ensures 1 <= TargetRank(quantile, count) <= count
  {
    var x := quantile * count as real;
    assert 0.0 < x <= count as real;
    assert (-x).Floor as real <= -x;
    assert (-x).Floor >= -(count as int);
  }

  /** The bucket a rank falls in has fewer samples below it than the rank, and enough with its own. */
  lemma RankBucketCounts(samples: seq<real>, rank: nat)
    requires 1 <= rank <= |samples|
    ensures var b := RankBucket(After(samples).buckets, rank, 0);
            && (b > 0 ==> CountBelow(samples, Bound(b - 1)) < rank)
            && (b < BOUND_COUNT ==> rank <= CountBelow(samples, Bound(b)))
  {
    var buckets := After(samples).buckets;
    CumulativeIsBucketsBelow(samples, BUCKET_COUNT);
    BucketsBelowBound(samples, BOUND_COUNT);
    RankBucketSplits(buckets, rank, 0);
    var b := RankBucket(buckets, rank, 0);
    CumulativeIsBucketsBelow(samples, b);
    CumulativeIsBucketsBelow(samples, b + 1);
    if b > 0 {
      BucketsBelowBound(samples, b - 1);
    }
    if b < BOUND_COUNT {
      BucketsBelowBound(samples, b);
    }
  }

  lemma RankBucketIsSound(samples: seq<real>, rank: nat, x: real)
    requires 1 <= rank <= |samples| && IsRanked(samples, rank, x)
    ensures Contains(Edges(RankBucket(After(samples).buckets, rank, 0)), x) <==> x >= 0.0
  {
    RankBucketCounts(samples, rank);
    var b := RankBucket(After(samples).buckets, rank, 0);
    if b > 0 {
      RanksAreOrdered(samples, x, Bound(b - 1));
      BoundsStep(b - 1);
    }
    if b < BOUND_COUNT {
      RanksAreOrdered(samples, Bound(b), x);
    }
  }

  /**
   * For any history and any quantile, the reported range holds the sample of that rank
   * exactly when the sample is not negative: the bottom bucket also takes what fell
   * below zero, and is reported as starting there.
   */
  lemma PercentileIsSound(samples: seq<real>, quantile: real, x: real)
    requires samples != [] && 0.0 < quantile <= 1.0
    requires IsRanked(samples, TargetRank(quantile, |samples|), x)
    ensures var aggregate := After(samples);
            && aggregate.count == |samples|
            && (Contains(Edges(RankBucket(aggregate.buckets, TargetRank(quantile, |samples|), 0)), x) <==> x >= 0.0)
  {
    AggregateIsExact(samples);
    RankIsInRange(quantile, |samples|);
    RankBucketIsSound(samples, TargetRank(quantile, |samples|), x);
  }

  /** Every rank names a sample, so the statement above is about one at every quantile. */
  lemma {:induction false} RankExists(samples: seq<real>, rank: nat)
    requires 1 <= rank <= |samples|
    ensures exists x :: IsRanked(samples, rank, x)
  {
    var smallest := Smallest(samples);
    if rank <= CountAtMost(samples, smallest) {
      NoneBelow(samples, smallest);
      assert IsRanked(samples, rank, smallest);
    } else {
      RankAbove(samples, rank, smallest);
    }
  }

  lemma {:induction false} Smallest(samples: seq<real>) returns (x: real)
    requires samples != []
    ensures x in samples && forall y :: y in samples ==> x <= y
  {
    var n := |samples| - 1;
    x := samples[n];
    if n > 0 {
      var rest := Smallest(samples[..n]);
      if rest < x {
        x := rest;
      }
      assert forall y :: y in samples ==> y in samples[..n] || y == samples[n];
    }
  }

  lemma {:induction false} NoneBelow(samples: seq<real>, x: real)
    requires forall y :: y in samples ==> x <= y
    ensures CountBelow(samples, x) == 0
  {
    if samples != [] {
      var n := |samples| - 1;
      assert samples[n] in samples && forall y :: y in samples[..n] ==> y in samples;
      NoneBelow(samples[..n], x);
    }
  }

  /** Climbs from a sample whose rank is too low to the next larger one. */
  lemma {:induction false} RankAbove(samples: seq<real>, rank: nat, x: real)
    requires x in samples && CountAtMost(samples, x) < rank <= |samples|
    ensures exists y :: IsRanked(samples, rank, y)
    decreases |samples| - CountAtMost(samples, x)
  {
    var y := NextAbove(samples, x);
    if rank <= CountAtMost(samples, y) {
      assert IsRanked(samples, rank, y);
    } else {
      RankAbove(samples, rank, y);
    }
  }

  lemma {:induction false} NextAbove(samples: seq<real>, x: real) returns (y: real)
    requires CountAtMost(samples, x) < |samples|
    ensures y in samples && x < y
    ensures CountBelow(samples, y) == CountAtMost(samples, x) < CountAtMost(samples, y)
  {
    var above := Above(samples, x);
    AboveCount(samples, x);
    y := Smallest(above);
    AboveMembers(samples, x, y);
    SameBelow(samples, x, y);
    CountsItself(samples, y);
  }

  function Above(samples: seq<real>, x: real): seq<real> {
    if samples == [] then []
    else Above(samples[..|samples| - 1], x) + if samples[|samples| - 1] > x then [samples[|samples| - 1]] else []
  }

  lemma {:induction false} AboveCount(samples: seq<real>, x: real)
    ensures |Above(samples, x)| == |samples| - CountAtMost(samples, x)
  {
    if samples != [] {
      AboveCount(samples[..|samples| - 1], x);
    }
  }

  lemma {:induction false} AboveMembers(samples: seq<real>, x: real, y: real)
    ensures y in Above(samples, x) <==> y in samples && y > x
  {
    if samples != [] {
      var n := |samples| - 1;
      AboveMembers(samples[..n], x, y);
      assert y in samples <==> y in samples[..n] || y == samples[n];
    }
  }

  lemma {:induction false} SameBelow(samples: seq<real>, x: real, y: real)
    requires x < y
    requires forall z :: z in Above(samples, x) ==> y <= z
    ensures CountBelow(samples, y) == CountAtMost(samples, x)
  {
    if samples != [] {
      var n := |samples| - 1;
      assert forall z :: z in Above(samples[..n], x) ==> z in Above(samples, x);
      if samples[n] > x {
        assert samples[n] in Above(samples, x);
      }
      SameBelow(samples[..n], x, y);
    }
  }

  lemma {:induction false} CountsItself(samples: seq<real>, y: real)
    ensures CountBelow(samples, y) <= CountAtMost(samples, y)
    ensures y in samples ==> CountBelow(samples, y) < CountAtMost(samples, y)
  {
    if samples != [] {
      var n := |samples| - 1;
      CountsItself(samples[..n], y);
      assert y in samples <==> y in samples[..n] || y == samples[n];
    }
  }

  /** Between the ends of the ladder a range is never wider than half again its lower edge. */
  lemma RangesAreNarrow(index: nat)
    requires 0 < index < BOUND_COUNT
    ensures Edges(index).belowMs.Some?
            && Edges(index).atLeastMs < Edges(index).belowMs.value <= 1.5 * Edges(index).atLeastMs
  {
    BoundsStep(index - 1);
  }
}
