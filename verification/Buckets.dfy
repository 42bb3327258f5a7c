/**
 * The last point per time bucket: argMax(column, time) .. GROUP BY $__timeInterval(time) in
 * dashboards/builder/clickhouse.py, last() .. GROUP BY time(..) in dashboards/builder/common.py and in
 * config/influxdb/pg_monitoring_downsample.sh.
 */
module Buckets {
  import opened Counters

  /** A division of time into buckets: every time is mapped to the start of its bucket. */
  type Bucketing = int -> int

  ghost predicate Increasing(bucket: Bucketing) {
    forall s, t :: s <= t ==> bucket(s) <= bucket(t)
  }

  /** Buckets of equal width. */
  function Every(step: int): Bucketing
    requires step > 0
  {
    time => time / step * step
  }

  /** A time is in the bucket that starts at the last multiple of the width before it. */
  lemma EveryBucket(step: int, t: int, start: int)
    requires step > 0
    ensures Every(step)(t) == start <==> start % step == 0 && start <= t < start + step
  {
    var q := t / step;
    assert t == q * step + t % step;
    MultipleOf(q, step);
    if start % step == 0 && start <= t < start + step {
      var k := start / step;
      assert start == k * step;
      SameQuotient(q, k, step, t % step, t - start);
    }
  }

  lemma MultipleOf(q: int, step: int)
    requires step > 0
    ensures (q * step) % step == 0
  {
    SameQuotient(q, q * step / step, step, 0, (q * step) % step);
  }

  lemma SameQuotient(q: int, k: int, step: int, r: int, s: int)
    requires 0 <= r < step && 0 <= s < step && q * step + r == k * step + s
    ensures q == k && r == s
  {
    StepsApart(q - k, step);
    assert (q - k) * step == q * step - k * step;
  }

  lemma StepsApart(d: int, step: int)
    requires step > 0
    ensures d >= 1 ==> d * step >= step
    ensures d <= -1 ==> d * step <= -step
  {
    if d >= 1 {
      AtLeastStep(d, step);
    } else if d <= -1 {
      AtLeastStep(-d, step);
      assert -d * step == -(d * step);
    }
  }

  lemma AtLeastStep(d: int, step: int)
    requires d >= 1 && step > 0
    ensures d * step >= step
  {
    assert (d - 1) * step >= 0;
  }

  lemma EveryIncreasing(step: int)
    requires step > 0
    ensures Increasing(Every(step))
  {
    forall s, t | s <= t
      ensures Every(step)(s) <= Every(step)(t)
    {
      QuotientMonotone(s, t, step);
    }
  }

  lemma QuotientMonotone(s: int, t: int, step: int)
    requires step > 0 && s <= t
    ensures s / step * step <= t / step * step
  {
    if s / step > t / step {
      assert s / step * step >= (t / step + 1) * step;
    } else {
      assert s / step * step <= t / step * step;
    }
  }

  /** The last sample of every bucket, of samples in the order of time. */
  function Picks(sorted: seq<Sample>, bucket: Bucketing): seq<Sample>
  {
    if sorted == [] then []
    else
      var s, picks := sorted[|sorted| - 1], Picks(sorted[..|sorted| - 1], bucket);
      if picks != [] && bucket(picks[|picks| - 1].time) == bucket(s.time)
      then picks[..|picks| - 1] + [s]
      else picks + [s]
  }

  /** The rows (bucket start, last value). */
  function BucketLast(rows: seq<Sample>, bucket: Bucketing): seq<Sample>
  {
    var picks := Picks(SortByTime(rows), bucket);
    seq(|picks|, i requires 0 <= i < |picks| => Sample(bucket(picks[i].time), picks[i].value))
  }

  lemma {:induction false} SubsequenceInit<T>(xs: seq<T>, ys: seq<T>)
    requires Subsequence(xs, ys) && xs != []
    ensures Subsequence(xs[..|xs| - 1], ys)
  {
    var n := |ys| - 1;
    if Subsequence(xs, ys[..n]) {
      SubsequenceInit(xs, ys[..n]);
    }
  }

  /** Downsampling to the last point per bucket leaves points out and changes none. */
  lemma {:induction false} PicksAreSubsequence(sorted: seq<Sample>, bucket: Bucketing)
    ensures Subsequence(Picks(sorted, bucket), sorted)
  {
    if sorted != [] {
      var n := |sorted| - 1;
      var picks := Picks(sorted[..n], bucket);
      PicksAreSubsequence(sorted[..n], bucket);
      var kept := if picks != [] && bucket(picks[|picks| - 1].time) == bucket(sorted[n].time)
                  then picks[..|picks| - 1] else picks;
      if picks != [] {
        SubsequenceInit(picks, sorted[..n]);
      }
      assert (kept + [sorted[n]])[..|kept|] == kept;
    }
  }

  ghost predicate BucketsAscend(picks: seq<Sample>, bucket: Bucketing)
  {
    forall i, j :: 0 <= i < j < |picks| ==> bucket(picks[i].time) < bucket(picks[j].time)
  }

  /** From sample to sample the bucket does not go back. */
  ghost predicate BucketsOrdered(sorted: seq<Sample>, bucket: Bucketing) {
    forall i :: 0 < i < |sorted| ==> bucket(sorted[i - 1].time) <= bucket(sorted[i].time)
  }

  lemma SortedIsOrdered(sorted: seq<Sample>, bucket: Bucketing)
    requires Increasing(bucket) && Sorted(sorted)
    ensures BucketsOrdered(sorted, bucket)
  {
  }

  lemma AscendOn(kept: seq<Sample>, s: Sample, bucket: Bucketing)
    requires BucketsAscend(kept, bucket)
    requires kept != [] ==> bucket(kept[|kept| - 1].time) < bucket(s.time)
    ensures BucketsAscend(kept + [s], bucket)
  {
  }

  /** The picks before the new one: the new one replaces a pick of its own bucket. */
  function Kept(picks: seq<Sample>, s: Sample, bucket: Bucketing): seq<Sample> {
    if picks != [] && bucket(picks[|picks| - 1].time) == bucket(s.time) then picks[..|picks| - 1] else picks
  }

  lemma {:induction false} PicksOn(init: seq<Sample>, s: Sample, bucket: Bucketing)
    ensures Picks(init + [s], bucket) == Kept(Picks(init, bucket), s, bucket) + [s]
  {
    assert (init + [s])[..|init|] == init;
  }

  lemma KeptMembers(picks: seq<Sample>, s: Sample, bucket: Bucketing, p: Sample)
    ensures p in Kept(picks, s, bucket) ==> p in picks
    ensures p in picks ==> p in Kept(picks, s, bucket) || bucket(p.time) == bucket(s.time)
  {
    if picks != [] {
      assert picks == picks[..|picks| - 1] + [picks[|picks| - 1]];
    }
  }

  lemma KeptAscends(picks: seq<Sample>, s: Sample, bucket: Bucketing)
    requires BucketsAscend(picks, bucket)
    requires picks != [] ==> bucket(picks[|picks| - 1].time) <= bucket(s.time)
    ensures BucketsAscend(Kept(picks, s, bucket) + [s], bucket)
  {
    AscendOn(Kept(picks, s, bucket), s, bucket);
  }

  predicate SameLast(picks: seq<Sample>, sorted: seq<Sample>) {
    sorted != [] ==> picks != [] && picks[|picks| - 1] == sorted[|sorted| - 1]
  }

  lemma {:induction false} PicksAscendOn(init: seq<Sample>, s: Sample, bucket: Bucketing)
    requires BucketsAscend(Picks(init, bucket), bucket) && SameLast(Picks(init, bucket), init)
    requires init != [] ==> bucket(init[|init| - 1].time) <= bucket(s.time)
    ensures BucketsAscend(Picks(init + [s], bucket), bucket)
  {
    PicksOn(init, s, bucket);
    KeptAscends(Picks(init, bucket), s, bucket);
  }

  lemma {:induction false} SameLastOn(init: seq<Sample>, s: Sample, bucket: Bucketing)
    ensures SameLast(Picks(init + [s], bucket), init + [s])
  {
    PicksOn(init, s, bucket);
  }

  lemma OrderedInit(init: seq<Sample>, s: Sample, bucket: Bucketing)
    requires BucketsOrdered(init + [s], bucket)
    ensures BucketsOrdered(init, bucket)
    ensures init != [] ==> bucket(init[|init| - 1].time) <= bucket(s.time)
  {
    var all := init + [s];
    assert forall i :: 0 <= i < |init| ==> all[i] == init[i];
    assert all[|init|] == s;
  }

  /** One pick per bucket, in the order of time; the very last sample is always picked. */
  lemma {:induction false} PicksAscend(sorted: seq<Sample>, bucket: Bucketing)
    requires BucketsOrdered(sorted, bucket)
    ensures BucketsAscend(Picks(sorted, bucket), bucket) && SameLast(Picks(sorted, bucket), sorted)
  {
    if sorted != [] {
      var init, s := sorted[..|sorted| - 1], sorted[|sorted| - 1];
      assert sorted == init + [s];
      OrderedInit(init, s, bucket);
      PicksAscend(init, bucket);
      PicksAscendOn(init, s, bucket);
      SameLastOn(init, s, bucket);
    }
  }

  /** A pick is the very last sample, or it was picked before and its bucket is over. */
  lemma {:induction false} PickSplit(init: seq<Sample>, s: Sample, bucket: Bucketing, p: Sample)
    requires BucketsOrdered(init + [s], bucket) && p in Picks(init + [s], bucket)
    ensures p == s || (p in Picks(init, bucket) && bucket(p.time) < bucket(s.time))
  {
    PicksAscend(init + [s], bucket);
    PicksOn(init, s, bucket);
    var kept := Kept(Picks(init, bucket), s, bucket);
    if p in kept {
      KeptMembers(Picks(init, bucket), s, bucket, p);
      BeforeLast(kept, s, bucket, p);
    }
  }

  lemma SortedInit(init: seq<Sample>, s: Sample)
    requires Sorted(init + [s])
    ensures Sorted(init) && forall x :: x in init ==> x.time <= s.time
  {
    var all := init + [s];
    assert forall i :: 0 <= i < |init| ==> all[i] == init[i];
    assert all[|init|] == s;
  }

  /** A pick is the latest sample of its bucket. */
  lemma {:induction false} PickIsLast(sorted: seq<Sample>, bucket: Bucketing, p: Sample, x: Sample)
    requires BucketsOrdered(sorted, bucket) && Sorted(sorted)
    requires p in Picks(sorted, bucket) && x in sorted && bucket(x.time) == bucket(p.time)
    ensures x.time <= p.time
  {
    var init, s := sorted[..|sorted| - 1], sorted[|sorted| - 1];
    assert sorted == init + [s];
    PickSplit(init, s, bucket, p);
    SortedInit(init, s);
    if p != s {
      OrderedInit(init, s, bucket);
      PickIsLast(init, bucket, p, x);
    }
  }

  lemma BeforeLast(kept: seq<Sample>, s: Sample, bucket: Bucketing, p: Sample)
    requires BucketsAscend(kept + [s], bucket) && p in kept
    ensures bucket(p.time) < bucket(s.time)
  {
    var i :| 0 <= i < |kept| && kept[i] == p;
    assert (kept + [s])[i] == p && (kept + [s])[|kept|] == s;
  }

  /** Every bucket that occurs has a pick. */
  lemma {:induction false} PicksCover(sorted: seq<Sample>, bucket: Bucketing, x: Sample) returns (p: Sample)
    requires x in sorted
    ensures p in Picks(sorted, bucket) && bucket(p.time) == bucket(x.time)
  {
    var init, s := sorted[..|sorted| - 1], sorted[|sorted| - 1];
    assert sorted == init + [s];
    PicksOn(init, s, bucket);
    p := s;
    if x in init {
      var q := PicksCover(init, bucket, x);
      KeptMembers(Picks(init, bucket), s, bucket, q);
      if q in Kept(Picks(init, bucket), s, bucket) {
        p := q;
      }
    }
  }

  /** Every bucket with a sample has a row. */
  lemma RowOfBucket(rows: seq<Sample>, bucket: Bucketing, x: Sample) returns (i: nat)
    requires x in rows
    ensures i < |BucketLast(rows, bucket)| && BucketLast(rows, bucket)[i].time == bucket(x.time)
  {
    SortFacts(rows);
    var picks := Picks(SortByTime(rows), bucket);
    var p := PicksCover(SortByTime(rows), bucket, x);
    i :| 0 <= i < |picks| && picks[i] == p;
  }

  /** The bucketed values are the picked values. */
  lemma {:induction false} BucketLastFacts(rows: seq<Sample>, bucket: Bucketing)
    requires Increasing(bucket)
    ensures Ascending(BucketLast(rows, bucket))
    ensures Values(BucketLast(rows, bucket)) == Values(Picks(SortByTime(rows), bucket))
    ensures Subsequence(Values(BucketLast(rows, bucket)), Values(SortByTime(rows)))
  {
    SortFacts(rows);
    SortedIsOrdered(SortByTime(rows), bucket);
    PicksAscend(SortByTime(rows), bucket);
    PicksAreSubsequence(SortByTime(rows), bucket);
    SubsequenceValues(Picks(SortByTime(rows), bucket), SortByTime(rows));
  }

  /** Bucketed points never show a larger increase than the raw points, whatever the resets. */
  lemma {:induction false} BucketedIncrease(onReset: OnReset, rows: seq<Sample>, bucket: Bucketing)
    requires Increasing(bucket) && NonNegative(Values(SortByTime(rows)))
    ensures Gain(onReset, Values(BucketLast(rows, bucket))) <= Eval(Increase(onReset), rows)
  {
    BucketLastFacts(rows, bucket);
    IncreaseMeaning(onReset, rows);
    Thinning(onReset, Values(BucketLast(rows, bucket)), Values(SortByTime(rows)));
  }

  lemma {:induction false} BucketEnds(rows: seq<Sample>, bucket: Bucketing)
    requires Increasing(bucket) && rows != []
    ensures SortByTime(rows) != [] && BucketLast(rows, bucket) != []
    ensures var kept, sorted := BucketLast(rows, bucket), SortByTime(rows);
            kept[|kept| - 1].value == sorted[|sorted| - 1].value
  {
    SortFacts(rows);
    SortedIsOrdered(SortByTime(rows), bucket);
    PicksAscend(SortByTime(rows), bucket);
  }

  /** On a counter that never drops, exactly the part inside the first bucket, up to its last point, is missing. */
  lemma {:induction false} BucketedGap(onReset: OnReset, rows: seq<Sample>, bucket: Bucketing)
    requires Increasing(bucket) && rows != [] && Monotone(Values(SortByTime(rows)))
    ensures SortByTime(rows) != [] && BucketLast(rows, bucket) != []
    ensures Eval(Increase(onReset), rows) - Gain(onReset, Values(BucketLast(rows, bucket)))
         == BucketLast(rows, bucket)[0].value - SortByTime(rows)[0].value
  {
    BucketEnds(rows, bucket);
    BucketLastFacts(rows, bucket);
    IncreaseMeaning(onReset, rows);
    ThinningGap(onReset, Values(BucketLast(rows, bucket)), Values(SortByTime(rows)));
  }
}
