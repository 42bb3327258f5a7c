/**
 * The increase and rate queries over several series, summed per group: `increase_query` of
 * dashboards/builder/common.py and `rate_query` of dashboards/builder/clickhouse.py.
 */
module GroupedQueries {
  import opened Text
  import opened Counters
  import opened Buckets
  import opened Grouping
  import opened Queries

  // ---------------------------------------------------------------- increase_query

  /** The inner query's rows of one series: one per difference that is not negative. */
  function DifferenceRows(tags: Tags, differences: seq<real>): seq<Row<Tags>> {
    if differences == [] then []
    else
      var n := |differences| - 1;
      DifferenceRows(tags, differences[..n]) + [Row(tags, differences[n])]
  }

  function AllDifferenceRows(series: seq<Series>, bucket: Bucketing): seq<Row<Tags>> {
    if series == [] then []
    else
      DifferenceRows(series[0].tags, NonNegativeDifference(Values(BucketLast(series[0].samples, bucket))))
      + AllDifferenceRows(series[1..], bucket)
  }

  /** `increase_query(..., group_by)`: sum("alias") ... GROUP BY the columns. */
  function IncreaseQuery(series: seq<Series>, bucket: Bucketing, groupBy: set<string>): seq<Row<Tags>> {
    GroupSum(Rekey(AllDifferenceRows(series, bucket), Project(groupBy)))
  }

  /** The increase of the series of a group, each by its own bucketed points. */
  function GroupIncrease(series: seq<Series>, bucket: Bucketing, groupBy: set<string>, key: Tags): real {
    if series == [] then 0.0
    else
      (if Project(groupBy)(series[0].tags) == key then InfluxIncrease(series[0].samples, bucket) else 0.0)
      + GroupIncrease(series[1..], bucket, groupBy, key)
  }

  lemma OneRowSum<K, L>(row: Row<K>, f: K -> L, key: L)
    ensures SumOf(Rekey([row], f), key) == if f(row.key) == key then row.value else 0.0
  {
    assert [row][1..] == [];
    assert Rekey([row], f) == [Row(f(row.key), row.value)];
    assert [Row(f(row.key), row.value)][1..] == [];
  }

  lemma {:induction false} SplitSum<K, L>(a: seq<Row<K>>, b: seq<Row<K>>, f: K -> L, key: L)
    ensures SumOf(Rekey(a + b, f), key) == SumOf(Rekey(a, f), key) + SumOf(Rekey(b, f), key)
  {
    RekeyConcat(a, b, f);
    SumOfConcat(Rekey(a, f), Rekey(b, f), key);
  }

  lemma {:induction false} DifferencesSum(tags: Tags, differences: seq<real>, f: Tags -> Tags, key: Tags)
    ensures SumOf(Rekey(DifferenceRows(tags, differences), f), key) == if f(tags) == key then Sum(differences) else 0.0
  {
    if differences != [] {
      var n := |differences| - 1;
      DifferencesSum(tags, differences[..n], f, key);
      SplitSum(DifferenceRows(tags, differences[..n]), [Row(tags, differences[n])], f, key);
      OneRowSum(Row(tags, differences[n]), f, key);
    }
  }

  lemma {:induction false} IncreaseRowsSum(series: seq<Series>, bucket: Bucketing, groupBy: set<string>, key: Tags)
    ensures SumOf(Rekey(AllDifferenceRows(series, bucket), Project(groupBy)), key) ==
            GroupIncrease(series, bucket, groupBy, key)
  {
    if series != [] {
      var differences := NonNegativeDifference(Values(BucketLast(series[0].samples, bucket)));
      IncreaseRowsSum(series[1..], bucket, groupBy, key);
      SplitSum(DifferenceRows(series[0].tags, differences), AllDifferenceRows(series[1..], bucket), Project(groupBy),
          key);
      DifferencesSum(series[0].tags, differences, Project(groupBy), key);
    }
  }

  ghost predicate NonNegativeSeries(s: Series) {
    NonNegative(Values(SortByTime(s.samples)))
  }

  lemma SeriesAtLeast(s: Series, bucket: Bucketing)
    requires Increasing(bucket) && NonNegativeSeries(s)
    ensures InfluxIncrease(s.samples, bucket) <= Eval(Increase(Ignore), s.samples)
  {
    InfluxMeetsClickHouse(s.samples, bucket);
  }

  lemma {:induction false} TableRowsSum(series: seq<Series>, f: Tags -> Tags, key: Tags)
    requires series != []
    ensures SumOf(Rekey(TableRows(Ignore, series), f), key)
         == (if f(series[0].tags) == key then Eval(Increase(Ignore), series[0].samples) else 0.0)
            + SumOf(Rekey(TableRows(Ignore, series[1..]), f), key)
  {
    var row := Row(series[0].tags, Eval(Increase(Ignore), series[0].samples));
    SplitSum([row], TableRows(Ignore, series[1..]), f, key);
    OneRowSum(row, f, key);
  }

  lemma {:induction false} TableAtLeast(series: seq<Series>, bucket: Bucketing, groupBy: set<string>, key: Tags)
    requires Increasing(bucket) && forall s :: s in series ==> NonNegativeSeries(s)
    ensures GroupIncrease(series, bucket, groupBy, key) <=
            SumOf(Rekey(TableRows(Ignore, series), Project(groupBy)), key)
  {
    if series != [] {
      SeriesAtLeast(series[0], bucket);
      TableRowsSum(series, Project(groupBy), key);
      TableAtLeast(series[1..], bucket, groupBy, key);
    }
  }

  /** The change of a group over all buckets of the ClickHouse panel. */
  function GroupChange(series: seq<Series>, bucket: Bucketing, groupBy: set<string>, key: Tags): real {
    SumOf(Rekey(ChangeQuery(Ignore, series, bucket, groupBy), (k: (int, Tags)) => k.1), key)
  }

  lemma {:induction false} DeltaRowsSum(tags: Tags, windows: seq<Window>, groupBy: set<string>, key: Tags)
    ensures SumOf(Rekey(DeltaRows(Ignore, tags, windows), (k: (int, Tags)) => Project(groupBy)(k.1)), key)
         == if Project(groupBy)(tags) == key then SumDeltas(Ignore, windows) else 0.0
  {
    if windows != [] {
      var f := (k: (int, Tags)) => Project(groupBy)(k.1);
      var row := Row((windows[0].t, tags), Delta(Ignore, windows[0]));
      DeltaRowsSum(tags, windows[1..], groupBy, key);
      SplitSum([row], DeltaRows(Ignore, tags, windows[1..]), f, key);
      OneRowSum(row, f, key);
      SumDeltasFront(Ignore, windows);
    }
  }

  lemma {:induction false} ChangeRowsSum(series: seq<Series>, bucket: Bucketing, groupBy: set<string>, key: Tags)
    requires Increasing(bucket)
    ensures SumOf(Rekey(AllDeltaRows(Ignore, series, bucket), (k: (int, Tags)) => Project(groupBy)(k.1)), key)
         == GroupIncrease(series, bucket, groupBy, key)
  {
    if series != [] {
      var windows := SeriesWindows(series[0].samples, bucket);
      ChangeRowsSum(series[1..], bucket, groupBy, key);
      SplitSum(DeltaRows(Ignore, series[0].tags, windows), AllDeltaRows(Ignore, series[1..], bucket),
               (k: (int, Tags)) => Project(groupBy)(k.1), key);
      DeltaRowsSum(series[0].tags, windows, groupBy, key);
      SeriesDeltasAddUp(Ignore, series[0].samples, bucket);
      NonNegativeDifferenceSum(Values(BucketLast(series[0].samples, bucket)));
    }
  }

  lemma {:induction false} ChangeIsIncrease(series: seq<Series>, bucket: Bucketing, groupBy: set<string>, key: Tags)
    requires Increasing(bucket)
    ensures GroupChange(series, bucket, groupBy, key) == GroupIncrease(series, bucket, groupBy, key)
  {
    var rows := AllDeltaRows(Ignore, series, bucket);
    var drop := (k: (int, Tags)) => k.1;
    GroupedSumOf(Rekey(rows, ByBucket(groupBy)), drop, key);
    RekeyTwice(rows, ByBucket(groupBy), drop, (k: (int, Tags)) => Project(groupBy)(k.1));
    ChangeRowsSum(series, bucket, groupBy, key);
  }

  /**
   * Group by group, the InfluxDB increase sums the increases of exactly the group's series, is the ClickHouse
   * change of the group over all buckets, and never exceeds the group's row of the ClickHouse table.
   */
  lemma {:induction false} GroupsMeet(series: seq<Series>, bucket: Bucketing, groupBy: set<string>, key: Tags)
    requires Increasing(bucket) && forall s :: s in series ==> NonNegativeSeries(s)
    ensures var increase := SumOf(IncreaseQuery(series, bucket, groupBy), key);
            && increase == GroupIncrease(series, bucket, groupBy, key)
            && increase == GroupChange(series, bucket, groupBy, key)
            && increase <= SumOf(Breakdown(TableRows(Ignore, series), Some(groupBy)), key)
  {
    GroupSumFacts(Rekey(AllDifferenceRows(series, bucket), Project(groupBy)));
    BreakdownSum(TableRows(Ignore, series), groupBy, key);
    IncreaseRowsSum(series, bucket, groupBy, key);
    ChangeIsIncrease(series, bucket, groupBy, key);
    TableAtLeast(series, bucket, groupBy, key);
  }

  lemma {:induction false} SamplesOfPoints(points: seq<Point>, series: Tags, columns: set<string>)
    requires forall p :: p in points ==> p.sample.value >= 0.0
    ensures forall s :: s in SeriesSamples(points, series, columns) ==> s.value >= 0.0
  {
    if points != [] {
      assert points == [points[0]] + points[1..];
      SamplesOfPoints(points[1..], series, columns);
    }
  }

  lemma NonNegativeSamples(s: Series)
    requires forall x :: x in s.samples ==> x.value >= 0.0
    ensures NonNegativeSeries(s)
  {
    var sorted := SortByTime(s.samples);
    SortFacts(s.samples);
    forall k | 0 <= k < |sorted|
      ensures Values(sorted)[k] >= 0.0
    {
      assert sorted[k] in sorted;
    }
  }

  lemma NonNegativePoints(points: seq<Point>, columns: set<string>)
    requires forall p :: p in points ==> p.sample.value >= 0.0
    ensures forall s :: s in SeriesList(points, columns) ==> NonNegativeSeries(s)
  {
    var series := SeriesList(points, columns);
    forall s | s in series
      ensures NonNegativeSeries(s)
    {
      var i :| 0 <= i < |series| && series[i] == s;
      SamplesOfPoints(points, s.tags, columns);
      NonNegativeSamples(s);
    }
  }

  /** The same from the stored points: the InfluxDB table of a group against the ClickHouse table of it. */
  lemma {:induction false} QueriesMeet(points: seq<Point>, columns: set<string>, bucket: Bucketing,
      groupBy: set<string>, key: Tags)
    requires Increasing(bucket) && forall p :: p in points ==> p.sample.value >= 0.0
    ensures var increase := SumOf(IncreaseQuery(SeriesList(points, columns), bucket, groupBy), key);
            && increase == GroupChange(SeriesList(points, columns), bucket, groupBy, key)
            && increase <= SumOf(SeriesQuery(points, Ignore, columns, Some(groupBy)), key)
  {
    NonNegativePoints(points, columns);
    GroupsMeet(SeriesList(points, columns), bucket, groupBy, key);
  }

  // ---------------------------------------------------------------- rate_query, per second

  function RateRows(onReset: OnReset, tags: Tags, windows: seq<Window>): seq<Row<(int, Tags)>> {
    if windows == [] then []
    else [Row((windows[0].t, tags), PerSecond(onReset, windows[0]))] + RateRows(onReset, tags, windows[1..])
  }

  function AllRateRows(onReset: OnReset, series: seq<Series>, bucket: Bucketing): seq<Row<(int, Tags)>> {
    if series == [] then []
    else
      RateRows(onReset, series[0].tags, SeriesWindows(series[0].samples, bucket))
      + AllRateRows(onReset, series[1..], bucket)
  }

  /** `rate_query(...)`: sum(delta / seconds) per bucket and group. */
  function RateQuery(onReset: OnReset, series: seq<Series>, bucket: Bucketing, groupBy: set<string>)
    : seq<Row<(int, Tags)>>
  {
    GroupSum(Rekey(AllRateRows(onReset, series, bucket), ByBucket(groupBy)))
  }

  /**
   * Drilling down is consistent: bucket by bucket, the rates of the finer groups add up to those of the coarser ones.
   */
  lemma RatesRollUp(onReset: OnReset, series: seq<Series>, bucket: Bucketing, fine: set<string>, coarse: set<string>)
    requires coarse <= fine
    ensures GroupSum(Rekey(RateQuery(onReset, series, bucket, fine), ByBucket(coarse))) ==
            RateQuery(onReset, series, bucket, coarse)
  {
    var rows := AllRateRows(onReset, series, bucket);
    RollUp(Rekey(rows, ByBucket(fine)), ByBucket(coarse));
    forall i | 0 <= i < |rows|
      ensures ByBucket(coarse)(ByBucket(fine)(rows[i].key)) == ByBucket(coarse)(rows[i].key)
    {
      assert Project(coarse)(Project(fine)(rows[i].key.1)) == Project(coarse)(rows[i].key.1);
    }
    RekeyTwice(rows, ByBucket(fine), ByBucket(coarse), ByBucket(coarse));
  }

  /** From each bucket of a series to its next one it is the same step: no series has a gap. */
  ghost predicate EvenSteps(series: seq<Series>, bucket: Bucketing, step: int) {
    forall s :: s in series ==> Steps(BucketLast(s.samples, bucket), step)
  }

  ghost predicate Steps(points: seq<Sample>, step: int) {
    forall i, j :: 0 <= i && i + 1 == j < |points| ==> points[j].time - points[i].time == step
  }

  function MapValues<K>(rows: seq<Row<K>>, g: real -> real): seq<Row<K>> {
    if rows == [] then [] else [Row(rows[0].key, g(rows[0].value))] + MapValues(rows[1..], g)
  }

  function Times(step: int): real -> real {
    (x: real) => x * (step as real)
  }

  lemma TimesSum(step: int, x: real, y: real)
    ensures Times(step)(x + y) == Times(step)(x) + Times(step)(y)
  {
    Distribute(x, y, step as real);
  }

  lemma Distribute(x: real, y: real, s: real)
    ensures (x + y) * s == x * s + y * s
  {
  }

  lemma {:induction false} MappedSum<K>(rows: seq<Row<K>>, step: int, key: K)
    ensures SumOf(MapValues(rows, Times(step)), key) == Times(step)(SumOf(rows, key))
  {
    if rows != [] {
      MappedSum(rows[1..], step, key);
      assert MapValues(rows, Times(step))[1..] == MapValues(rows[1..], Times(step));
      TimesSum(step, if rows[0].key == key then rows[0].value else 0.0, SumOf(rows[1..], key));
    }
  }

  lemma {:induction false} MappedConcat<K>(a: seq<Row<K>>, b: seq<Row<K>>, g: real -> real)
    ensures MapValues(a + b, g) == MapValues(a, g) + MapValues(b, g)
  {
    if a == [] {
      assert a + b == b;
    } else {
      assert (a + b)[1..] == a[1..] + b;
      MappedConcat(a[1..], b, g);
    }
  }

  lemma {:induction false} MappedRekey<K, L>(rows: seq<Row<K>>, f: K -> L, g: real -> real)
    ensures Rekey(MapValues(rows, g), f) == MapValues(Rekey(rows, f), g)
  {
    if rows != [] {
      MappedRekey(rows[1..], f, g);
      assert MapValues(rows, g)[1..] == MapValues(rows[1..], g) && Rekey(rows, f)[1..] == Rekey(rows[1..], f);
    }
  }

  lemma PerSecondTimes(onReset: OnReset, w: Window, step: int)
    requires step > 0 && Seconds(w) == step
    ensures Times(step)(PerSecond(onReset, w)) == Delta(onReset, w)
  {
    QuotientTimes(Delta(onReset, w), step as real);
  }

  ghost predicate Restores(g: real -> real, onReset: OnReset, windows: seq<Window>) {
    forall j :: 0 <= j < |windows| ==> g(PerSecond(onReset, windows[j])) == Delta(onReset, windows[j])
  }

  lemma {:induction false} RateRowsScale(onReset: OnReset, tags: Tags, windows: seq<Window>, g: real -> real)
    requires Restores(g, onReset, windows)
    ensures MapValues(RateRows(onReset, tags, windows), g) == DeltaRows(onReset, tags, windows)
  {
    if windows != [] {
      assert forall j :: 0 <= j < |windows[1..]| ==> windows[1..][j] == windows[j + 1];
      RateRowsScale(onReset, tags, windows[1..], g);
      assert RateRows(onReset, tags, windows)[1..] == RateRows(onReset, tags, windows[1..]);
    }
  }

  lemma {:induction false} AllRateRowsScale(onReset: OnReset, series: seq<Series>, bucket: Bucketing, g: real -> real)
    requires forall s :: s in series ==> Restores(g, onReset, SeriesWindows(s.samples, bucket))
    ensures MapValues(AllRateRows(onReset, series, bucket), g) == AllDeltaRows(onReset, series, bucket)
  {
    if series != [] {
      var windows := SeriesWindows(series[0].samples, bucket);
      AllRateRowsScale(onReset, series[1..], bucket, g);
      RateRowsScale(onReset, series[0].tags, windows, g);
      MappedConcat(RateRows(onReset, series[0].tags, windows), AllRateRows(onReset, series[1..], bucket), g);
    }
  }

  lemma {:induction false} StepsAscend(points: seq<Sample>, step: int)
    requires step > 0 && Steps(points, step)
    ensures Ascending(points)
  {
    if points != [] {
      var n := |points| - 1;
      StepsAscend(points[..n], step);
      assert n > 0 ==> points[..n][n - 1] == points[n - 1] && points[n].time - points[n - 1].time == step;
    }
  }

  /** `g` turns the per-second value of a window with this step back into its change. */
  ghost predicate Undoes(g: real -> real, onReset: OnReset, step: int) {
    forall w :: Seconds(w) == step ==> g(PerSecond(onReset, w)) == Delta(onReset, w)
  }

  lemma TimesUndoes(onReset: OnReset, step: int)
    requires step > 0
    ensures Undoes(Times(step), onReset, step)
  {
    forall w | Seconds(w) == step
      ensures Times(step)(PerSecond(onReset, w)) == Delta(onReset, w)
    {
      PerSecondTimes(onReset, w, step);
    }
  }

  lemma StepsRestore(onReset: OnReset, b: seq<Sample>, step: int, g: real -> real)
    requires step > 0 && Steps(b, step) && Undoes(g, onReset, step)
    ensures Restores(g, onReset, Emitted(Windows(b)))
  {
    StepsAscend(b, step);
    EmittedWindows(b);
    var windows := Emitted(Windows(b));
    forall j | 0 <= j < |windows|
      ensures g(PerSecond(onReset, windows[j])) == Delta(onReset, windows[j])
    {
      WindowRow(onReset, b, j);
      assert Seconds(windows[j]) == step;
    }
  }

  lemma EvenStepsRestore(onReset: OnReset, series: seq<Series>, bucket: Bucketing, step: int)
    requires step > 0 && EvenSteps(series, bucket, step)
    ensures forall s :: s in series ==> Restores(Times(step), onReset, SeriesWindows(s.samples, bucket))
  {
    TimesUndoes(onReset, step);
    forall s | s in series
      ensures Restores(Times(step), onReset, SeriesWindows(s.samples, bucket))
    {
      StepsRestore(onReset, BucketLast(s.samples, bucket), step, Times(step));
    }
  }

  /** Without gaps in the data, a group's rate times the bucket width is the group's change in that bucket. */
  lemma {:induction false} GroupRateIsChange(onReset: OnReset, series: seq<Series>, bucket: Bucketing,
      groupBy: set<string>, step: int, key: (int, Tags))
    requires step > 0 && EvenSteps(series, bucket, step)
    ensures Times(step)(SumOf(RateQuery(onReset, series, bucket, groupBy), key))
         == SumOf(ChangeQuery(onReset, series, bucket, groupBy), key)
  {
    var rates := AllRateRows(onReset, series, bucket);
    EvenStepsRestore(onReset, series, bucket, step);
    AllRateRowsScale(onReset, series, bucket, Times(step));
    MappedRekey(rates, ByBucket(groupBy), Times(step));
    MappedSum(Rekey(rates, ByBucket(groupBy)), step, key);
    GroupSumFacts(Rekey(rates, ByBucket(groupBy)));
    GroupSumFacts(Rekey(AllDeltaRows(onReset, series, bucket), ByBucket(groupBy)));
  }

  // ---------------------------------------------------------------- bucket by bucket

  /** What `f` makes of the bucket `t` and the bucket before it; 0 if the series has no such pair. */
  function AtBucket(points: seq<Sample>, t: int, f: (Sample, Sample) -> real): real {
    if |points| < 2 then 0.0
    else (if points[1].time == t then f(points[0], points[1]) else 0.0) + AtBucket(points[1..], t, f)
  }

  function Change(onReset: OnReset): (Sample, Sample) -> real {
    (p: Sample, q: Sample) => Step(onReset, p.value, q.value)
  }

  function ChangePerSecond(onReset: OnReset): (Sample, Sample) -> real {
    (p: Sample, q: Sample) =>
      if p.time < q.time then Step(onReset, p.value, q.value) / ((q.time - p.time) as real) else 0.0
  }

  /** Summed over the series whose tags have the group's values. */
  ghost function GroupAt(series: seq<Series>, bucket: Bucketing, groupBy: set<string>, t: int, key: Tags,
      f: (Sample, Sample) -> real): real
  {
    if series == [] then 0.0
    else
      (if Agrees(series[0].tags, key, groupBy) then AtBucket(BucketLast(series[0].samples, bucket), t, f) else 0.0)
      + GroupAt(series[1..], bucket, groupBy, t, key, f)
  }

  /** The windows from point to point. */
  function Pairs(points: seq<Sample>): seq<Window> {
    if points == [] then [] else Windows(points)[1..]
  }

  lemma PairsCons(points: seq<Sample>)
    requires |points| >= 2
    ensures Pairs(points) ==
            [Window(points[1].time, points[0].time, points[1].value, points[0].value)] + Pairs(points[1..])
  {
    var a := Pairs(points);
    var b := [Window(points[1].time, points[0].time, points[1].value, points[0].value)] + Pairs(points[1..]);
    forall i | 0 <= i < |a|
      ensures a[i] == b[i]
    {
    }
  }

  lemma {:induction false} OneAt(row: Row<(int, Tags)>, rest: seq<Row<(int, Tags)>>, groupBy: set<string>, t: int,
      key: Tags)
    ensures SumOf(Rekey([row] + rest, ByBucket(groupBy)), (t, key))
         == (if row.key.0 == t && Agrees(row.key.1, key, groupBy) then row.value else 0.0)
            + SumOf(Rekey(rest, ByBucket(groupBy)), (t, key))
  {
    SplitSum([row], rest, ByBucket(groupBy), (t, key));
    OneRowSum(row, ByBucket(groupBy), (t, key));
    ProjectMeans(row.key.1, key, groupBy);
  }

  lemma {:induction false} DeltaRowsAt(onReset: OnReset, tags: Tags, points: seq<Sample>, groupBy: set<string>,
      t: int, key: Tags)
    ensures SumOf(Rekey(DeltaRows(onReset, tags, Pairs(points)), ByBucket(groupBy)), (t, key))
         == if Agrees(tags, key, groupBy) then AtBucket(points, t, Change(onReset)) else 0.0
  {
    if |points| >= 2 {
      var w := Window(points[1].time, points[0].time, points[1].value, points[0].value);
      PairsCons(points);
      DeltaRowsAt(onReset, tags, points[1..], groupBy, t, key);
      assert DeltaRows(onReset, tags, Pairs(points)) ==
             [Row((w.t, tags), Delta(onReset, w))] + DeltaRows(onReset, tags, Pairs(points[1..]));
      OneAt(Row((w.t, tags), Delta(onReset, w)), DeltaRows(onReset, tags, Pairs(points[1..])), groupBy, t, key);
      assert Delta(onReset, w) == Change(onReset)(points[0], points[1]);
    }
  }

  lemma {:induction false} RateRowsAt(onReset: OnReset, tags: Tags, points: seq<Sample>, groupBy: set<string>,
      t: int, key: Tags)
    ensures SumOf(Rekey(RateRows(onReset, tags, Pairs(points)), ByBucket(groupBy)), (t, key))
         == if Agrees(tags, key, groupBy) then AtBucket(points, t, ChangePerSecond(onReset)) else 0.0
  {
    if |points| >= 2 {
      var w := Window(points[1].time, points[0].time, points[1].value, points[0].value);
      PairsCons(points);
      RateRowsAt(onReset, tags, points[1..], groupBy, t, key);
      assert RateRows(onReset, tags, Pairs(points)) ==
             [Row((w.t, tags), PerSecond(onReset, w))] + RateRows(onReset, tags, Pairs(points[1..]));
      OneAt(Row((w.t, tags), PerSecond(onReset, w)), RateRows(onReset, tags, Pairs(points[1..])), groupBy, t, key);
      assert PerSecond(onReset, w) == ChangePerSecond(onReset)(points[0], points[1]);
    }
  }

  lemma {:induction false} PairsEmitted(samples: seq<Sample>, bucket: Bucketing)
    requires Increasing(bucket)
    ensures SeriesWindows(samples, bucket) == Pairs(BucketLast(samples, bucket))
  {
    BucketLastFacts(samples, bucket);
    EmittedWindows(BucketLast(samples, bucket));
  }

  /**
   * The row of a bucket and group in the change query: over exactly the series of the group, the step of the
   * values from each series' bucket before to this bucket.
   */
  lemma {:induction false} ChangeAtBucket(onReset: OnReset, series: seq<Series>, bucket: Bucketing,
      groupBy: set<string>, t: int, key: Tags)
    requires Increasing(bucket)
    ensures SumOf(ChangeQuery(onReset, series, bucket, groupBy), (t, key))
         == GroupAt(series, bucket, groupBy, t, key, Change(onReset))
  {
    GroupSumFacts(Rekey(AllDeltaRows(onReset, series, bucket), ByBucket(groupBy)));
    AllDeltaRowsAt(onReset, series, bucket, groupBy, t, key);
  }

  lemma {:induction false} AllDeltaRowsAt(onReset: OnReset, series: seq<Series>, bucket: Bucketing,
      groupBy: set<string>, t: int, key: Tags)
    requires Increasing(bucket)
    ensures SumOf(Rekey(AllDeltaRows(onReset, series, bucket), ByBucket(groupBy)), (t, key))
         == GroupAt(series, bucket, groupBy, t, key, Change(onReset))
  {
    if series != [] {
      var points := BucketLast(series[0].samples, bucket);
      PairsEmitted(series[0].samples, bucket);
      AllDeltaRowsAt(onReset, series[1..], bucket, groupBy, t, key);
      DeltaRowsAt(onReset, series[0].tags, points, groupBy, t, key);
      SplitSum(DeltaRows(onReset, series[0].tags, Pairs(points)), AllDeltaRows(onReset, series[1..], bucket),
               ByBucket(groupBy), (t, key));
    }
  }

  /** And in the rate query: each series' step divided by the seconds between its own two buckets. */
  lemma {:induction false} RateAtBucket(onReset: OnReset, series: seq<Series>, bucket: Bucketing,
      groupBy: set<string>, t: int, key: Tags)
    requires Increasing(bucket)
    ensures SumOf(RateQuery(onReset, series, bucket, groupBy), (t, key))
         == GroupAt(series, bucket, groupBy, t, key, ChangePerSecond(onReset))
  {
    GroupSumFacts(Rekey(AllRateRows(onReset, series, bucket), ByBucket(groupBy)));
    AllRateRowsAt(onReset, series, bucket, groupBy, t, key);
  }

  lemma {:induction false} AllRateRowsAt(onReset: OnReset, series: seq<Series>, bucket: Bucketing,
      groupBy: set<string>, t: int, key: Tags)
    requires Increasing(bucket)
    ensures SumOf(Rekey(AllRateRows(onReset, series, bucket), ByBucket(groupBy)), (t, key))
         == GroupAt(series, bucket, groupBy, t, key, ChangePerSecond(onReset))
  {
    if series != [] {
      var points := BucketLast(series[0].samples, bucket);
      PairsEmitted(series[0].samples, bucket);
      AllRateRowsAt(onReset, series[1..], bucket, groupBy, t, key);
      RateRowsAt(onReset, series[0].tags, points, groupBy, t, key);
      SplitSum(RateRows(onReset, series[0].tags, Pairs(points)), AllRateRows(onReset, series[1..], bucket),
               ByBucket(groupBy), (t, key));
    }
  }

  // ---------------------------------------------------------------- which rows the queries have

  lemma HasConcat<K>(a: seq<Row<K>>, b: seq<Row<K>>, key: K)
    ensures HasKey(a + b, key) <==> HasKey(a, key) || HasKey(b, key)
  {
    if i :| 0 <= i < |b| && b[i].key == key {
      assert (a + b)[|a| + i].key == key;
    }
    if i :| 0 <= i < |a| && a[i].key == key {
      assert (a + b)[i].key == key;
    }
  }

  lemma {:induction false} SplitKeys<K, L>(a: seq<Row<K>>, b: seq<Row<K>>, f: K -> L, key: L)
    ensures HasKey(Rekey(a + b, f), key) <==> HasKey(Rekey(a, f), key) || HasKey(Rekey(b, f), key)
  {
    RekeyConcat(a, b, f);
    HasConcat(Rekey(a, f), Rekey(b, f), key);
  }

  lemma OneKey<K, L>(row: Row<K>, f: K -> L, key: L)
    ensures HasKey(Rekey([row], f), key) <==> f(row.key) == key
  {
    assert [row][1..] == [];
    assert Rekey([row], f) == [Row(f(row.key), row.value)];
    assert Rekey([row], f)[0].key == f(row.key);
  }

  /** The bucket is not the first one of the series. */
  ghost predicate HasLater(points: seq<Sample>, t: int) {
    exists j :: 0 < j < |points| && points[j].time == t
  }

  lemma LaterCons(points: seq<Sample>, t: int)
    requires |points| >= 2
    ensures HasLater(points, t) <==> points[1].time == t || HasLater(points[1..], t)
  {
    if j :| 0 < j < |points[1..]| && points[1..][j].time == t {
      assert points[j + 1].time == t;
    }
    if j :| 1 < j < |points| && points[j].time == t {
      assert points[1..][j - 1].time == t;
    }
  }

  lemma {:induction false} DeltaKeys(onReset: OnReset, tags: Tags, points: seq<Sample>, groupBy: set<string>,
      t: int, key: Tags)
    ensures HasKey(Rekey(DeltaRows(onReset, tags, Pairs(points)), ByBucket(groupBy)), (t, key))
       <==> Agrees(tags, key, groupBy) && HasLater(points, t)
  {
    if |points| >= 2 {
      var w := Window(points[1].time, points[0].time, points[1].value, points[0].value);
      PairsCons(points);
      LaterCons(points, t);
      DeltaKeys(onReset, tags, points[1..], groupBy, t, key);
      assert DeltaRows(onReset, tags, Pairs(points)) ==
             [Row((w.t, tags), Delta(onReset, w))] + DeltaRows(onReset, tags, Pairs(points[1..]));
      SplitKeys([Row((w.t, tags), Delta(onReset, w))], DeltaRows(onReset, tags, Pairs(points[1..])),
                ByBucket(groupBy), (t, key));
      OneKey(Row((w.t, tags), Delta(onReset, w)), ByBucket(groupBy), (t, key));
      ProjectMeans(tags, key, groupBy);
    }
  }

  /** A series of the group has the bucket, and an earlier one. */
  ghost predicate Reaches(series: seq<Series>, bucket: Bucketing, groupBy: set<string>, t: int, key: Tags) {
    exists s :: s in series && Agrees(s.tags, key, groupBy) && HasLater(BucketLast(s.samples, bucket), t)
  }

  lemma ReachesOn(first: Series, rest: seq<Series>, bucket: Bucketing, groupBy: set<string>, t: int, key: Tags)
    ensures Reaches([first] + rest, bucket, groupBy, t, key) <==>
              || (Agrees(first.tags, key, groupBy) && HasLater(BucketLast(first.samples, bucket), t))
              || Reaches(rest, bucket, groupBy, t, key)
  {
    assert forall s :: s in [first] + rest <==> s == first || s in rest;
  }

  lemma {:induction false} AllDeltaKeys(onReset: OnReset, series: seq<Series>, bucket: Bucketing,
      groupBy: set<string>, t: int, key: Tags)
    requires Increasing(bucket)
    ensures HasKey(Rekey(AllDeltaRows(onReset, series, bucket), ByBucket(groupBy)), (t, key))
       <==> Reaches(series, bucket, groupBy, t, key)
  {
    if series != [] {
      var first, rest := series[0], series[1..];
      AllDeltaKeys(onReset, rest, bucket, groupBy, t, key);
      PairsEmitted(first.samples, bucket);
      DeltaKeys(onReset, first.tags, BucketLast(first.samples, bucket), groupBy, t, key);
      SplitKeys(DeltaRows(onReset, first.tags, SeriesWindows(first.samples, bucket)),
                AllDeltaRows(onReset, rest, bucket), ByBucket(groupBy), (t, key));
      assert series == [first] + rest;
      ReachesOn(first, rest, bucket, groupBy, t, key);
    }
  }

  predicate SameKeys<K(==)>(a: seq<Row<K>>, b: seq<Row<K>>) {
    |a| == |b| && forall i :: 0 <= i < |a| ==> a[i].key == b[i].key
  }

  lemma {:induction false} RateKeys(onReset: OnReset, tags: Tags, windows: seq<Window>)
    ensures SameKeys(RateRows(onReset, tags, windows), DeltaRows(onReset, tags, windows))
  {
    if windows != [] {
      RateKeys(onReset, tags, windows[1..]);
    }
  }

  lemma {:induction false} AllRateKeys(onReset: OnReset, series: seq<Series>, bucket: Bucketing)
    ensures SameKeys(AllRateRows(onReset, series, bucket), AllDeltaRows(onReset, series, bucket))
  {
    if series != [] {
      AllRateKeys(onReset, series[1..], bucket);
      RateKeys(onReset, series[0].tags, SeriesWindows(series[0].samples, bucket));
    }
  }

  lemma {:induction false} SameKeysRekeyed<K, L>(a: seq<Row<K>>, b: seq<Row<K>>, f: K -> L)
    requires SameKeys(a, b)
    ensures SameKeys(Rekey(a, f), Rekey(b, f))
  {
    if a != [] {
      SameKeysRekeyed(a[1..], b[1..], f);
    }
  }

  lemma SameKeysHave<K>(a: seq<Row<K>>, b: seq<Row<K>>, key: K)
    requires SameKeys(a, b)
    ensures HasKey(a, key) <==> HasKey(b, key)
  {
  }

  /**
   * Both forms of the rate panel have one row per bucket and group: exactly where a series of the group has the bucket
   * and an earlier one.
   */
  lemma {:induction false} PanelRows(onReset: OnReset, series: seq<Series>, bucket: Bucketing, groupBy: set<string>,
      t: int, key: Tags)
    requires Increasing(bucket)
    ensures UniqueKeys(RateQuery(onReset, series, bucket, groupBy))
    ensures UniqueKeys(ChangeQuery(onReset, series, bucket, groupBy))
    ensures HasKey(RateQuery(onReset, series, bucket, groupBy), (t, key)) <==>
            Reaches(series, bucket, groupBy, t, key)
    ensures HasKey(ChangeQuery(onReset, series, bucket, groupBy), (t, key)) <==>
            Reaches(series, bucket, groupBy, t, key)
  {
    var rates, changes := AllRateRows(onReset, series, bucket), AllDeltaRows(onReset, series, bucket);
    var f := ByBucket(groupBy);
    GroupSumFacts(Rekey(rates, f));
    GroupSumFacts(Rekey(changes, f));
    AllDeltaKeys(onReset, series, bucket, groupBy, t, key);
    AllRateKeys(onReset, series, bucket);
    SameKeysRekeyed(rates, changes, f);
    SameKeysHave(Rekey(rates, f), Rekey(changes, f), (t, key));
  }

  /** Some value is not below the one before it. */
  ghost predicate Holds(points: seq<Sample>) {
    exists j :: 0 < j < |points| && points[j].value >= points[j - 1].value
  }

  lemma {:induction false} SomeDifference(vs: seq<real>)
    ensures NonNegativeDifference(vs) != [] <==> exists j :: 0 < j < |vs| && vs[j] >= vs[j - 1]
  {
    if |vs| >= 2 {
      var n := |vs| - 1;
      SomeDifference(vs[..n]);
      if j :| 0 < j < n && vs[j] >= vs[j - 1] {
        assert vs[..n][j] >= vs[..n][j - 1];
      }
      if j :| 0 < j < |vs[..n]| && vs[..n][j] >= vs[..n][j - 1] {
        assert vs[j] >= vs[j - 1];
      }
    }
  }

  lemma {:induction false} DifferenceKeys(tags: Tags, differences: seq<real>, f: Tags -> Tags, key: Tags)
    ensures HasKey(Rekey(DifferenceRows(tags, differences), f), key) <==> differences != [] && f(tags) == key
  {
    if differences != [] {
      var n := |differences| - 1;
      DifferenceKeys(tags, differences[..n], f, key);
      SplitKeys(DifferenceRows(tags, differences[..n]), [Row(tags, differences[n])], f, key);
      OneKey(Row(tags, differences[n]), f, key);
    }
  }

  /** A series of the group has a step that is not a drop. */
  ghost predicate Grows(series: seq<Series>, bucket: Bucketing, groupBy: set<string>, key: Tags) {
    exists s :: s in series && Agrees(s.tags, key, groupBy) && Holds(BucketLast(s.samples, bucket))
  }

  lemma GrowsOn(first: Series, rest: seq<Series>, bucket: Bucketing, groupBy: set<string>, key: Tags)
    ensures Grows([first] + rest, bucket, groupBy, key) <==>
              || (Agrees(first.tags, key, groupBy) && Holds(BucketLast(first.samples, bucket)))
              || Grows(rest, bucket, groupBy, key)
  {
    assert forall s :: s in [first] + rest <==> s == first || s in rest;
  }

  lemma {:induction false} HoldsMeans(points: seq<Sample>)
    ensures NonNegativeDifference(Values(points)) != [] <==> Holds(points)
  {
    var vs := Values(points);
    SomeDifference(vs);
    if j :| 0 < j < |vs| && vs[j] >= vs[j - 1] {
      assert points[j].value >= points[j - 1].value;
    }
    if j :| 0 < j < |points| && points[j].value >= points[j - 1].value {
      assert vs[j] >= vs[j - 1];
    }
  }

  lemma {:induction false} AllDifferenceKeys(series: seq<Series>, bucket: Bucketing, groupBy: set<string>, key: Tags)
    ensures HasKey(Rekey(AllDifferenceRows(series, bucket), Project(groupBy)), key) <==>
            Grows(series, bucket, groupBy, key)
  {
    if series != [] {
      var first, rest := series[0], series[1..];
      var differences := NonNegativeDifference(Values(BucketLast(first.samples, bucket)));
      AllDifferenceKeys(rest, bucket, groupBy, key);
      HoldsMeans(BucketLast(first.samples, bucket));
      DifferenceKeys(first.tags, differences, Project(groupBy), key);
      ProjectMeans(first.tags, key, groupBy);
      SplitKeys(DifferenceRows(first.tags, differences), AllDifferenceRows(rest, bucket), Project(groupBy), key);
      assert series == [first] + rest;
      GrowsOn(first, rest, bucket, groupBy, key);
    }
  }

  /** `increase_query` has one row per group: exactly where a series of the group has a step that is not a drop. */
  lemma {:induction false} IncreaseRows(series: seq<Series>, bucket: Bucketing, groupBy: set<string>, key: Tags)
    ensures UniqueKeys(IncreaseQuery(series, bucket, groupBy))
    ensures HasKey(IncreaseQuery(series, bucket, groupBy), key) <==> Grows(series, bucket, groupBy, key)
  {
    GroupSumFacts(Rekey(AllDifferenceRows(series, bucket), Project(groupBy)));
    AllDifferenceKeys(series, bucket, groupBy, key);
  }
}
