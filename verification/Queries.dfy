/**
 * The query builders over increases: `series_query`, `rate_query` and `div` of
 * dashboards/builder/clickhouse.py, `increase_query` of dashboards/builder/common.py.
 */
module Queries {
  import opened Text
  import opened Counters
  import opened Buckets
  import opened Grouping

  // ---------------------------------------------------------------- breakdown tables

  /** Column values of a row's key, for example env, db_instance, datname, usename. */
  type Tags = map<string, string>

  /** GROUP BY the columns in `columns`. */
  function Project(columns: set<string>): Tags -> Tags {
    (tags: Tags) => map c | c in columns && c in tags :: tags[c]
  }

  /** `key` holds exactly the values that the tags have in the columns. */
  ghost predicate Agrees(tags: Tags, key: Tags, columns: set<string>) {
    forall c :: (c in key <==> c in columns && c in tags) && (c in key ==> key[c] == tags[c])
  }

  lemma ProjectMeans(tags: Tags, key: Tags, columns: set<string>)
    ensures Project(columns)(tags) == key <==> Agrees(tags, key, columns)
  {
    var p := Project(columns)(tags);
    if Agrees(tags, key, columns) {
      assert forall c :: c in p <==> c in key;
    }
  }

  /** Two series share a group exactly if they have the same values, or none, in all group columns. */
  lemma SameGroup(a: Tags, b: Tags, columns: set<string>)
    ensures Project(columns)(a) == Project(columns)(b) <==>
            forall c :: c in columns ==> (c in a <==> c in b) && (c in a && c in b ==> a[c] == b[c])
  {
    var p, q := Project(columns)(a), Project(columns)(b);
    if p == q {
      forall c | c in columns
        ensures (c in a <==> c in b) && (c in a && c in b ==> a[c] == b[c])
      {
        assert (c in p <==> c in a) && (c in q <==> c in b);
        assert c in p ==> p[c] == a[c] && q[c] == b[c];
      }
    }
  }

  /** A raw point of a measurement. */
  datatype Point = Point(tags: Tags, sample: Sample)

  /** The samples of one series, in the order in which they are stored. */
  function SeriesSamples(points: seq<Point>, series: Tags, columns: set<string>): seq<Sample> {
    if points == [] then []
    else
      (if Project(columns)(points[0].tags) == series then [points[0].sample] else [])
      + SeriesSamples(points[1..], series, columns)
  }

  /** The different series, in the order of first appearance. */
  function SeriesOf(points: seq<Point>, columns: set<string>): seq<Tags> {
    if points == [] then []
    else
      var key := Project(columns)(points[0].tags);
      [key] + Drop(SeriesOf(points[1..], columns), key)
  }

  function Drop<K(==)>(keys: seq<K>, key: K): seq<K> {
    if keys == [] then []
    else if keys[0] == key then Drop(keys[1..], key)
    else [keys[0]] + Drop(keys[1..], key)
  }

  /** One counter series: its key and its samples. */
  datatype Series = Series(tags: Tags, samples: seq<Sample>)

  /** The series of a measurement, each with its own samples. */
  function SeriesList(points: seq<Point>, columns: set<string>): seq<Series> {
    var keys := SeriesOf(points, columns);
    seq(|keys|, i requires 0 <= i < |keys| => Series(keys[i], SeriesSamples(points, keys[i], columns)))
  }

  /** The inner query: one row per series with its increase. */
  function TableRows(onReset: OnReset, series: seq<Series>): seq<Row<Tags>> {
    if series == [] then []
    else [Row(series[0].tags, Eval(Increase(onReset), series[0].samples))] + TableRows(onReset, series[1..])
  }

  /** The outer query: `None` keeps the series rows; no columns is one total row; else one row per group. */
  function Breakdown(inner: seq<Row<Tags>>, groupBy: Option<set<string>>): seq<Row<Tags>> {
    match groupBy
    case None => inner
    case Some(columns) =>
      if columns == {} then [Row(map[], Total(inner))] else GroupSum(Rekey(inner, Project(columns)))
  }

  /** `series_query(..., exprs={alias: increase(column, on_reset)}, ...)` for one alias. */
  function SeriesQuery(points: seq<Point>, onReset: OnReset, series: set<string>, groupBy: Option<set<string>>)
    : seq<Row<Tags>>
  {
    Breakdown(TableRows(onReset, SeriesList(points, series)), groupBy)
  }

  lemma {:induction false} DropFacts<K>(keys: seq<K>, key: K)
    ensures key !in Drop(keys, key)
    ensures forall k :: k != key ==> (k in Drop(keys, key) <==> k in keys)
    ensures Unique(keys) ==> Unique(Drop(keys, key))
  {
    if keys != [] {
      DropFacts(keys[1..], key);
      assert keys == [keys[0]] + keys[1..];
      if Unique(keys) && keys[0] != key {
        assert Drop(keys, key)[0] == keys[0] && Drop(keys, key)[1..] == Drop(keys[1..], key);
      }
    }
  }

  ghost predicate Unique<K>(keys: seq<K>) {
    keys == [] || (keys[0] !in keys[1..] && Unique(keys[1..]))
  }

  /** Some point belongs to the series. */
  ghost predicate Occurs(points: seq<Point>, columns: set<string>, key: Tags) {
    exists i :: 0 <= i < |points| && Project(columns)(points[i].tags) == key
  }

  lemma OccursCons(point: Point, rest: seq<Point>, columns: set<string>, key: Tags)
    ensures Occurs([point] + rest, columns, key) <==> Project(columns)(point.tags) == key || Occurs(rest, columns, key)
  {
    var points := [point] + rest;
    assert points[0] == point;
    forall i | 0 <= i < |rest|
      ensures points[i + 1] == rest[i]
    {
    }
  }

  // ---- a series has exactly its own points

  lemma {:induction false} SampleOrigin(points: seq<Point>, key: Tags, columns: set<string>, s: Sample)
    ensures s in SeriesSamples(points, key, columns) <==>
            exists i :: 0 <= i < |points| && Agrees(points[i].tags, key, columns) && points[i].sample == s
  {
    if points != [] {
      var rest := points[1..];
      SampleOrigin(rest, key, columns, s);
      ProjectMeans(points[0].tags, key, columns);
      if i :| 0 <= i < |points| && Agrees(points[i].tags, key, columns) && points[i].sample == s && i > 0 {
        assert rest[i - 1] == points[i];
      }
      if i :| 0 <= i < |rest| && Agrees(rest[i].tags, key, columns) && rest[i].sample == s {
        assert points[i + 1] == rest[i];
      }
    }
  }

  /** `own` has exactly the points with the series' tags, each as often as it is stored. */
  ghost predicate OwnOf(own: seq<Point>, points: seq<Point>, key: Tags, columns: set<string>) {
    forall p :: multiset(own)[p] == if Agrees(p.tags, key, columns) then multiset(points)[p] else 0
  }

  lemma OwnOn(point: Point, own: seq<Point>, rest: seq<Point>, key: Tags, columns: set<string>)
    requires OwnOf(own, rest, key, columns)
    ensures OwnOf(if Agrees(point.tags, key, columns) then [point] + own else own, [point] + rest, key, columns)
  {
    assert multiset([point] + own) == multiset{point} + multiset(own);
    assert multiset([point] + rest) == multiset{point} + multiset(rest);
  }

  /** The points of the series, in the order in which they are stored. */
  function PointsOf(points: seq<Point>, key: Tags, columns: set<string>): seq<Point> {
    if points == [] then []
    else if Project(columns)(points[0].tags) == key then [points[0]] + PointsOf(points[1..], key, columns)
    else PointsOf(points[1..], key, columns)
  }

  lemma {:induction false} PointsOwn(points: seq<Point>, key: Tags, columns: set<string>)
    ensures OwnOf(PointsOf(points, key, columns), points, key, columns)
  {
    if points != [] {
      PointsOwn(points[1..], key, columns);
      ProjectMeans(points[0].tags, key, columns);
      OwnOn(points[0], PointsOf(points[1..], key, columns), points[1..], key, columns);
      assert points == [points[0]] + points[1..];
    }
  }

  lemma {:induction false} PointsSamples(points: seq<Point>, key: Tags, columns: set<string>)
    ensures SamplesOf(PointsOf(points, key, columns), SeriesSamples(points, key, columns))
  {
    if points != [] {
      PointsSamples(points[1..], key, columns);
      SamplesOfOn(points[0], PointsOf(points[1..], key, columns), SeriesSamples(points[1..], key, columns));
    }
  }

  predicate SamplesOf(own: seq<Point>, samples: seq<Sample>) {
    |samples| == |own| && forall i :: 0 <= i < |own| ==> samples[i] == own[i].sample
  }

  lemma SamplesOfOn(point: Point, own: seq<Point>, samples: seq<Sample>)
    requires SamplesOf(own, samples)
    ensures SamplesOf([point] + own, [point.sample] + samples)
  {
  }

  /** The samples of a series are those of the points with its tags, each as often as it is stored. */
  lemma OwnPoints(points: seq<Point>, key: Tags, columns: set<string>) returns (own: seq<Point>)
    ensures OwnOf(own, points, key, columns) && SamplesOf(own, SeriesSamples(points, key, columns))
  {
    own := PointsOf(points, key, columns);
    PointsOwn(points, key, columns);
    PointsSamples(points, key, columns);
  }

  /** The samples of the points. */
  function Samples(points: seq<Point>): multiset<Sample> {
    if points == [] then multiset{} else multiset{points[0].sample} + Samples(points[1..])
  }

  function AllSamples(series: seq<Series>): multiset<Sample> {
    if series == [] then multiset{} else multiset(series[0].samples) + AllSamples(series[1..])
  }

  function KeySamples(points: seq<Point>, keys: seq<Tags>, columns: set<string>): multiset<Sample> {
    if keys == [] then multiset{}
    else multiset(SeriesSamples(points, keys[0], columns)) + KeySamples(points, keys[1..], columns)
  }

  lemma {:induction false} AllSamplesOfKeys(points: seq<Point>, keys: seq<Tags>, columns: set<string>,
      series: seq<Series>)
    requires |series| == |keys|
    requires forall i :: 0 <= i < |keys| ==> series[i] == Series(keys[i], SeriesSamples(points, keys[i], columns))
    ensures AllSamples(series) == KeySamples(points, keys, columns)
  {
    if keys != [] {
      AllSamplesOfKeys(points, keys[1..], columns, series[1..]);
    }
  }

  lemma {:induction false} SamplesOn(point: Point, rest: seq<Point>, key: Tags, columns: set<string>)
    ensures multiset(SeriesSamples([point] + rest, key, columns)) ==
            multiset(SeriesSamples(rest, key, columns))
            + (if Project(columns)(point.tags) == key then multiset{point.sample} else multiset{})
  {
    assert ([point] + rest)[1..] == rest;
  }

  lemma {:induction false} KeySamplesStep(points: seq<Point>, key: Tags, keys: seq<Tags>, columns: set<string>)
    ensures KeySamples(points, [key] + keys, columns) ==
            multiset(SeriesSamples(points, key, columns)) + KeySamples(points, keys, columns)
  {
    assert ([key] + keys)[1..] == keys;
  }

  /** A further point adds its sample to the one series it belongs to. */
  lemma {:induction false} KeySamplesOn(point: Point, rest: seq<Point>, keys: seq<Tags>, columns: set<string>)
    requires Unique(keys)
    ensures KeySamples([point] + rest, keys, columns) ==
            KeySamples(rest, keys, columns)
            + (if Project(columns)(point.tags) in keys then multiset{point.sample} else multiset{})
  {
    if keys != [] {
      var key, others := keys[0], keys[1..];
      assert keys == [key] + others;
      KeySamplesOn(point, rest, others, columns);
      SamplesOn(point, rest, key, columns);
      KeySamplesStep([point] + rest, key, others, columns);
      KeySamplesStep(rest, key, others, columns);
    }
  }

  lemma {:induction false} NoSamples(points: seq<Point>, keys: seq<Tags>, columns: set<string>)
    requires points == []
    ensures KeySamples(points, keys, columns) == multiset{}
  {
    if keys != [] {
      NoSamples(points, keys[1..], columns);
    }
  }

  lemma {:induction false} KeySamplesAll(points: seq<Point>, keys: seq<Tags>, columns: set<string>)
    requires Unique(keys) && forall i :: 0 <= i < |points| ==> Project(columns)(points[i].tags) in keys
    ensures KeySamples(points, keys, columns) == Samples(points)
    decreases |points|
  {
    if points == [] {
      NoSamples(points, keys, columns);
    } else {
      var point, rest := points[0], points[1..];
      assert points == [point] + rest;
      assert forall i :: 0 <= i < |rest| ==> rest[i] == points[i + 1];
      KeySamplesAll(rest, keys, columns);
      KeySamplesOn(point, rest, keys, columns);
    }
  }

  /** Over all listed series no sample is lost or repeated. */
  lemma {:induction false} SeriesPartition(points: seq<Point>, columns: set<string>)
    ensures AllSamples(SeriesList(points, columns)) == Samples(points)
  {
    var keys := SeriesOf(points, columns);
    SeriesFacts(points, columns);
    assert forall i :: 0 <= i < |points| ==> Occurs(points, columns, Project(columns)(points[i].tags));
    AllSamplesOfKeys(points, keys, columns, SeriesList(points, columns));
    KeySamplesAll(points, keys, columns);
  }

  lemma {:induction false} TableRowsAt(onReset: OnReset, series: seq<Series>, i: nat)
    requires i < |series|
    ensures |TableRows(onReset, series)| == |series|
    ensures TableRows(onReset, series)[i] == Row(series[i].tags, Eval(Increase(onReset), series[i].samples))
  {
    if i > 0 {
      TableRowsAt(onReset, series[1..], i - 1);
    } else {
      TableRowsCount(onReset, series);
    }
  }

  lemma {:induction false} TableRowsCount(onReset: OnReset, series: seq<Series>)
    ensures |TableRows(onReset, series)| == |series|
  {
    if series != [] {
      TableRowsCount(onReset, series[1..]);
    }
  }

  lemma {:induction false} DistinctSamples(points: seq<Point>, key: Tags, columns: set<string>)
    requires TimesDiffer(points, key, columns)
    ensures DistinctTimes(SeriesSamples(points, key, columns))
  {
    if points != [] {
      var rest := points[1..];
      assert forall i :: 0 <= i < |rest| ==> rest[i] == points[i + 1];
      DistinctSamples(rest, key, columns);
      ProjectMeans(points[0].tags, key, columns);
      forall s | s in SeriesSamples(rest, key, columns) && Agrees(points[0].tags, key, columns)
        ensures s.time != points[0].sample.time
      {
        SampleOrigin(rest, key, columns, s);
        var i :| 0 <= i < |rest| && Agrees(rest[i].tags, key, columns) && rest[i].sample == s;
        assert points[i + 1] == rest[i];
      }
      DistinctInFront(points[0].sample, SeriesSamples(rest, key, columns));
    }
  }

  lemma DistinctInFront(s: Sample, rest: seq<Sample>)
    requires DistinctTimes(rest)
    ensures (forall x :: x in rest ==> x.time != s.time) ==> DistinctTimes([s] + rest)
  {
    var all := [s] + rest;
    assert forall i :: 0 <= i < |rest| ==> all[i + 1] == rest[i] && rest[i] in rest;
  }

  /** No two points of the series have the same time. */
  ghost predicate TimesDiffer(points: seq<Point>, key: Tags, columns: set<string>) {
    forall i, j ::
      0 <= i < j < |points| && Agrees(points[i].tags, key, columns) && Agrees(points[j].tags, key, columns) ==>
        points[i].sample.time != points[j].sample.time
  }

  /** From an earlier to a later point of the series the value does not drop. */
  ghost predicate NeverDrops(points: seq<Point>, key: Tags, columns: set<string>) {
    forall i, j ::
      0 <= i < |points| && 0 <= j < |points| && Agrees(points[i].tags, key, columns)
      && Agrees(points[j].tags, key, columns) && points[i].sample.time < points[j].sample.time ==>
        points[i].sample.value <= points[j].sample.value
  }

  /** One of the points of the series has the value. */
  ghost predicate HasValue(points: seq<Point>, key: Tags, columns: set<string>, value: real) {
    exists i :: 0 <= i < |points| && Agrees(points[i].tags, key, columns) && points[i].sample.value == value
  }

  ghost predicate AllBetween(points: seq<Point>, key: Tags, columns: set<string>, low: real, high: real) {
    forall i :: 0 <= i < |points| && Agrees(points[i].tags, key, columns) ==> low <= points[i].sample.value <= high
  }

  lemma {:induction false} MonotoneSamples(points: seq<Point>, key: Tags, columns: set<string>)
    requires TimesDiffer(points, key, columns) && NeverDrops(points, key, columns)
    ensures Monotone(Values(SortByTime(SeriesSamples(points, key, columns))))
  {
    var samples := SeriesSamples(points, key, columns);
    var sorted := SortByTime(samples);
    DistinctSamples(points, key, columns);
    SortAscending(samples);
    SortFacts(samples);
    forall i, j | 0 <= i < j < |sorted|
      ensures sorted[i].value <= sorted[j].value
    {
      SampleOrigin(points, key, columns, sorted[i]);
      SampleOrigin(points, key, columns, sorted[j]);
    }
  }

  /**
   * The increase that the table shows for a series that never drops, from the stored points: the largest value among
   * the points with the series' tags minus the smallest one.
   */
  lemma {:induction false} SeriesRowSpread(points: seq<Point>, onReset: OnReset, columns: set<string>, i: nat,
      low: real, high: real)
    requires i < |SeriesQuery(points, onReset, columns, None)|
    requires var key := SeriesQuery(points, onReset, columns, None)[i].key;
             && TimesDiffer(points, key, columns) && NeverDrops(points, key, columns)
             && HasValue(points, key, columns, low) && HasValue(points, key, columns, high)
             && AllBetween(points, key, columns, low, high)
    ensures SeriesQuery(points, onReset, columns, None)[i].value == high - low
  {
    var series := SeriesList(points, columns);
    TableRowsCount(onReset, series);
    TableRowsAt(onReset, series, i);
    var key := series[i].tags;
    MonotoneSamples(points, key, columns);
    ExtremesOf(points, key, columns, low, high);
    MonotoneIncreaseIsSpread(onReset, series[i].samples, high, low);
  }

  lemma {:induction false} ExtremesOf(points: seq<Point>, key: Tags, columns: set<string>, low: real, high: real)
    requires HasValue(points, key, columns, low) && HasValue(points, key, columns, high)
    requires AllBetween(points, key, columns, low, high)
    ensures IsMaximum(high, SeriesSamples(points, key, columns)) && IsMinimum(low, SeriesSamples(points, key, columns))
  {
    var samples := SeriesSamples(points, key, columns);
    forall s | s in samples
      ensures low <= s.value <= high
    {
      SampleOrigin(points, key, columns, s);
    }
    var i :| 0 <= i < |points| && Agrees(points[i].tags, key, columns) && points[i].sample.value == low;
    var j :| 0 <= j < |points| && Agrees(points[j].tags, key, columns) && points[j].sample.value == high;
    SampleOrigin(points, key, columns, points[i].sample);
    SampleOrigin(points, key, columns, points[j].sample);
  }

  /** Every point belongs to exactly one row of the inner query: the listed series are those that occur, each once. */
  lemma {:induction false} SeriesFacts(points: seq<Point>, columns: set<string>)
    ensures Unique(SeriesOf(points, columns))
    ensures forall key :: key in SeriesOf(points, columns) <==> Occurs(points, columns, key)
  {
    if points != [] {
      var point, others := points[0], points[1..];
      var rest, key := SeriesOf(others, columns), Project(columns)(point.tags);
      SeriesFacts(others, columns);
      DropFacts(rest, key);
      assert points == [point] + others;
      assert SeriesOf(points, columns)[0] == key && SeriesOf(points, columns)[1..] == Drop(rest, key);
      forall k
        ensures k in SeriesOf(points, columns) <==> Occurs(points, columns, k)
      {
        OccursCons(point, others, columns, k);
      }
    }
  }

  /** Whatever the grouping, the rows of a breakdown add up to the one-row total. */
  lemma BreakdownConserves(inner: seq<Row<Tags>>, groupBy: Option<set<string>>)
    ensures Total(Breakdown(inner, groupBy)) == Total(Breakdown(inner, Some({})))
  {
    var one: seq<Row<Tags>> := [Row(map[], Total(inner))];
    assert one[1..] == [] && Total(one) == Total(inner);
    if groupBy.Some? && groupBy.value != {} {
      RekeyTotal(inner, Project(groupBy.value));
      GroupSumFacts(Rekey(inner, Project(groupBy.value)));
    }
  }

  /** Drilling down is consistent: rolling up a finer breakdown gives the coarser one, row by row. */
  lemma BreakdownRollsUp(inner: seq<Row<Tags>>, fine: set<string>, coarse: set<string>)
    requires coarse <= fine && coarse != {}
    ensures Breakdown(Breakdown(inner, Some(fine)), Some(coarse)) == Breakdown(inner, Some(coarse))
  {
    RollUp(Rekey(inner, Project(fine)), Project(coarse));
    forall i | 0 <= i < |inner|
      ensures Project(coarse)(Project(fine)(inner[i].key)) == Project(coarse)(inner[i].key)
    {
    }
    RekeyTwice(inner, Project(fine), Project(coarse), Project(coarse));
  }

  /** One row per group, holding the sum over exactly the series of that group. */
  lemma {:induction false} BreakdownRows(inner: seq<Row<Tags>>, columns: set<string>, i: nat)
    requires columns != {} && i < |Breakdown(inner, Some(columns))|
    ensures var rows := Breakdown(inner, Some(columns));
            && UniqueKeys(rows)
            && HasKey(Rekey(inner, Project(columns)), rows[i].key)
            && rows[i].value == SumOf(Rekey(inner, Project(columns)), rows[i].key)
  {
    GroupSumFacts(Rekey(inner, Project(columns)));
    RowOfUniqueKey(Breakdown(inner, Some(columns)), i);
    assert HasKey(GroupSum(Rekey(inner, Project(columns))), Breakdown(inner, Some(columns))[i].key);
  }

  lemma {:induction false} OneGroup(inner: seq<Row<Tags>>, key: Tags)
    ensures SumOf(Rekey(inner, Project({})), key) == if key == map[] then Total(inner) else 0.0
  {
    if inner != [] {
      OneGroup(inner[1..], key);
      assert Project({})(inner[0].key) == map[];
    }
  }

  /** In every form, a breakdown's rows of a key sum up the key's series. */
  lemma {:induction false} BreakdownSum(inner: seq<Row<Tags>>, columns: set<string>, key: Tags)
    ensures SumOf(Breakdown(inner, Some(columns)), key) == SumOf(Rekey(inner, Project(columns)), key)
  {
    GroupSumFacts(Rekey(inner, Project(columns)));
    OneGroup(inner, key);
    if columns == {} {
      var one: seq<Row<Tags>> := [Row(map[], Total(inner))];
      assert one[1..] == [];
    }
  }

  /** The inner rows that are summed into the group of `key`: those whose tags have the key's values. */
  function Members(inner: seq<Row<Tags>>, columns: set<string>, key: Tags): (r: seq<Row<Tags>>)
    ensures forall m :: multiset(r)[m] == if Agrees(m.key, key, columns) then multiset(inner)[m] else 0
  {
    if inner == [] then []
    else
      var rest := Members(inner[1..], columns, key);
      assert inner == [inner[0]] + inner[1..];
      assert multiset(inner) == multiset{inner[0]} + multiset(inner[1..]);
      ProjectMeans(inner[0].key, key, columns);
      if Project(columns)(inner[0].key) == key then [inner[0]] + rest else rest
  }

  lemma {:induction false} MembersTotal(inner: seq<Row<Tags>>, columns: set<string>, key: Tags)
    ensures SumOf(Rekey(inner, Project(columns)), key) == Total(Members(inner, columns, key))
  {
    if inner != [] {
      MembersTotal(inner[1..], columns, key);
    }
  }

  lemma SameEnv(tags: Tags, columns: set<string>)
    requires "env" in columns
    ensures "env" in Project(columns)(tags) <==> "env" in tags
    ensures "env" in tags ==> Project(columns)(tags)["env"] == tags["env"]
  {
  }

  /** If env is a group column, all series that are summed into one row are of the row's own environment. */
  lemma {:induction false} EnvsNeverMix(inner: seq<Row<Tags>>, columns: set<string>, i: nat)
    requires "env" in columns && i < |Breakdown(inner, Some(columns))|
    ensures var row := Breakdown(inner, Some(columns))[i];
            var members := Members(inner, columns, row.key);
            && members != [] && row.value == Total(members)
            && forall m :: m in members ==>
                 ("env" in m.key <==> "env" in row.key) && ("env" in row.key ==> m.key["env"] == row.key["env"])
  {
    var row := Breakdown(inner, Some(columns))[i];
    BreakdownRows(inner, columns, i);
    MembersTotal(inner, columns, row.key);
    MemberOfKey(inner, columns, row.key);
    forall m | m in Members(inner, columns, row.key)
      ensures "env" in m.key <==> "env" in row.key
      ensures "env" in row.key ==> m.key["env"] == row.key["env"]
    {
      SameEnv(m.key, columns);
    }
  }

  lemma {:induction false} MemberOfKey(inner: seq<Row<Tags>>, columns: set<string>, key: Tags)
    requires HasKey(Rekey(inner, Project(columns)), key)
    ensures Members(inner, columns, key) != []
  {
    HeadKey(Rekey(inner, Project(columns)));
    if Project(columns)(inner[0].key) != key {
      MemberOfKey(inner[1..], columns, key);
    }
  }

  // ---------------------------------------------------------------- rates

  /** A row of the window query: the bucket, the previous bucket of the series, and their last values. */
  datatype Window = Window(t: int, pt: int, current: real, previous: real)

  /** lagInFrame(x, 1, x): the previous row's value, the row's own one in the first row. */
  function Windows(buckets: seq<Sample>): (r: seq<Window>)
    ensures |r| == |buckets|
  {
    seq(|buckets|, i requires 0 <= i < |buckets| =>
      var p := if i == 0 then buckets[i] else buckets[i - 1];
      Window(buckets[i].time, p.time, buckets[i].value, p.value))
  }

  /** WHERE t > pt. */
  function Emitted(rows: seq<Window>): seq<Window> {
    if rows == [] then []
    else (if rows[0].t > rows[0].pt then [rows[0]] else []) + Emitted(rows[1..])
  }

  /** The delta expression of `rate_query`. */
  function Delta(onReset: OnReset, w: Window): real {
    if onReset == Ignore then
      (if w.current - w.previous >= 0.0 then w.current - w.previous else 0.0)
    else
      (if w.current < w.previous then w.current else w.current - w.previous)
  }

  function Seconds(w: Window): int {
    w.t - w.pt
  }

  /** The per-second value of an emitted row. */
  function Rate(onReset: OnReset, w: Window): real
    requires Seconds(w) > 0
  {
    Delta(onReset, w) / (Seconds(w) as real)
  }

  function SeriesWindows(rows: seq<Sample>, bucket: Bucketing): seq<Window> {
    Emitted(Windows(BucketLast(rows, bucket)))
  }

  /** The per-second value; an emitted row always has a positive step (`EmittedSeconds`). */
  function PerSecond(onReset: OnReset, w: Window): real {
    if Seconds(w) > 0 then Rate(onReset, w) else 0.0
  }

  /** The per-second values of a series. */
  function SeriesRates(onReset: OnReset, rows: seq<Sample>, bucket: Bucketing): (r: seq<real>)
    ensures |r| == |SeriesWindows(rows, bucket)|
  {
    var windows := SeriesWindows(rows, bucket);
    seq(|windows|, i requires 0 <= i < |windows| => PerSecond(onReset, windows[i]))
  }

  /** Rate times time step, from each of the first `n` points to the next one. */
  function Integral(rates: seq<real>, points: seq<Sample>, n: nat): real
    requires n == 0 || n <= |rates| < |points|
  {
    if n == 0 then 0.0
    else Integral(rates, points, n - 1) + rates[n - 1] * ((points[n].time - points[n - 1].time) as real)
  }

  lemma {:induction false} AllEmitted(rows: seq<Window>)
    requires forall i :: 0 <= i < |rows| ==> rows[i].t > rows[i].pt
    ensures Emitted(rows) == rows
  {
    if rows != [] {
      AllEmitted(rows[1..]);
    }
  }

  /** Exactly the first bucket of a series is not emitted: it has no previous one. */
  lemma EmittedWindows(buckets: seq<Sample>)
    requires Ascending(buckets)
    ensures Emitted(Windows(buckets)) == if buckets == [] then [] else Windows(buckets)[1..]
  {
    if buckets != [] {
      AllEmitted(Windows(buckets)[1..]);
    }
  }

  function SumDeltas(onReset: OnReset, windows: seq<Window>): real {
    if windows == [] then 0.0 else SumDeltas(onReset, windows[..|windows| - 1]) + Delta(onReset, windows[|windows| - 1])
  }

  lemma {:induction false} DeltasAddUp(onReset: OnReset, buckets: seq<Sample>)
    requires buckets != []
    ensures SumDeltas(onReset, Windows(buckets)[1..]) == Gain(onReset, Values(buckets))
  {
    var n := |buckets| - 1;
    if n > 0 {
      var init := buckets[..n];
      DeltasAddUp(onReset, init);
      assert Windows(buckets)[1..][..n - 1] == Windows(init)[1..];
      assert Values(buckets)[..n] == Values(init);
    }
  }

  /** What an emitted row shows: its bucket, the step of the values, and that step per second. */
  lemma {:induction false} WindowRow(onReset: OnReset, b: seq<Sample>, j: nat)
    requires Ascending(b) && j + 1 < |b|
    ensures |Emitted(Windows(b))| == |b| - 1
    ensures var w := Emitted(Windows(b))[j];
            && w == Window(b[j + 1].time, b[j].time, b[j + 1].value, b[j].value)
            && Seconds(w) == b[j + 1].time - b[j].time > 0
            && Delta(onReset, w) == Step(onReset, b[j].value, b[j + 1].value)
  {
    EmittedWindows(b);
  }

  lemma {:induction false} WindowsCount(rows: seq<Sample>, bucket: Bucketing)
    requires Increasing(bucket)
    ensures Ascending(BucketLast(rows, bucket))
    ensures |SeriesWindows(rows, bucket)| ==
            if BucketLast(rows, bucket) == [] then 0 else |BucketLast(rows, bucket)| - 1
  {
    BucketLastFacts(rows, bucket);
    EmittedWindows(BucketLast(rows, bucket));
  }

  /** Every emitted row's step is the time from the bucket before to its own bucket, and it is positive. */
  lemma {:induction false} EmittedSeconds(rows: seq<Sample>, bucket: Bucketing, j: nat)
    requires Increasing(bucket) && j < |SeriesWindows(rows, bucket)|
    ensures |BucketLast(rows, bucket)| == |SeriesWindows(rows, bucket)| + 1
    ensures var b := BucketLast(rows, bucket);
            Seconds(SeriesWindows(rows, bucket)[j]) == b[j + 1].time - b[j].time > 0
  {
    WindowsCount(rows, bucket);
    WindowRow(Ignore, BucketLast(rows, bucket), j);
  }

  /** The rate of an emitted row is the step of the values divided by the time between the two buckets. */
  lemma {:induction false} RateMeans(onReset: OnReset, rows: seq<Sample>, bucket: Bucketing, j: nat)
      returns (p: Sample, q: Sample)
    requires Increasing(bucket) && j < |SeriesWindows(rows, bucket)|
    ensures |BucketLast(rows, bucket)| == |SeriesWindows(rows, bucket)| + 1
    ensures p == BucketLast(rows, bucket)[j] && q == BucketLast(rows, bucket)[j + 1] && p.time < q.time
    ensures SeriesWindows(rows, bucket)[j].t == q.time
    ensures SeriesRates(onReset, rows, bucket)[j] == Step(onReset, p.value, q.value) / ((q.time - p.time) as real)
  {
    RateOfWindow(onReset, rows, bucket, j);
    p, q := BucketLast(rows, bucket)[j], BucketLast(rows, bucket)[j + 1];
    WindowRate(onReset, p, q);
  }

  lemma {:induction false} RateOfWindow(onReset: OnReset, rows: seq<Sample>, bucket: Bucketing, j: nat)
    requires Increasing(bucket) && j < |SeriesWindows(rows, bucket)|
    ensures |BucketLast(rows, bucket)| == |SeriesWindows(rows, bucket)| + 1
    ensures var b := BucketLast(rows, bucket);
            && b[j].time < b[j + 1].time && SeriesWindows(rows, bucket)[j] == Between(b[j], b[j + 1])
            && SeriesRates(onReset, rows, bucket)[j] == PerSecond(onReset, Between(b[j], b[j + 1]))
  {
    WindowsCount(rows, bucket);
    WindowRow(onReset, BucketLast(rows, bucket), j);
  }

  function Between(p: Sample, q: Sample): Window {
    Window(q.time, p.time, q.value, p.value)
  }

  lemma WindowRate(onReset: OnReset, p: Sample, q: Sample)
    requires p.time < q.time
    ensures PerSecond(onReset, Between(p, q)) == Step(onReset, p.value, q.value) / ((q.time - p.time) as real)
  {
  }

  /** The rate times the time from point to point is the step of the values. */
  predicate Covers(onReset: OnReset, rate: real, p: Sample, q: Sample) {
    rate * ((q.time - p.time) as real) == Step(onReset, p.value, q.value)
  }

  lemma {:induction false} IntegralIsGain(onReset: OnReset, rates: seq<real>, points: seq<Sample>, vs: seq<real>,
      n: nat)
    requires n <= |rates| < |points| && vs == Values(points)
    requires forall j :: 0 <= j < |rates| ==> Covers(onReset, rates[j], points[j], points[j + 1])
    ensures Integral(rates, points, n) == Gain(onReset, vs[..n + 1])
  {
    if n > 0 {
      IntegralIsGain(onReset, rates, points, vs, n - 1);
      assert Covers(onReset, rates[n - 1], points[n - 1], points[n]);
      assert vs[..n + 1][..n] == vs[..n];
    }
  }

  lemma QuotientTimes(x: real, s: real)
    requires s > 0.0
    ensures x / s * s == x
  {
  }

  /** The deltas of a series add up to the increase of its bucketed points in the same mode. */
  lemma {:induction false} SeriesDeltasAddUp(onReset: OnReset, rows: seq<Sample>, bucket: Bucketing)
    requires Increasing(bucket)
    ensures SumDeltas(onReset, SeriesWindows(rows, bucket)) == Gain(onReset, Values(BucketLast(rows, bucket)))
  {
    BucketLastFacts(rows, bucket);
    EmittedWindows(BucketLast(rows, bucket));
    if BucketLast(rows, bucket) != [] {
      DeltasAddUp(onReset, BucketLast(rows, bucket));
    }
  }

  lemma {:induction false} WindowNonNegative(onReset: OnReset, buckets: seq<Sample>, i: nat)
    requires Ascending(buckets) && NonNegative(Values(buckets)) && i < |Emitted(Windows(buckets))|
    ensures Delta(onReset, Emitted(Windows(buckets))[i]) >= 0.0
  {
    EmittedWindows(buckets);
    assert Values(buckets)[i + 1] >= 0.0;
  }

  /** No delta of a non-negative counter is negative. */
  lemma {:induction false} DeltasNonNegative(onReset: OnReset, rows: seq<Sample>, bucket: Bucketing, i: nat)
    requires Increasing(bucket) && NonNegative(Values(SortByTime(rows))) && i < |SeriesWindows(rows, bucket)|
    ensures Delta(onReset, SeriesWindows(rows, bucket)[i]) >= 0.0
  {
    BucketLastFacts(rows, bucket);
    SubsequenceNonNegative(Values(BucketLast(rows, bucket)), Values(SortByTime(rows)));
    WindowNonNegative(onReset, BucketLast(rows, bucket), i);
  }

  lemma QuotientCovers(onReset: OnReset, rate: real, p: Sample, q: Sample, seconds: real)
    requires p.time < q.time && seconds == (q.time - p.time) as real
    requires rate == Step(onReset, p.value, q.value) / seconds
    ensures Covers(onReset, rate, p, q)
  {
    QuotientTimes(Step(onReset, p.value, q.value), seconds);
  }

  lemma WindowCovers(onReset: OnReset, p: Sample, q: Sample)
    requires p.time < q.time
    ensures Covers(onReset, PerSecond(onReset, Between(p, q)), p, q)
  {
    WindowRate(onReset, p, q);
    QuotientCovers(onReset, PerSecond(onReset, Between(p, q)), p, q, (q.time - p.time) as real);
  }

  lemma {:induction false} RateCovers(onReset: OnReset, rows: seq<Sample>, bucket: Bucketing, j: nat)
    requires Increasing(bucket) && j < |SeriesWindows(rows, bucket)|
    ensures |BucketLast(rows, bucket)| == |SeriesWindows(rows, bucket)| + 1
    ensures var b := BucketLast(rows, bucket);
            Covers(onReset, SeriesRates(onReset, rows, bucket)[j], b[j], b[j + 1])
  {
    var b := BucketLast(rows, bucket);
    RateOfWindow(onReset, rows, bucket, j);
    WindowCovers(onReset, b[j], b[j + 1]);
  }

  /**
   * Per series, the rates times the steps between the buckets add up to the increase of the bucketed points in the
   * same mode; so that is never more than what `increase` reports for the raw points.
   */
  lemma {:induction false} RatesMeetIncrease(onReset: OnReset, rows: seq<Sample>, bucket: Bucketing)
    requires Increasing(bucket) && NonNegative(Values(SortByTime(rows)))
    ensures var rates, b := SeriesRates(onReset, rows, bucket), BucketLast(rows, bucket);
            && (rates == [] || |b| == |rates| + 1)
            && Integral(rates, b, |rates|) == Gain(onReset, Values(b))
            && Integral(rates, b, |rates|) <= Eval(Increase(onReset), rows)
  {
    var rates, b := SeriesRates(onReset, rows, bucket), BucketLast(rows, bucket);
    WindowsCount(rows, bucket);
    forall j | 0 <= j < |rates|
      ensures Covers(onReset, rates[j], b[j], b[j + 1])
    {
      RateCovers(onReset, rows, bucket, j);
    }
    if b != [] {
      IntegralIsGain(onReset, rates, b, Values(b), |rates|);
      assert Values(b)[..|b|] == Values(b);
    }
    BucketedIncrease(onReset, rows, bucket);
  }

  lemma {:induction false} SubsequenceNonNegative(xs: seq<real>, ys: seq<real>)
    requires Subsequence(xs, ys) && NonNegative(ys)
    ensures NonNegative(xs)
  {
    SubsequenceIn(xs, ys);
    forall i | 0 <= i < |xs|
      ensures xs[i] >= 0.0
    {
      var k :| 0 <= k < |ys| && ys[k] == xs[i];
    }
  }

  // ---- the InfluxQL form of the same increase

  /** non_negative_difference(): the differences of consecutive rows, the negative ones left out. */
  function NonNegativeDifference(vs: seq<real>): seq<real> {
    if |vs| < 2 then []
    else
      var n := |vs| - 1;
      NonNegativeDifference(vs[..n]) + (if vs[n] - vs[n - 1] >= 0.0 then [vs[n] - vs[n - 1]] else [])
  }

  /** `increase_query` for one series: sum(non_negative_difference(last(counter))) per time step. */
  function InfluxIncrease(rows: seq<Sample>, bucket: Bucketing): real {
    Sum(NonNegativeDifference(Values(BucketLast(rows, bucket))))
  }

  lemma {:induction false} NonNegativeDifferenceSum(vs: seq<real>)
    ensures Sum(NonNegativeDifference(vs)) == Gain(Ignore, vs)
  {
    if |vs| >= 2 {
      var n := |vs| - 1;
      NonNegativeDifferenceSum(vs[..n]);
      var init := NonNegativeDifference(vs[..n]);
      assert (init + [vs[n] - vs[n - 1]])[..|init|] == init;
      assert init + [] == init;
    }
  }

  /**
   * The two storages agree: the InfluxQL increase is the ClickHouse change summed over all buckets
   * (both ignore decreases), and never exceeds `increase(.., "ignore")` over the raw points.
   */
  lemma {:induction false} InfluxMeetsClickHouse(rows: seq<Sample>, bucket: Bucketing)
    requires Increasing(bucket) && NonNegative(Values(SortByTime(rows)))
    ensures InfluxIncrease(rows, bucket) == SumDeltas(Ignore, SeriesWindows(rows, bucket))
    ensures InfluxIncrease(rows, bucket) <= Eval(Increase(Ignore), rows)
  {
    NonNegativeDifferenceSum(Values(BucketLast(rows, bucket)));
    SeriesDeltasAddUp(Ignore, rows, bucket);
    BucketedIncrease(Ignore, rows, bucket);
  }

  // ---- several series, grouped per bucket

  /** The rows the outer query groups: (bucket, series key) and delta. */
  function DeltaRows(onReset: OnReset, tags: Tags, windows: seq<Window>): seq<Row<(int, Tags)>> {
    if windows == [] then []
    else [Row((windows[0].t, tags), Delta(onReset, windows[0]))] + DeltaRows(onReset, tags, windows[1..])
  }

  function AllDeltaRows(onReset: OnReset, series: seq<Series>, bucket: Bucketing): seq<Row<(int, Tags)>> {
    if series == [] then []
    else
      DeltaRows(onReset, series[0].tags, SeriesWindows(series[0].samples, bucket))
      + AllDeltaRows(onReset, series[1..], bucket)
  }

  /** The group of a row: its bucket and the GROUP BY columns. */
  function ByBucket(groupBy: set<string>): ((int, Tags)) -> (int, Tags) {
    (k: (int, Tags)) => (k.0, Project(groupBy)(k.1))
  }

  /** `rate_query(..., per_second=False)`: the change per bucket and group. */
  function ChangeQuery(onReset: OnReset, series: seq<Series>, bucket: Bucketing, groupBy: set<string>)
    : seq<Row<(int, Tags)>>
  {
    GroupSum(Rekey(AllDeltaRows(onReset, series, bucket), ByBucket(groupBy)))
  }

  function TotalGain(onReset: OnReset, series: seq<Series>, bucket: Bucketing): real {
    if series == [] then 0.0
    else Gain(onReset, Values(BucketLast(series[0].samples, bucket))) + TotalGain(onReset, series[1..], bucket)
  }

  lemma {:induction false} TotalConcat<K>(a: seq<Row<K>>, b: seq<Row<K>>)
    ensures Total(a + b) == Total(a) + Total(b)
  {
    if a == [] {
      assert a + b == b;
    } else {
      TotalConcat(a[1..], b);
      assert (a + b)[1..] == a[1..] + b;
    }
  }

  lemma {:induction false} DeltaRowsTotal(onReset: OnReset, tags: Tags, windows: seq<Window>)
    ensures Total(DeltaRows(onReset, tags, windows)) == SumDeltas(onReset, windows)
  {
    if windows != [] {
      DeltaRowsTotal(onReset, tags, windows[1..]);
      SumDeltasFront(onReset, windows);
    }
  }

  lemma {:induction false} SumDeltasFront(onReset: OnReset, windows: seq<Window>)
    requires windows != []
    ensures SumDeltas(onReset, windows) == Delta(onReset, windows[0]) + SumDeltas(onReset, windows[1..])
  {
    var n := |windows| - 1;
    if n == 0 {
      assert windows[..n] == [] == windows[1..];
    } else {
      SumDeltasFront(onReset, windows[..n]);
      assert windows[..n][1..] == windows[1..][..n - 1];
    }
  }

  /** Conservation over the whole panel: all buckets and groups together add up to the series' increases. */
  lemma {:induction false} ChangesAddUp(onReset: OnReset, series: seq<Series>, bucket: Bucketing, groupBy: set<string>)
    requires Increasing(bucket)
    ensures Total(ChangeQuery(onReset, series, bucket, groupBy)) == TotalGain(onReset, series, bucket)
  {
    var rows := AllDeltaRows(onReset, series, bucket);
    GroupSumFacts(Rekey(rows, ByBucket(groupBy)));
    RekeyTotal(rows, ByBucket(groupBy));
    DeltaRowsAddUp(onReset, series, bucket);
  }

  lemma {:induction false} DeltaRowsAddUp(onReset: OnReset, series: seq<Series>, bucket: Bucketing)
    requires Increasing(bucket)
    ensures Total(AllDeltaRows(onReset, series, bucket)) == TotalGain(onReset, series, bucket)
  {
    if series != [] {
      var windows := SeriesWindows(series[0].samples, bucket);
      DeltaRowsAddUp(onReset, series[1..], bucket);
      TotalConcat(DeltaRows(onReset, series[0].tags, windows), AllDeltaRows(onReset, series[1..], bucket));
      DeltaRowsTotal(onReset, series[0].tags, windows);
      SeriesDeltasAddUp(onReset, series[0].samples, bucket);
    }
  }
}
