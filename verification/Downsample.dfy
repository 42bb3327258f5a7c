/**
 * The 1h rollup of config/influxdb/pg_monitoring_downsample.sh and its backfill loop (`ds`), for one
 * field of one measurement.
 */
module Downsample {
  import opened Counters
  import opened Buckets

  /** A raw point: its series (the GROUP BY tags) and its sample; time in seconds. */
  datatype RawPoint = RawPoint(series: string, sample: Sample)

  /** A rollup point is identified by its series and the start of its hour; a later write overwrites. */
  type Key = (string, int)
  type Rolled = map<Key, real>

  const HOUR := 3600
  const DAY := 86400

  function HourOf(time: int): int {
    time / HOUR * HOUR
  }

  predicate Aligned(time: int) {
    time % HOUR == 0
  }

  predicate InRange(p: RawPoint, lo: int, hi: int) {
    lo <= p.sample.time < hi
  }

  function KeyOf(p: RawPoint): Key {
    (p.series, HourOf(p.sample.time))
  }

  /** The samples of one series and hour that the WHERE clause lets through. */
  function Select(points: seq<RawPoint>, key: Key, lo: int, hi: int): seq<Sample> {
    if points == [] then []
    else
      (if KeyOf(points[0]) == key && InRange(points[0], lo, hi) then [points[0].sample] else [])
      + Select(points[1..], key, lo, hi)
  }

  /** SELECT fn(field) .. WHERE time >= lo AND time < hi GROUP BY time(1h), tags; `fn` is last, max or mean. */
  function Rollup(points: seq<RawPoint>, fn: seq<Sample> -> real, lo: int, hi: int): Rolled {
    RollupKeys(points, points, fn, lo, hi)
  }

  /** The result points of the hours and series that occur in `some` of the points. */
  function RollupKeys(some: seq<RawPoint>, points: seq<RawPoint>, fn: seq<Sample> -> real, lo: int, hi: int): Rolled {
    if some == [] then map[]
    else
      var rolled := RollupKeys(some[1..], points, fn, lo, hi);
      if InRange(some[0], lo, hi) then rolled[KeyOf(some[0]) := fn(Select(points, KeyOf(some[0]), lo, hi))] else rolled
  }

  /** The target retention policy; every INTO query writes its result points. */
  class Store {
    var data: Rolled

    constructor ()
      ensures data == map[]
    {
      data := map[];
    }

    method Write(rolled: Rolled)
      modifies this
      ensures data == old(data) + rolled
    {
      data := data + rolled;
    }
  }

  /** The keys a rollup writes. */
  ghost predicate HasPoint(points: seq<RawPoint>, key: Key, lo: int, hi: int) {
    exists i :: 0 <= i < |points| && InRange(points[i], lo, hi) && KeyOf(points[i]) == key
  }

  lemma {:induction false} RollupKeysFacts(some: seq<RawPoint>, points: seq<RawPoint>, fn: seq<Sample> -> real,
      lo: int, hi: int, key: Key)
    ensures var rolled := RollupKeys(some, points, fn, lo, hi);
            && (key in rolled <==> HasPoint(some, key, lo, hi))
            && (key in rolled ==> rolled[key] == fn(Select(points, key, lo, hi)))
  {
    if some != [] {
      RollupKeysFacts(some[1..], points, fn, lo, hi, key);
    }
  }

  lemma {:induction false} RollupFacts(points: seq<RawPoint>, fn: seq<Sample> -> real, lo: int, hi: int, key: Key)
    ensures key in Rollup(points, fn, lo, hi) <==> HasPoint(points, key, lo, hi)
    ensures key in Rollup(points, fn, lo, hi) ==> Rollup(points, fn, lo, hi)[key] == fn(Select(points, key, lo, hi))
  {
    RollupKeysFacts(points, points, fn, lo, hi, key);
  }

  lemma HourBounds(time: int, edge: int)
    requires Aligned(edge)
    ensures HourOf(time) < edge <==> time < edge
    ensures HourOf(time) <= time < HourOf(time) + HOUR && Aligned(HourOf(time))
  {
  }

  /** A range that covers the key's hour sees the same samples as any other such range. */
  lemma {:induction false} SelectSame(points: seq<RawPoint>, key: Key, lo: int, hi: int, lo': int, hi': int)
    requires lo <= key.1 && key.1 + HOUR <= hi && lo' <= key.1 && key.1 + HOUR <= hi'
    ensures Select(points, key, lo, hi) == Select(points, key, lo', hi')
  {
    if points != [] {
      SelectSame(points[1..], key, lo, hi, lo', hi');
      HourBounds(points[0].sample.time, 0);
    }
  }

  /** An aligned range contains an hour as a whole or not at all. */
  lemma WholeHours(points: seq<RawPoint>, key: Key, lo: int, hi: int)
    requires Aligned(lo) && Aligned(hi) && HasPoint(points, key, lo, hi)
    ensures lo <= key.1 && key.1 + HOUR <= hi && Aligned(key.1)
  {
    var i :| 0 <= i < |points| && InRange(points[i], lo, hi) && KeyOf(points[i]) == key;
    HourBounds(points[i].sample.time, lo);
    HourBounds(points[i].sample.time, hi);
  }

  /**
   * Rollups of aligned, overlapping or adjacent ranges fit together: written one after the other
   * they are the rollup of the whole range, for any aggregate function.
   */
  lemma Tiles(points: seq<RawPoint>, fn: seq<Sample> -> real, lo: int, mid: int, mid': int, hi: int)
    requires Aligned(lo) && Aligned(mid) && Aligned(mid') && Aligned(hi) && lo <= mid' <= mid <= hi
    ensures Rollup(points, fn, lo, mid) + Rollup(points, fn, mid', hi) == Rollup(points, fn, lo, hi)
  {
    var a, b, whole := Rollup(points, fn, lo, mid), Rollup(points, fn, mid', hi), Rollup(points, fn, lo, hi);
    forall key
      ensures key in whole <==> key in a || key in b
      ensures key in a ==> key in whole && a[key] == whole[key]
      ensures key in b ==> key in whole && b[key] == whole[key]
    {
      KeyTiles(points, fn, lo, mid, mid', hi, key);
    }
  }

  lemma KeyTiles(points: seq<RawPoint>, fn: seq<Sample> -> real, lo: int, mid: int, mid': int, hi: int, key: Key)
    requires Aligned(lo) && Aligned(mid) && Aligned(mid') && Aligned(hi) && lo <= mid' <= mid <= hi
    ensures var a, b, whole := Rollup(points, fn, lo, mid), Rollup(points, fn, mid', hi), Rollup(points, fn, lo, hi);
            && (key in whole <==> key in a || key in b)
            && (key in a ==> key in whole && a[key] == whole[key])
            && (key in b ==> key in whole && b[key] == whole[key])
  {
    RollupFacts(points, fn, lo, mid, key);
    RollupFacts(points, fn, mid', hi, key);
    RollupFacts(points, fn, lo, hi, key);
    if HasPoint(points, key, lo, mid) {
      WholeHours(points, key, lo, mid);
      SelectSame(points, key, lo, mid, lo, hi);
    }
    if HasPoint(points, key, mid', hi) {
      WholeHours(points, key, mid', hi);
      SelectSame(points, key, mid', hi, lo, hi);
    }
  }

  /**
   * `ds` with BACKFILL=1 at the time `now`: one INTO query per day, the oldest first. The store ends
   * up as if the whole range had been rolled up directly.
   */
  method Backfill(store: Store, points: seq<RawPoint>, fn: seq<Sample> -> real, now: nat, backfillDays: int)
    modifies store
    ensures store.data == old(store.data) + Backfilled(points, fn, backfillDays, now)
  {
    var hour := now / 3600 * 3600;
    HourBounds(now, 0);
    var d := backfillDays;
    ghost var start := hour - Days(backfillDays) * DAY;
    RollupEmpty(points, fn, start);
    while d > 0
      invariant d <= Days(backfillDays)
      invariant store.data == old(store.data) + Rollup(points, fn, start, hour - Days(d) * DAY)
    {
      var lo, hi := hour - d * 86400, hour - (d - 1) * 86400;
      ChunkEdges(hour, backfillDays, d);
      assert lo == hour - Days(d) * DAY && start == hour - backfillDays * DAY;
      NextRun(points, fn, old(store.data), start, lo, lo, hi);
      store.Write(Rollup(points, fn, lo, hi));
      d := d - 1;
      assert hi == hour - Days(d) * DAY;
    }
  }

  /** The edges of chunk d of the range that ends at `hour`. */
  lemma ChunkEdges(hour: int, days: int, d: int)
    requires Aligned(hour) && 0 < d <= days
    ensures Aligned(hour - days * DAY) && Aligned(hour - d * DAY) && Aligned(hour - (d - 1) * DAY)
    ensures hour - days * DAY <= hour - d * DAY <= hour - (d - 1) * DAY
  {
    AlignedDays(hour, days);
    AlignedDays(hour, d);
    AlignedDays(hour, d - 1);
  }

  /** Chunks of a count that may be negative. */
  function Days(count: int): nat {
    if count >= 0 then count else 0
  }

  lemma MapUnionAssociative(a: Rolled, b: Rolled, c: Rolled)
    ensures a + b + c == a + (b + c)
  {
  }

  lemma RollupEmpty(points: seq<RawPoint>, fn: seq<Sample> -> real, at: int)
    ensures Rollup(points, fn, at, at) == map[]
  {
    var r := Rollup(points, fn, at, at);
    forall key
      ensures key !in r
    {
      RollupFacts(points, fn, at, at, key);
    }
  }

  /** What one run writes. */
  function Backfilled(points: seq<RawPoint>, fn: seq<Sample> -> real, days: int, now: nat): Rolled {
    Rollup(points, fn, HourOf(now) - Days(days) * DAY, HourOf(now))
  }

  /**
   * Running the backfill again, at the same or a later time over the same points, repairs and extends, and changes
   * nothing else.
   */
  lemma BackfillAgain(points: seq<RawPoint>, fn: seq<Sample> -> real, store: Rolled, days: nat, now: nat, later: nat)
    requires now <= later && later - now < days * DAY
    ensures store + Backfilled(points, fn, days, now) + Backfilled(points, fn, days, later)
         == store + Rollup(points, fn, HourOf(now) - days * DAY, HourOf(later))
    ensures HourOf(later) == HourOf(now) ==>
              store + Backfilled(points, fn, days, now) + Backfilled(points, fn, days, later) ==
                  store + Backfilled(points, fn, days, now)
  {
    RunEdges(days, now, later);
    assert Days(days) == days;
    NextRun(points, fn, store, HourOf(now) - days * DAY, HourOf(now), HourOf(later) - days * DAY, HourOf(later));
  }

  lemma RunEdges(days: nat, now: nat, later: nat)
    requires now <= later && later - now < days * DAY
    ensures Aligned(HourOf(now)) && Aligned(HourOf(later)) && Aligned(HourOf(now) - days * DAY)
            && Aligned(HourOf(later) - days * DAY)
    ensures HourOf(now) - days * DAY <= HourOf(later) - days * DAY <= HourOf(now) <= HourOf(later)
  {
    HourBounds(now, 0);
    HourBounds(later, 0);
    HourBounds(later, HourOf(now));
    AlignedDays(HourOf(now), days);
    AlignedDays(HourOf(later), days);
    if HourOf(now) < HourOf(later) - days * DAY {
      AlignedStep(HourOf(now), HourOf(later) - days * DAY);
    }
  }

  lemma NextRun(points: seq<RawPoint>, fn: seq<Sample> -> real, store: Rolled, lo: int, mid: int, mid': int, hi: int)
    requires Aligned(lo) && Aligned(mid) && Aligned(mid') && Aligned(hi) && lo <= mid' <= mid <= hi
    ensures store + Rollup(points, fn, lo, mid) + Rollup(points, fn, mid', hi) == store + Rollup(points, fn, lo, hi)
  {
    Tiles(points, fn, lo, mid, mid', hi);
    MapUnionAssociative(store, Rollup(points, fn, lo, mid), Rollup(points, fn, mid', hi));
  }

  lemma AlignedDays(hour: int, days: int)
    requires Aligned(hour)
    ensures Aligned(hour - days * DAY)
  {
    assert hour - days * DAY == hour - HOUR * (days * 24);
  }

  /** Every hour of the backfilled range lies in exactly one day chunk. */
  lemma HourInOneChunk(hour: int, days: int, start: int)
    requires Aligned(hour) && Aligned(start) && hour - days * DAY <= start < hour
    ensures exists d :: 1 <= d <= days && InChunk(hour, d, start)
    ensures forall d, e :: InChunk(hour, d, start) && InChunk(hour, e, start) ==> d == e
  {
    var d := (hour - start - 1) / DAY + 1;
    AlignedDays(hour, d - 1);
    AlignedStep(start, hour - (d - 1) * DAY);
    assert InChunk(hour, d, start);
  }

  lemma AlignedStep(a: int, b: int)
    requires Aligned(a) && Aligned(b) && a < b
    ensures a + HOUR <= b
  {
  }

  /** The hour that starts at `start` lies as a whole in the chunk of day `d`. */
  ghost predicate InChunk(hour: int, d: int, start: int) {
    hour - d * DAY <= start && start + HOUR <= hour - (d - 1) * DAY
  }

  // ---- last() and max()

  function MaxOf(samples: seq<Sample>): real {
    if samples == [] then 0.0
    else if |samples| == 1 || samples[0].value >= MaxOf(samples[1..]) then samples[0].value
    else MaxOf(samples[1..])
  }

  function LastOf(samples: seq<Sample>): real {
    var sorted := SortByTime(samples);
    if sorted == [] then 0.0 else sorted[|sorted| - 1].value
  }

  lemma {:induction false} MaxOfBoth(all: seq<Sample>, a: seq<Sample>, b: seq<Sample>)
    requires a != [] && b != [] && all != [] && forall x :: x in all <==> x in a || x in b
    ensures MaxOf(all) == if MaxOf(a) >= MaxOf(b) then MaxOf(a) else MaxOf(b)
  {
    var m := if MaxOf(a) >= MaxOf(b) then MaxOf(a) else MaxOf(b);
    MaxFacts(a, m);
    MaxFacts(b, m);
    MaxFacts(all, m);
    MaxFacts(all, MaxOf(all));
    MaxFacts(a, MaxOf(all));
    MaxFacts(b, MaxOf(all));
  }

  lemma {:induction false} SameMax(all: seq<Sample>, a: seq<Sample>)
    requires a != [] && all != [] && forall x :: x in all <==> x in a
    ensures MaxOf(all) == MaxOf(a)
  {
    MaxOfBoth(all, a, a);
  }

  /**
   * A chunk edge inside an hour loses the hour's peak exactly if both parts have points and the later one
   * stays below the earlier one: its write replaces the earlier maximum.
   */
  lemma {:induction false} SplitHourLosesPeakIff(points: seq<RawPoint>, key: Key, lo: int, mid: int, hi: int)
    requires lo <= mid <= hi && HasPoint(points, key, lo, hi)
    ensures var cut := Rollup(points, MaxOf, lo, mid) + Rollup(points, MaxOf, mid, hi);
            var whole := Rollup(points, MaxOf, lo, hi);
            && key in cut && key in whole && cut[key] <= whole[key]
            && (cut[key] < whole[key] <==>
                  && HasPoint(points, key, lo, mid) && HasPoint(points, key, mid, hi)
                  && MaxOf(Select(points, key, mid, hi)) < MaxOf(Select(points, key, lo, mid)))
  {
    var all, a, b := Select(points, key, lo, hi), Select(points, key, lo, mid), Select(points, key, mid, hi);
    RollupFacts(points, MaxOf, lo, hi, key);
    RollupFacts(points, MaxOf, lo, mid, key);
    RollupFacts(points, MaxOf, mid, hi, key);
    SelectNonEmpty(points, key, lo, hi);
    SelectNonEmpty(points, key, lo, mid);
    SelectNonEmpty(points, key, mid, hi);
    SelectUnion(points, key, lo, mid, hi);
    assert all[0] in all && (a != [] || b != []);
    if a == [] {
      SameMax(all, b);
    } else if b == [] {
      SameMax(all, a);
    } else {
      MaxOfBoth(all, a, b);
    }
  }

  lemma {:induction false} SelectUnion(points: seq<RawPoint>, key: Key, lo: int, mid: int, hi: int)
    requires lo <= mid <= hi
    ensures forall x :: x in Select(points, key, lo, hi) <==>
            x in Select(points, key, lo, mid) || x in Select(points, key, mid, hi)
  {
    if points != [] {
      SelectUnion(points[1..], key, lo, mid, hi);
    }
  }

  /** For example: 5 at second 10 and 1 at second 20, cut at second 15. */
  lemma SplitHourLosesPeak()
    ensures var points := [RawPoint("a", Sample(10, 5.0)), RawPoint("a", Sample(20, 1.0))];
            var cut := Rollup(points, MaxOf, 0, 15) + Rollup(points, MaxOf, 15, 3600);
            var whole := Rollup(points, MaxOf, 0, 3600);
            ("a", 0) in cut && ("a", 0) in whole && cut[("a", 0)] == 1.0 && whole[("a", 0)] == 5.0
  {
    var p, q := RawPoint("a", Sample(10, 5.0)), RawPoint("a", Sample(20, 1.0));
    var points, key: Key := [p, q], ("a", 0);
    SelectTwo(p, q, key, 15, 3600);
    SelectTwo(p, q, key, 0, 3600);
    assert [p.sample, q.sample][1..] == [q.sample];
    RollupFacts(points, MaxOf, 15, 3600, key);
    RollupFacts(points, MaxOf, 0, 3600, key);
    assert InRange(points[1], 15, 3600) && InRange(points[1], 0, 3600);
    assert HasPoint(points, key, 15, 3600) && HasPoint(points, key, 0, 3600);
  }

  lemma {:induction false} SelectTwo(p: RawPoint, q: RawPoint, key: Key, lo: int, hi: int)
    requires KeyOf(p) == key && KeyOf(q) == key && InRange(q, lo, hi)
    ensures Select([p, q], key, lo, hi) == if InRange(p, lo, hi) then [p.sample, q.sample] else [q.sample]
  {
    assert [p, q][1..] == [q] && [q][1..] == [];
    assert Select([q], key, lo, hi) == [q.sample];
  }

  /** The samples of one series in the range. */
  function SeriesIn(points: seq<RawPoint>, series: string, lo: int, hi: int): seq<Sample> {
    if points == [] then []
    else
      (if points[0].series == series && InRange(points[0], lo, hi) then [points[0].sample] else [])
      + SeriesIn(points[1..], series, lo, hi)
  }

  lemma {:induction false} SelectMembers(points: seq<RawPoint>, key: Key, lo: int, hi: int, x: Sample)
    ensures x in Select(points, key, lo, hi) <==> x in SeriesIn(points, key.0, lo, hi) && HourOf(x.time) == key.1
  {
    if points != [] {
      SelectMembers(points[1..], key, lo, hi, x);
    }
  }

  lemma {:induction false} SelectNonEmpty(points: seq<RawPoint>, key: Key, lo: int, hi: int)
    ensures Select(points, key, lo, hi) != [] <==> HasPoint(points, key, lo, hi)
  {
    if points != [] {
      SelectNonEmpty(points[1..], key, lo, hi);
    }
  }

  // ---- what a rollup point is made of

  /** The point is in the range and in the key's series, and the key is the full hour it lies in. */
  predicate Belongs(p: RawPoint, key: Key, lo: int, hi: int) {
    && p.series == key.0 && lo <= p.sample.time < hi
    && key.1 % 3600 == 0 && key.1 <= p.sample.time < key.1 + 3600
  }

  /** `own` has exactly the key's points, each as often as it is stored. */
  ghost predicate OwnOf(own: seq<RawPoint>, points: seq<RawPoint>, key: Key, lo: int, hi: int) {
    forall p :: multiset(own)[p] == if Belongs(p, key, lo, hi) then multiset(points)[p] else 0
  }

  predicate SamplesOf(own: seq<RawPoint>, samples: seq<Sample>) {
    |samples| == |own| && forall i :: 0 <= i < |own| ==> samples[i] == own[i].sample
  }

  lemma SamplesOfOn(p: RawPoint, own: seq<RawPoint>, samples: seq<Sample>)
    requires SamplesOf(own, samples)
    ensures SamplesOf([p] + own, [p.sample] + samples)
  {
  }

  lemma KeyBelongs(p: RawPoint, key: Key, lo: int, hi: int)
    ensures KeyOf(p) == key && InRange(p, lo, hi) <==> Belongs(p, key, lo, hi)
  {
    HourBounds(p.sample.time, 0);
    if Belongs(p, key, lo, hi) {
      HourBounds(p.sample.time, key.1);
      HourBounds(p.sample.time, key.1 + HOUR);
    }
  }

  lemma OwnOn(p: RawPoint, own: seq<RawPoint>, rest: seq<RawPoint>, key: Key, lo: int, hi: int)
    requires OwnOf(own, rest, key, lo, hi)
    ensures OwnOf(if Belongs(p, key, lo, hi) then [p] + own else own, [p] + rest, key, lo, hi)
  {
    assert multiset([p] + own) == multiset{p} + multiset(own);
    assert multiset([p] + rest) == multiset{p} + multiset(rest);
  }

  lemma {:induction false} SelectPoints(points: seq<RawPoint>, key: Key, lo: int, hi: int) returns (own: seq<RawPoint>)
    ensures OwnOf(own, points, key, lo, hi) && SamplesOf(own, Select(points, key, lo, hi))
  {
    own := [];
    if points != [] {
      own := SelectPoints(points[1..], key, lo, hi);
      assert points == [points[0]] + points[1..];
      KeyBelongs(points[0], key, lo, hi);
      OwnOn(points[0], own, points[1..], key, lo, hi);
      SamplesOfOn(points[0], own, Select(points[1..], key, lo, hi));
      if Belongs(points[0], key, lo, hi) {
        own := [points[0]] + own;
      }
    }
  }

  /** A rollup has a point for each hour of a series that has points in the range: the aggregate over all of them. */
  lemma RollupPoint(points: seq<RawPoint>, fn: seq<Sample> -> real, key: Key, lo: int, hi: int)
      returns (own: seq<RawPoint>, samples: seq<Sample>)
    ensures OwnOf(own, points, key, lo, hi) && SamplesOf(own, samples)
    ensures key in Rollup(points, fn, lo, hi) <==> own != []
    ensures own != [] ==> Rollup(points, fn, lo, hi)[key] == fn(samples)
  {
    own := SelectPoints(points, key, lo, hi);
    samples := Select(points, key, lo, hi);
    RollupFacts(points, fn, lo, hi, key);
    SelectNonEmpty(points, key, lo, hi);
  }

  /** What a run at the time `now` writes: the hours from `days` days before the current hour `hour` up to it. */
  lemma BackfilledPoint(points: seq<RawPoint>, fn: seq<Sample> -> real, key: Key, days: int, now: nat, hour: int)
      returns (own: seq<RawPoint>, samples: seq<Sample>)
    requires hour % 3600 == 0 && hour <= now < hour + 3600
    ensures OwnOf(own, points, key, hour - days * 86400, hour) && SamplesOf(own, samples)
    ensures key in Backfilled(points, fn, days, now) <==> own != []
    ensures own != [] ==> Backfilled(points, fn, days, now)[key] == fn(samples)
  {
    HourBounds(now, hour);
    HourBounds(now, hour + HOUR);
    assert HourOf(now) == hour;
    if days >= 0 {
      own, samples := RollupPoint(points, fn, key, hour - days * DAY, hour);
    } else {
      RollupEmpty(points, fn, hour);
      own, samples := [], [];
      assert Days(days) * DAY == 0;
      NothingBelongs(points, key, hour - days * DAY, hour);
    }
  }

  lemma NothingBelongs(points: seq<RawPoint>, key: Key, lo: int, hi: int)
    requires lo >= hi
    ensures OwnOf([], points, key, lo, hi)
  {
  }

  /** `own` has exactly the series' points in the range, each as often as it is stored. */
  ghost predicate OwnIn(own: seq<RawPoint>, points: seq<RawPoint>, series: string, lo: int, hi: int) {
    forall p :: multiset(own)[p] == if p.series == series && lo <= p.sample.time < hi then multiset(points)[p] else 0
  }

  lemma OwnInOn(p: RawPoint, own: seq<RawPoint>, rest: seq<RawPoint>, series: string, lo: int, hi: int)
    requires OwnIn(own, rest, series, lo, hi)
    ensures OwnIn(if p.series == series && lo <= p.sample.time < hi then [p] + own else own, [p] + rest, series, lo, hi)
  {
    assert multiset([p] + own) == multiset{p} + multiset(own);
    assert multiset([p] + rest) == multiset{p} + multiset(rest);
  }

  /** The samples of a series in a range are those of all its points there. */
  lemma {:induction false} SeriesPoints(points: seq<RawPoint>, series: string, lo: int, hi: int)
      returns (own: seq<RawPoint>)
    ensures SamplesOf(own, SeriesIn(points, series, lo, hi)) && OwnIn(own, points, series, lo, hi)
  {
    own := [];
    if points != [] {
      own := SeriesPoints(points[1..], series, lo, hi);
      assert points == [points[0]] + points[1..];
      OwnInOn(points[0], own, points[1..], series, lo, hi);
      SamplesOfOn(points[0], own, SeriesIn(points[1..], series, lo, hi));
      if InRange(points[0], lo, hi) && points[0].series == series {
        own := [points[0]] + own;
      }
    }
  }

  lemma {:induction false} MaxFacts(samples: seq<Sample>, v: real)
    requires samples != []
    ensures MaxOf(samples) <= v <==> forall x :: x in samples ==> x.value <= v
  {
    assert samples == [samples[0]] + samples[1..];
    if |samples| > 1 {
      MaxFacts(samples[1..], v);
      MaxFacts(samples[1..], samples[0].value);
    }
  }

  /** Peaks survive: a bound holds for the raw gauge if and only if it holds for its hourly maxima. */
  lemma {:induction false} PeaksKept(points: seq<RawPoint>, series: string, lo: int, hi: int, v: real)
    ensures var rolled := Rollup(points, MaxOf, lo, hi);
            (forall x :: x in SeriesIn(points, series, lo, hi) ==> x.value <= v)
            <==> (forall hour: int :: (series, hour) in rolled ==> rolled[(series, hour)] <= v)
  {
    var rolled := Rollup(points, MaxOf, lo, hi);
    forall hour: int
      ensures (series, hour) in rolled ==>
                (rolled[(series, hour)] <= v <==>
                    forall x :: x in Select(points, (series, hour), lo, hi) ==> x.value <= v)
    {
      RollupFacts(points, MaxOf, lo, hi, (series, hour));
      SelectNonEmpty(points, (series, hour), lo, hi);
      if (series, hour) in rolled {
        MaxFacts(Select(points, (series, hour), lo, hi), v);
      }
    }
    forall x | x in SeriesIn(points, series, lo, hi)
      ensures (series, HourOf(x.time)) in rolled && x in Select(points, (series, HourOf(x.time)), lo, hi)
    {
      SelectMembers(points, (series, HourOf(x.time)), lo, hi, x);
      SelectNonEmpty(points, (series, HourOf(x.time)), lo, hi);
      RollupFacts(points, MaxOf, lo, hi, (series, HourOf(x.time)));
    }
    forall hour: int, x | x in Select(points, (series, hour), lo, hi)
      ensures x in SeriesIn(points, series, lo, hi)
    {
      SelectMembers(points, (series, hour), lo, hi, x);
    }
  }

  lemma LastFacts(samples: seq<Sample>) returns (q: Sample)
    requires samples != []
    ensures q in samples && q.value == LastOf(samples) && forall x :: x in samples ==> x.time <= q.time
  {
    var sorted := SortByTime(samples);
    SortFacts(samples);
    q := sorted[|samples| - 1];
    assert q in sorted;
    forall x | x in samples
      ensures x.time <= q.time
    {
      assert x in sorted;
      var i :| 0 <= i < |sorted| && sorted[i] == x;
    }
  }

  /** The hourly points of a counter are exactly its samples bucketed by the hour. */
  lemma {:induction false} HourlyIsBucketed(points: seq<RawPoint>, series: string, lo: int, hi: int, i: nat)
    requires DistinctTimes(SeriesIn(points, series, lo, hi))
    requires i < |BucketLast(SeriesIn(points, series, lo, hi), Every(HOUR))|
    ensures var row := BucketLast(SeriesIn(points, series, lo, hi), Every(HOUR))[i];
            var rolled := Rollup(points, LastOf, lo, hi);
            (series, row.time) in rolled && rolled[(series, row.time)] == row.value
  {
    var samples := SeriesIn(points, series, lo, hi);
    var sorted := SortByTime(samples);
    var p := Picks(sorted, Every(HOUR))[i];
    var key := (series, HourOf(p.time));
    SortFacts(samples);
    EveryIncreasing(HOUR);
    SortedIsOrdered(sorted, Every(HOUR));
    PicksAreSubsequence(sorted, Every(HOUR));
    SubsequenceIn(Picks(sorted, Every(HOUR)), sorted);
    PickIsLastOfHour(points, key, lo, hi, sorted, p);
    RollupFacts(points, LastOf, lo, hi, key);
    SelectNonEmpty(points, key, lo, hi);
  }

  lemma {:induction false} PickIsLastOfHour(points: seq<RawPoint>, key: Key, lo: int, hi: int, sorted: seq<Sample>,
      p: Sample)
    requires DistinctTimes(SeriesIn(points, key.0, lo, hi)) && key.1 == HourOf(p.time)
    requires Sorted(sorted) && BucketsOrdered(sorted, Every(HOUR)) && p in Picks(sorted, Every(HOUR)) && p in sorted
    requires forall x :: x in sorted <==> x in SeriesIn(points, key.0, lo, hi)
    ensures Select(points, key, lo, hi) != [] && LastOf(Select(points, key, lo, hi)) == p.value
  {
    SelectMembers(points, key, lo, hi, p);
    var q := LastFacts(Select(points, key, lo, hi));
    SelectMembers(points, key, lo, hi, q);
    PickIsLast(sorted, Every(HOUR), p, q);
  }

  /** Every hourly point of the series is one of those. */
  lemma {:induction false} HourlyIsComplete(points: seq<RawPoint>, series: string, lo: int, hi: int, hour: int)
    requires (series, hour) in Rollup(points, LastOf, lo, hi)
    ensures exists i :: 0 <= i < |BucketLast(SeriesIn(points, series, lo, hi), Every(HOUR))|
                        && BucketLast(SeriesIn(points, series, lo, hi), Every(HOUR))[i].time == hour
  {
    RollupFacts(points, LastOf, lo, hi, (series, hour));
    SelectNonEmpty(points, (series, hour), lo, hi);
    var x := Select(points, (series, hour), lo, hi)[0];
    SelectMembers(points, (series, hour), lo, hi, x);
    var i := RowOfBucket(SeriesIn(points, series, lo, hi), Every(HOUR), x);
  }

  /** `hourly` lists the points of the series in the rollup, in any order. */
  ghost predicate Lists(hourly: seq<Sample>, rolled: Rolled, series: string) {
    && DistinctTimes(hourly)
    && forall s :: s in hourly <==> (series, s.time) in rolled && rolled[(series, s.time)] == s.value
  }

  lemma {:induction false} HourlyMembers(points: seq<RawPoint>, series: string, lo: int, hi: int, s: Sample)
    requires DistinctTimes(SeriesIn(points, series, lo, hi))
    ensures var rolled := Rollup(points, LastOf, lo, hi);
            s in BucketLast(SeriesIn(points, series, lo, hi), Every(HOUR))
            <==> (series, s.time) in rolled && rolled[(series, s.time)] == s.value
  {
    var rolled, rows := Rollup(points, LastOf, lo, hi), BucketLast(SeriesIn(points, series, lo, hi), Every(HOUR));
    if s in rows {
      var i :| 0 <= i < |rows| && rows[i] == s;
      HourlyIsBucketed(points, series, lo, hi, i);
    }
    if (series, s.time) in rolled {
      HourlyIsComplete(points, series, lo, hi, s.time);
      var i :| 0 <= i < |rows| && rows[i].time == s.time;
      HourlyIsBucketed(points, series, lo, hi, i);
      assert rows[i] in rows;
    }
  }

  /** What is read from the rollup, in the order of time, are the bucket-last samples; they are such a list. */
  lemma {:induction false} HourlyPoints(points: seq<RawPoint>, series: string, lo: int, hi: int)
    requires DistinctTimes(SeriesIn(points, series, lo, hi))
    ensures var rolled := Rollup(points, LastOf, lo, hi);
            var rows := BucketLast(SeriesIn(points, series, lo, hi), Every(HOUR));
            Lists(rows, rolled, series) && forall hourly :: Lists(hourly, rolled, series) ==> SortByTime(hourly) == rows
  {
    var rolled, rows := Rollup(points, LastOf, lo, hi), BucketLast(SeriesIn(points, series, lo, hi), Every(HOUR));
    EveryIncreasing(HOUR);
    BucketLastFacts(SeriesIn(points, series, lo, hi), Every(HOUR));
    forall s
      ensures s in rows <==> (series, s.time) in rolled && rolled[(series, s.time)] == s.value
    {
      HourlyMembers(points, series, lo, hi, s);
    }
    forall hourly | Lists(hourly, rolled, series)
      ensures SortByTime(hourly) == rows
    {
      SortFacts(hourly);
      SortAscending(hourly);
      AscendingMembers(SortByTime(hourly), rows);
    }
  }

  /**
   * Reading a counter from the 1h rollups never overstates its increase. On a counter that never
   * drops exactly the part up to the first hour's last sample is missing.
   */
  lemma {:induction false} RollupIncrease(onReset: OnReset, points: seq<RawPoint>, series: string, lo: int, hi: int,
      hourly: seq<Sample>)
    requires DistinctTimes(SeriesIn(points, series, lo, hi))
             && NonNegative(Values(SortByTime(SeriesIn(points, series, lo, hi))))
    requires Lists(hourly, Rollup(points, LastOf, lo, hi), series)
    ensures var raw := SeriesIn(points, series, lo, hi);
            && Eval(Increase(onReset), hourly) <= Eval(Increase(onReset), raw)
            && (raw != [] && Monotone(Values(SortByTime(raw))) ==>
                  SortByTime(hourly) != [] && SortByTime(raw) != [] &&
                  Eval(Increase(onReset), raw) - Eval(Increase(onReset), hourly)
                  == SortByTime(hourly)[0].value - SortByTime(raw)[0].value)
  {
    var raw := SeriesIn(points, series, lo, hi);
    EveryIncreasing(HOUR);
    HourlyPoints(points, series, lo, hi);
    IncreaseMeaning(onReset, hourly);
    BucketedIncrease(onReset, raw, Every(HOUR));
    if raw != [] && Monotone(Values(SortByTime(raw))) {
      BucketedGap(onReset, raw, Every(HOUR));
    }
  }
}
