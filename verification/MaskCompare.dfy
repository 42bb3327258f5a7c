/**
 * The statement masks of two environments: `_masks` of dashboards/ch_compare_statements.py, one row per
 * mask and environment for the pair query, and the two share forms of dashboards/builder/compare.py.
 */
module MaskCompare {
  import opened Text
  import opened Grouping
  import opened EnvCompare
  import Counters
  import Queries
  import opened InfluxCompare

  // ---------------------------------------------------------------- sums over users

  /** A point of pg_stmt_mask. */
  datatype MaskPoint = MaskPoint(tags: Queries.Tags, time: int, totalExecTime: real, calls: real, rows: real)

  datatype Counter = TotalMs | Calls | RowCount

  function ReadCounter(p: MaskPoint, c: Counter): real {
    match c
    case TotalMs => p.totalExecTime
    case Calls => p.calls
    case RowCount => p.rows
  }

  /** `env` is "" in the form without environments. */
  datatype MaskId = MaskId(env: string, datname: string, md5: string) {
    /** The object that both environments are compared by. */
    function Object(): Key { [datname, md5] }

    /** The columns of USING. */
    function Text(): TextKey { TextKey(env, md5) }
  }

  const SERIES: set<string> := {"datname", "usename", "query_mask_md5"}

  function SeriesColumns(byEnv: bool): set<string> {
    if byEnv then SERIES + {"env"} else SERIES
  }

  function Column(points: seq<MaskPoint>, c: Counter): seq<Queries.Point> {
    if points == [] then []
    else
      [Queries.Point(points[0].tags, Counters.Sample(points[0].time, ReadCounter(points[0], c)))]
      + Column(points[1..], c)
  }

  function TagOf(tags: Queries.Tags, column: string): string {
    if column in tags then tags[column] else ""
  }

  function MaskIdOf(tags: Queries.Tags): MaskId {
    MaskId(TagOf(tags, "env"), TagOf(tags, "datname"), TagOf(tags, "query_mask_md5"))
  }

  /** `per_user`: one row per database, user and mask, and environment if asked; drops of the counter are ignored. */
  function PerUser(points: seq<MaskPoint>, c: Counter, byEnv: bool): seq<Row<Queries.Tags>> {
    Queries.SeriesQuery(Column(points, c), Counters.Ignore, SeriesColumns(byEnv), None)
  }

  /** sum(c) of a mask over its users. */
  function SumOverUsers(points: seq<MaskPoint>, c: Counter, key: MaskId, byEnv: bool): real {
    SumOf(Rekey(PerUser(points, c, byEnv), MaskIdOf), key)
  }

  datatype SumRow = SumRow(key: MaskId, totalMs: real, calls: real, rows: real)

  /** `sums`: GROUP BY [env,] datname, query_mask_md5 over the per-user rows. */
  function Sums(points: seq<MaskPoint>, byEnv: bool): seq<SumRow> {
    var groups := GroupSum(Rekey(PerUser(points, TotalMs, byEnv), MaskIdOf));
    seq(|groups|, i requires 0 <= i < |groups| =>
      var key := groups[i].key;
      SumRow(key, SumOverUsers(points, TotalMs, key, byEnv), SumOverUsers(points, Calls, key, byEnv),
          SumOverUsers(points, RowCount, key, byEnv)))
  }

  lemma SumsUnique(points: seq<MaskPoint>, byEnv: bool)
    ensures var sums := Sums(points, byEnv); forall i, j :: 0 <= i < j < |sums| ==> sums[i].key != sums[j].key
  {
    GroupSumFacts(Rekey(PerUser(points, TotalMs, byEnv), MaskIdOf));
  }

  // ---------------------------------------------------------------- the latest text per mask

  datatype TextKey = TextKey(env: string, md5: string)

  /** A point of pg_stmt_text. */
  datatype TextPoint = TextPoint(key: TextKey, mask: string, time: int)

  function Later(known: TextPoint, p: TextPoint): TextPoint {
    if p.time > known.time then p else known
  }

  /** argMax(query_mask, time) so far, one row per (env, query_mask_md5). */
  function Upsert(latest: seq<TextPoint>, p: TextPoint): seq<TextPoint> {
    if latest == [] then [p]
    else if latest[0].key == p.key then [Later(latest[0], p)] + latest[1..]
    else [latest[0]] + Upsert(latest[1..], p)
  }

  /** `texts`: GROUP BY [env,] query_mask_md5, over points with that key. */
  function LatestTexts(texts: seq<TextPoint>): seq<TextPoint> {
    if texts == [] then [] else Upsert(LatestTexts(texts[..|texts| - 1]), texts[|texts| - 1])
  }

  /** `row` is a point of `texts` with that key, and no other one with the key is later. */
  ghost predicate IsLatest(texts: seq<TextPoint>, key: TextKey, row: TextPoint) {
    row in texts && row.key == key && forall t :: t in texts && t.key == key ==> t.time <= row.time
  }

  ghost predicate HasText(texts: seq<TextPoint>, key: TextKey) {
    exists t :: t in texts && t.key == key
  }

  // ---------------------------------------------------------------- LEFT JOIN ... USING (env, query_mask_md5)

  /** A row of `_masks(..., by_env=True)`; no text: the column default. */
  datatype MaskRow = MaskRow(sums: SumRow, text: Option<string>)

  function Matches(texts: seq<TextPoint>, key: TextKey): seq<TextPoint> {
    if texts == [] then []
    else (if texts[0].key == key then [texts[0]] else []) + Matches(texts[1..], key)
  }

  function WithTexts(s: SumRow, matches: seq<TextPoint>): seq<MaskRow> {
    if matches == [] then [MaskRow(s, None)]
    else seq(|matches|, i requires 0 <= i < |matches| => MaskRow(s, Some(matches[i].mask)))
  }

  function LeftJoin(sums: seq<SumRow>, texts: seq<TextPoint>): seq<MaskRow> {
    if sums == [] then [] else WithTexts(sums[0], Matches(texts, sums[0].key.Text())) + LeftJoin(sums[1..], texts)
  }

  predicate AtMostOneMatch(sums: seq<SumRow>, texts: seq<TextPoint>) {
    forall i :: 0 <= i < |sums| ==> |Matches(texts, sums[i].key.Text())| <= 1
  }

  /** The join keeps the number of rows if and only if no row finds two texts. */
  lemma {:induction false} JoinKeepsCount(sums: seq<SumRow>, texts: seq<TextPoint>)
    ensures |LeftJoin(sums, texts)| >= |sums|
    ensures |LeftJoin(sums, texts)| == |sums| <==> AtMostOneMatch(sums, texts)
  {
    if sums != [] {
      JoinKeepsCount(sums[1..], texts);
      assert AtMostOneMatch(sums, texts) <==>
          |Matches(texts, sums[0].key.Text())| <= 1 && AtMostOneMatch(sums[1..], texts) by {
        assert forall i :: 0 < i < |sums| ==> sums[i] == sums[1..][i - 1];
        assert forall i :: 0 <= i < |sums[1..]| ==> sums[1..][i] == sums[i + 1];
      }
    }
  }

  /** Then row i of the join is row i of the sums, with its only text. */
  lemma {:induction false} JoinRows(sums: seq<SumRow>, texts: seq<TextPoint>, i: nat)
    requires AtMostOneMatch(sums, texts) && i < |sums|
    ensures |LeftJoin(sums, texts)| == |sums|
    ensures var matches := Matches(texts, sums[i].key.Text());
            LeftJoin(sums, texts)[i] == MaskRow(sums[i], if matches == [] then None else Some(matches[0].mask))
  {
    JoinKeepsCount(sums, texts);
    JoinKeepsCount(sums[1..], texts);
    if i > 0 {
      forall k | 0 <= k < |sums[1..]|
        ensures |Matches(texts, sums[1..][k].key.Text())| <= 1
      {
        assert sums[1..][k] == sums[k + 1];
      }
      JoinRows(sums[1..], texts, i - 1);
    }
  }

  lemma {:induction false} MatchesUpsert(latest: seq<TextPoint>, p: TextPoint, key: TextKey)
    ensures var before := Matches(latest, key);
            Matches(Upsert(latest, p), key) ==
              if key != p.key then before else if before == [] then [p] else [Later(before[0], p)] + before[1..]
  {
    if latest != [] {
      MatchesUpsert(latest[1..], p, key);
      assert Upsert(latest, p)[1..] == if latest[0].key == p.key then latest[1..] else Upsert(latest[1..], p);
    }
  }

  /** One row if the key has a text, its latest one; none otherwise. */
  ghost predicate OnlyLatest(texts: seq<TextPoint>, key: TextKey, matches: seq<TextPoint>) {
    if HasText(texts, key) then |matches| == 1 && IsLatest(texts, key, matches[0]) else matches == []
  }

  lemma OnlyLatestOn(init: seq<TextPoint>, p: TextPoint, before: seq<TextPoint>)
    requires OnlyLatest(init, p.key, before)
    ensures OnlyLatest(init + [p], p.key, if before == [] then [p] else [Later(before[0], p)] + before[1..])
  {
    assert p in init + [p];
    if before == [] {
      assert forall t :: t in init ==> t.key != p.key;
    }
  }

  lemma OnlyLatestOther(init: seq<TextPoint>, p: TextPoint, key: TextKey, matches: seq<TextPoint>)
    requires p.key != key && OnlyLatest(init, key, matches)
    ensures OnlyLatest(init + [p], key, matches)
  {
    assert forall t :: t in init ==> t in init + [p];
  }

  /** The texts table has one row per (env, query_mask_md5) with a text, and it holds the latest one. */
  lemma {:induction false} LatestMatch(texts: seq<TextPoint>, key: TextKey)
    ensures OnlyLatest(texts, key, Matches(LatestTexts(texts), key))
  {
    if texts != [] {
      var init, p := texts[..|texts| - 1], texts[|texts| - 1];
      LatestMatch(init, key);
      MatchesUpsert(LatestTexts(init), p, key);
      assert texts == init + [p];
      if p.key == key {
        OnlyLatestOn(init, p, Matches(LatestTexts(init), key));
      } else {
        OnlyLatestOther(init, p, key, Matches(LatestTexts(init), key));
      }
    }
  }

  /** The text points under the columns of USING: without environments, by the digest alone. */
  function KeyTexts(texts: seq<TextPoint>, byEnv: bool): (r: seq<TextPoint>)
    ensures |r| == |texts|
    ensures forall i :: 0 <= i < |r| ==>
            r[i] == if byEnv then texts[i] else texts[i].(key := TextKey("", texts[i].key.md5))
  {
    seq(|texts|, i requires 0 <= i < |texts| =>
      if byEnv then texts[i] else texts[i].(key := TextKey("", texts[i].key.md5)))
  }

  /** `_masks(env_filter, by_env)`, the points being those that the filter leaves. */
  function Masks(points: seq<MaskPoint>, texts: seq<TextPoint>, byEnv: bool): seq<MaskRow> {
    LeftJoin(Sums(points, byEnv), LatestTexts(KeyTexts(texts, byEnv)))
  }

  /** The join neither drops nor repeats a mask, and shows the latest text of the mask (in that environment). */
  lemma MasksFacts(points: seq<MaskPoint>, texts: seq<TextPoint>, byEnv: bool, i: nat)
    requires i < |Sums(points, byEnv)|
    ensures |Masks(points, texts, byEnv)| == |Sums(points, byEnv)|
    ensures Masks(points, texts, byEnv)[i].sums == Sums(points, byEnv)[i]
    ensures var id, text := Sums(points, byEnv)[i].key, Masks(points, texts, byEnv)[i].text;
            var key := TextKey(id.env, id.md5);
            && (text.Some? <==> HasText(KeyTexts(texts, byEnv), key))
            && (text.Some? ==> exists t :: IsLatest(KeyTexts(texts, byEnv), key, t) && t.mask == text.value)
  {
    var sums := Sums(points, byEnv);
    forall k | 0 <= k < |sums|
      ensures |Matches(LatestTexts(KeyTexts(texts, byEnv)), sums[k].key.Text())| <= 1
    {
      LatestMatch(KeyTexts(texts, byEnv), sums[k].key.Text());
    }
    JoinRows(sums, LatestTexts(KeyTexts(texts, byEnv)), i);
    LatestMatch(KeyTexts(texts, byEnv), sums[i].key.Text());
  }

  // ---------------------------------------------------------------- as input of the pair query

  function ObjectOf(r: MaskRow): ObjectRow {
    ObjectRow(r.sums.key.Object(), r.sums.key.env,
              map["total_ms" := Some(r.sums.totalMs), "calls" := Some(r.sums.calls), "rows" := Some(r.sums.rows),
                  "mean_ms" := Over(Some(r.sums.totalMs), Some(r.sums.calls))])
  }

  function Objects(masks: seq<MaskRow>): seq<ObjectRow> {
    seq(|masks|, i requires 0 <= i < |masks| => ObjectOf(masks[i]))
  }

  lemma MasksCount(points: seq<MaskPoint>, texts: seq<TextPoint>, byEnv: bool)
    ensures |Masks(points, texts, byEnv)| == |Sums(points, byEnv)|
  {
    JoinKeepsCount(Sums(points, byEnv), LatestTexts(KeyTexts(texts, byEnv)));
    if Sums(points, byEnv) != [] {
      MasksFacts(points, texts, byEnv, 0);
    }
  }

  /** Even after the join there is one row per (datname, query_mask_md5) and environment. */
  lemma MasksAreUnique(points: seq<MaskPoint>, texts: seq<TextPoint>, byEnv: bool)
    ensures OneRowPerObject(Objects(Masks(points, texts, byEnv)))
  {
    var masks := Masks(points, texts, byEnv);
    SumsUnique(points, byEnv);
    MasksCount(points, texts, byEnv);
    forall i, j | 0 <= i < j < |masks|
      ensures ObjectOf(masks[i]).key != ObjectOf(masks[j]).key || ObjectOf(masks[i]).env != ObjectOf(masks[j]).env
    {
      MasksFacts(points, texts, byEnv, i);
      MasksFacts(points, texts, byEnv, j);
      var a, b := masks[i].sums.key, masks[j].sums.key;
      assert a.Object()[0] == a.datname && a.Object()[1] == a.md5;
      assert b.Object()[0] == b.datname && b.Object()[1] == b.md5;
    }
  }

  lemma MaskValues(r: MaskRow)
    ensures var total, calls := Some(r.sums.totalMs), Some(r.sums.calls);
            && ValueOf(ObjectOf(r), "total_ms") == total && ValueOf(ObjectOf(r), "calls") == calls
            && ValueOf(ObjectOf(r), "rows") == Some(r.sums.rows)
            && ValueOf(ObjectOf(r), "mean_ms") == Over(total, calls)
  {
  }

  lemma SumsAt(points: seq<MaskPoint>, byEnv: bool, i: nat)
    requires i < |Sums(points, byEnv)|
    ensures var s := Sums(points, byEnv)[i];
            && s.totalMs == SumOverUsers(points, TotalMs, s.key, byEnv)
            && s.calls == SumOverUsers(points, Calls, s.key, byEnv)
            && s.rows == SumOverUsers(points, RowCount, s.key, byEnv)
  {
  }

  lemma PairShowsMask(points: seq<MaskPoint>, texts: seq<TextPoint>, aliases: seq<string>, envs: Envs, p: PairRow,
      side: Side, i: nat)
    requires p in PairQuery(Objects(Masks(points, texts, true)), aliases, envs)
    requires i < |Sums(points, true)|
    requires var id := Sums(points, true)[i].key; p.key == [id.datname, id.md5] && id.env == envs.Env(side)
    ensures i < |Masks(points, texts, true)|
    ensures forall alias :: alias in aliases ==>
              Get(p.cells, Of(alias, side)) == ValueOf(ObjectOf(Masks(points, texts, true)[i]), alias)
  {
    var masks := Masks(points, texts, true);
    MasksAreUnique(points, texts, true);
    MasksFacts(points, texts, true, i);
    var r := ObjectOf(masks[i]);
    assert Objects(masks)[i] == r;
    assert IsRow(Objects(masks), p.key, envs.Env(side), r);
    forall alias | alias in aliases
      ensures Get(p.cells, Of(alias, side)) == ValueOf(r, alias)
    {
      PanelValues(Objects(masks), aliases, envs, side, alias, p, r);
    }
  }

  /**
   * So every value of the pair row of a mask is that mask's own: on each side the increases of the side's
   * series, summed over the users; the mean is their quotient.
   */
  lemma PairShowsSums(points: seq<MaskPoint>, texts: seq<TextPoint>, aliases: seq<string>, envs: Envs, p: PairRow,
      side: Side, i: nat)
    requires p in PairQuery(Objects(Masks(points, texts, true)), aliases, envs)
    requires i < |Sums(points, true)|
    requires var id := Sums(points, true)[i].key; p.key == [id.datname, id.md5] && id.env == envs.Env(side)
    ensures var key := Sums(points, true)[i].key;
            var total := Some(SumOverUsers(points, TotalMs, key, true));
            var calls := Some(SumOverUsers(points, Calls, key, true));
            && ("total_ms" in aliases ==> Get(p.cells, Of("total_ms", side)) == total)
            && ("calls" in aliases ==> Get(p.cells, Of("calls", side)) == calls)
            && ("rows" in aliases ==> Get(p.cells, Of("rows", side)) == Some(SumOverUsers(points, RowCount, key, true)))
            && ("mean_ms" in aliases ==> Get(p.cells, Of("mean_ms", side)) == Over(total, calls))
  {
    PairShowsMask(points, texts, aliases, envs, p, side, i);
    MasksFacts(points, texts, true, i);
    MaskValues(Masks(points, texts, true)[i]);
    SumsAt(points, true, i);
  }

  // ---------------------------------------------------------------- shares of the env total

  datatype EnvObject = EnvObject(env: string, object: Key)

  /** value / env_total in Grafana; both are numbers. */
  function Share(g: Grafana, value: real, total: real): Cell {
    Compute(g, Divide, Some(value), Some(total))
  }

  /** `ch_share`: value / nullIf(sum(value) OVER (), 0), one environment per query. */
  function WindowShares<K>(rows: seq<Row<K>>): seq<Cell> {
    seq(|rows|, i requires 0 <= i < |rows| => Over(Some(rows[i].value), Some(Total(rows))))
  }

  /** The second query of `influx_share`: sum(value) GROUP BY env. */
  function EnvTotals(rows: seq<Row<EnvObject>>): seq<Row<string>> {
    GroupSum(Rekey(rows, (k: EnvObject) => k.env))
  }

  function JoinTotals(g: Grafana, r: Row<EnvObject>, totals: seq<Row<string>>): seq<Cell> {
    if totals == [] then []
    else
      (if totals[0].key == r.key.env then [Share(g, r.value, totals[0].value)] else [])
          + JoinTotals(g, r, totals[1..])
  }

  function JoinByEnv(g: Grafana, rows: seq<Row<EnvObject>>, totals: seq<Row<string>>): seq<Cell> {
    if rows == [] then [] else JoinTotals(g, rows[0], totals) + JoinByEnv(g, rows[1..], totals)
  }

  /** `influx_share`: the rows joined with the totals by env, then value / env_total. */
  function JoinedShares(g: Grafana, rows: seq<Row<EnvObject>>): seq<Cell> {
    JoinByEnv(g, rows, EnvTotals(rows))
  }

  function EnvTotal(rows: seq<Row<EnvObject>>, env: string): real {
    if rows == [] then 0.0
    else (if rows[0].key.env == env then rows[0].value else 0.0) + EnvTotal(rows[1..], env)
  }

  lemma {:induction false} EnvTotalIsSum(rows: seq<Row<EnvObject>>, env: string)
    ensures SumOf(Rekey(rows, (k: EnvObject) => k.env), env) == EnvTotal(rows, env)
    ensures forall i :: 0 <= i < |rows| && rows[i].key.env == env ==> HasKey(Rekey(rows, (k: EnvObject) => k.env), env)
  {
    if rows != [] {
      var f := (k: EnvObject) => k.env;
      EnvTotalIsSum(rows[1..], env);
      HeadKey(Rekey(rows, f));
      assert Rekey(rows, f)[1..] == Rekey(rows[1..], f);
      assert forall i :: 0 < i < |rows| ==> rows[i] == rows[1..][i - 1];
    }
  }

  lemma {:induction false} NoTotal(g: Grafana, r: Row<EnvObject>, totals: seq<Row<string>>)
    requires !HasKey(totals, r.key.env)
    ensures JoinTotals(g, r, totals) == []
  {
    if totals != [] {
      HeadKey(totals);
      NoTotal(g, r, totals[1..]);
    }
  }

  lemma {:induction false} OneTotal(g: Grafana, r: Row<EnvObject>, totals: seq<Row<string>>)
    requires UniqueKeys(totals) && HasKey(totals, r.key.env)
    ensures JoinTotals(g, r, totals) == [Share(g, r.value, SumOf(totals, r.key.env))]
  {
    HeadKey(totals);
    if totals[0].key == r.key.env {
      forall i | 0 <= i < |totals[1..]|
        ensures totals[1..][i].key != totals[0].key
      {
        assert totals[1..][i] == totals[i + 1];
      }
      AbsentSum(totals[1..], r.key.env);
      NoTotal(g, r, totals[1..]);
    } else {
      OneTotal(g, r, totals[1..]);
    }
  }

  lemma {:induction false} JoinRowsWithTotals(g: Grafana, rows: seq<Row<EnvObject>>, totals: seq<Row<string>>)
    requires UniqueKeys(totals) && forall i :: 0 <= i < |rows| ==> HasKey(totals, rows[i].key.env)
    ensures |JoinByEnv(g, rows, totals)| == |rows|
    ensures forall i :: 0 <= i < |rows| ==>
            JoinByEnv(g, rows, totals)[i] == Share(g, rows[i].value, SumOf(totals, rows[i].key.env))
  {
    if rows != [] {
      OneTotal(g, rows[0], totals);
      JoinRowsWithTotals(g, rows[1..], totals);
    }
  }

  /** The join keeps every row and gives it the share of its own environment's total. */
  lemma {:induction false} SharesOfOwnEnv(g: Grafana, rows: seq<Row<EnvObject>>)
    ensures |JoinedShares(g, rows)| == |rows|
    ensures forall i :: 0 <= i < |rows| ==>
              JoinedShares(g, rows)[i] == Share(g, rows[i].value, EnvTotal(rows, rows[i].key.env))
  {
    var keyed := Rekey(rows, (k: EnvObject) => k.env);
    GroupSumFacts(keyed);
    forall i | 0 <= i < |rows|
      ensures HasKey(EnvTotals(rows), rows[i].key.env)
      ensures SumOf(EnvTotals(rows), rows[i].key.env) == EnvTotal(rows, rows[i].key.env)
    {
      EnvTotalIsSum(rows, rows[i].key.env);
    }
    JoinRowsWithTotals(g, rows, EnvTotals(rows));
  }

  lemma {:induction false} OneEnvTotal(rows: seq<Row<EnvObject>>, env: string)
    requires forall i :: 0 <= i < |rows| ==> rows[i].key.env == env
    ensures EnvTotal(rows, env) == Total(rows)
  {
    if rows != [] {
      OneEnvTotal(rows[1..], env);
    }
  }

  /** Without a total: the window form is NULL, the joined form Grafana's quotient by 0. */
  lemma {:induction false} SharesOfNothing(g: Grafana, rows: seq<Row<EnvObject>>, env: string, i: nat)
    requires forall k :: 0 <= k < |rows| ==> rows[k].key.env == env
    requires Total(rows) == 0.0 && i < |rows|
    ensures |JoinedShares(g, rows)| == |rows|
    ensures JoinedShares(g, rows)[i] == g.onZero(rows[i].value) && WindowShares(rows)[i] == None
  {
    SharesOfOwnEnv(g, rows);
    OneEnvTotal(rows, env);
  }

  lemma {:induction false} SharesOfTotal(g: Grafana, rows: seq<Row<EnvObject>>, env: string)
    requires forall k :: 0 <= k < |rows| ==> rows[k].key.env == env
    requires Total(rows) != 0.0
    ensures JoinedShares(g, rows) == WindowShares(rows)
  {
    SharesOfOwnEnv(g, rows);
    OneEnvTotal(rows, env);
  }

  /**
   * On the rows of one environment the two share forms are equal, if and only if the total is not 0 or
   * Grafana shows every quotient by 0 as empty.
   */
  lemma {:induction false} SharesAgree(g: Grafana, rows: seq<Row<EnvObject>>, env: string)
    requires forall i :: 0 <= i < |rows| ==> rows[i].key.env == env
    ensures JoinedShares(g, rows) == WindowShares(rows)
       <==> Total(rows) != 0.0 || forall i :: 0 <= i < |rows| ==> g.onZero(rows[i].value) == None
  {
    SharesOfOwnEnv(g, rows);
    if Total(rows) == 0.0 {
      forall i | 0 <= i < |rows|
        ensures JoinedShares(g, rows)[i] == g.onZero(rows[i].value) && WindowShares(rows)[i] == None
      {
        SharesOfNothing(g, rows, env, i);
      }
    } else {
      SharesOfTotal(g, rows, env);
    }
  }

  /** The shares of the rows of one environment, added up. */
  function ShareSum(rows: seq<Row<EnvObject>>, shares: seq<Cell>, env: string): real
    requires |rows| == |shares|
  {
    if rows == [] then 0.0
    else
      (if rows[0].key.env == env && shares[0].Some? then shares[0].value else 0.0)
          + ShareSum(rows[1..], shares[1..], env)
  }

  lemma AddQuotients(x: real, y: real, t: real)
    requires t != 0.0
    ensures x / t + y / t == (x + y) / t
  {
    var a, b := x / t, y / t;
    assert a * t == x && b * t == y;
    assert (a + b) * t == x + y;
  }

  lemma {:induction false} ScaledShareSum(g: Grafana, rows: seq<Row<EnvObject>>, shares: seq<Cell>, env: string,
      total: real)
    requires |rows| == |shares| && total != 0.0
    requires forall i :: 0 <= i < |rows| && rows[i].key.env == env ==>
             shares[i] == Share(g, rows[i].value, total)
    ensures ShareSum(rows, shares, env) == EnvTotal(rows, env) / total
  {
    if rows != [] {
      ScaledShareSum(g, rows[1..], shares[1..], env, total);
      AddQuotients(rows[0].value, EnvTotal(rows[1..], env), total);
    }
  }

  lemma SelfQuotient(t: real)
    requires t != 0.0
    ensures t / t == 1.0
  {
  }

  /** The shares of every environment whose total is not 0 add up to 1. */
  lemma {:induction false} SharesAddUpToOne(g: Grafana, rows: seq<Row<EnvObject>>, env: string)
    requires EnvTotal(rows, env) != 0.0
    ensures |JoinedShares(g, rows)| == |rows| && ShareSum(rows, JoinedShares(g, rows), env) == 1.0
  {
    SharesOfOwnEnv(g, rows);
    var total := EnvTotal(rows, env);
    ScaledShareSum(g, rows, JoinedShares(g, rows), env, total);
    SelfQuotient(total);
  }
}
