/**
 * The statement masks of one environment: `_masks` of dashboards/ch_compare_statements.py with a filter on
 * the environment and without the environment as a key, the input of the two share panels. It shows what the
 * form for both environments shows of that environment.
 */
module MaskSides {
  import opened Text
  import opened Grouping
  import opened Queries
  import opened MaskCompare
  import Counters

  // ---------------------------------------------------------------- WHERE env = ...

  function OfEnv(points: seq<MaskPoint>, env: string): seq<MaskPoint> {
    if points == [] then []
    else if TagOf(points[0].tags, "env") == env then [points[0]] + OfEnv(points[1..], env)
    else OfEnv(points[1..], env)
  }

  function TextsOfEnv(texts: seq<TextPoint>, env: string): (r: seq<TextPoint>)
    ensures forall t :: t in r <==> t in texts && t.key.env == env
  {
    if texts == [] then []
    else
      var rest := TextsOfEnv(texts[1..], env);
      assert texts == [texts[0]] + texts[1..];
      if texts[0].key.env == env then [texts[0]] + rest else rest
  }

  /** `_masks(CH_SIDE[side])` */
  function SideMasks(points: seq<MaskPoint>, texts: seq<TextPoint>, env: string): seq<MaskRow> {
    Masks(OfEnv(points, env), TextsOfEnv(texts, env), false)
  }

  /** Every point has the column `env`. */
  predicate AllTagged(points: seq<MaskPoint>) {
    forall i :: 0 <= i < |points| ==> "env" in points[i].tags
  }

  // ---------------------------------------------------------------- the series of one environment

  predicate Tagged(points: seq<Point>) {
    forall i :: 0 <= i < |points| ==> "env" in points[i].tags
  }

  function WhereEnv(points: seq<Point>, env: string): seq<Point> {
    if points == [] then []
    else if TagOf(points[0].tags, "env") == env then [points[0]] + WhereEnv(points[1..], env)
    else WhereEnv(points[1..], env)
  }

  lemma {:induction false} ColumnOfEnv(points: seq<MaskPoint>, c: Counter, env: string)
    requires AllTagged(points)
    ensures Tagged(Column(points, c))
    ensures Column(OfEnv(points, env), c) == WhereEnv(Column(points, c), env)
  {
    if points != [] {
      ColumnOfEnv(points[1..], c, env);
      if TagOf(points[0].tags, "env") == env {
        assert OfEnv(points, env)[1..] == OfEnv(points[1..], env);
      }
    }
  }

  const WITH_ENV: set<string> := SeriesColumns(true)

  function Strip(tags: Tags): Tags {
    tags - {"env"}
  }

  /** The keys of one environment, without it. */
  function SideKeys(keys: seq<Tags>, env: string): seq<Tags> {
    if keys == [] then []
    else if TagOf(keys[0], "env") == env then [Strip(keys[0])] + SideKeys(keys[1..], env)
    else SideKeys(keys[1..], env)
  }

  predicate KeysTagged(keys: seq<Tags>) {
    forall i :: 0 <= i < |keys| ==> "env" in keys[i]
  }

  lemma ProjectEnv(tags: Tags)
    requires "env" in tags
    ensures "env" in Project(WITH_ENV)(tags) && Project(WITH_ENV)(tags)["env"] == tags["env"]
    ensures Strip(Project(WITH_ENV)(tags)) == Project(SERIES)(tags)
  {
  }

  lemma SameStripped(a: Tags, b: Tags)
    requires "env" in a && "env" in b && a["env"] == b["env"] && Strip(a) == Strip(b)
    ensures a == b
  {
    forall c
      ensures c in a <==> c in b
      ensures c in a ==> a[c] == b[c]
    {
      assert c != "env" ==> (c in a <==> c in Strip(a)) && (c in b <==> c in Strip(b));
      assert c != "env" && c in a ==> a[c] == Strip(a)[c] && b[c] == Strip(b)[c];
    }
  }

  lemma {:induction false} DropSide(keys: seq<Tags>, key: Tags, env: string)
    requires KeysTagged(keys) && "env" in key
    ensures KeysTagged(Drop(keys, key))
    ensures SideKeys(Drop(keys, key), env) ==
            if key["env"] == env then Drop(SideKeys(keys, env), Strip(key)) else SideKeys(keys, env)
  {
    if keys != [] {
      DropSide(keys[1..], key, env);
      if keys[0] != key && keys[0]["env"] == key["env"] && Strip(keys[0]) == Strip(key) {
        SameStripped(keys[0], key);
      }
    }
  }

  lemma {:induction false} SeriesSide(points: seq<Point>, env: string)
    requires Tagged(points)
    ensures KeysTagged(SeriesOf(points, WITH_ENV))
    ensures SeriesOf(WhereEnv(points, env), SERIES) == SideKeys(SeriesOf(points, WITH_ENV), env)
  {
    if points != [] {
      var key := Project(WITH_ENV)(points[0].tags);
      SeriesSide(points[1..], env);
      ProjectEnv(points[0].tags);
      DropSide(SeriesOf(points[1..], WITH_ENV), key, env);
    }
  }

  lemma {:induction false} SamplesSide(points: seq<Point>, key: Tags)
    requires Tagged(points) && "env" in key
    ensures SeriesSamples(points, key, WITH_ENV) == SeriesSamples(WhereEnv(points, key["env"]), Strip(key), SERIES)
  {
    if points != [] {
      var own := Project(WITH_ENV)(points[0].tags);
      SamplesSide(points[1..], key);
      ProjectEnv(points[0].tags);
      if own["env"] == key["env"] && Strip(own) == Strip(key) {
        SameStripped(own, key);
      }
    }
  }

  // ---------------------------------------------------------------- their rows and sums

  function KeyRows(points: seq<Point>, keys: seq<Tags>, columns: set<string>): seq<Row<Tags>> {
    if keys == [] then []
    else
      [Row(keys[0], Counters.Eval(Counters.Increase(Counters.Ignore), SeriesSamples(points, keys[0], columns)))]
      + KeyRows(points, keys[1..], columns)
  }

  lemma {:induction false} TableRowsOfKeys(points: seq<Point>, keys: seq<Tags>, columns: set<string>,
      series: seq<Series>)
    requires |series| == |keys|
    requires forall i :: 0 <= i < |keys| ==> series[i] == Series(keys[i], SeriesSamples(points, keys[i], columns))
    ensures TableRows(Counters.Ignore, series) == KeyRows(points, keys, columns)
  {
    if keys != [] {
      TableRowsOfKeys(points, keys[1..], columns, series[1..]);
    }
  }

  lemma {:induction false} PerUserRows(points: seq<MaskPoint>, c: Counter, byEnv: bool)
    ensures PerUser(points, c, byEnv) == KeyRows(Column(points, c), SeriesOf(Column(points, c), SeriesColumns(byEnv)),
                                                 SeriesColumns(byEnv))
  {
    var stored, columns := Column(points, c), SeriesColumns(byEnv);
    TableRowsOfKeys(stored, SeriesOf(stored, columns), columns, SeriesList(stored, columns));
  }

  lemma SideId(key: Tags, env: string, id: MaskId)
    requires "env" in key && id.env == env
    ensures MaskIdOf(key) == id <==> key["env"] == env && MaskIdOf(Strip(key)) == id.(env := "")
  {
  }

  lemma {:induction false} SideSums(points: seq<Point>, keys: seq<Tags>, env: string, id: MaskId)
    requires Tagged(points) && KeysTagged(keys) && id.env == env
    ensures var all := Rekey(KeyRows(points, keys, WITH_ENV), MaskIdOf);
            var side := Rekey(KeyRows(WhereEnv(points, env), SideKeys(keys, env), SERIES), MaskIdOf);
            SumOf(all, id) == SumOf(side, id.(env := "")) && (HasKey(all, id) <==> HasKey(side, id.(env := "")))
  {
    if keys != [] {
      var key := keys[0];
      SideSums(points, keys[1..], env, id);
      SideId(key, env, id);
      HeadKey(Rekey(KeyRows(points, keys, WITH_ENV), MaskIdOf));
      if key["env"] == env {
        SamplesSide(points, key);
        assert SideKeys(keys, env)[1..] == SideKeys(keys[1..], env);
        HeadKey(Rekey(KeyRows(WhereEnv(points, env), SideKeys(keys, env), SERIES), MaskIdOf));
      }
    }
  }

  lemma {:induction false} SumsOfSide(points: seq<MaskPoint>, c: Counter, env: string, id: MaskId)
    requires AllTagged(points) && id.env == env
    ensures SumOverUsers(points, c, id, true) == SumOverUsers(OfEnv(points, env), c, id.(env := ""), false)
    ensures HasKey(Rekey(PerUser(points, c, true), MaskIdOf), id)
       <==> HasKey(Rekey(PerUser(OfEnv(points, env), c, false), MaskIdOf), id.(env := ""))
  {
    var stored := Column(points, c);
    ColumnOfEnv(points, c, env);
    PerUserRows(points, c, true);
    PerUserRows(OfEnv(points, env), c, false);
    SeriesSide(stored, env);
    SideSums(stored, SeriesOf(stored, WITH_ENV), env, id);
  }

  lemma SumsMember(points: seq<MaskPoint>, byEnv: bool, s: SumRow)
    ensures s in Sums(points, byEnv) <==>
              && HasKey(Rekey(PerUser(points, TotalMs, byEnv), MaskIdOf), s.key)
              && s.totalMs == SumOverUsers(points, TotalMs, s.key, byEnv)
              && s.calls == SumOverUsers(points, Calls, s.key, byEnv)
              && s.rows == SumOverUsers(points, RowCount, s.key, byEnv)
  {
    var keyed, sums := Rekey(PerUser(points, TotalMs, byEnv), MaskIdOf), Sums(points, byEnv);
    GroupSumFacts(keyed);
    if s in sums {
      var i :| 0 <= i < |sums| && sums[i] == s;
      assert GroupSum(keyed)[i].key == s.key;
    }
    if HasKey(GroupSum(keyed), s.key) {
      var i :| 0 <= i < |GroupSum(keyed)| && GroupSum(keyed)[i].key == s.key;
      assert sums[i].key == s.key;
    }
  }

  /** A row of one environment without that environment. */
  function WithoutEnv(s: SumRow): SumRow {
    s.(key := s.key.(env := ""))
  }

  /** The sums of one environment are the same in both forms, mask by mask. */
  lemma {:induction false} SidesMatch(points: seq<MaskPoint>, s: SumRow)
    requires AllTagged(points)
    ensures s in Sums(points, true) <==> WithoutEnv(s) in Sums(OfEnv(points, s.key.env), false)
  {
    var env := s.key.env;
    SumsMember(points, true, s);
    SumsMember(OfEnv(points, env), false, WithoutEnv(s));
    SumsOfSide(points, TotalMs, env, s.key);
    SumsOfSide(points, Calls, env, s.key);
    SumsOfSide(points, RowCount, env, s.key);
  }

  // ---------------------------------------------------------------- the rows with their texts

  lemma {:induction false} KeysWithoutEnv(points: seq<Point>)
    ensures forall k :: k in SeriesOf(points, SERIES) ==> "env" !in k
  {
    SeriesFacts(points, SERIES);
  }

  lemma {:induction false} IdsWithoutEnv(points: seq<Point>, keys: seq<Tags>, id: MaskId)
    requires forall k :: k in keys ==> "env" !in k
    requires HasKey(Rekey(KeyRows(points, keys, SERIES), MaskIdOf), id)
    ensures id.env == ""
  {
    HeadKey(Rekey(KeyRows(points, keys, SERIES), MaskIdOf));
    if MaskIdOf(keys[0]) != id {
      IdsWithoutEnv(points, keys[1..], id);
    }
  }

  lemma SumsWithoutEnv(points: seq<MaskPoint>, s: SumRow)
    requires s in Sums(points, false)
    ensures s.key.env == ""
  {
    var stored := Column(points, TotalMs);
    SumsMember(points, false, s);
    PerUserRows(points, TotalMs, false);
    KeysWithoutEnv(stored);
    IdsWithoutEnv(stored, SeriesOf(stored, SERIES), s.key);
  }

  lemma {:induction false} KeptText(texts: seq<TextPoint>, env: string, md5: string, row: TextPoint)
    requires IsLatest(KeyTexts(TextsOfEnv(texts, env), false), TextKey("", md5), row)
    ensures exists t :: IsLatest(texts, TextKey(env, md5), t) && t.mask == row.mask
  {
    var kept := TextsOfEnv(texts, env);
    var keyed := KeyTexts(kept, false);
    var i :| 0 <= i < |keyed| && keyed[i] == row;
    forall t | t in texts && t.key == TextKey(env, md5)
      ensures t.time <= row.time
    {
      var k :| 0 <= k < |kept| && kept[k] == t;
      assert keyed[k] == t.(key := TextKey("", md5));
    }
    assert kept[i] in texts && kept[i].key == TextKey(env, md5);
    assert IsLatest(texts, TextKey(env, md5), kept[i]);
  }

  lemma {:induction false} KeptHasText(texts: seq<TextPoint>, env: string, md5: string)
    ensures HasText(KeyTexts(TextsOfEnv(texts, env), false), TextKey("", md5)) <==> HasText(texts, TextKey(env, md5))
  {
    var kept := TextsOfEnv(texts, env);
    var keyed := KeyTexts(kept, false);
    if t :| t in keyed && t.key == TextKey("", md5) {
      var i :| 0 <= i < |keyed| && keyed[i] == t;
      assert kept[i] in texts && kept[i].key == TextKey(env, md5);
    }
    if t :| t in texts && t.key == TextKey(env, md5) {
      var k :| 0 <= k < |kept| && kept[k] == t;
      assert keyed[k].key == TextKey("", md5) && keyed[k] in keyed;
    }
  }

  /**
   * The side form has a row for exactly the masks that the form for both environments has of that
   * environment, with the same sums.
   */
  lemma SideMasksShow(points: seq<MaskPoint>, texts: seq<TextPoint>, s: SumRow)
    requires AllTagged(points)
    ensures s in Sums(points, true) <==>
            exists row :: row in SideMasks(points, texts, s.key.env) && row.sums == WithoutEnv(s)
  {
    var own, kept := OfEnv(points, s.key.env), TextsOfEnv(texts, s.key.env);
    var sums, masks := Sums(own, false), Masks(own, kept, false);
    SidesMatch(points, s);
    MasksCount(own, kept, false);
    forall i | 0 <= i < |sums|
      ensures masks[i].sums == sums[i]
    {
      MasksFacts(own, kept, false, i);
    }
    if WithoutEnv(s) in sums {
      var i :| 0 <= i < |sums| && sums[i] == WithoutEnv(s);
      assert masks[i] in masks;
    }
  }

  /** A row of the side form shows the environment's latest text of its mask. */
  lemma SideMasksTexts(points: seq<MaskPoint>, texts: seq<TextPoint>, env: string, row: MaskRow)
    requires row in SideMasks(points, texts, env)
    ensures var key := TextKey(env, row.sums.key.md5);
            && row.sums.key.env == "" && (row.text.Some? <==> HasText(texts, key))
            && (row.text.Some? ==> exists t :: IsLatest(texts, key, t) && t.mask == row.text.value)
  {
    var own, kept, md5 := OfEnv(points, env), TextsOfEnv(texts, env), row.sums.key.md5;
    MasksCount(own, kept, false);
    var i :| 0 <= i < |Masks(own, kept, false)| && Masks(own, kept, false)[i] == row;
    MasksFacts(own, kept, false, i);
    SumsWithoutEnv(own, row.sums);
    KeptHasText(texts, env, md5);
    if row.text.Some? {
      var t :| IsLatest(KeyTexts(kept, false), TextKey("", md5), t) && t.mask == row.text.value;
      KeptText(texts, env, md5, t);
    }
  }
}
