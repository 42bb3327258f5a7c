/**
 * What a row of the statement masks sums, from the stored points of pg_stmt_mask: for each user the increase of
 * one field over the user's own points of the mask.
 */
module MaskUsers {
  import opened Grouping
  import opened Queries
  import opened MaskCompare
  import opened MaskSides
  import Counters

  /** The field of each panel column. */
  ghost predicate IsField(c: Counter, v: MaskPoint -> real) {
    && (c == TotalMs ==> forall p :: v(p) == p.totalExecTime)
    && (c == Calls ==> forall p :: v(p) == p.calls)
    && (c == RowCount ==> forall p :: v(p) == p.rows)
  }

  /** The point belongs to the mask of the user, in the database and environment. */
  predicate BelongsTo(tags: Tags, id: MaskId, user: string) {
    && "env" in tags && tags["env"] == id.env
    && "datname" in tags && tags["datname"] == id.datname
    && "query_mask_md5" in tags && tags["query_mask_md5"] == id.md5
    && "usename" in tags && tags["usename"] == user
  }

  /** The values of a field in those points, with their times. */
  function FieldSamples(points: seq<MaskPoint>, id: MaskId, user: string, v: MaskPoint -> real)
    : seq<Counters.Sample>
  {
    if points == [] then []
    else if BelongsTo(points[0].tags, id, user) then
      [Counters.Sample(points[0].time, v(points[0]))] + FieldSamples(points[1..], id, user, v)
    else FieldSamples(points[1..], id, user, v)
  }

  /** The increases of the users, added up. */
  function SumUsers(points: seq<MaskPoint>, id: MaskId, users: seq<string>, v: MaskPoint -> real): real {
    if users == [] then 0.0
    else
      Counters.Eval(Counters.Increase(Counters.Ignore), FieldSamples(points, id, users[0], v))
      + SumUsers(points, id, users[1..], v)
  }

  /** Every point has the four columns. */
  predicate Complete(points: seq<MaskPoint>) {
    forall i :: 0 <= i < |points| ==>
      "env" in points[i].tags && "datname" in points[i].tags && "usename" in points[i].tags
      && "query_mask_md5" in points[i].tags
  }

  function KeyOf(id: MaskId, user: string): Tags {
    map["env" := id.env, "datname" := id.datname, "query_mask_md5" := id.md5, "usename" := user]
  }

  lemma KeyMeans(tags: Tags, id: MaskId, user: string)
    requires "env" in tags && "datname" in tags && "usename" in tags && "query_mask_md5" in tags
    ensures Project(WITH_ENV)(tags) == KeyOf(id, user) <==> BelongsTo(tags, id, user)
  {
    var p, k := Project(WITH_ENV)(tags), KeyOf(id, user);
    assert p.Keys == {"env", "datname", "query_mask_md5", "usename"} == k.Keys;
    assert p["env"] == tags["env"] && p["datname"] == tags["datname"];
    assert p["query_mask_md5"] == tags["query_mask_md5"] && p["usename"] == tags["usename"];
    assert k["env"] == id.env && k["datname"] == id.datname && k["query_mask_md5"] == id.md5 && k["usename"] == user;
  }

  lemma {:induction false} FieldSamplesAre(points: seq<MaskPoint>, c: Counter, id: MaskId, user: string,
      v: MaskPoint -> real)
    requires IsField(c, v) && Complete(points)
    ensures SeriesSamples(Column(points, c), KeyOf(id, user), WITH_ENV) == FieldSamples(points, id, user, v)
  {
    if points != [] {
      var rest := points[1..];
      assert forall i :: 0 <= i < |rest| ==> rest[i] == points[i + 1];
      FieldSamplesAre(rest, c, id, user, v);
      KeyMeans(points[0].tags, id, user);
      assert v(points[0]) == ReadCounter(points[0], c);
      assert Column(points, c)[1..] == Column(rest, c);
    }
  }

  // ---- the rows of one mask are the rows of its users

  function Value(stored: seq<Point>, key: Tags): real {
    Counters.Eval(Counters.Increase(Counters.Ignore), SeriesSamples(stored, key, WITH_ENV))
  }

  /** The users' rows among the listed series. */
  function ListedUsers(stored: seq<Point>, keys: seq<Tags>, id: MaskId, users: seq<string>): real {
    if users == [] then 0.0
    else
      (if KeyOf(id, users[0]) in keys then Value(stored, KeyOf(id, users[0])) else 0.0)
      + ListedUsers(stored, keys, id, users[1..])
  }

  lemma KeyOfUser(id: MaskId, a: string, b: string)
    ensures KeyOf(id, a) == KeyOf(id, b) <==> a == b
  {
    assert KeyOf(id, a)["usename"] == a && KeyOf(id, b)["usename"] == b;
  }

  /** A further series adds its row to the one user it belongs to. */
  lemma {:induction false} ListedOn(stored: seq<Point>, key: Tags, keys: seq<Tags>, id: MaskId, users: seq<string>)
    requires key !in keys && Unique(users)
    ensures ListedUsers(stored, [key] + keys, id, users) ==
            ListedUsers(stored, keys, id, users)
            + (if exists u :: u in users && KeyOf(id, u) == key then Value(stored, key) else 0.0)
  {
    if users != [] {
      var first, others := users[0], users[1..];
      assert users == [first] + others;
      ListedOn(stored, key, keys, id, others);
      if u :| u in others && KeyOf(id, u) == key {
        KeyOfUser(id, u, first);
      }
    }
  }

  /** The series' keys have the four columns and nothing else. */
  ghost predicate FullKeys(keys: seq<Tags>) {
    forall k :: k in keys ==> k.Keys == {"env", "datname", "query_mask_md5", "usename"}
  }

  lemma FullKeyIs(key: Tags, id: MaskId)
    requires key.Keys == {"env", "datname", "query_mask_md5", "usename"}
    ensures MaskIdOf(key) == id <==> key == KeyOf(id, key["usename"])
  {
    var k := KeyOf(id, key["usename"]);
    assert k.Keys == key.Keys;
    if MaskIdOf(key) == id {
      assert forall c :: c in key ==> key[c] == k[c];
    }
  }

  lemma {:induction false} RowsAreUsers(stored: seq<Point>, keys: seq<Tags>, id: MaskId, users: seq<string>)
    requires Unique(keys) && Unique(users) && FullKeys(keys)
    requires forall k :: k in keys && MaskIdOf(k) == id ==> k["usename"] in users
    ensures SumOf(Rekey(KeyRows(stored, keys, WITH_ENV), MaskIdOf), id) == ListedUsers(stored, keys, id, users)
  {
    if keys == [] {
      NoneListed(stored, id, users);
    } else {
      var key, others := keys[0], keys[1..];
      assert keys == [key] + others;
      RowsAreUsers(stored, others, id, users);
      ListedOn(stored, key, others, id, users);
      FullKeyIs(key, id);
      if u :| u in users && KeyOf(id, u) == key {
        assert key["usename"] == u;
      }
    }
  }

  lemma {:induction false} NoneListed(stored: seq<Point>, id: MaskId, users: seq<string>)
    ensures ListedUsers(stored, [], id, users) == 0.0
  {
    if users != [] {
      NoneListed(stored, id, users[1..]);
    }
  }

  /** A user without points of the mask has no series, and adds nothing. */
  lemma {:induction false} AllListed(points: seq<MaskPoint>, c: Counter, id: MaskId, users: seq<string>,
      v: MaskPoint -> real)
    requires IsField(c, v) && Complete(points)
    ensures ListedUsers(Column(points, c), SeriesOf(Column(points, c), WITH_ENV), id, users)
         == SumUsers(points, id, users, v)
  {
    if users != [] {
      var stored, key := Column(points, c), KeyOf(id, users[0]);
      AllListed(points, c, id, users[1..], v);
      FieldSamplesAre(points, c, id, users[0], v);
      if key !in SeriesOf(stored, WITH_ENV) {
        NoPoints(stored, key);
        NoIncrease();
      }
    }
  }

  lemma {:induction false} NoPoints(stored: seq<Point>, key: Tags)
    requires key !in SeriesOf(stored, WITH_ENV)
    ensures SeriesSamples(stored, key, WITH_ENV) == []
  {
    SeriesFacts(stored, WITH_ENV);
    NoneOccur(stored, key);
  }

  lemma {:induction false} NoneOccur(stored: seq<Point>, key: Tags)
    requires !Occurs(stored, WITH_ENV, key)
    ensures SeriesSamples(stored, key, WITH_ENV) == []
  {
    if stored != [] {
      assert stored == [stored[0]] + stored[1..];
      OccursCons(stored[0], stored[1..], WITH_ENV, key);
      NoneOccur(stored[1..], key);
    }
  }

  lemma NoIncrease()
    ensures Counters.Eval(Counters.Increase(Counters.Ignore), []) == 0.0
  {
    Counters.IncreaseMeaning(Counters.Ignore, []);
  }

  lemma {:induction false} StoredTags(points: seq<MaskPoint>, c: Counter)
    requires Complete(points)
    ensures |Column(points, c)| == |points|
    ensures forall i :: 0 <= i < |points| ==> Column(points, c)[i].tags == points[i].tags
  {
    if points != [] {
      assert forall i :: 0 <= i < |points[1..]| ==> points[1..][i] == points[i + 1];
      StoredTags(points[1..], c);
    }
  }

  lemma {:induction false} KeysFull(points: seq<MaskPoint>, c: Counter, id: MaskId, users: seq<string>)
    requires Complete(points)
    requires forall i :: 0 <= i < |points| ==> points[i].tags["usename"] in users
    ensures FullKeys(SeriesOf(Column(points, c), WITH_ENV))
    ensures forall k :: k in SeriesOf(Column(points, c), WITH_ENV) && MaskIdOf(k) == id ==>
              "usename" in k && k["usename"] in users
  {
    var stored := Column(points, c);
    SeriesFacts(stored, WITH_ENV);
    StoredTags(points, c);
    forall k | k in SeriesOf(stored, WITH_ENV)
      ensures k.Keys == {"env", "datname", "query_mask_md5", "usename"} && k["usename"] in users
    {
      var i :| 0 <= i < |stored| && Project(WITH_ENV)(stored[i].tags) == k;
      assert k["usename"] == points[i].tags["usename"];
    }
  }

  /**
   * A mask's value in a panel column: over all users, each once, the increase of the column's field over the points
   * that have the user, the mask, the database and the environment.
   */
  lemma {:induction false} MaskSumsUsers(points: seq<MaskPoint>, c: Counter, id: MaskId, users: seq<string>,
      v: MaskPoint -> real)
    requires IsField(c, v) && Complete(points) && Unique(users)
    requires forall i :: 0 <= i < |points| ==> points[i].tags["usename"] in users
    ensures SumOverUsers(points, c, id, true) == SumUsers(points, id, users, v)
  {
    var stored := Column(points, c);
    PerUserRows(points, c, true);
    SeriesFacts(stored, WITH_ENV);
    KeysFull(points, c, id, users);
    RowsAreUsers(stored, SeriesOf(stored, WITH_ENV), id, users);
    AllListed(points, c, id, users, v);
  }
}
