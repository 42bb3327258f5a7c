/**
 * The aggregation of sql/cluster_stmt_mask.sql, its top-N selection, and the totals of
 * sql/cluster_stmt_totals.sql that it must add up to.
 */
module MaskTotals {
  import opened Grouping
  import opened QueryMask

  /** A row of pg_stat_statements. */
  datatype Entry = Entry(
    userid: nat, dbid: nat, query: string,
    calls: real, totalExecTime: real, rows: real, sharedBlksHit: real, sharedBlksRead: real,
    tempBlksWritten: real, sharedBlkReadTime: real)

  /** The aggregated columns that both queries return; Count is variants or statements. */
  datatype Column = Count | Calls | ExecTime | Rows | BlksHit | BlksRead | TempWritten | BlkReadTime

  function Value(e: Entry, c: Column): real {
    match c
    case Count => 1.0
    case Calls => e.calls
    case ExecTime => e.totalExecTime
    case Rows => e.rows
    case BlksHit => e.sharedBlksHit
    case BlksRead => e.sharedBlksRead
    case TempWritten => e.tempBlksWritten
    case BlkReadTime => e.sharedBlkReadTime
  }

  /** pg_roles and pg_database by oid. */
  datatype Catalog = Catalog(roles: map<nat, string>, databases: map<nat, string>)

  /** oid::text */
  function OidText(oid: nat): string {
    var digit := "0123456789"[oid % 10];
    if oid < 10 then [digit] else OidText(oid / 10) + [digit]
  }

  function NameOf(names: map<nat, string>, oid: nat): string {
    if oid in names then names[oid] else OidText(oid)
  }

  const HIDDEN_ROLES: set<string> := {"rdsadmin", "rdsrepladmin"}

  predicate Visible(catalog: Catalog, e: Entry) {
    (if e.userid in catalog.roles then catalog.roles[e.userid] else "") !in HIDDEN_ROLES
  }

  datatype MaskKey = MaskKey(usename: string, datname: string, mask: string)
  datatype UserKey = UserKey(usename: string, datname: string)

  function MaskKeyOf(catalog: Catalog, e: Entry): MaskKey {
    MaskKey(NameOf(catalog.roles, e.userid), NameOf(catalog.databases, e.dbid), Mask(e.query))
  }

  function UserKeyOf(catalog: Catalog, e: Entry): UserKey {
    UserKey(NameOf(catalog.roles, e.userid), NameOf(catalog.databases, e.dbid))
  }

  /** The visible entries keyed for the mask query, one column. */
  function MaskedRows(catalog: Catalog, entries: seq<Entry>, c: Column): seq<Row<MaskKey>> {
    if entries == [] then []
    else
      (if Visible(catalog, entries[0]) then [Row(MaskKeyOf(catalog, entries[0]), Value(entries[0], c))] else [])
      + MaskedRows(catalog, entries[1..], c)
  }

  function UserRows(catalog: Catalog, entries: seq<Entry>, c: Column): seq<Row<UserKey>> {
    if entries == [] then []
    else
      (if Visible(catalog, entries[0]) then [Row(UserKeyOf(catalog, entries[0]), Value(entries[0], c))] else [])
      + UserRows(catalog, entries[1..], c)
  }

  /** `grouped`: one row per user, database and mask. */
  function Grouped(catalog: Catalog, entries: seq<Entry>, c: Column): seq<Row<MaskKey>> {
    GroupSum(MaskedRows(catalog, entries, c))
  }

  /** The totals query: one row per user and database. */
  function Totals(catalog: Catalog, entries: seq<Entry>, c: Column): seq<Row<UserKey>> {
    GroupSum(UserRows(catalog, entries, c))
  }

  function DropMask(k: MaskKey): UserKey {
    UserKey(k.usename, k.datname)
  }

  lemma {:induction false} UserRowsAreMaskedRows(catalog: Catalog, entries: seq<Entry>, c: Column)
    ensures Rekey(MaskedRows(catalog, entries, c), DropMask) == UserRows(catalog, entries, c)
  {
    if entries != [] {
      UserRowsAreMaskedRows(catalog, entries[1..], c);
      if Visible(catalog, entries[0]) {
        var first := [Row(MaskKeyOf(catalog, entries[0]), Value(entries[0], c))];
        RekeyConcat(first, MaskedRows(catalog, entries[1..], c), DropMask);
        assert first[1..] == [];
      } else {
        assert [] + MaskedRows(catalog, entries[1..], c) == MaskedRows(catalog, entries[1..], c);
      }
    }
  }

  /**
   * Nothing is lost by masking: rolled up over all masks, every column of the mask query is exactly
   * the totals query, row by row; for Count, the variants add up to the statements.
   */
  lemma MasksAddUp(catalog: Catalog, entries: seq<Entry>, c: Column)
    ensures GroupSum(Rekey(Grouped(catalog, entries, c), DropMask)) == Totals(catalog, entries, c)
  {
    RollUp(MaskedRows(catalog, entries, c), DropMask);
    UserRowsAreMaskedRows(catalog, entries, c);
  }

  // ---- what a row holds

  /** The value of a numeral. */
  function Number(numeral: string): int {
    if numeral == "" then 0
    else Number(numeral[..|numeral| - 1]) * 10 + (numeral[|numeral| - 1] as int - '0' as int)
  }

  /** An oid without a name is shown as its number. */
  lemma {:induction false} OidReadBack(oid: nat)
    ensures Number(OidText(oid)) == oid
    ensures forall i :: 0 <= i < |OidText(oid)| ==> '0' <= OidText(oid)[i] <= '9'
    ensures OidText(oid) != "" && (oid > 0 ==> OidText(oid)[0] != '0')
  {
    var digit := "0123456789"[oid % 10];
    assert digit as int == '0' as int + oid % 10;
    if oid < 10 {
      assert [digit][..0] == "";
    } else {
      OidReadBack(oid / 10);
      var init := OidText(oid / 10);
      assert (init + [digit])[..|init|] == init;
    }
  }

  function SumWhere(entries: seq<Entry>, p: Entry -> bool, v: Entry -> real): real {
    if entries == [] then 0.0
    else (if p(entries[0]) then v(entries[0]) else 0.0) + SumWhere(entries[1..], p, v)
  }

  /** `v` reads the column's field. */
  ghost predicate IsColumn(c: Column, v: Entry -> real) {
    && (c == Count ==> forall e :: v(e) == 1.0)
    && (c == Calls ==> forall e :: v(e) == e.calls)
    && (c == ExecTime ==> forall e :: v(e) == e.totalExecTime)
    && (c == Rows ==> forall e :: v(e) == e.rows)
    && (c == BlksHit ==> forall e :: v(e) == e.sharedBlksHit)
    && (c == BlksRead ==> forall e :: v(e) == e.sharedBlksRead)
    && (c == TempWritten ==> forall e :: v(e) == e.tempBlksWritten)
    && (c == BlkReadTime ==> forall e :: v(e) == e.sharedBlkReadTime)
  }

  /** The name of an oid, or the oid itself. */
  ghost predicate Called(names: map<nat, string>, oid: nat, name: string) {
    name == if oid in names then names[oid] else OidText(oid)
  }

  /** An entry of the user in the database that is not one of a hidden role. */
  ghost predicate EntryOf(catalog: Catalog, e: Entry, usename: string, datname: string) {
    && !(e.userid in catalog.roles && catalog.roles[e.userid] == "rdsadmin")
    && !(e.userid in catalog.roles && catalog.roles[e.userid] == "rdsrepladmin")
    && Called(catalog.roles, e.userid, usename) && Called(catalog.databases, e.dbid, datname)
  }

  /** The totals row of a user and database: the column's field summed over exactly their entries. */
  lemma {:induction false} TotalsMean(catalog: Catalog, entries: seq<Entry>, c: Column, usename: string,
      datname: string, p: Entry -> bool, v: Entry -> real)
    requires IsColumn(c, v) && forall e :: p(e) <==> EntryOf(catalog, e, usename, datname)
    ensures SumOf(Totals(catalog, entries, c), UserKey(usename, datname)) == SumWhere(entries, p, v)
  {
    GroupSumFacts(UserRows(catalog, entries, c));
    UserRowsMean(catalog, entries, c, usename, datname, p, v);
  }

  lemma {:induction false} UserRowsMean(catalog: Catalog, entries: seq<Entry>, c: Column, usename: string,
      datname: string, p: Entry -> bool, v: Entry -> real)
    requires IsColumn(c, v) && forall e :: p(e) <==> EntryOf(catalog, e, usename, datname)
    ensures SumOf(UserRows(catalog, entries, c), UserKey(usename, datname)) == SumWhere(entries, p, v)
  {
    if entries != [] {
      var e, rest := entries[0], UserRows(catalog, entries[1..], c);
      UserRowsMean(catalog, entries[1..], c, usename, datname, p, v);
      assert v(e) == Value(e, c);
      assert Visible(catalog, e) && UserKeyOf(catalog, e) == UserKey(usename, datname) <==> p(e);
      RowInFront(UserKeyOf(catalog, e), Value(e, c), rest, UserKey(usename, datname));
    }
  }

  lemma {:induction false} RowInFront<K>(key: K, value: real, rest: seq<Row<K>>, k: K)
    ensures SumOf([Row(key, value)] + rest, k) == (if key == k then value else 0.0) + SumOf(rest, k)
    ensures [] + rest == rest
  {
    assert ([Row(key, value)] + rest)[1..] == rest;
  }

  /** The row of a mask: the same over exactly those entries whose query has that mask. */
  lemma {:induction false} MasksMean(catalog: Catalog, entries: seq<Entry>, c: Column, usename: string,
      datname: string, mask: string, p: Entry -> bool, v: Entry -> real)
    requires IsColumn(c, v)
    requires forall e :: p(e) <==> EntryOf(catalog, e, usename, datname) && Mask(e.query) == mask
    ensures SumOf(Grouped(catalog, entries, c), MaskKey(usename, datname, mask)) == SumWhere(entries, p, v)
  {
    GroupSumFacts(MaskedRows(catalog, entries, c));
    MaskedRowsMean(catalog, entries, c, usename, datname, mask, p, v);
  }

  lemma {:induction false} MaskedRowsMean(catalog: Catalog, entries: seq<Entry>, c: Column, usename: string,
      datname: string, mask: string, p: Entry -> bool, v: Entry -> real)
    requires IsColumn(c, v)
    requires forall e :: p(e) <==> EntryOf(catalog, e, usename, datname) && Mask(e.query) == mask
    ensures SumOf(MaskedRows(catalog, entries, c), MaskKey(usename, datname, mask)) == SumWhere(entries, p, v)
  {
    if entries != [] {
      var e, rest := entries[0], MaskedRows(catalog, entries[1..], c);
      MaskedRowsMean(catalog, entries[1..], c, usename, datname, mask, p, v);
      assert v(e) == Value(e, c);
      assert Visible(catalog, e) && MaskKeyOf(catalog, e) == MaskKey(usename, datname, mask) <==> p(e);
      RowInFront(MaskKeyOf(catalog, e), Value(e, c), rest, MaskKey(usename, datname, mask));
    }
  }

  // ---- the columns of one group stand in the same row

  function KeyList<K>(rows: seq<Row<K>>): (r: seq<K>)
    ensures |r| == |rows|
  {
    seq(|rows|, i requires 0 <= i < |rows| => rows[i].key)
  }

  lemma KeyListCons<K>(rows: seq<Row<K>>)
    ensures rows != [] ==> KeyList(rows) == [rows[0].key] + KeyList(rows[1..])
  {
  }

  lemma {:induction false} SameWithout<K>(a: seq<Row<K>>, b: seq<Row<K>>, key: K)
    requires KeyList(a) == KeyList(b)
    ensures KeyList(Without(a, key)) == KeyList(Without(b, key))
  {
    if a != [] {
      KeyListCons(a);
      KeyListCons(b);
      SameTails(a, b);
      SameWithout(a[1..], b[1..], key);
      KeyListCons(Without(a, key));
      KeyListCons(Without(b, key));
    }
  }

  lemma SameTails<K>(a: seq<Row<K>>, b: seq<Row<K>>)
    requires KeyList(a) == KeyList(b) && a != []
    ensures b != [] && a[0].key == b[0].key && KeyList(a[1..]) == KeyList(b[1..])
  {
    assert |a| == |KeyList(a)| == |KeyList(b)| == |b|;
    assert KeyList(a)[0] == KeyList(b)[0];
    forall i | 0 <= i < |a[1..]|
      ensures KeyList(a[1..])[i] == KeyList(b[1..])[i]
    {
      assert KeyList(a)[i + 1] == KeyList(b)[i + 1];
    }
  }

  lemma {:induction false} SameGroups<K>(a: seq<Row<K>>, b: seq<Row<K>>)
    requires KeyList(a) == KeyList(b)
    ensures KeyList(GroupSum(a)) == KeyList(GroupSum(b))
  {
    if a != [] {
      SameTails(a, b);
      SameGroups(a[1..], b[1..]);
      SameWithout(GroupSum(a[1..]), GroupSum(b[1..]), a[0].key);
      KeyListCons(GroupSum(a));
      KeyListCons(GroupSum(b));
      assert GroupSum(a)[1..] == Without(GroupSum(a[1..]), a[0].key);
      assert GroupSum(b)[1..] == Without(GroupSum(b[1..]), a[0].key);
    } else {
      assert |a| == |KeyList(a)| == |KeyList(b)| == |b|;
    }
  }

  lemma {:induction false} SameMaskedKeys(catalog: Catalog, entries: seq<Entry>, c: Column, d: Column)
    ensures KeyList(MaskedRows(catalog, entries, c)) == KeyList(MaskedRows(catalog, entries, d))
  {
    if entries != [] {
      SameMaskedKeys(catalog, entries[1..], c, d);
      var x, y := MaskedRows(catalog, entries, c), MaskedRows(catalog, entries, d);
      if Visible(catalog, entries[0]) {
        KeyListCons(x);
        KeyListCons(y);
        assert x[1..] == MaskedRows(catalog, entries[1..], c) && y[1..] == MaskedRows(catalog, entries[1..], d);
      } else {
        assert x == MaskedRows(catalog, entries[1..], c) && y == MaskedRows(catalog, entries[1..], d);
      }
    }
  }

  /** Row i of the grouped table is the same group in every column. */
  lemma ColumnsAlign(catalog: Catalog, entries: seq<Entry>, c: Column, d: Column)
    ensures KeyList(Grouped(catalog, entries, c)) == KeyList(Grouped(catalog, entries, d))
  {
    SameMaskedKeys(catalog, entries, c, d);
    SameGroups(MaskedRows(catalog, entries, c), MaskedRows(catalog, entries, d));
  }

  // ---- the top 200 by time and the top 200 by calls

  const TOP := 200

  /** A possible result of row_number() OVER (ORDER BY value DESC): rows in descending order, ties in any order. */
  ghost predicate Ranking(order: seq<nat>, values: seq<real>) {
    && |order| == |values|
    && (forall i :: 0 <= i < |order| ==> order[i] < |values|)
    && (forall i, j :: 0 <= i < j < |order| ==> order[i] != order[j])
    && (forall row: nat :: row < |values| ==> row in order)
    && (forall i, j :: 0 <= i < j < |order| ==> values[order[i]] >= values[order[j]])
  }

  /** The rows with rn <= 200. */
  function Top(order: seq<nat>): set<nat> {
    set i | 0 <= i < |order| && i < TOP :: order[i]
  }

  /** WHERE rn_time <= 200 OR rn_calls <= 200. */
  function Selected(byTime: seq<nat>, byCalls: seq<nat>): set<nat> {
    Top(byTime) + Top(byCalls)
  }

  function FirstOf(order: seq<nat>, n: nat): set<nat>
    requires n <= |order|
  {
    set i | 0 <= i < n :: order[i]
  }

  lemma {:induction false} FirstOfSize(order: seq<nat>, n: nat)
    requires n <= |order|
    requires forall i, j :: 0 <= i < j < |order| ==> order[i] != order[j]
    ensures |FirstOf(order, n)| == n
  {
    if n > 0 {
      FirstOfSize(order, n - 1);
      assert FirstOf(order, n) == FirstOf(order, n - 1) + {order[n - 1]};
    }
  }

  lemma TopSize(order: seq<nat>, values: seq<real>)
    requires Ranking(order, values)
    ensures |Top(order)| == if |order| <= TOP then |order| else TOP
  {
    var n := if |order| <= TOP then |order| else TOP;
    FirstOfSize(order, n);
    assert Top(order) == FirstOf(order, n);
  }

  /** At most 400 masks are collected. */
  lemma AtMost400(byTime: seq<nat>, times: seq<real>, byCalls: seq<nat>, calls: seq<real>)
    requires Ranking(byTime, times) && Ranking(byCalls, calls)
    ensures |Selected(byTime, byCalls)| <= 2 * TOP == 400
  {
    TopSize(byTime, times);
    TopSize(byCalls, calls);
    var a, b := Top(byTime), Top(byCalls);
    assert |a + b| == |a| + |b| - |a * b|;
  }

  /** An omitted mask is dominated by 200 other masks on time, and by 200 others on calls; all of them are collected. */
  lemma OmittedIsDominated(byTime: seq<nat>, times: seq<real>, byCalls: seq<nat>, calls: seq<real>, row: nat)
    requires Ranking(byTime, times) && Ranking(byCalls, calls) && |times| == |calls|
    requires row < |times| && row !in Selected(byTime, byCalls)
    ensures |Top(byTime)| == TOP && |Top(byCalls)| == TOP
    ensures forall other :: other in Top(byTime) ==>
            other != row && other in Selected(byTime, byCalls) && times[other] >= times[row]
    ensures forall other :: other in Top(byCalls) ==>
            other != row && other in Selected(byTime, byCalls) && calls[other] >= calls[row]
  {
    assert row in byTime && row in byCalls;
    var i :| 0 <= i < |byTime| && byTime[i] == row;
    var j :| 0 <= j < |byCalls| && byCalls[j] == row;
    TopSize(byTime, times);
    TopSize(byCalls, calls);
  }

  /** Without more than 200 masks nothing is omitted. */
  lemma SmallTablesComplete(byTime: seq<nat>, times: seq<real>, byCalls: seq<nat>, row: nat)
    requires Ranking(byTime, times) && |times| <= TOP && row < |times|
    ensures row in Selected(byTime, byCalls)
  {
    assert row in byTime;
    var i :| 0 <= i < |byTime| && byTime[i] == row;
  }

  function ColumnValues(rows: seq<Row<MaskKey>>): (r: seq<real>)
    ensures |r| == |rows| && forall i :: 0 <= i < |r| ==> r[i] == rows[i].value
  {
    seq(|rows|, i requires 0 <= i < |rows| => rows[i].value)
  }

  /**
   * The mask query ranks by the summed execution time and by the summed calls: if it leaves out a group, it keeps
   * 200 others with at least its time and 200 others with at least its calls.
   */
  lemma OmittedGroup(catalog: Catalog, entries: seq<Entry>, byTime: seq<nat>, byCalls: seq<nat>, row: nat)
    requires Ranking(byTime, ColumnValues(Grouped(catalog, entries, ExecTime)))
    requires Ranking(byCalls, ColumnValues(Grouped(catalog, entries, Calls)))
    requires row < |Grouped(catalog, entries, Calls)| && row !in Selected(byTime, byCalls)
    ensures var times, calls := Grouped(catalog, entries, ExecTime), Grouped(catalog, entries, Calls);
            && |times| == |calls| && times[row].key == calls[row].key
            && |Top(byTime)| == 200 == |Top(byCalls)|
            && (forall k :: k in Top(byTime) ==>
                  k != row && k in Selected(byTime, byCalls) && k < |times| && times[k].value >= times[row].value)
            && (forall k :: k in Top(byCalls) ==>
                  k != row && k in Selected(byTime, byCalls) && k < |calls| && calls[k].value >= calls[row].value)
  {
    var times, calls := Grouped(catalog, entries, ExecTime), Grouped(catalog, entries, Calls);
    ColumnsAlign(catalog, entries, ExecTime, Calls);
    assert |times| == |KeyList(times)| == |KeyList(calls)| == |calls|;
    assert KeyList(times)[row] == times[row].key && KeyList(calls)[row] == calls[row].key;
    OmittedIsDominated(byTime, ColumnValues(times), byCalls, ColumnValues(calls), row);
  }

  /** The selected rows of one column. */
  function Keep(rows: seq<Row<MaskKey>>, chosen: set<nat>, from: nat): seq<Row<MaskKey>> {
    if rows == [] then []
    else (if from in chosen then [rows[0]] else []) + Keep(rows[1..], chosen, from + 1)
  }

  /** The row is one of the chosen ones; numbers count from `from`. */
  ghost predicate Chosen(rows: seq<Row<MaskKey>>, chosen: set<nat>, from: nat, row: Row<MaskKey>) {
    exists i :: 0 <= i < |rows| && from + i in chosen && rows[i] == row
  }

  lemma ChosenOn(first: Row<MaskKey>, rest: seq<Row<MaskKey>>, chosen: set<nat>, from: nat, row: Row<MaskKey>)
    ensures Chosen([first] + rest, chosen, from, row)
       <==> (from in chosen && first == row) || Chosen(rest, chosen, from + 1, row)
  {
    var rows := [first] + rest;
    assert rows[0] == first;
    if Chosen(rows, chosen, from, row) {
      var i :| 0 <= i < |rows| && from + i in chosen && rows[i] == row;
      assert i > 0 ==> rest[i - 1] == row && from + 1 + (i - 1) in chosen;
    }
    if Chosen(rest, chosen, from + 1, row) {
      var i :| 0 <= i < |rest| && from + 1 + i in chosen && rest[i] == row;
      assert rows[i + 1] == row && from + (i + 1) in chosen;
    }
  }

  lemma {:induction false} KeepMembers(rows: seq<Row<MaskKey>>, chosen: set<nat>, from: nat, row: Row<MaskKey>)
    ensures row in Keep(rows, chosen, from) <==> Chosen(rows, chosen, from, row)
  {
    if rows != [] {
      KeepMembers(rows[1..], chosen, from + 1, row);
      ChosenOn(rows[0], rows[1..], chosen, from, row);
      assert rows == [rows[0]] + rows[1..];
    }
  }

  lemma {:induction false} KeepUnique(rows: seq<Row<MaskKey>>, chosen: set<nat>, from: nat)
    requires UniqueKeys(rows)
    ensures UniqueKeys(Keep(rows, chosen, from))
  {
    if rows != [] {
      var first, kept := rows[0], Keep(rows[1..], chosen, from + 1);
      assert forall i :: 0 <= i < |rows[1..]| ==> rows[1..][i] == rows[i + 1];
      KeepUnique(rows[1..], chosen, from + 1);
      forall i | 0 <= i < |kept|
        ensures kept[i].key != first.key
      {
        KeepMembers(rows[1..], chosen, from + 1, kept[i]);
      }
    }
  }

  lemma {:induction false} KeptOf(rows: seq<Row<MaskKey>>, chosen: set<nat>, i: nat)
    requires i < |rows| && UniqueKeys(rows)
    ensures UniqueKeys(Keep(rows, chosen, 0)) && (rows[i] in Keep(rows, chosen, 0) <==> i in chosen)
  {
    KeepUnique(rows, chosen, 0);
    KeepMembers(rows, chosen, 0, rows[i]);
    if rows[i] in Keep(rows, chosen, 0) {
      var k :| 0 <= k < |rows| && 0 + k in chosen && rows[k] == rows[i];
      assert k == i;
    }
  }

  lemma {:induction false} KeptOccur(rows: seq<Row<MaskKey>>, chosen: set<nat>)
    ensures forall row :: row in Keep(rows, chosen, 0) ==> row in rows
  {
    forall row | row in Keep(rows, chosen, 0)
      ensures row in rows
    {
      KeepMembers(rows, chosen, 0, row);
    }
  }

  /** Exactly the chosen rows are kept, each once. */
  lemma {:induction false} KeptRows(catalog: Catalog, entries: seq<Entry>, c: Column, chosen: set<nat>, i: nat)
    requires i < |Grouped(catalog, entries, c)|
    ensures var kept := Keep(Grouped(catalog, entries, c), chosen, 0);
            && UniqueKeys(kept) && (Grouped(catalog, entries, c)[i] in kept <==> i in chosen)
            && forall row :: row in kept ==> row in Grouped(catalog, entries, c)
  {
    GroupSumFacts(MaskedRows(catalog, entries, c));
    KeptOf(Grouped(catalog, entries, c), chosen, i);
    KeptOccur(Grouped(catalog, entries, c), chosen);
  }

  lemma {:induction false} KeepSum(rows: seq<Row<MaskKey>>, chosen: set<nat>, from: nat, key: UserKey)
    requires forall i :: 0 <= i < |rows| ==> rows[i].value >= 0.0
    ensures 0.0 <= SumOf(Rekey(Keep(rows, chosen, from), DropMask), key) <= SumOf(Rekey(rows, DropMask), key)
  {
    if rows != [] {
      KeepSum(rows[1..], chosen, from + 1, key);
      if from in chosen {
        assert Keep(rows, chosen, from)[1..] == Keep(rows[1..], chosen, from + 1);
      } else {
        assert Keep(rows, chosen, from) == Keep(rows[1..], chosen, from + 1);
      }
    }
  }

  lemma {:induction false} MaskedNonNegative(catalog: Catalog, entries: seq<Entry>, c: Column)
    requires forall i :: 0 <= i < |entries| ==> Value(entries[i], c) >= 0.0
    ensures forall i :: 0 <= i < |MaskedRows(catalog, entries, c)| ==> MaskedRows(catalog, entries, c)[i].value >= 0.0
  {
    if entries != [] {
      MaskedNonNegative(catalog, entries[1..], c);
    }
  }

  lemma {:induction false} SumNonNegative<K>(rows: seq<Row<K>>, key: K)
    requires forall i :: 0 <= i < |rows| ==> rows[i].value >= 0.0
    ensures SumOf(rows, key) >= 0.0
  {
    if rows != [] {
      SumNonNegative(rows[1..], key);
    }
  }

  /** What the top-N panels show for a user and database is at most the total, and never negative. */
  lemma {:induction false} SelectedAtMostTotals(catalog: Catalog, entries: seq<Entry>, c: Column, chosen: set<nat>,
      key: UserKey)
    requires forall i :: 0 <= i < |entries| ==> Value(entries[i], c) >= 0.0
    ensures var kept := Keep(Grouped(catalog, entries, c), chosen, 0);
            0.0 <= SumOf(Rekey(kept, DropMask), key) <= SumOf(Totals(catalog, entries, c), key)
  {
    var rows, groups := MaskedRows(catalog, entries, c), Grouped(catalog, entries, c);
    MaskedNonNegative(catalog, entries, c);
    GroupSumFacts(rows);
    forall i | 0 <= i < |groups|
      ensures groups[i].value >= 0.0
    {
      RowOfUniqueKey(groups, i);
      SumNonNegative(rows, groups[i].key);
    }
    KeepSum(groups, chosen, 0, key);
    MasksAddUp(catalog, entries, c);
    GroupSumFacts(Rekey(groups, DropMask));
  }
}
