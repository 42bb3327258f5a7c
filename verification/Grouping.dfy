/**
 * `SELECT key, sum(value) ... GROUP BY key`: one row per key, in the order in which the keys first
 * appear. Used by the breakdown tables, the rate queries, the mask tables and the env comparison.
 */
module Grouping {

  datatype Row<+K> = Row(key: K, value: real)

  function Total<K>(rows: seq<Row<K>>): real {
    if rows == [] then 0.0 else rows[0].value + Total(rows[1..])
  }

  /** Sum of the values of one key. */
  function SumOf<K(==)>(rows: seq<Row<K>>, key: K): real {
    if rows == [] then 0.0
    else (if rows[0].key == key then rows[0].value else 0.0) + SumOf(rows[1..], key)
  }

  function Without<K(==)>(rows: seq<Row<K>>, key: K): seq<Row<K>> {
    if rows == [] then []
    else if rows[0].key == key then Without(rows[1..], key)
    else [rows[0]] + Without(rows[1..], key)
  }

  ghost predicate HasKey<K>(rows: seq<Row<K>>, key: K) {
    exists i :: 0 <= i < |rows| && rows[i].key == key
  }

  ghost predicate UniqueKeys<K>(rows: seq<Row<K>>) {
    forall i, j :: 0 <= i < j < |rows| ==> rows[i].key != rows[j].key
  }

  /** The grouped aggregate. */
  function GroupSum<K(==)>(rows: seq<Row<K>>): seq<Row<K>> {
    if rows == [] then []
    else
      var groups, key := GroupSum(rows[1..]), rows[0].key;
      [Row(key, rows[0].value + SumOf(groups, key))] + Without(groups, key)
  }

  /** The rows under a coarser (or any other) key. */
  function Rekey<K, L>(rows: seq<Row<K>>, f: K -> L): seq<Row<L>> {
    if rows == [] then [] else [Row(f(rows[0].key), rows[0].value)] + Rekey(rows[1..], f)
  }

  // ---- removing a key

  lemma {:induction false} WithoutFacts<K>(rows: seq<Row<K>>, key: K)
    ensures Total(rows) == SumOf(rows, key) + Total(Without(rows, key))
    ensures !HasKey(Without(rows, key), key)
    ensures forall k :: k != key ==> (HasKey(Without(rows, key), k) <==> HasKey(rows, k))
    ensures UniqueKeys(rows) ==> UniqueKeys(Without(rows, key))
  {
    if rows != [] {
      var rest := rows[1..];
      WithoutFacts(rest, key);
      HeadKey(rows);
      HeadKey(Without(rows, key));
      if UniqueKeys(rows) {
        assert !HasKey(rest, rows[0].key);
      }
    }
  }

  lemma HeadKey<K>(rows: seq<Row<K>>)
    ensures rows != [] ==> forall k :: HasKey(rows, k) <==> k == rows[0].key || HasKey(rows[1..], k)
  {
    if rows != [] {
      forall k
        ensures HasKey(rows, k) <==> k == rows[0].key || HasKey(rows[1..], k)
      {
        if i :| 0 <= i < |rows| && rows[i].key == k && i > 0 {
          assert rows[1..][i - 1].key == k;
        }
        if i :| 0 <= i < |rows[1..]| && rows[1..][i].key == k {
          assert rows[i + 1].key == k;
        }
      }
    }
  }

  lemma {:induction false} SumOfWithout<K>(rows: seq<Row<K>>, key: K, k: K)
    ensures SumOf(Without(rows, key), k) == if k == key then 0.0 else SumOf(rows, k)
  {
    if rows != [] {
      SumOfWithout(rows[1..], key, k);
    }
  }

  lemma {:induction false} WithoutTwice<K>(rows: seq<Row<K>>, a: K, b: K)
    ensures Without(Without(rows, a), b) == Without(Without(rows, b), a)
  {
    if rows != [] {
      WithoutTwice(rows[1..], a, b);
    }
  }

  // ---- what the grouped table contains

  /** One row per key that occurs, holding that key's sum; the grand total is conserved. */
  lemma {:induction false} GroupSumFacts<K>(rows: seq<Row<K>>)
    ensures UniqueKeys(GroupSum(rows))
    ensures forall k :: HasKey(GroupSum(rows), k) <==> HasKey(rows, k)
    ensures forall k :: SumOf(GroupSum(rows), k) == SumOf(rows, k)
    ensures Total(GroupSum(rows)) == Total(rows)
  {
    if rows != [] {
      var groups, key := GroupSum(rows[1..]), rows[0].key;
      GroupSumFacts(rows[1..]);
      WithoutFacts(groups, key);
      HeadKey(rows);
      HeadKey(GroupSum(rows));
      forall k
        ensures SumOf(GroupSum(rows), k) == SumOf(rows, k)
      {
        SumOfWithout(groups, key, k);
      }
    }
  }

  /** The row of a key holds the sum over that key. */
  lemma {:induction false} RowOfUniqueKey<K>(rows: seq<Row<K>>, i: nat)
    requires UniqueKeys(rows) && i < |rows|
    ensures rows[i].value == SumOf(rows, rows[i].key)
  {
    if i > 0 {
      RowOfUniqueKey(rows[1..], i - 1);
    } else {
      AbsentSum(rows[1..], rows[0].key);
    }
  }

  lemma {:induction false} AbsentSum<K>(rows: seq<Row<K>>, key: K)
    requires forall i :: 0 <= i < |rows| ==> rows[i].key != key
    ensures SumOf(rows, key) == 0.0
  {
    if rows != [] {
      AbsentSum(rows[1..], key);
    }
  }

  lemma {:induction false} GroupSumWithout<K>(rows: seq<Row<K>>, key: K)
    ensures Without(GroupSum(rows), key) == GroupSum(Without(rows, key))
  {
    if rows != [] {
      var groups, head := GroupSum(rows[1..]), rows[0].key;
      GroupSumWithout(rows[1..], key);
      WithoutTwice(groups, head, key);
      SumOfWithout(groups, key, head);
      assert GroupSum(rows)[1..] == Without(groups, head);
      if head == key {
        WithoutAbsent(groups, key);
      } else {
        assert Without(rows, key)[1..] == Without(rows[1..], key);
      }
    }
  }

  lemma {:induction false} WithoutAbsent<K>(rows: seq<Row<K>>, key: K)
    ensures Without(Without(rows, key), key) == Without(rows, key)
  {
    if rows != [] {
      WithoutAbsent(rows[1..], key);
    }
  }

  // ---- rolling up

  lemma {:induction false} RekeyWithout<K, L>(rows: seq<Row<K>>, f: K -> L, key: K)
    ensures Without(Rekey(Without(rows, key), f), f(key)) == Without(Rekey(rows, f), f(key))
    ensures SumOf(Rekey(rows, f), f(key)) == SumOf(rows, key) + SumOf(Rekey(Without(rows, key), f), f(key))
  {
    if rows != [] {
      RekeyWithout(rows[1..], f, key);
    }
  }

  /** Taking one fine key out of the groups takes its sum out of the derived key, and nothing else. */
  lemma {:induction false} RollUpHead<K, L>(groups: seq<Row<K>>, key: K, f: K -> L)
    ensures var rest := Rekey(Without(groups, key), f);
            && SumOf(GroupSum(Rekey(groups, f)), f(key)) == SumOf(groups, key) + SumOf(GroupSum(rest), f(key))
            && Without(GroupSum(rest), f(key)) == Without(GroupSum(Rekey(groups, f)), f(key))
  {
    var rest := Rekey(Without(groups, key), f);
    RekeyWithout(groups, f, key);
    GroupSumWithout(rest, f(key));
    GroupSumWithout(Rekey(groups, f), f(key));
    GroupSumFacts(rest);
    GroupSumFacts(Rekey(groups, f));
    assert SumOf(GroupSum(rest), f(key)) == SumOf(rest, f(key));
    assert SumOf(GroupSum(Rekey(groups, f)), f(key)) == SumOf(Rekey(groups, f), f(key));
  }

  lemma {:induction false} GroupCons<K>(row: Row<K>, rest: seq<Row<K>>)
    ensures GroupSum([row] + rest) ==
            [Row(row.key, row.value + SumOf(GroupSum(rest), row.key))] + Without(GroupSum(rest), row.key)
  {
    assert ([row] + rest)[1..] == rest;
  }

  lemma {:induction false} RekeyCons<K, L>(row: Row<K>, rest: seq<Row<K>>, f: K -> L)
    ensures Rekey([row] + rest, f) == [Row(f(row.key), row.value)] + Rekey(rest, f)
  {
    assert ([row] + rest)[1..] == rest;
  }

  /** Grouping by a fine key and then by a key derived from it equals grouping by the derived key. */
  lemma {:induction false} RollUp<K, L>(rows: seq<Row<K>>, f: K -> L)
    ensures GroupSum(Rekey(GroupSum(rows), f)) == GroupSum(Rekey(rows, f))
  {
    if rows != [] {
      var row, tail := rows[0], rows[1..];
      var groups := GroupSum(tail);
      var first := Row(row.key, row.value + SumOf(groups, row.key));
      RollUp(tail, f);
      RollUpHead(groups, row.key, f);
      assert rows == [row] + tail;
      GroupCons(row, tail);
      RekeyCons(first, Without(groups, row.key), f);
      GroupCons(Row(f(row.key), first.value), Rekey(Without(groups, row.key), f));
      RekeyCons(row, tail, f);
      GroupCons(Row(f(row.key), row.value), Rekey(tail, f));
    }
  }

  lemma {:induction false} RekeyTwice<K, L, M>(rows: seq<Row<K>>, f: K -> L, g: L -> M, h: K -> M)
    requires forall i :: 0 <= i < |rows| ==> g(f(rows[i].key)) == h(rows[i].key)
    ensures Rekey(Rekey(rows, f), g) == Rekey(rows, h)
  {
    if rows != [] {
      RekeyTwice(rows[1..], f, g, h);
    }
  }

  lemma {:induction false} RekeyTotal<K, L>(rows: seq<Row<K>>, f: K -> L)
    ensures Total(Rekey(rows, f)) == Total(rows)
  {
    if rows != [] {
      RekeyTotal(rows[1..], f);
    }
  }

  lemma {:induction false} RekeyConcat<K, L>(a: seq<Row<K>>, b: seq<Row<K>>, f: K -> L)
    ensures Rekey(a + b, f) == Rekey(a, f) + Rekey(b, f)
  {
    if a == [] {
      assert a + b == b;
    } else {
      assert (a + b)[1..] == a[1..] + b;
      RekeyConcat(a[1..], b, f);
    }
  }

  lemma {:induction false} SumOfConcat<K>(a: seq<Row<K>>, b: seq<Row<K>>, key: K)
    ensures SumOf(a + b, key) == SumOf(a, key) + SumOf(b, key)
  {
    if a == [] {
      assert a + b == b;
    } else {
      SumOfConcat(a[1..], b, key);
      assert (a + b)[1..] == a[1..] + b;
    }
  }

  /** Grouping first does not change the sums under a derived key. */
  lemma {:induction false} GroupedSumOf<K, L>(rows: seq<Row<K>>, f: K -> L, key: L)
    ensures SumOf(Rekey(GroupSum(rows), f), key) == SumOf(Rekey(rows, f), key)
  {
    RollUp(rows, f);
    GroupSumFacts(Rekey(GroupSum(rows), f));
    GroupSumFacts(Rekey(rows, f));
  }
}
