/**
 * Increase of a cumulative counter: `increase` in dashboards/builder/clickhouse.py as the
 * expression it emits, that expression's value, and what the value means.
 */
module Counters {

  /** A stored point of one counter series. */
  datatype Sample = Sample(time: int, value: real)

  /** on_reset: a decrease is ignored, or the new value is counted. */
  datatype OnReset = Ignore | Value

  // ---- the emitted expression

  /** Lambda bodies over the lambda's parameters. */
  datatype Scalar =
    | Param(index: nat)
    | Zero
    | Greatest(a: Scalar, b: Scalar)
    | IfLess(a: Scalar, b: Scalar, thn: Scalar, els: Scalar)

  datatype Array =
    // arraySort((v, t) -> t, groupArray(column), groupArray(time))
    | SortedColumn
    | ArrayDifference(a: Array)
    | ArrayMap1(body: Scalar, a: Array)                   // arrayMap(d -> body, a)
    | ArrayMap2(body: Scalar, a: Array, b: Array)         // arrayMap((d, v) -> body, a, b)

  datatype Aggregate = ArraySum(a: Array)

  /** `increase(column, on_reset)`. */
  function Increase(onReset: OnReset): Aggregate {
    var values := SortedColumn;
    if onReset == Ignore then
      ArraySum(ArrayMap1(Greatest(Param(0), Zero), ArrayDifference(values)))
    else
      ArraySum(ArrayMap2(IfLess(Param(0), Zero, Param(1), Param(0)), ArrayDifference(values), values))
  }

  // ---- its value on the rows of a group

  function EvalScalar(e: Scalar, args: seq<real>): real {
    match e
    case Param(i) => if i < |args| then args[i] else 0.0
    case Zero => 0.0
    case Greatest(a, b) =>
      if EvalScalar(a, args) >= EvalScalar(b, args) then EvalScalar(a, args) else EvalScalar(b, args)
    case IfLess(a, b, thn, els) =>
      if EvalScalar(a, args) < EvalScalar(b, args) then EvalScalar(thn, args) else EvalScalar(els, args)
  }

  function EvalArray(e: Array, rows: seq<Sample>): seq<real> {
    match e
    case SortedColumn => Values(SortByTime(rows))
    case ArrayDifference(a) => Differences(EvalArray(a, rows))
    case ArrayMap1(body, a) =>
      var xs := EvalArray(a, rows);
      seq(|xs|, i requires 0 <= i < |xs| => EvalScalar(body, [xs[i]]))
    case ArrayMap2(body, a, b) =>
      var xs, ys := EvalArray(a, rows), EvalArray(b, rows);
      var n := if |xs| <= |ys| then |xs| else |ys|;
      seq(n, i requires 0 <= i < n => EvalScalar(body, [xs[i], ys[i]]))
  }

  function Eval(e: Aggregate, rows: seq<Sample>): real {
    Sum(EvalArray(e.a, rows))
  }

  /** arrayDifference: the first element is 0. */
  function Differences(xs: seq<real>): (r: seq<real>)
    ensures |r| == |xs|
  {
    seq(|xs|, i requires 0 <= i < |xs| => if i == 0 then 0.0 else xs[i] - xs[i - 1])
  }

  function Sum(xs: seq<real>): real {
    if xs == [] then 0.0 else Sum(xs[..|xs| - 1]) + xs[|xs| - 1]
  }

  function Values(rows: seq<Sample>): (r: seq<real>)
    ensures |r| == |rows|
  {
    seq(|rows|, i requires 0 <= i < |rows| => rows[i].value)
  }

  predicate Sorted(rows: seq<Sample>) {
    forall i, j :: 0 <= i < j < |rows| ==> rows[i].time <= rows[j].time
  }

  function SortByTime(rows: seq<Sample>): seq<Sample> {
    if rows == [] then [] else Insert(SortByTime(rows[..|rows| - 1]), rows[|rows| - 1])
  }

  function Insert(sorted: seq<Sample>, s: Sample): seq<Sample> {
    var n := |sorted| - 1;
    if n < 0 || sorted[n].time <= s.time then sorted + [s] else Insert(sorted[..n], s) + [sorted[n]]
  }

  // ---- its meaning: the sum of the steps from sample to sample

  function Step(onReset: OnReset, previous: real, current: real): real {
    if current >= previous then current - previous
    else if onReset == Value then current
    else 0.0
  }

  /** What the counter has gained over the samples `vs`, taken in this order. */
  function Gain(onReset: OnReset, vs: seq<real>): real {
    if |vs| < 2 then 0.0
    else Gain(onReset, vs[..|vs| - 1]) + Step(onReset, vs[|vs| - 2], vs[|vs| - 1])
  }

  function StepAt(onReset: OnReset, vs: seq<real>, i: nat): real
    requires i < |vs|
  {
    if i == 0 then 0.0 else Step(onReset, vs[i - 1], vs[i])
  }

  /** The value of a lambda body, for the two bodies in use. */
  lemma BodyValues(d: real, v: real)
    ensures EvalScalar(Greatest(Param(0), Zero), [d]) == if d >= 0.0 then d else 0.0
    ensures EvalScalar(IfLess(Param(0), Zero, Param(1), Param(0)), [d, v]) == if d < 0.0 then v else d
  {
    assert EvalScalar(Param(0), [d]) == d && EvalScalar(Param(0), [d, v]) == d;
    assert EvalScalar(Param(1), [d, v]) == v && EvalScalar(Zero, [d]) == 0.0 == EvalScalar(Zero, [d, v]);
  }

  /** The summed array, element by element. */
  lemma {:induction false} Terms(onReset: OnReset, rows: seq<Sample>)
    ensures var terms, vs := EvalArray(Increase(onReset).a, rows), Values(SortByTime(rows));
            |terms| == |vs| && forall i :: 0 <= i < |vs| ==> terms[i] == StepAt(onReset, vs, i)
  {
    var terms, vs := EvalArray(Increase(onReset).a, rows), Values(SortByTime(rows));
    var ds := Differences(vs);
    assert EvalArray(SortedColumn, rows) == vs;
    assert EvalArray(ArrayDifference(SortedColumn), rows) == ds;
    forall i | 0 <= i < |vs|
      ensures |terms| == |vs| && terms[i] == StepAt(onReset, vs, i)
    {
      BodyValues(ds[i], vs[i]);
    }
  }

  lemma {:induction false} GainIsSum(onReset: OnReset, terms: seq<real>, vs: seq<real>)
    requires |terms| == |vs| && forall i :: 0 <= i < |vs| ==> terms[i] == StepAt(onReset, vs, i)
    ensures Sum(terms) == Gain(onReset, vs)
  {
    var n := |vs| - 1;
    if n >= 0 {
      assert forall i :: 0 <= i < n ==> StepAt(onReset, vs[..n], i) == StepAt(onReset, vs, i);
      GainIsSum(onReset, terms[..n], vs[..n]);
      assert terms[n] == StepAt(onReset, vs, n);
    }
  }

  /** The emitted expression computes the gain over the samples in the order of time. */
  lemma {:induction false} IncreaseMeaning(onReset: OnReset, rows: seq<Sample>)
    ensures Eval(Increase(onReset), rows) == Gain(onReset, Values(SortByTime(rows)))
  {
    Terms(onReset, rows);
    GainIsSum(onReset, EvalArray(Increase(onReset).a, rows), Values(SortByTime(rows)));
  }

  // ---- order of collection

  ghost predicate NotAfter(rows: seq<Sample>, time: int) {
    forall i :: 0 <= i < |rows| ==> rows[i].time <= time
  }

  lemma {:induction false} InsertNotAfter(sorted: seq<Sample>, s: Sample, time: int)
    requires NotAfter(sorted, time) && s.time <= time
    ensures NotAfter(Insert(sorted, s), time)
  {
    var n := |sorted| - 1;
    if n >= 0 && sorted[n].time > s.time {
      InsertNotAfter(sorted[..n], s, time);
    }
  }

  lemma {:induction false} InsertSorted(sorted: seq<Sample>, s: Sample)
    requires Sorted(sorted)
    ensures Sorted(Insert(sorted, s))
  {
    var n := |sorted| - 1;
    if n >= 0 && sorted[n].time > s.time {
      InsertSorted(sorted[..n], s);
      InsertNotAfter(sorted[..n], s, sorted[n].time);
    }
  }

  lemma {:induction false} InsertMembers(sorted: seq<Sample>, s: Sample)
    ensures multiset(Insert(sorted, s)) == multiset(sorted) + multiset{s}
  {
    var n := |sorted| - 1;
    if n >= 0 && sorted[n].time > s.time {
      InsertMembers(sorted[..n], s);
      assert sorted == sorted[..n] + [sorted[n]];
    }
  }

  lemma {:induction false} SortFacts(rows: seq<Sample>)
    ensures Sorted(SortByTime(rows)) && multiset(SortByTime(rows)) == multiset(rows) && |SortByTime(rows)| == |rows|
    ensures forall s :: s in SortByTime(rows) <==> s in rows
  {
    if rows != [] {
      var init, last := rows[..|rows| - 1], rows[|rows| - 1];
      SortFacts(init);
      InsertSorted(SortByTime(init), last);
      InsertMembers(SortByTime(init), last);
      assert rows == init + [last];
    }
    assert |multiset(SortByTime(rows))| == |SortByTime(rows)| && |multiset(rows)| == |rows|;
    forall s
      ensures s in SortByTime(rows) <==> s in rows
    {
      assert s in SortByTime(rows) <==> s in multiset(SortByTime(rows));
      assert s in rows <==> s in multiset(rows);
    }
  }

  ghost predicate DistinctTimes(rows: seq<Sample>) {
    forall i, j :: 0 <= i < j < |rows| ==> rows[i].time != rows[j].time
  }

  ghost predicate Ascending(rows: seq<Sample>) {
    forall i, j :: 0 <= i < j < |rows| ==> rows[i].time < rows[j].time
  }

  lemma LastIsShared(a: seq<Sample>, b: seq<Sample>)
    requires Ascending(a) && Ascending(b) && multiset(a) == multiset(b) && a != [] && b != []
    ensures a[|a| - 1] == b[|b| - 1]
  {
    var x, y := a[|a| - 1], b[|b| - 1];
    assert x in multiset(b) && y in multiset(a);
    var i :| 0 <= i < |b| && b[i] == x;
    var j :| 0 <= j < |a| && a[j] == y;
  }

  lemma {:induction false} AscendingUnique(a: seq<Sample>, b: seq<Sample>)
    requires Ascending(a) && Ascending(b) && multiset(a) == multiset(b)
    ensures a == b
  {
    SameLength(a, b);
    if a != [] {
      var n := |a| - 1;
      LastIsShared(a, b);
      MultisetInit(a);
      MultisetInit(b);
      AscendingUnique(a[..n], b[..n]);
      assert a == a[..n] + [a[n]] && b == b[..n] + [b[n]];
    }
  }

  lemma SameLength(a: seq<Sample>, b: seq<Sample>)
    requires multiset(a) == multiset(b)
    ensures |a| == |b|
  {
    assert |multiset(a)| == |a| && |multiset(b)| == |b|;
  }

  lemma MultisetInit(a: seq<Sample>)
    requires a != []
    ensures multiset(a[..|a| - 1]) == multiset(a) - multiset{a[|a| - 1]}
  {
    assert a == a[..|a| - 1] + [a[|a| - 1]];
  }

  lemma {:induction false} SortAscending(rows: seq<Sample>)
    requires DistinctTimes(rows)
    ensures Ascending(SortByTime(rows))
  {
    if rows != [] {
      var init, last := rows[..|rows| - 1], rows[|rows| - 1];
      SortAscending(init);
      SortFacts(init);
      var sorted := SortByTime(init);
      forall i | 0 <= i < |sorted|
        ensures sorted[i].time != last.time
      {
        assert sorted[i] in init;
        var k :| 0 <= k < |init| && init[k] == sorted[i];
        assert rows[k] == init[k];
      }
      InsertAscending(sorted, last);
    }
  }

  /** Ascending samples are determined by which samples they are. */
  lemma {:induction false} AscendingMembers(a: seq<Sample>, b: seq<Sample>)
    requires Ascending(a) && Ascending(b) && forall x :: x in a <==> x in b
    ensures a == b
    decreases |a|
  {
    assert b == [] || b[0] in b;
    if a != [] {
      assert a[0] in b;
      var i, j, x := a[..|a| - 1], b[..|b| - 1], a[|a| - 1];
      assert x in b && b[|b| - 1] in a;
      LastMembers(a, b);
      assert a == i + [x] && b == j + [x];
      InitsMembers(i, j, x);
      AscendingMembers(i, j);
    }
  }

  lemma LastMembers(a: seq<Sample>, b: seq<Sample>)
    requires Ascending(a) && Ascending(b) && a != [] && b != [] && a[|a| - 1] in b && b[|b| - 1] in a
    ensures a[|a| - 1] == b[|b| - 1]
  {
    var i :| 0 <= i < |b| && b[i] == a[|a| - 1];
    var j :| 0 <= j < |a| && a[j] == b[|b| - 1];
  }

  lemma InitsMembers(i: seq<Sample>, j: seq<Sample>, x: Sample)
    requires Ascending(i + [x]) && Ascending(j + [x]) && forall s :: s in i + [x] <==> s in j + [x]
    ensures Ascending(i) && Ascending(j) && forall s :: s in i <==> s in j
  {
    NotInInit(i, x);
    NotInInit(j, x);
    forall s
      ensures s in i <==> s in j
    {
      assert s in i + [x] <==> s in i || s == x;
      assert s in j + [x] <==> s in j || s == x;
    }
  }

  lemma NotInInit(i: seq<Sample>, x: Sample)
    requires Ascending(i + [x])
    ensures Ascending(i) && x !in i
  {
    var all := i + [x];
    assert forall k :: 0 <= k < |i| ==> all[k] == i[k];
    assert all[|i|] == x;
  }

  lemma {:induction false} SortFixed(rows: seq<Sample>)
    requires Ascending(rows)
    ensures SortByTime(rows) == rows
  {
    SortFacts(rows);
    SortAscending(rows);
    AscendingUnique(SortByTime(rows), rows);
  }

  lemma {:induction false} InsertAscending(sorted: seq<Sample>, s: Sample)
    requires Ascending(sorted) && forall i :: 0 <= i < |sorted| ==> sorted[i].time != s.time
    ensures Ascending(Insert(sorted, s))
  {
    var n := |sorted| - 1;
    if n >= 0 && sorted[n].time > s.time {
      InsertAscending(sorted[..n], s);
      InsertNotAfter(sorted[..n], s, sorted[n].time - 1);
    }
  }

  /** `increase` does not depend on the order in which groupArray collects the rows. */
  lemma OrderIndependent(onReset: OnReset, rows: seq<Sample>, others: seq<Sample>)
    requires multiset(rows) == multiset(others) && DistinctTimes(rows) && DistinctTimes(others)
    ensures Eval(Increase(onReset), rows) == Eval(Increase(onReset), others)
  {
    SortFacts(rows);
    SortFacts(others);
    SortAscending(rows);
    SortAscending(others);
    AscendingUnique(SortByTime(rows), SortByTime(others));
    IncreaseMeaning(onReset, rows);
    IncreaseMeaning(onReset, others);
  }

  // ---- monotone counters

  ghost predicate Monotone(vs: seq<real>) {
    forall i, j :: 0 <= i < j < |vs| ==> vs[i] <= vs[j]
  }

  /** On a counter that never drops both modes give last minus first. */
  lemma {:induction false} MonotoneGain(onReset: OnReset, vs: seq<real>)
    requires Monotone(vs) && vs != []
    ensures Gain(onReset, vs) == vs[|vs| - 1] - vs[0]
  {
    if |vs| >= 2 {
      MonotoneGain(onReset, vs[..|vs| - 1]);
    }
  }

  ghost predicate IsMaximum(v: real, rows: seq<Sample>) {
    (exists i :: 0 <= i < |rows| && rows[i].value == v) && forall i :: 0 <= i < |rows| ==> rows[i].value <= v
  }

  ghost predicate IsMinimum(v: real, rows: seq<Sample>) {
    (exists i :: 0 <= i < |rows| && rows[i].value == v) && forall i :: 0 <= i < |rows| ==> rows[i].value >= v
  }

  /** There `increase` equals InfluxQL's spread(), maximum minus minimum, in whatever order the rows come. */
  lemma {:induction false} MonotoneIncreaseIsSpread(onReset: OnReset, rows: seq<Sample>, high: real, low: real)
    requires Monotone(Values(SortByTime(rows)))
    requires IsMaximum(high, rows) && IsMinimum(low, rows)
    ensures Eval(Increase(onReset), rows) == high - low
  {
    var sorted := SortByTime(rows);
    SortFacts(rows);
    IncreaseMeaning(onReset, rows);
    SpreadOfSorted(onReset, rows, sorted, high, low);
  }

  lemma {:induction false} SpreadOfSorted(onReset: OnReset, rows: seq<Sample>, sorted: seq<Sample>, high: real,
      low: real)
    requires Monotone(Values(sorted)) && forall s :: s in sorted <==> s in rows
    requires IsMaximum(high, rows) && IsMinimum(low, rows)
    ensures Gain(onReset, Values(sorted)) == high - low
  {
    var i :| 0 <= i < |rows| && rows[i].value == high;
    var j :| 0 <= j < |rows| && rows[j].value == low;
    assert rows[i] in sorted;
    SameExtremes(rows, sorted, i);
    SameExtremes(rows, sorted, j);
    assert sorted[0] in rows && sorted[|sorted| - 1] in rows;
    MonotoneGain(onReset, Values(sorted));
  }

  /** On non-decreasing values any row lies between the first and the last. */
  lemma SameExtremes(rows: seq<Sample>, sorted: seq<Sample>, i: nat)
    requires i < |rows| && rows[i] in sorted && Monotone(Values(sorted))
    ensures sorted[0].value <= rows[i].value <= sorted[|sorted| - 1].value
  {
    var k :| 0 <= k < |sorted| && sorted[k] == rows[i];
    assert Values(sorted)[k] == rows[i].value;
    assert Values(sorted)[0] <= Values(sorted)[k] <= Values(sorted)[|sorted| - 1];
  }

  // ---- thinning

  /** `xs` is `ys` with some elements left out. */
  predicate Subsequence<T(==)>(xs: seq<T>, ys: seq<T>) {
    xs == [] ||
    (ys != [] &&
     (Subsequence(xs, ys[..|ys| - 1]) ||
      (xs[|xs| - 1] == ys[|ys| - 1] && Subsequence(xs[..|xs| - 1], ys[..|ys| - 1]))))
  }

  ghost predicate NonNegative(vs: seq<real>) {
    forall i :: 0 <= i < |vs| ==> vs[i] >= 0.0
  }

  lemma {:induction false} GainNonNegative(onReset: OnReset, vs: seq<real>)
    requires NonNegative(vs)
    ensures Gain(onReset, vs) >= 0.0
  {
    if |vs| >= 2 {
      GainNonNegative(onReset, vs[..|vs| - 1]);
    }
  }

  lemma {:induction false} ThinningWithTail(onReset: OnReset, xs: seq<real>, ys: seq<real>)
    requires NonNegative(ys) && Subsequence(xs, ys) && xs != []
    ensures xs[|xs| - 1] >= 0.0
    ensures Gain(onReset, xs) + Step(onReset, xs[|xs| - 1], ys[|ys| - 1]) <= Gain(onReset, ys)
  {
    var m, n := |xs| - 1, |ys| - 1;
    var init := ys[..n];
    if Subsequence(xs, init) {
      ThinningWithTail(onReset, xs, init);
    } else if m > 0 {
      ThinningWithTail(onReset, xs[..m], init);
    } else {
      GainNonNegative(onReset, ys);
    }
  }

  /** Fewer samples never show a larger increase, in either mode and with any resets. */
  lemma {:induction false} Thinning(onReset: OnReset, xs: seq<real>, ys: seq<real>)
    requires NonNegative(ys) && Subsequence(xs, ys)
    ensures Gain(onReset, xs) <= Gain(onReset, ys)
  {
    GainNonNegative(onReset, ys);
    if xs != [] {
      ThinningWithTail(onReset, xs, ys);
    }
  }

  lemma {:induction false} SubsequenceIn<T>(xs: seq<T>, ys: seq<T>)
    requires Subsequence(xs, ys)
    ensures forall i :: 0 <= i < |xs| ==> xs[i] in ys
  {
    if xs != [] {
      if Subsequence(xs, ys[..|ys| - 1]) {
        SubsequenceIn(xs, ys[..|ys| - 1]);
      } else {
        SubsequenceIn(xs[..|xs| - 1], ys[..|ys| - 1]);
      }
    }
  }

  lemma {:induction false} SubsequenceMonotone(xs: seq<real>, ys: seq<real>)
    requires Subsequence(xs, ys) && Monotone(ys)
    ensures Monotone(xs)
  {
    if xs != [] {
      var m, n := |xs| - 1, |ys| - 1;
      if Subsequence(xs, ys[..n]) {
        SubsequenceMonotone(xs, ys[..n]);
      } else {
        SubsequenceMonotone(xs[..m], ys[..n]);
        SubsequenceIn(xs[..m], ys[..n]);
        forall i | 0 <= i < m
          ensures xs[i] <= xs[m]
        {
          assert xs[..m][i] in ys[..n];
        }
      }
    }
  }

  /** On a counter that never drops, exactly the part before the first and after the last kept sample is lost. */
  lemma {:induction false} ThinningGap(onReset: OnReset, xs: seq<real>, ys: seq<real>)
    requires Subsequence(xs, ys) && xs != [] && ys != [] && Monotone(ys)
    ensures Gain(onReset, ys) - Gain(onReset, xs) == (xs[0] - ys[0]) + (ys[|ys| - 1] - xs[|xs| - 1])
  {
    SubsequenceMonotone(xs, ys);
    MonotoneGain(onReset, xs);
    MonotoneGain(onReset, ys);
  }

  lemma {:induction false} SubsequenceValues(xs: seq<Sample>, ys: seq<Sample>)
    requires Subsequence(xs, ys)
    ensures Subsequence(Values(xs), Values(ys))
  {
    if xs != [] {
      var m, n := |xs| - 1, |ys| - 1;
      assert Values(ys)[..n] == Values(ys[..n]) && Values(xs)[..m] == Values(xs[..m]);
      if Subsequence(xs, ys[..n]) {
        SubsequenceValues(xs, ys[..n]);
      } else {
        SubsequenceValues(xs[..m], ys[..n]);
      }
    }
  }
}
