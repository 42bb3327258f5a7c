/**
 * The InfluxDB form of the environment comparison in dashboards/builder/compare.py: the two queries
 * are outer-merged and then processed by a list of Grafana transformations.
 */
module InfluxCompare {
  import opened Text
  import opened EnvCompare

  datatype Operator = Subtract | Divide

  datatype Transformation =
    // any of the fields is null: include / exclude the row
    | FilterNull(fields: seq<Column>, keep: bool)
    | Binary(left: Column, operator: Operator, right: Column, result: Column)
    | AbsOf(field: Column, result: Column)
    | SortDesc(field: Column)
    | ExcludeAllZero(fields: seq<Column>)                         // all of the fields are 0
    // drop columns; <v>_side becomes v for the aliases in `bare`
    | Organize(exclude: set<Column>, side: Side, bare: set<string>)

  // ---- the panels' transformation lists

  function OnlyInSteps(side: Side, values: seq<string>): seq<Transformation>
    requires values != []
  {
    var other := side.Other();
    [FilterNull([Of(values[0], other)], true),
     Organize(set v | v in values :: Of(v, other), side, set v | v in values)]
  }

  function ExtraDeltas(extras: seq<string>): seq<Transformation> {
    if extras == [] then []
    else
      var x := extras[|extras| - 1];
      ExtraDeltas(extras[..|extras| - 1]) + [Binary(Of(x, B), Subtract, Of(x, A), DeltaOf(x))]
  }

  function DeltaSteps(value: string, extras: seq<string>): seq<Transformation> {
    [FilterNull([Of(value, A), Of(value, B)], false),
     Binary(Of(value, B), Subtract, Of(value, A), Delta),
     Binary(Delta, Divide, Of(value, A), DeltaPct)]
    + ExtraDeltas(extras)
    + [AbsOf(Delta, AbsDelta), SortDesc(AbsDelta), Organize({AbsDelta}, A, {})]
  }

  /** `influx_delta`: between the fixed first and last three steps, one step per extra delta. */
  method InfluxDelta(value: string, extras: seq<string>) returns (steps: seq<Transformation>)
    ensures |steps| == |extras| + 6
    ensures forall i :: 0 <= i < |extras| ==>
            steps[3 + i] == Binary(Of(extras[i], B), Subtract, Of(extras[i], A), DeltaOf(extras[i]))
    ensures steps == DeltaSteps(value, extras)
  {
    steps := [FilterNull([Of(value, A), Of(value, B)], false),
              Binary(Of(value, B), Subtract, Of(value, A), Delta),
              Binary(Delta, Divide, Of(value, A), DeltaPct)];
    ghost var start := steps;
    for i := 0 to |extras|
      invariant steps == start + ExtraDeltas(extras[..i]) && |steps| == 3 + i
      invariant forall k :: 0 <= k < i ==>
                steps[3 + k] == Binary(Of(extras[k], B), Subtract, Of(extras[k], A), DeltaOf(extras[k]))
    {
      var x := extras[i];
      assert extras[..i + 1][..i] == extras[..i];
      steps := steps + [Binary(Of(x, B), Subtract, Of(x, A), DeltaOf(x))];
    }
    assert extras[..|extras|] == extras;
    steps := steps + [AbsOf(Delta, AbsDelta), SortDesc(AbsDelta), Organize({AbsDelta}, A, {})];
  }

  function FlagDiffs(flags: seq<string>): seq<Transformation> {
    if flags == [] then []
    else
      var f := flags[|flags| - 1];
      FlagDiffs(flags[..|flags| - 1]) + [Binary(Of(f, B), Subtract, Of(f, A), DiffOf(f))]
  }

  function DiffColumns(flags: seq<string>): (r: seq<Column>)
    ensures |r| == |flags| && forall i :: 0 <= i < |flags| ==> r[i] == DiffOf(flags[i])
  {
    seq(|flags|, i requires 0 <= i < |flags| => DiffOf(flags[i]))
  }

  function ChangedSteps(present: string, flags: seq<string>): seq<Transformation> {
    [FilterNull([Of(present, A), Of(present, B)], false)]
    + FlagDiffs(flags)
    + [ExcludeAllZero(DiffColumns(flags)), Organize(set f | f in flags :: DiffOf(f), A, {})]
  }

  /** `influx_changed`: one difference per flag, then the rows in which all of them are 0 are excluded. */
  method InfluxChanged(present: string, flags: seq<string>) returns (steps: seq<Transformation>)
    ensures |steps| == |flags| + 3
    ensures forall i :: 0 <= i < |flags| ==>
            steps[1 + i] == Binary(Of(flags[i], B), Subtract, Of(flags[i], A), DiffOf(flags[i]))
    ensures steps == ChangedSteps(present, flags)
  {
    steps := [FilterNull([Of(present, A), Of(present, B)], false)];
    ghost var start := steps;
    for i := 0 to |flags|
      invariant steps == start + FlagDiffs(flags[..i]) && |steps| == 1 + i
      invariant forall k :: 0 <= k < i ==>
                steps[1 + k] == Binary(Of(flags[k], B), Subtract, Of(flags[k], A), DiffOf(flags[k]))
    {
      var f := flags[i];
      assert flags[..i + 1][..i] == flags[..i];
      steps := steps + [Binary(Of(f, B), Subtract, Of(f, A), DiffOf(f))];
    }
    assert flags[..|flags|] == flags;
    steps := steps + [ExcludeAllZero(DiffColumns(flags)), Organize(set f | f in flags :: DiffOf(f), A, {})];
  }

  // ---- their effect on a table

  predicate AnyNull(cells: Cells, fields: seq<Column>) {
    exists i :: 0 <= i < |fields| && Get(cells, fields[i]).None?
  }

  predicate AllZero(cells: Cells, fields: seq<Column>) {
    forall i :: 0 <= i < |fields| ==> Get(cells, fields[i]) == Some(0.0)
  }

  /** What Grafana's binary calculation yields for a missing operand and for a division by 0. */
  datatype Grafana = Grafana(onNull: (Operator, Cell, Cell) -> Cell, onZero: real -> Cell)

  function Compute(g: Grafana, operator: Operator, x: Cell, y: Cell): Cell {
    if x.None? || y.None? then g.onNull(operator, x, y)
    else
      match operator
      case Subtract => Some(x.value - y.value)
      case Divide => if y.value == 0.0 then g.onZero(x.value) else Some(x.value / y.value)
  }

  function Organized(cells: Cells, exclude: set<Column>, side: Side, bare: set<string>): Cells {
    (map c | c in cells && c !in exclude && !(c.Of? && c.side == side && c.alias in bare) :: cells[c])
    + (map v | v in bare && Of(v, side) in cells && Of(v, side) !in exclude :: Plain(v) := cells[Of(v, side)])
  }

  /** A row under a transformation that looks at one row at a time; `None`: the row is filtered out. */
  function ApplyRow(g: Grafana, t: Transformation, r: Record): Option<Record> {
    match t
    case FilterNull(fields, keep) => if AnyNull(r.cells, fields) == keep then Some(r) else None
    case Binary(left, operator, right, result) =>
      Some(r.(cells := r.cells[result := Compute(g, operator, Get(r.cells, left), Get(r.cells, right))]))
    case AbsOf(field, result) => Some(r.(cells := r.cells[result := Abs(Get(r.cells, field))]))
    case SortDesc(_) => Some(r)
    case ExcludeAllZero(fields) => if AllZero(r.cells, fields) then None else Some(r)
    case Organize(exclude, side, bare) => Some(r.(cells := Organized(r.cells, exclude, side, bare)))
  }

  function ApplyRows(g: Grafana, t: Transformation, rows: seq<Record>): seq<Record> {
    if rows == [] then []
    else
      var r := ApplyRow(g, t, rows[0]);
      (if r.Some? then [r.value] else []) + ApplyRows(g, t, rows[1..])
  }

  /** Numbers before NULL. */
  predicate AtLeast(x: Cell, y: Cell) {
    y.None? || (x.Some? && x.value >= y.value)
  }

  predicate Descending(rows: seq<Record>, c: Column) {
    forall i, j :: 0 <= i < j < |rows| ==> AtLeast(Get(rows[i].cells, c), Get(rows[j].cells, c))
  }

  function SortBy(rows: seq<Record>, c: Column): seq<Record> {
    if rows == [] then [] else InsertBy(SortBy(rows[..|rows| - 1], c), rows[|rows| - 1], c)
  }

  function InsertBy(sorted: seq<Record>, r: Record, c: Column): seq<Record> {
    var n := |sorted| - 1;
    if n < 0 || AtLeast(Get(sorted[n].cells, c), Get(r.cells, c)) then sorted + [r]
    else InsertBy(sorted[..n], r, c) + [sorted[n]]
  }

  function Apply(g: Grafana, t: Transformation, rows: seq<Record>): seq<Record> {
    if t.SortDesc? then SortBy(rows, t.field) else ApplyRows(g, t, rows)
  }

  function Run(g: Grafana, steps: seq<Transformation>, rows: seq<Record>): seq<Record> {
    if steps == [] then rows else Run(g, steps[1..], Apply(g, steps[0], rows))
  }

  /** What becomes of one row, the order aside. */
  function RunRow(g: Grafana, steps: seq<Transformation>, r: Record): Option<Record> {
    if steps == [] then Some(r)
    else
      var next := ApplyRow(g, steps[0], r);
      if next.None? then None else RunRow(g, steps[1..], next.value)
  }

  // ---- sorting keeps the rows

  lemma {:induction false} InsertMembers(sorted: seq<Record>, r: Record, c: Column)
    ensures forall x :: x in InsertBy(sorted, r, c) <==> x in sorted || x == r
  {
    var n := |sorted| - 1;
    if n >= 0 && !AtLeast(Get(sorted[n].cells, c), Get(r.cells, c)) {
      InsertMembers(sorted[..n], r, c);
      assert sorted == sorted[..n] + [sorted[n]];
    }
  }

  lemma {:induction false} SortMembers(rows: seq<Record>, c: Column)
    ensures forall x :: x in SortBy(rows, c) <==> x in rows
  {
    if rows != [] {
      SortMembers(rows[..|rows| - 1], c);
      InsertMembers(SortBy(rows[..|rows| - 1], c), rows[|rows| - 1], c);
      assert rows == rows[..|rows| - 1] + [rows[|rows| - 1]];
    }
  }

  lemma {:induction false} ApplyMembers(g: Grafana, t: Transformation, rows: seq<Record>, y: Record)
    ensures y in ApplyRows(g, t, rows) <==> exists x :: x in rows && ApplyRow(g, t, x) == Some(y)
  {
    if rows != [] {
      ApplyMembers(g, t, rows[1..], y);
      assert rows == [rows[0]] + rows[1..];
    }
  }

  /** The rows of the result are what becomes of the rows of the input, whatever the order. */
  lemma {:induction false} RunMembers(g: Grafana, steps: seq<Transformation>, rows: seq<Record>, y: Record)
    ensures y in Run(g, steps, rows) <==> exists x :: x in rows && RunRow(g, steps, x) == Some(y)
    decreases |steps|
  {
    if steps == [] {
      assert y in rows ==> RunRow(g, steps, y) == Some(y);
    } else {
      var t, next := steps[0], Apply(g, steps[0], rows);
      RunMembers(g, steps[1..], next, y);
      if t.SortDesc? {
        SortMembers(rows, t.field);
      } else {
        forall z
          ensures z in next <==> exists x :: x in rows && ApplyRow(g, t, x) == Some(z)
        {
          ApplyMembers(g, t, rows, z);
        }
      }
    }
  }

  // ---- the merged table

  function FindRow(rows: seq<ObjectRow>, key: Key, env: string): Option<ObjectRow> {
    if rows == [] then None
    else if rows[0].key == key && rows[0].env == env then Some(rows[0])
    else FindRow(rows[1..], key, env)
  }

  function SideCells(r: Option<ObjectRow>, side: Side): Cells {
    if r.None? then map[] else map v | v in r.value.values :: Of(v, side) := r.value.values[v]
  }

  function MergedCells(rows: seq<ObjectRow>, key: Key, envs: Envs): Cells {
    SideCells(FindRow(rows, key, envs.a), A) + SideCells(FindRow(rows, key, envs.b), B)
  }

  /** Queries A and B outer-merged by their keys: a column of a side without a row is null. */
  function Merge(rows: seq<ObjectRow>, envs: Envs): seq<Record> {
    var keys := PairKeys(rows, envs);
    seq(|keys|, i requires 0 <= i < |keys| => Record(keys[i], MergedCells(rows, keys[i], envs)))
  }

  lemma {:induction false} FindRowFacts(rows: seq<ObjectRow>, key: Key, env: string)
    ensures FindRow(rows, key, env).Some? <==> Present(rows, key, env)
    ensures FindRow(rows, key, env).Some? ==> IsRow(rows, key, env, FindRow(rows, key, env).value)
  {
    if rows != [] {
      FindRowFacts(rows[1..], key, env);
      assert rows == [rows[0]] + rows[1..];
      if rows[0].key == key && rows[0].env == env {
        assert IsRow(rows, key, env, rows[0]);
      } else {
        if r :| IsRow(rows, key, env, r) {
          assert IsRow(rows[1..], key, env, r);
        }
        if r :| IsRow(rows[1..], key, env, r) {
          assert IsRow(rows, key, env, r);
        }
      }
    }
  }

  /** The value of an object in an environment, null without a row. */
  function SideValue(rows: seq<ObjectRow>, key: Key, env: string, alias: string): Cell {
    match FindRow(rows, key, env)
    case None => None
    case Some(r) => ValueOf(r, alias)
  }

  lemma MergedFacts(rows: seq<ObjectRow>, key: Key, envs: Envs)
    ensures forall alias, side ::
              Get(MergedCells(rows, key, envs), Of(alias, side)) == SideValue(rows, key, envs.Env(side), alias)
    ensures Record(key, MergedCells(rows, key, envs)) in Merge(rows, envs) <==>
            Present(rows, key, envs.a) || Present(rows, key, envs.b)
    ensures forall r :: r in Merge(rows, envs) && r.key == key ==> r.cells == MergedCells(rows, key, envs)
  {
    PairKeysFacts(rows, envs, key);
    var keys, merged := PairKeys(rows, envs), Merge(rows, envs);
    if key in keys {
      var i :| 0 <= i < |keys| && keys[i] == key;
      assert merged[i] == Record(key, MergedCells(rows, key, envs));
    }
    forall r | r in merged && r.key == key
      ensures key in keys && r.cells == MergedCells(rows, key, envs)
    {
      var i :| 0 <= i < |merged| && merged[i] == r;
    }
  }

  /** The result has a row for the object. */
  ghost predicate HasRow(rows: seq<Record>, key: Key) {
    exists y :: y in rows && y.key == key
  }

  lemma {:induction false} RunRowKey(g: Grafana, steps: seq<Transformation>, r: Record)
    ensures RunRow(g, steps, r).Some? ==> RunRow(g, steps, r).value.key == r.key
    decreases |steps|
  {
    if steps != [] {
      var next := ApplyRow(g, steps[0], r);
      if next.Some? {
        RunRowKey(g, steps[1..], next.value);
      }
    }
  }

  /** A panel shows an object exactly if its merged row survives the steps, and shows what becomes of that row. */
  lemma {:induction false} PanelRow(g: Grafana, steps: seq<Transformation>, rows: seq<ObjectRow>, envs: Envs, key: Key)
    ensures var merged := Record(key, MergedCells(rows, key, envs));
            var result := Run(g, steps, Merge(rows, envs));
            && (HasRow(result, key) <==>
                  (Present(rows, key, envs.a) || Present(rows, key, envs.b)) && RunRow(g, steps, merged).Some?)
            && (forall y :: y in result && y.key == key ==> RunRow(g, steps, merged) == Some(y))
  {
    var merged := Record(key, MergedCells(rows, key, envs));
    var result := Run(g, steps, Merge(rows, envs));
    MergedFacts(rows, key, envs);
    RunRowKey(g, steps, merged);
    if merged in Merge(rows, envs) && RunRow(g, steps, merged).Some? {
      RunMembers(g, steps, Merge(rows, envs), RunRow(g, steps, merged).value);
    }
    forall y | y in result && y.key == key
      ensures RunRow(g, steps, merged) == Some(y) && merged in Merge(rows, envs)
    {
      RunMembers(g, steps, Merge(rows, envs), y);
      var x :| x in Merge(rows, envs) && RunRow(g, steps, x) == Some(y);
      RunRowKey(g, steps, x);
      assert x == merged;
    }
  }

  // ---- only in one environment

  /** A row is kept if the tested value of the other side is null; it shows the values of its own side. */
  lemma {:induction false} OnlyInRow(g: Grafana, side: Side, values: seq<string>, r: Record)
    requires values != [] && forall v :: Plain(v) !in r.cells
    ensures var y := RunRow(g, OnlyInSteps(side, values), r);
            && (y.Some? <==> Get(r.cells, Of(values[0], side.Other())).None?)
            && (y.Some? ==> forall v :: v in values ==> Get(y.value.cells, Plain(v)) == Get(r.cells, Of(v, side)))
  {
    var f := FilterNull([Of(values[0], side.Other())], true);
    var o := Organize(set v | v in values :: Of(v, side.Other()), side, set v | v in values);
    assert f.fields[0] == Of(values[0], side.Other());
    assert OnlyInSteps(side, values) == [f, o];
    assert [f, o][1..] == [o] && [o][1..] == [];
    assert RunRow(g, [o], r) == ApplyRow(g, o, r);
  }

  /** The InfluxDB panel also shows an object of the other environment whose tested value is null there. */
  lemma {:induction false} OnlyInShows(g: Grafana, rows: seq<ObjectRow>, envs: Envs, side: Side, values: seq<string>,
      key: Key)
    requires values != []
    ensures HasRow(Run(g, OnlyInSteps(side, values), Merge(rows, envs)), key) <==>
              (Present(rows, key, envs.a) || Present(rows, key, envs.b))
              && SideValue(rows, key, envs.Env(side.Other()), values[0]).None?
  {
    PanelRow(g, OnlyInSteps(side, values), rows, envs, key);
    MergedFacts(rows, key, envs);
    OnlyInRow(g, side, values, Record(key, MergedCells(rows, key, envs)));
  }

  /** No row of the environment has a null in the column. */
  ghost predicate NeverNull(rows: seq<ObjectRow>, env: string, alias: string) {
    forall r :: r in rows && r.env == env ==> ValueOf(r, alias).Some?
  }

  /**
   * The two implementations of "only in" show the same objects if and only if the tested column is
   * never null in the other environment's rows.
   */
  lemma {:induction false} OnlyInAgrees(g: Grafana, rows: seq<ObjectRow>, aliases: seq<string>, envs: Envs, side: Side,
      values: seq<string>)
    requires OneRowPerObject(rows) && values != []
    ensures (forall key :: HasRow(Run(g, OnlyInSteps(side, values), Merge(rows, envs)), key)
                           <==> Shows(rows, aliases, envs, key, OnlyInPanel(side)))
       <==> NeverNull(rows, envs.Env(side.Other()), values[0])
  {
    var other := envs.Env(side.Other());
    forall key
      ensures HasRow(Run(g, OnlyInSteps(side, values), Merge(rows, envs)), key) <==>
                && (Present(rows, key, envs.a) || Present(rows, key, envs.b))
                && SideValue(rows, key, other, values[0]).None?
      ensures Shows(rows, aliases, envs, key, OnlyInPanel(side)) <==>
                Present(rows, key, envs.Env(side)) && !Present(rows, key, other)
      ensures FindRow(rows, key, other).Some? <==> Present(rows, key, other)
    {
      OnlyInShows(g, rows, envs, side, values, key);
      PanelOf(rows, aliases, envs, key, OnlyInPanel(side));
      FindRowFacts(rows, key, other);
    }
    forall r | r in rows && r.env == other
      ensures Present(rows, r.key, other) && SideValue(rows, r.key, other, values[0]) == ValueOf(r, values[0])
    {
      assert IsRow(rows, r.key, other, r);
      OnlyRow(rows, r.key, other, r);
    }
    forall key | FindRow(rows, key, other).Some?
      ensures FindRow(rows, key, other).value in rows && FindRow(rows, key, other).value.env == other
    {
      FindRowFacts(rows, key, other);
    }
  }

  /** Where both show an object of the side's environment, they show the same values. */
  lemma {:induction false} OnlyInValues(g: Grafana, rows: seq<ObjectRow>, aliases: seq<string>, envs: Envs, side: Side,
      values: seq<string>, y: Record, v: string)
    requires OneRowPerObject(rows) && values != [] && v in values && v in aliases
    requires y in Run(g, OnlyInSteps(side, values), Merge(rows, envs)) && Present(rows, y.key, envs.Env(side))
    ensures Get(y.cells, Plain(v)) == Get(EvalPair(PairColumns(aliases), rows, y.key, envs).cells, Of(v, side))
  {
    var env := envs.Env(side);
    PanelRow(g, OnlyInSteps(side, values), rows, envs, y.key);
    MergedFacts(rows, y.key, envs);
    OnlyInRow(g, side, values, Record(y.key, MergedCells(rows, y.key, envs)));
    FindRowFacts(rows, y.key, env);
    PairFacts(rows, aliases, y.key, envs);
    AnyFacts(rows, y.key, env, v, FindRow(rows, y.key, env).value);
  }

  lemma {:induction false} OnlyRow(rows: seq<ObjectRow>, key: Key, env: string, r: ObjectRow)
    requires OneRowPerObject(rows) && IsRow(rows, key, env, r)
    ensures FindRow(rows, key, env) == Some(r)
  {
    FindRowFacts(rows, key, env);
    var q := FindRow(rows, key, env).value;
    var i :| 0 <= i < |rows| && rows[i] == r;
    var j :| 0 <= j < |rows| && rows[j] == q;
  }

  // ---- delta

  lemma {:induction false} RunRowConcat(g: Grafana, a: seq<Transformation>, b: seq<Transformation>, r: Record)
    ensures RunRow(g, a + b, r) == if RunRow(g, a, r).None? then None else RunRow(g, b, RunRow(g, a, r).value)
    decreases |a|
  {
    if a == [] {
      assert a + b == b;
    } else {
      assert (a + b)[1..] == a[1..] + b;
      var next := ApplyRow(g, a[0], r);
      if next.Some? {
        RunRowConcat(g, a[1..], b, next.value);
      }
    }
  }

  lemma {:induction false} ExtraDeltasRow(g: Grafana, extras: seq<string>, r: Record)
    ensures RunRow(g, ExtraDeltas(extras), r).Some?
    ensures var y := RunRow(g, ExtraDeltas(extras), r).value;
            && y.key == r.key
            && (forall c: Column :: !c.DeltaOf? ==> Get(y.cells, c) == Get(r.cells, c))
            && (forall x :: x in extras ==>
               Get(y.cells, DeltaOf(x)) == Compute(g, Subtract, Get(r.cells, Of(x, B)), Get(r.cells, Of(x, A))))
  {
    if extras != [] {
      var n := |extras| - 1;
      var x := extras[n];
      var step := Binary(Of(x, B), Subtract, Of(x, A), DeltaOf(x));
      ExtraDeltasRow(g, extras[..n], r);
      RunRowConcat(g, ExtraDeltas(extras[..n]), [step], r);
      assert [step][1..] == [];
      assert extras == extras[..n] + [x];
    }
  }

  /** The delta panel's row of an object, from its merged row. */
  lemma {:induction false} DeltaRow(g: Grafana, value: string, extras: seq<string>, r: Record)
    ensures var a, b := Get(r.cells, Of(value, A)), Get(r.cells, Of(value, B));
            var y := RunRow(g, DeltaSteps(value, extras), r);
            && (y.Some? <==> a.Some? && b.Some?)
            && (y.Some? ==>
                  && Get(y.value.cells, Delta) == Minus(b, a)
                  && Get(y.value.cells, DeltaPct) == Compute(g, Divide, Minus(b, a), a)
                  && forall x :: x in extras ==>
                       Get(y.value.cells, DeltaOf(x)) ==
                           Compute(g, Subtract, Get(r.cells, Of(x, B)), Get(r.cells, Of(x, A))))
  {
    var first := [FilterNull([Of(value, A), Of(value, B)], false),
                  Binary(Of(value, B), Subtract, Of(value, A), Delta),
                  Binary(Delta, Divide, Of(value, A), DeltaPct)];
    var last := [AbsOf(Delta, AbsDelta), SortDesc(AbsDelta), Organize({AbsDelta}, A, {})];
    assert DeltaSteps(value, extras) == first + ExtraDeltas(extras) + last;
    RunRowConcat(g, first + ExtraDeltas(extras), last, r);
    RunRowConcat(g, first, ExtraDeltas(extras), r);
    FirstDeltaSteps(g, value, r);
    if RunRow(g, first, r).Some? {
      var s := RunRow(g, first, r).value;
      ExtraDeltasRow(g, extras, s);
      LastDeltaSteps(g, RunRow(g, ExtraDeltas(extras), s).value);
    }
  }

  lemma {:induction false} RunTwo(g: Grafana, s: Transformation, t: Transformation, r: Record)
    ensures RunRow(g, [s, t], r) == if ApplyRow(g, s, r).None? then None else ApplyRow(g, t, ApplyRow(g, s, r).value)
  {
    assert [s, t][1..] == [t] && [t][1..] == [];
    if ApplyRow(g, s, r).Some? {
      var x := ApplyRow(g, s, r).value;
      assert RunRow(g, [t], x) == ApplyRow(g, t, x);
    }
  }

  lemma {:induction false} FirstDeltaSteps(g: Grafana, value: string, r: Record)
    ensures var first := [FilterNull([Of(value, A), Of(value, B)], false),
                          Binary(Of(value, B), Subtract, Of(value, A), Delta),
                          Binary(Delta, Divide, Of(value, A), DeltaPct)];
            var a, b := Get(r.cells, Of(value, A)), Get(r.cells, Of(value, B));
            var y := RunRow(g, first, r);
            && (y.Some? <==> a.Some? && b.Some?)
            && (y.Some? ==>
                  && Get(y.value.cells, Delta) == Minus(b, a)
                  && Get(y.value.cells, DeltaPct) == Compute(g, Divide, Minus(b, a), a)
                  && forall alias, side :: Get(y.value.cells, Of(alias, side)) == Get(r.cells, Of(alias, side)))
  {
    var f := FilterNull([Of(value, A), Of(value, B)], false);
    var d := Binary(Of(value, B), Subtract, Of(value, A), Delta);
    var p := Binary(Delta, Divide, Of(value, A), DeltaPct);
    assert f.fields[0] == Of(value, A) && f.fields[1] == Of(value, B);
    assert [f, d, p] == [f] + [d, p];
    RunTwo(g, d, p, r);
  }

  lemma {:induction false} LastDeltaSteps(g: Grafana, r: Record)
    ensures var y := RunRow(g, [AbsOf(Delta, AbsDelta), SortDesc(AbsDelta), Organize({AbsDelta}, A, {})], r);
            y.Some? && forall c :: c != AbsDelta ==> Get(y.value.cells, c) == Get(r.cells, c)
  {
    var s, t, o := AbsOf(Delta, AbsDelta), SortDesc(AbsDelta), Organize({AbsDelta}, A, {});
    assert [s, t, o] == [s] + [t, o];
    RunTwo(g, t, o, ApplyRow(g, s, r).value);
  }

  lemma MergedCellsOf(rows: seq<ObjectRow>, key: Key, envs: Envs)
    ensures forall alias ::
      && Get(MergedCells(rows, key, envs), Of(alias, A)) == SideValue(rows, key, envs.a, alias)
      && Get(MergedCells(rows, key, envs), Of(alias, B)) == SideValue(rows, key, envs.b, alias)
  {
    MergedFacts(rows, key, envs);
    assert envs.Env(A) == envs.a && envs.Env(B) == envs.b;
  }

  /** What the pair query shows for an alias of an object of both environments. */
  lemma {:induction false} PairCell(rows: seq<ObjectRow>, aliases: seq<string>, envs: Envs, key: Key, alias: string)
    requires OneRowPerObject(rows) && alias in aliases && Present(rows, key, envs.a) && Present(rows, key, envs.b)
    ensures var pair := EvalPair(PairColumns(aliases), rows, key, envs);
            && Get(pair.cells, Of(alias, A)) == SideValue(rows, key, envs.a, alias)
            && Get(pair.cells, Of(alias, B)) == SideValue(rows, key, envs.b, alias)
  {
    PairFacts(rows, aliases, key, envs);
    assert envs.Env(A) == envs.a && envs.Env(B) == envs.b;
    FindRowFacts(rows, key, envs.a);
    FindRowFacts(rows, key, envs.b);
    AnyFacts(rows, key, envs.a, alias, FindRow(rows, key, envs.a).value);
    AnyFacts(rows, key, envs.b, alias, FindRow(rows, key, envs.b).value);
  }

  /** The delta relative to the first value, where that is not 0. */
  function Percentage(g: Grafana, pair: PairRow, value: string): Cell {
    var delta, base := DeltaOfPair(pair, value), Get(pair.cells, Of(value, A));
    if delta.Some? && base == Some(0.0) then g.onZero(delta.value) else Over(delta, base)
  }

  function ExtraDelta(g: Grafana, pair: PairRow, alias: string): Cell {
    var delta := DeltaOfPair(pair, alias);
    if delta.Some? then delta else g.onNull(Subtract, Get(pair.cells, Of(alias, B)), Get(pair.cells, Of(alias, A)))
  }

  predicate SameOperands(cells: Cells, pair: PairRow, alias: string) {
    && Get(pair.cells, Of(alias, A)) == Get(cells, Of(alias, A))
    && Get(pair.cells, Of(alias, B)) == Get(cells, Of(alias, B))
  }

  /** The panel's row, compared with a pair row of the same operands. */
  lemma {:induction false} DeltaShown(g: Grafana, value: string, extras: seq<string>, r: Record, pair: PairRow,
      y: Record)
    requires RunRow(g, DeltaSteps(value, extras), r) == Some(y)
    requires SameOperands(r.cells, pair, value) && forall x :: x in extras ==> SameOperands(r.cells, pair, x)
    ensures Get(y.cells, Delta) == DeltaOfPair(pair, value)
    ensures Get(y.cells, DeltaPct) == Percentage(g, pair, value)
    ensures forall x :: x in extras ==> Get(y.cells, DeltaOf(x)) == ExtraDelta(g, pair, x)
  {
    DeltaRow(g, value, extras, r);
    forall x | x in extras
      ensures Get(y.cells, DeltaOf(x)) == ExtraDelta(g, pair, x)
    {
      assert SameOperands(r.cells, pair, x);
    }
  }

  lemma {:induction false} MergedOperands(rows: seq<ObjectRow>, aliases: seq<string>, envs: Envs, key: Key,
      alias: string)
    requires OneRowPerObject(rows) && alias in aliases && Present(rows, key, envs.a) && Present(rows, key, envs.b)
    ensures SameOperands(MergedCells(rows, key, envs), EvalPair(PairColumns(aliases), rows, key, envs), alias)
  {
    MergedCellsOf(rows, key, envs);
    PairCell(rows, aliases, envs, key, alias);
  }

  /**
   * The two delta panels agree: an object shown by the InfluxDB panel is shown by the ClickHouse panel with
   * the same delta, and the other way round exactly if its value is null on neither side. The percentages are
   * equal where the first value is not 0, the extra deltas where neither operand is null.
   */
  lemma {:induction false} DeltaAgrees(g: Grafana, rows: seq<ObjectRow>, aliases: seq<string>, envs: Envs,
      value: string, extras: seq<string>, key: Key)
    requires OneRowPerObject(rows) && value in aliases && forall x :: x in extras ==> x in aliases
    ensures var result := Run(g, DeltaSteps(value, extras), Merge(rows, envs));
            var pair := EvalPair(PairColumns(aliases), rows, key, envs);
            && (HasRow(result, key) <==>
                  && Shows(rows, aliases, envs, key, DeltaPanel)
                  && SideValue(rows, key, envs.a, value).Some? && SideValue(rows, key, envs.b, value).Some?)
            && (forall y :: y in result && y.key == key ==>
                  && Get(y.cells, Delta) == DeltaOfPair(pair, value)
                  && Get(y.cells, DeltaPct) == Percentage(g, pair, value)
                  && forall x :: x in extras ==> Get(y.cells, DeltaOf(x)) == ExtraDelta(g, pair, x))
  {
    var steps, merged := DeltaSteps(value, extras), Record(key, MergedCells(rows, key, envs));
    PanelRow(g, steps, rows, envs, key);
    MergedCellsOf(rows, key, envs);
    DeltaRow(g, value, extras, merged);
    PanelOf(rows, aliases, envs, key, DeltaPanel);
    FindRowFacts(rows, key, envs.a);
    FindRowFacts(rows, key, envs.b);
    forall y | y in Run(g, steps, Merge(rows, envs)) && y.key == key
      ensures var pair := EvalPair(PairColumns(aliases), rows, key, envs);
              && Get(y.cells, Delta) == DeltaOfPair(pair, value)
              && Get(y.cells, DeltaPct) == Percentage(g, pair, value)
              && forall x :: x in extras ==> Get(y.cells, DeltaOf(x)) == ExtraDelta(g, pair, x)
    {
      MergedOperands(rows, aliases, envs, key, value);
      forall x | x in extras
        ensures SameOperands(merged.cells, EvalPair(PairColumns(aliases), rows, key, envs), x)
      {
        MergedOperands(rows, aliases, envs, key, x);
      }
      DeltaShown(g, value, extras, merged, EvalPair(PairColumns(aliases), rows, key, envs), y);
    }
  }

  // ---- the order of the delta panel

  lemma {:induction false} InsertDescending(sorted: seq<Record>, r: Record, c: Column)
    requires Descending(sorted, c)
    ensures Descending(InsertBy(sorted, r, c), c)
  {
    var n := |sorted| - 1;
    if n >= 0 && !AtLeast(Get(sorted[n].cells, c), Get(r.cells, c)) {
      InsertDescending(sorted[..n], r, c);
      var s := InsertBy(sorted[..n], r, c);
      InsertMembers(sorted[..n], r, c);
      forall i | 0 <= i < |s|
        ensures AtLeast(Get(s[i].cells, c), Get(sorted[n].cells, c))
      {
        assert s[i] in s;
        if s[i] != r {
          var k :| 0 <= k < n && sorted[..n][k] == s[i];
        }
      }
    }
  }

  lemma {:induction false} SortDescending(rows: seq<Record>, c: Column)
    ensures Descending(SortBy(rows, c), c)
  {
    if rows != [] {
      SortDescending(rows[..|rows| - 1], c);
      InsertDescending(SortBy(rows[..|rows| - 1], c), rows[|rows| - 1], c);
    }
  }

  lemma {:induction false} RunConcat(g: Grafana, a: seq<Transformation>, b: seq<Transformation>, rows: seq<Record>)
    ensures Run(g, a + b, rows) == Run(g, b, Run(g, a, rows))
    decreases |a|
  {
    if a == [] {
      assert a + b == b;
    } else {
      assert (a + b)[1..] == a[1..] + b;
      RunConcat(g, a[1..], b, Apply(g, a[0], rows));
    }
  }

  lemma {:induction false} OrganizeRows(g: Grafana, exclude: set<Column>, rows: seq<Record>)
    requires Delta !in exclude
    ensures var out := ApplyRows(g, Organize(exclude, A, {}), rows);
            |out| == |rows| && forall i :: 0 <= i < |rows| ==> Get(out[i].cells, Delta) == Get(rows[i].cells, Delta)
  {
    if rows != [] {
      OrganizeRows(g, exclude, rows[1..]);
    }
  }

  lemma {:induction false} AbsColumn(g: Grafana, rows: seq<Record>)
    ensures forall x :: x in SortBy(ApplyRows(g, AbsOf(Delta, AbsDelta), rows), AbsDelta) ==>
              Get(x.cells, AbsDelta) == Abs(Get(x.cells, Delta))
  {
    var before := ApplyRows(g, AbsOf(Delta, AbsDelta), rows);
    SortMembers(before, AbsDelta);
    forall x | x in before
      ensures Get(x.cells, AbsDelta) == Abs(Get(x.cells, Delta))
    {
      ApplyMembers(g, AbsOf(Delta, AbsDelta), rows, x);
    }
  }

  lemma {:induction false} SortedByAbs(g: Grafana, rows: seq<Record>)
    requires Descending(rows, AbsDelta) && forall x :: x in rows ==> Get(x.cells, AbsDelta) == Abs(Get(x.cells, Delta))
    ensures var out := ApplyRows(g, Organize({AbsDelta}, A, {}), rows);
            forall i, j :: 0 <= i < j < |out| ==> AtLeast(Abs(Get(out[i].cells, Delta)), Abs(Get(out[j].cells, Delta)))
  {
    OrganizeRows(g, {AbsDelta}, rows);
    var out := ApplyRows(g, Organize({AbsDelta}, A, {}), rows);
    forall i, j | 0 <= i < j < |out|
      ensures AtLeast(Abs(Get(out[i].cells, Delta)), Abs(Get(out[j].cells, Delta)))
    {
      assert rows[i] in rows && rows[j] in rows;
    }
  }

  lemma {:induction false} SortedSteps(g: Grafana, value: string, extras: seq<string>, table: seq<Record>)
    ensures var out := Run(g, DeltaSteps(value, extras), table);
            forall i, j :: 0 <= i < j < |out| ==> AtLeast(Abs(Get(out[i].cells, Delta)), Abs(Get(out[j].cells, Delta)))
  {
    var front := [FilterNull([Of(value, A), Of(value, B)], false),
                  Binary(Of(value, B), Subtract, Of(value, A), Delta),
                  Binary(Delta, Divide, Of(value, A), DeltaPct)] + ExtraDeltas(extras);
    var last := [AbsOf(Delta, AbsDelta), SortDesc(AbsDelta), Organize({AbsDelta}, A, {})];
    assert DeltaSteps(value, extras) == front + last;
    RunConcat(g, front, last, table);
    var computed := Run(g, front, table);
    LastSteps(g, computed);
    SortDescending(ApplyRows(g, AbsOf(Delta, AbsDelta), computed), AbsDelta);
    AbsColumn(g, computed);
    SortedByAbs(g, SortBy(ApplyRows(g, AbsOf(Delta, AbsDelta), computed), AbsDelta));
  }

  /** Every shown row has both values, and its delta is their difference. */
  lemma {:induction false} ShownDelta(g: Grafana, value: string, extras: seq<string>, table: seq<Record>, y: Record)
    requires y in Run(g, DeltaSteps(value, extras), table)
    ensures ShownFrom(table, value, y)
  {
    RunMembers(g, DeltaSteps(value, extras), table, y);
    var r :| r in table && RunRow(g, DeltaSteps(value, extras), r) == Some(y);
    DeltaRow(g, value, extras, r);
    assert HoldsDelta(r, value, y);
  }

  /** The row `y` shows how much the value of `r` is larger on side B. */
  ghost predicate HoldsDelta(r: Record, value: string, y: Record) {
    && Of(value, A) in r.cells && Of(value, B) in r.cells
    && r.cells[Of(value, A)].Some? && r.cells[Of(value, B)].Some?
    && Delta in y.cells && y.cells[Delta] == Some(r.cells[Of(value, B)].value - r.cells[Of(value, A)].value)
  }

  /** The row comes from a row of the table with both values and shows their difference. */
  ghost predicate ShownFrom(table: seq<Record>, value: string, y: Record) {
    exists r :: r in table && HoldsDelta(r, value, y)
  }

  /** The larger of a number and its opposite. */
  function Size(x: real): (size: real)
    ensures size >= x && size >= -x && (size == x || size == -x)
  {
    if x >= 0.0 then x else -x
  }

  /** The delta panel shows numbers, sorted by their size, the largest first. */
  lemma {:induction false} DeltaSorted(g: Grafana, value: string, extras: seq<string>, table: seq<Record>)
    ensures var out := Run(g, DeltaSteps(value, extras), table);
            && (forall i :: 0 <= i < |out| ==> ShownFrom(table, value, out[i]))
            && (forall i, j, x, y :: 0 <= i < j < |out| && Holds(out[i], Delta, x) && Holds(out[j], Delta, y) ==>
                 Size(x) >= Size(y))
  {
    var out := Run(g, DeltaSteps(value, extras), table);
    SortedSteps(g, value, extras, table);
    forall i | 0 <= i < |out|
      ensures ShownFrom(table, value, out[i])
    {
      ShownDelta(g, value, extras, table, out[i]);
    }
    forall i, j, x, y | 0 <= i < j < |out| && Holds(out[i], Delta, x) && Holds(out[j], Delta, y)
      ensures Size(x) >= Size(y)
    {
      assert AtLeast(Abs(Get(out[i].cells, Delta)), Abs(Get(out[j].cells, Delta)));
    }
  }

  /** The row holds the number `x` in the column. */
  predicate Holds(r: Record, c: Column, x: real) {
    c in r.cells && r.cells[c] == Some(x)
  }

  lemma {:induction false} LastSteps(g: Grafana, rows: seq<Record>)
    ensures Run(g, [AbsOf(Delta, AbsDelta), SortDesc(AbsDelta), Organize({AbsDelta}, A, {})], rows)
         == ApplyRows(g, Organize({AbsDelta}, A, {}), SortBy(ApplyRows(g, AbsOf(Delta, AbsDelta), rows), AbsDelta))
  {
    var s, t, o := AbsOf(Delta, AbsDelta), SortDesc(AbsDelta), Organize({AbsDelta}, A, {});
    assert [s, t, o][1..] == [t, o] && [t, o][1..] == [o] && [o][1..] == [];
    var r1 := ApplyRows(g, s, rows);
    var r2 := SortBy(r1, AbsDelta);
    assert Run(g, [o], r2) == ApplyRows(g, o, r2);
    assert Run(g, [t, o], r1) == Run(g, [o], r2);
  }

  // ---- changed flags

  lemma {:induction false} FlagDiffsRow(g: Grafana, flags: seq<string>, r: Record)
    ensures RunRow(g, FlagDiffs(flags), r).Some?
    ensures var y := RunRow(g, FlagDiffs(flags), r).value;
            && (forall c: Column :: !c.DiffOf? ==> Get(y.cells, c) == Get(r.cells, c))
            && (forall f :: f in flags ==>
               Get(y.cells, DiffOf(f)) == Compute(g, Subtract, Get(r.cells, Of(f, B)), Get(r.cells, Of(f, A))))
  {
    if flags != [] {
      var n := |flags| - 1;
      var f := flags[n];
      var step := Binary(Of(f, B), Subtract, Of(f, A), DiffOf(f));
      FlagDiffsRow(g, flags[..n], r);
      RunRowConcat(g, FlagDiffs(flags[..n]), [step], r);
      assert [step][1..] == [];
      assert flags == flags[..n] + [f];
    }
  }

  /** A row stays if both sides are present and some difference is not 0. */
  lemma {:induction false} ChangedRow(g: Grafana, present: string, flags: seq<string>, r: Record)
    ensures RunRow(g, ChangedSteps(present, flags), r).Some? <==>
              && Get(r.cells, Of(present, A)).Some? && Get(r.cells, Of(present, B)).Some?
              && SomeDifference(g, r.cells, flags)
  {
    var f := FilterNull([Of(present, A), Of(present, B)], false);
    var z, o := ExcludeAllZero(DiffColumns(flags)), Organize(set x | x in flags :: DiffOf(x), A, {});
    assert ChangedSteps(present, flags) == [f] + (FlagDiffs(flags) + [z, o]);
    RunRowConcat(g, FlagDiffs(flags), [z, o], r);
    assert f.fields[0] == Of(present, A) && f.fields[1] == Of(present, B);
    FlagDiffsAt(g, flags, r);
    LastChangedSteps(g, flags, RunRow(g, FlagDiffs(flags), r).value);
  }

  lemma {:induction false} FlagDiffsAt(g: Grafana, flags: seq<string>, r: Record)
    ensures RunRow(g, FlagDiffs(flags), r).Some?
    ensures forall i :: 0 <= i < |flags| ==>
              Get(RunRow(g, FlagDiffs(flags), r).value.cells, DiffOf(flags[i])) ==
                  Compute(g, Subtract, Get(r.cells, Of(flags[i], B)), Get(r.cells, Of(flags[i], A)))
  {
    FlagDiffsRow(g, flags, r);
    assert forall i :: 0 <= i < |flags| ==> flags[i] in flags;
  }

  lemma LastChangedSteps(g: Grafana, flags: seq<string>, r: Record)
    ensures var steps := [ExcludeAllZero(DiffColumns(flags)), Organize(set x | x in flags :: DiffOf(x), A, {})];
            RunRow(g, steps, r).Some? <==>
              exists i :: 0 <= i < |flags| && Get(r.cells, DiffOf(flags[i])) != Some(0.0)
  {
    var z, o := ExcludeAllZero(DiffColumns(flags)), Organize(set x | x in flags :: DiffOf(x), A, {});
    RunTwo(g, z, o, r);
    assert forall i :: 0 <= i < |flags| ==> DiffColumns(flags)[i] == DiffOf(flags[i]);
  }

  predicate SomeFlagDiffers(rows: seq<ObjectRow>, key: Key, envs: Envs, flags: seq<string>) {
    exists i :: 0 <= i < |flags|
                && Differs(SideValue(rows, key, envs.a, flags[i]), SideValue(rows, key, envs.b, flags[i]))
  }

  /** A flag that is null on a side, where Grafana's difference is not 0. */
  predicate SomeNullCounts(g: Grafana, rows: seq<ObjectRow>, key: Key, envs: Envs, flags: seq<string>) {
    exists i :: 0 <= i < |flags| && NullCounts(g, rows, key, envs, flags[i])
  }

  predicate NullCounts(g: Grafana, rows: seq<ObjectRow>, key: Key, envs: Envs, flag: string) {
    var a, b := SideValue(rows, key, envs.a, flag), SideValue(rows, key, envs.b, flag);
    (a.None? || b.None?) && g.onNull(Subtract, b, a) != Some(0.0)
  }

  predicate NullOnASide(rows: seq<ObjectRow>, key: Key, envs: Envs, alias: string) {
    SideValue(rows, key, envs.a, alias).None? || SideValue(rows, key, envs.b, alias).None?
  }

  /** The transformations find a flag whose difference is not 0. */
  ghost predicate SomeDifference(g: Grafana, cells: Cells, flags: seq<string>) {
    exists i :: 0 <= i < |flags|
                && Compute(g, Subtract, Get(cells, Of(flags[i], B)), Get(cells, Of(flags[i], A))) != Some(0.0)
  }

  lemma SomeDifferenceMeans(g: Grafana, rows: seq<ObjectRow>, key: Key, envs: Envs, flags: seq<string>, cells: Cells)
    requires forall alias ::
      && Get(cells, Of(alias, A)) == SideValue(rows, key, envs.a, alias)
      && Get(cells, Of(alias, B)) == SideValue(rows, key, envs.b, alias)
    ensures SomeDifference(g, cells, flags) <==>
            SomeNullCounts(g, rows, key, envs, flags) || SomeFlagDiffers(rows, key, envs, flags)
  {
    forall i | 0 <= i < |flags|
      ensures Compute(g, Subtract, Get(cells, Of(flags[i], B)), Get(cells, Of(flags[i], A))) != Some(0.0) <==>
                || NullCounts(g, rows, key, envs, flags[i])
                || Differs(SideValue(rows, key, envs.a, flags[i]), SideValue(rows, key, envs.b, flags[i]))
    {
      assert Get(cells, Of(flags[i], A)) == SideValue(rows, key, envs.a, flags[i]);
    }
  }

  /** The InfluxDB panel takes a null flag for a change if Grafana's difference with null is not 0. */
  lemma {:induction false} InfluxChangedShows(g: Grafana, rows: seq<ObjectRow>, envs: Envs, present: string,
      flags: seq<string>, key: Key)
    ensures HasRow(Run(g, ChangedSteps(present, flags), Merge(rows, envs)), key) <==>
              && !NullOnASide(rows, key, envs, present)
              && (SomeNullCounts(g, rows, key, envs, flags) || SomeFlagDiffers(rows, key, envs, flags))
  {
    var cells := MergedCells(rows, key, envs);
    PanelRow(g, ChangedSteps(present, flags), rows, envs, key);
    MergedCellsOf(rows, key, envs);
    ChangedRow(g, present, flags, Record(key, cells));
    SomeDifferenceMeans(g, rows, key, envs, flags, cells);
    FindRowFacts(rows, key, envs.a);
    assert Get(cells, Of(present, A)) == SideValue(rows, key, envs.a, present);
  }

  /** The ClickHouse panel takes only two different numbers for a change. */
  lemma {:induction false} ClickHouseChangedShows(rows: seq<ObjectRow>, aliases: seq<string>, envs: Envs,
      flags: seq<string>, key: Key)
    requires OneRowPerObject(rows) && forall f :: f in flags ==> f in aliases
    ensures Changed(EvalPair(PairColumns(aliases), rows, key, envs), flags) <==>
              Present(rows, key, envs.a) && Present(rows, key, envs.b) && SomeFlagDiffers(rows, key, envs, flags)
  {
    PairFacts(rows, aliases, key, envs);
    CountFacts(rows, key, envs.a);
    CountFacts(rows, key, envs.b);
    if Present(rows, key, envs.a) && Present(rows, key, envs.b) {
      forall i | 0 <= i < |flags|
        ensures var pair := EvalPair(PairColumns(aliases), rows, key, envs);
                && Get(pair.cells, Of(flags[i], A)) == SideValue(rows, key, envs.a, flags[i])
                && Get(pair.cells, Of(flags[i], B)) == SideValue(rows, key, envs.b, flags[i])
      {
        PairCell(rows, aliases, envs, key, flags[i]);
      }
    }
  }

  /**
   * The two "changed" panels agree on an object if and only if: it is not in both environments; or its
   * `present` value is null and no flag differs; or `present` is not null and a null flag that Grafana counts
   * comes with one that differs. In particular they agree when no tested value is null. Both show only
   * objects of both environments.
   */
  lemma {:induction false} ChangedAgrees(g: Grafana, rows: seq<ObjectRow>, aliases: seq<string>, envs: Envs,
      present: string, flags: seq<string>, key: Key)
    requires OneRowPerObject(rows) && forall f :: f in flags ==> f in aliases
    ensures var shown := HasRow(Run(g, ChangedSteps(present, flags), Merge(rows, envs)), key);
            var changed := Changed(EvalPair(PairColumns(aliases), rows, key, envs), flags);
            && (shown == changed <==>
                 || !Present(rows, key, envs.a) || !Present(rows, key, envs.b)
                 || (NullOnASide(rows, key, envs, present) && !SomeFlagDiffers(rows, key, envs, flags))
                 || (!NullOnASide(rows, key, envs, present)
                     && (SomeNullCounts(g, rows, key, envs, flags) ==> SomeFlagDiffers(rows, key, envs, flags))))
            && (shown || changed ==> Shows(rows, aliases, envs, key, DeltaPanel))
  {
    InfluxChangedShows(g, rows, envs, present, flags, key);
    ClickHouseChangedShows(rows, aliases, envs, flags, key);
    PanelOf(rows, aliases, envs, key, DeltaPanel);
    FindRowFacts(rows, key, envs.a);
    FindRowFacts(rows, key, envs.b);
  }

  // ---- an object on which all three kinds of panels differ

  /** Table t in both environments; "n" is null in the second one. */
  const NULL_ROWS: seq<ObjectRow> :=
    [ObjectRow(["t"], "x", map["p" := Some(1.0), "n" := Some(1.0)]),
     ObjectRow(["t"], "y", map["p" := Some(1.0), "n" := None])]

  lemma NullRowFacts()
    ensures OneRowPerObject(NULL_ROWS) && Present(NULL_ROWS, ["t"], "x") && Present(NULL_ROWS, ["t"], "y")
    ensures forall alias :: alias == "p" || alias == "n" ==> SideValue(NULL_ROWS, ["t"], "x", alias) == Some(1.0)
    ensures SideValue(NULL_ROWS, ["t"], "y", "p") == Some(1.0) && SideValue(NULL_ROWS, ["t"], "y", "n") == None
  {
    var x, y := NULL_ROWS[0], NULL_ROWS[1];
    assert IsRow(NULL_ROWS, ["t"], "x", x) && IsRow(NULL_ROWS, ["t"], "y", y);
    assert NULL_ROWS[1..] == [y];
    assert FindRow(NULL_ROWS, ["t"], "x") == Some(x);
    assert FindRow([y], ["t"], "y") == Some(y) && FindRow(NULL_ROWS, ["t"], "y") == Some(y);
  }

  /** "Only in x" shows it in the InfluxDB form alone, the delta of "n" in the ClickHouse form alone. */
  lemma {:induction false} NullSplitsOnlyInAndDelta(g: Grafana)
    ensures var envs, key, aliases := Envs("x", "y"), ["t"], ["p", "n"];
            && HasRow(Run(g, OnlyInSteps(A, ["n"]), Merge(NULL_ROWS, envs)), key)
            && !Shows(NULL_ROWS, aliases, envs, key, OnlyInPanel(A))
            && !HasRow(Run(g, DeltaSteps("n", []), Merge(NULL_ROWS, envs)), key)
            && Shows(NULL_ROWS, aliases, envs, key, DeltaPanel)
  {
    var envs, key, aliases := Envs("x", "y"), ["t"], ["p", "n"];
    NullRowFacts();
    OnlyInShows(g, NULL_ROWS, envs, A, ["n"], key);
    PanelOf(NULL_ROWS, aliases, envs, key, OnlyInPanel(A));
    PanelOf(NULL_ROWS, aliases, envs, key, DeltaPanel);
    assert aliases[1] == "n";
    DeltaAgrees(g, NULL_ROWS, aliases, envs, "n", [], key);
  }

  /** The flag "n" counts as changed in the InfluxDB form alone, unless Grafana's null minus 1 is 0. */
  lemma {:induction false} NullSplitsChanged(g: Grafana)
    requires g.onNull(Subtract, None, Some(1.0)) != Some(0.0)
    ensures var envs, key, aliases := Envs("x", "y"), ["t"], ["p", "n"];
            && HasRow(Run(g, ChangedSteps("p", ["n"]), Merge(NULL_ROWS, envs)), key)
            && !Changed(EvalPair(PairColumns(aliases), NULL_ROWS, key, envs), ["n"])
  {
    var envs, key, aliases := Envs("x", "y"), ["t"], ["p", "n"];
    NullRowFacts();
    assert aliases[1] == "n" && ["n"][0] == "n";
    InfluxChangedShows(g, NULL_ROWS, envs, "p", ["n"], key);
    ClickHouseChangedShows(NULL_ROWS, aliases, envs, ["n"], key);
  }
}
