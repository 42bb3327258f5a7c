/**
 * The comparison of two environments in dashboards/builder/compare.py as a ClickHouse query with
 * conditional aggregates. The InfluxDB form is in InfluxCompare.
 */
module EnvCompare {
  import opened Text

  type Key = seq<string>

  datatype Side = A | B {
    function Other(): Side { if this == A then B else A }
  }

  /** Column names of both pipelines: <alias>_a, <alias>_b, and the computed ones. */
  datatype Column =
    | Of(alias: string, side: Side)
    | Plain(alias: string)
    | Delta
    | DeltaPct
    | AbsDelta
    | DeltaOf(alias: string)
    | DiffOf(alias: string)

  /** A number or NULL. */
  type Cell = Option<real>
  type Cells = map<Column, Cell>

  /** A per-object row of one environment: a row of the inner query. */
  datatype ObjectRow = ObjectRow(key: Key, env: string, values: map<string, Cell>)

  /** A row of a panel. */
  datatype Record = Record(key: Key, cells: Cells)

  function ValueOf(r: ObjectRow, alias: string): Cell {
    if alias in r.values then r.values[alias] else None
  }

  function Get(cells: Cells, c: Column): Cell {
    if c in cells then cells[c] else None
  }

  ghost predicate OneRowPerObject(rows: seq<ObjectRow>) {
    forall i, j :: 0 <= i < j < |rows| ==> rows[i].key != rows[j].key || rows[i].env != rows[j].env
  }

  /** The row of an object in an environment. */
  ghost predicate IsRow(rows: seq<ObjectRow>, key: Key, env: string, r: ObjectRow) {
    r in rows && r.key == key && r.env == env
  }

  ghost predicate Present(rows: seq<ObjectRow>, key: Key, env: string) {
    exists r :: IsRow(rows, key, env, r)
  }

  /** The environments of the two sides. */
  datatype Envs = Envs(a: string, b: string) {
    function Env(side: Side): string { if side == A then a else b }
    function Swap(): Envs { Envs(b, a) }
  }

  // ---------------------------------------------------------------- ClickHouse: pair_of and its panels

  datatype Aggregate = AnyIf(alias: string, side: Side) | CountIf(side: Side)

  function PairColumns(aliases: seq<string>): seq<Aggregate> {
    AnyColumns(aliases) + [CountIf(A), CountIf(B)]
  }

  function AnyColumns(aliases: seq<string>): seq<Aggregate> {
    if aliases == [] then []
    else AnyColumns(aliases[..|aliases| - 1]) + [AnyIf(aliases[|aliases| - 1], A), AnyIf(aliases[|aliases| - 1], B)]
  }

  /** `pair_of`: the select list, two columns per alias in the order of the aliases, then the two counts. */
  method PairOf(aliases: seq<string>) returns (cols: seq<Aggregate>)
    ensures |cols| == 2 * |aliases| + 2
    ensures forall i :: 0 <= i < |aliases| ==>
            cols[2 * i] == AnyIf(aliases[i], A) && cols[2 * i + 1] == AnyIf(aliases[i], B)
    ensures cols[2 * |aliases|] == CountIf(A) && cols[2 * |aliases| + 1] == CountIf(B)
    ensures cols == PairColumns(aliases)
  {
    cols := [];
    for i := 0 to |aliases|
      invariant cols == AnyColumns(aliases[..i]) && |cols| == 2 * i
      invariant forall k :: 0 <= k < i ==>
                cols[2 * k] == AnyIf(aliases[k], A) && cols[2 * k + 1] == AnyIf(aliases[k], B)
    {
      assert aliases[..i + 1][..i] == aliases[..i];
      cols := cols + [AnyIf(aliases[i], A), AnyIf(aliases[i], B)];
    }
    assert aliases[..|aliases|] == aliases;
    cols := cols + [CountIf(A), CountIf(B)];
  }

  function CountOf(rows: seq<ObjectRow>, key: Key, env: string): nat {
    if rows == [] then 0
    else (if rows[0].key == key && rows[0].env == env then 1 else 0) + CountOf(rows[1..], key, env)
  }

  /** anyIf: the value of the first such row; a column default if there is none. */
  function AnyOf(rows: seq<ObjectRow>, key: Key, env: string, alias: string): Cell {
    if rows == [] then Some(0.0)
    else if rows[0].key == key && rows[0].env == env then ValueOf(rows[0], alias)
    else AnyOf(rows[1..], key, env, alias)
  }

  datatype PairRow = PairRow(key: Key, cells: Cells, nA: nat, nB: nat) {
    function N(side: Side): nat { if side == A then nA else nB }
  }

  /** One row of the pair query: the aggregates over the rows of one key. */
  function EvalPair(cols: seq<Aggregate>, rows: seq<ObjectRow>, key: Key, envs: Envs): PairRow {
    if cols == [] then PairRow(key, map[], 0, 0)
    else
      var p := EvalPair(cols[..|cols| - 1], rows, key, envs);
      match cols[|cols| - 1]
      case AnyIf(alias, side) => p.(cells := p.cells[Of(alias, side) := AnyOf(rows, key, envs.Env(side), alias)])
      case CountIf(A) => p.(nA := CountOf(rows, key, envs.a))
      case CountIf(B) => p.(nB := CountOf(rows, key, envs.b))
  }

  /** The keys of the rows of either environment, in the order of first appearance (GROUP BY keys). */
  function PairKeys(rows: seq<ObjectRow>, envs: Envs): seq<Key> {
    if rows == [] then []
    else
      var rest := PairKeys(rows[..|rows| - 1], envs);
      var r := rows[|rows| - 1];
      if (r.env == envs.a || r.env == envs.b) && r.key !in rest then rest + [r.key] else rest
  }

  function PairQuery(rows: seq<ObjectRow>, aliases: seq<string>, envs: Envs): seq<PairRow> {
    var keys := PairKeys(rows, envs);
    seq(|keys|, i requires 0 <= i < |keys| => EvalPair(PairColumns(aliases), rows, keys[i], envs))
  }

  /** WHERE n_side > 0 AND n_other = 0. */
  predicate OnlyIn(p: PairRow, side: Side) {
    p.N(side) > 0 && p.N(side.Other()) == 0
  }

  /** WHERE n_a > 0 AND n_b > 0. */
  predicate InBoth(p: PairRow) {
    p.nA > 0 && p.nB > 0
  }

  function Minus(x: Cell, y: Cell): Cell {
    if x.Some? && y.Some? then Some(x.value - y.value) else None
  }

  /** x / nullIf(y, 0) */
  function Over(x: Cell, y: Cell): Cell {
    if x.Some? && y.Some? && y.value != 0.0 then Some(x.value / y.value) else None
  }

  function Abs(x: Cell): Cell {
    if x.Some? then Some(if x.value < 0.0 then -x.value else x.value) else None
  }

  /** `a != b` in a WHERE clause: NULL does not qualify. */
  predicate Differs(x: Cell, y: Cell) {
    x.Some? && y.Some? && x.value != y.value
  }

  function DeltaOfPair(p: PairRow, alias: string): Cell {
    Minus(Get(p.cells, Of(alias, B)), Get(p.cells, Of(alias, A)))
  }

  predicate Changed(p: PairRow, flags: seq<string>) {
    InBoth(p) && exists i :: 0 <= i < |flags| && Differs(Get(p.cells, Of(flags[i], A)), Get(p.cells, Of(flags[i], B)))
  }

  // ---- what the aggregates pick

  lemma {:induction false} CountFacts(rows: seq<ObjectRow>, key: Key, env: string)
    ensures Present(rows, key, env) <==> CountOf(rows, key, env) > 0
  {
    if rows != [] {
      var r, rest := rows[0], rows[1..];
      CountFacts(rest, key, env);
      assert rows == [r] + rest;
      PresentCons(r, rest, key, env);
    }
  }

  lemma PresentCons(r: ObjectRow, rest: seq<ObjectRow>, key: Key, env: string)
    ensures Present([r] + rest, key, env) <==> (r.key == key && r.env == env) || Present(rest, key, env)
  {
    var rows := [r] + rest;
    if r.key == key && r.env == env {
      assert IsRow(rows, key, env, r);
    }
    if x :| IsRow(rest, key, env, x) {
      assert IsRow(rows, key, env, x);
    }
    if x :| IsRow(rows, key, env, x) && x != r {
      assert IsRow(rest, key, env, x);
    }
  }

  lemma {:induction false} AnyFacts(rows: seq<ObjectRow>, key: Key, env: string, alias: string, r: ObjectRow)
    requires OneRowPerObject(rows) && IsRow(rows, key, env, r)
    ensures AnyOf(rows, key, env, alias) == ValueOf(r, alias)
  {
    assert rows == [rows[0]] + rows[1..];
    var i :| 0 <= i < |rows| && rows[i] == r;
    if i > 0 {
      assert rows[0].key != rows[i].key || rows[0].env != rows[i].env;
      assert rows[1..][i - 1] == r;
      assert IsRow(rows[1..], key, env, r);
      AnyFacts(rows[1..], key, env, alias, r);
    }
  }

  lemma {:induction false} AnyColumnsFacts(aliases: seq<string>, rows: seq<ObjectRow>, key: Key, envs: Envs)
    ensures var p := EvalPair(AnyColumns(aliases), rows, key, envs);
            && p.key == key && p.nA == 0 && p.nB == 0
            && forall alias, side :: alias in aliases ==>
               Get(p.cells, Of(alias, side)) == AnyOf(rows, key, envs.Env(side), alias)
  {
    if aliases != [] {
      var n := |aliases| - 1;
      AnyColumnsFacts(aliases[..n], rows, key, envs);
      var init := AnyColumns(aliases[..n]);
      assert aliases == aliases[..n] + [aliases[n]];
      EvalPairOn(init, AnyIf(aliases[n], A), rows, key, envs);
      EvalPairOn(init + [AnyIf(aliases[n], A)], AnyIf(aliases[n], B), rows, key, envs);
      assert init + [AnyIf(aliases[n], A)] + [AnyIf(aliases[n], B)] == AnyColumns(aliases);
    }
  }

  lemma {:induction false} EvalPairOn(cols: seq<Aggregate>, c: Aggregate, rows: seq<ObjectRow>, key: Key, envs: Envs)
    ensures EvalPair(cols + [c], rows, key, envs) ==
            var p := EvalPair(cols, rows, key, envs);
            match c
            case AnyIf(alias, side) => p.(cells := p.cells[Of(alias, side) := AnyOf(rows, key, envs.Env(side), alias)])
            case CountIf(A) => p.(nA := CountOf(rows, key, envs.a))
            case CountIf(B) => p.(nB := CountOf(rows, key, envs.b))
  {
    assert (cols + [c])[..|cols|] == cols;
  }

  /** The row of the pair query for one key. */
  lemma {:induction false} PairFacts(rows: seq<ObjectRow>, aliases: seq<string>, key: Key, envs: Envs)
    ensures var p := EvalPair(PairColumns(aliases), rows, key, envs);
            && p.key == key && p.nA == CountOf(rows, key, envs.a) && p.nB == CountOf(rows, key, envs.b)
            && forall alias, side :: alias in aliases ==>
               Get(p.cells, Of(alias, side)) == AnyOf(rows, key, envs.Env(side), alias)
  {
    AnyColumnsFacts(aliases, rows, key, envs);
    EvalPairOn(AnyColumns(aliases), CountIf(A), rows, key, envs);
    EvalPairOn(AnyColumns(aliases) + [CountIf(A)], CountIf(B), rows, key, envs);
    assert AnyColumns(aliases) + [CountIf(A)] + [CountIf(B)] == PairColumns(aliases);
  }

  lemma {:induction false} PairKeysFacts(rows: seq<ObjectRow>, envs: Envs, key: Key)
    ensures key in PairKeys(rows, envs) <==> Present(rows, key, envs.a) || Present(rows, key, envs.b)
  {
    if rows != [] {
      var init, r := rows[..|rows| - 1], rows[|rows| - 1];
      PairKeysFacts(init, envs, key);
      assert rows == init + [r];
      PresentOn(init, r, key, envs.a);
      PresentOn(init, r, key, envs.b);
    }
  }

  lemma PresentOn(init: seq<ObjectRow>, r: ObjectRow, key: Key, env: string)
    ensures Present(init + [r], key, env) <==> Present(init, key, env) || (r.key == key && r.env == env)
  {
    if x :| IsRow(init, key, env, x) {
      assert IsRow(init + [r], key, env, x);
    }
    if r.key == key && r.env == env {
      assert IsRow(init + [r], key, env, r);
    }
    if x :| IsRow(init + [r], key, env, x) && x != r {
      assert IsRow(init, key, env, x);
    }
  }

  lemma {:induction false} PairKeysUnique(rows: seq<ObjectRow>, envs: Envs)
    ensures forall i, j :: 0 <= i < j < |PairKeys(rows, envs)| ==> PairKeys(rows, envs)[i] != PairKeys(rows, envs)[j]
  {
    if rows != [] {
      PairKeysUnique(rows[..|rows| - 1], envs);
    }
  }

  /** The pair query has at most one row per object, so has every panel that filters it. */
  lemma OneRowPerKey(rows: seq<ObjectRow>, aliases: seq<string>, envs: Envs, p: PairRow, q: PairRow, i: nat, j: nat)
    requires i < j < |PairQuery(rows, aliases, envs)|
    requires p == PairQuery(rows, aliases, envs)[i] && q == PairQuery(rows, aliases, envs)[j]
    ensures p.key != q.key
  {
    var keys := PairKeys(rows, envs);
    PairKeysUnique(rows, envs);
    PairFacts(rows, aliases, keys[i], envs);
    PairFacts(rows, aliases, keys[j], envs);
  }

  // ---- the panels partition the objects

  datatype Panel = OnlyInPanel(side: Side) | DeltaPanel

  predicate Keeps(panel: Panel, p: PairRow) {
    match panel
    case OnlyInPanel(side) => OnlyIn(p, side)
    case DeltaPanel => InBoth(p)
  }

  /** The panel has a row for the object. */
  ghost predicate Shows(rows: seq<ObjectRow>, aliases: seq<string>, envs: Envs, key: Key, panel: Panel) {
    exists p :: p in PairQuery(rows, aliases, envs) && p.key == key && Keeps(panel, p)
  }

  lemma {:induction false} PairOfKey(rows: seq<ObjectRow>, aliases: seq<string>, envs: Envs, key: Key)
    ensures var p := EvalPair(PairColumns(aliases), rows, key, envs);
            && p.key == key
            && (p in PairQuery(rows, aliases, envs) <==> key in PairKeys(rows, envs))
            && forall q :: q in PairQuery(rows, aliases, envs) && q.key == key ==> q == p
  {
    var query, keys := PairQuery(rows, aliases, envs), PairKeys(rows, envs);
    var p := EvalPair(PairColumns(aliases), rows, key, envs);
    PairFacts(rows, aliases, key, envs);
    if key in keys {
      var i :| 0 <= i < |keys| && keys[i] == key;
      assert query[i] == p;
    }
    forall q | q in query && q.key == key
      ensures q == p && key in keys
    {
      var i :| 0 <= i < |query| && query[i] == q;
      PairFacts(rows, aliases, keys[i], envs);
    }
  }

  /** Which panel shows an object depends only on where it is present. */
  lemma PanelOf(rows: seq<ObjectRow>, aliases: seq<string>, envs: Envs, key: Key, panel: Panel)
    ensures Shows(rows, aliases, envs, key, panel) <==>
              match panel
              case OnlyInPanel(side) =>
                Present(rows, key, envs.Env(side)) && !Present(rows, key, envs.Env(side.Other()))
              case DeltaPanel => Present(rows, key, envs.a) && Present(rows, key, envs.b)
  {
    PairKeysFacts(rows, envs, key);
    CountFacts(rows, key, envs.a);
    CountFacts(rows, key, envs.b);
    PairFacts(rows, aliases, key, envs);
    PairOfKey(rows, aliases, envs, key);
  }

  /**
   * The panels "only in A", "only in B" and "delta" partition the objects of the two environments:
   * every object is shown by exactly one of them, and they show nothing else.
   */
  lemma PanelsPartition(rows: seq<ObjectRow>, aliases: seq<string>, envs: Envs, key: Key)
    ensures (exists panel :: Shows(rows, aliases, envs, key, panel)) <==>
            Present(rows, key, envs.a) || Present(rows, key, envs.b)
    ensures forall p, q :: Shows(rows, aliases, envs, key, p) && Shows(rows, aliases, envs, key, q) ==> p == q
  {
    forall panel
      ensures Shows(rows, aliases, envs, key, panel) <==>
                match panel
                case OnlyInPanel(side) =>
                  Present(rows, key, envs.Env(side)) && !Present(rows, key, envs.Env(side.Other()))
                case DeltaPanel => Present(rows, key, envs.a) && Present(rows, key, envs.b)
    {
      PanelOf(rows, aliases, envs, key, panel);
    }
    var shown := Shows(rows, aliases, envs, key, OnlyInPanel(A)) || Shows(rows, aliases, envs, key, OnlyInPanel(B))
                 || Shows(rows, aliases, envs, key, DeltaPanel);
    assert shown <==> Present(rows, key, envs.a) || Present(rows, key, envs.b);
  }

  /** The numbers in a row: of each side the value of the object's only row there. */
  lemma PanelValues(rows: seq<ObjectRow>, aliases: seq<string>, envs: Envs, side: Side, alias: string, p: PairRow,
      r: ObjectRow)
    requires OneRowPerObject(rows) && p in PairQuery(rows, aliases, envs) && alias in aliases
    requires IsRow(rows, p.key, envs.Env(side), r)
    ensures Get(p.cells, Of(alias, side)) == ValueOf(r, alias)
  {
    PairOfKey(rows, aliases, envs, p.key);
    PairFacts(rows, aliases, p.key, envs);
    AnyFacts(rows, p.key, envs.Env(side), alias, r);
  }

  /**
   * Exchanging the two environments exchanges the "only in" panels, keeps the delta panel's objects
   * and changes the sign of every delta.
   */
  lemma {:induction false} SwapNegates(rows: seq<ObjectRow>, aliases: seq<string>, envs: Envs, key: Key, alias: string)
    requires alias in aliases
    ensures forall side :: Shows(rows, aliases, envs, key, OnlyInPanel(side)) <==>
            Shows(rows, aliases, envs.Swap(), key, OnlyInPanel(side.Other()))
    ensures Shows(rows, aliases, envs, key, DeltaPanel) <==> Shows(rows, aliases, envs.Swap(), key, DeltaPanel)
    ensures var d := DeltaOfPair(EvalPair(PairColumns(aliases), rows, key, envs), alias);
            var d' := DeltaOfPair(EvalPair(PairColumns(aliases), rows, key, envs.Swap()), alias);
            (d.None? && d'.None?) || (d.Some? && d'.Some? && d'.value == -d.value)
  {
    forall side
      ensures Shows(rows, aliases, envs, key, OnlyInPanel(side)) <==>
              Shows(rows, aliases, envs.Swap(), key, OnlyInPanel(side.Other()))
    {
      PanelOf(rows, aliases, envs, key, OnlyInPanel(side));
      PanelOf(rows, aliases, envs.Swap(), key, OnlyInPanel(side.Other()));
    }
    PanelOf(rows, aliases, envs, key, DeltaPanel);
    PanelOf(rows, aliases, envs.Swap(), key, DeltaPanel);
    PairFacts(rows, aliases, key, envs);
    PairFacts(rows, aliases, key, envs.Swap());
  }
}
