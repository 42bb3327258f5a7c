/** Grid placement of a dashboard's panels: `layout` in dashboards/builder/common.py. */
module Layout {
  import opened Text

  const COLUMNS := 24

  datatype GridPos = GridPos(w: Option<int>, h: Option<int>, x: Option<int>, y: Option<int>)

  /** A panel of the serialized board; `placement` is its "gridPos" entry, if it has one. */
  class Panel {
    const isRow: bool
    const inner: seq<Panel>
    var placement: Option<GridPos>
    var id: Option<int>

    constructor (isRow: bool, inner: seq<Panel>, placement: Option<GridPos>)
      ensures this.isRow == isRow && this.inner == inner && this.placement == placement && id == None
    {
      this.isRow, this.inner, this.placement, id := isRow, inner, placement, None;
    }
  }

  // ---- where the panels go

  /** What the placement depends on: kind, width and height of a top-level panel. */
  datatype Box = Box(row: bool, w: int, h: int) {
    /** A collapsed row occupies one line over the whole width, whatever its gridPos says. */
    function Width(): int { if row then COLUMNS else w }
    function Height(): int { if row then 1 else h }
  }

  datatype Cursor = Cursor(x: int, y: int, shelfHeight: int)
  datatype Pos = Pos(x: int, y: int)

  /** The box opens a new shelf. */
  predicate Breaks(c: Cursor, b: Box) {
    b.row || c.x + b.w > COLUMNS
  }

  function Place(c: Cursor, b: Box): Pos {
    if Breaks(c, b) then Pos(0, c.y + c.shelfHeight) else Pos(c.x, c.y)
  }

  function Advance(c: Cursor, b: Box): Cursor {
    var p := Place(c, b);
    if b.row then Cursor(p.x, p.y + 1, 0)
    else Cursor(p.x + b.w, p.y, if Breaks(c, b) then Max(0, b.h) else Max(c.shelfHeight, b.h))
  }

  function Max(a: int, b: int): int {
    if a >= b then a else b
  }

  /** The cursor in front of box `i`. */
  function Before(boxes: seq<Box>, i: nat): Cursor
    requires i <= |boxes|
  {
    if i == 0 then Cursor(0, 0, 0) else Advance(Before(boxes, i - 1), boxes[i - 1])
  }

  function PosOf(boxes: seq<Box>, i: nat): Pos
    requires i < |boxes|
  {
    Place(Before(boxes, i), boxes[i])
  }

  ghost predicate Sized(boxes: seq<Box>) {
    forall i :: 0 <= i < |boxes| ==> boxes[i].Width() >= 1 && boxes[i].Height() >= 1
  }

  /** The cell in column `cx` of line `cy` belongs to box `i`. */
  ghost predicate Covers(boxes: seq<Box>, i: nat, cx: int, cy: int)
    requires i < |boxes|
  {
    var p := PosOf(boxes, i);
    p.x <= cx < p.x + boxes[i].Width() && p.y <= cy < p.y + boxes[i].Height()
  }

  function Bottom(boxes: seq<Box>, i: nat): int
    requires i < |boxes|
  {
    PosOf(boxes, i).y + boxes[i].Height()
  }

  /** Everything placed so far lies above the cursor's shelf, or on it to the left of the cursor. */
  lemma {:induction false} BehindCursor(boxes: seq<Box>, i: nat, j: nat)
    requires Sized(boxes) && i < j <= |boxes|
    ensures var c := Before(boxes, j);
            var p := PosOf(boxes, i);
            && c.x >= 0 && c.shelfHeight >= 0
            && (Bottom(boxes, i) <= c.y
                || (p.y == c.y && p.x + boxes[i].Width() <= c.x && Bottom(boxes, i) <= c.y + c.shelfHeight))
    decreases j
  {
    CursorSane(boxes, j - 1);
    if i < j - 1 {
      BehindCursor(boxes, i, j - 1);
    }
  }

  lemma {:induction false} CursorSane(boxes: seq<Box>, j: nat)
    requires Sized(boxes) && j <= |boxes|
    ensures var c := Before(boxes, j); c.x >= 0 && c.y >= 0 && c.shelfHeight >= 0 && (c.x == 0 <==> c.shelfHeight == 0)
  {
    if j > 0 {
      CursorSane(boxes, j - 1);
      assert boxes[j - 1].Width() >= 1 && boxes[j - 1].Height() >= 1;
    }
  }

  /** Two panels never share a cell of the grid, whatever their widths (even wider than the grid). */
  lemma NoOverlap(boxes: seq<Box>, i: nat, j: nat, cx: int, cy: int)
    requires Sized(boxes) && i < j < |boxes|
    ensures !(Covers(boxes, i, cx, cy) && Covers(boxes, j, cx, cy))
  {
    BehindCursor(boxes, i, j);
  }

  /** Reading order: line by line, left to right. */
  lemma ReadingOrder(boxes: seq<Box>, i: nat, j: nat)
    requires Sized(boxes) && i < j < |boxes|
    ensures var p, q := PosOf(boxes, i), PosOf(boxes, j);
            p.y < q.y || (p.y == q.y && p.x < q.x)
  {
    BehindCursor(boxes, i, j);
  }

  /** The board stays inside the 24 columns exactly when no single panel is wider. */
  lemma InsideGrid(boxes: seq<Box>)
    requires Sized(boxes)
    ensures (forall i :: 0 <= i < |boxes| ==> 0 <= PosOf(boxes, i).x && PosOf(boxes, i).x + boxes[i].Width() <= COLUMNS)
       <==> (forall i :: 0 <= i < |boxes| ==> boxes[i].Width() <= COLUMNS)
  {
    forall i | 0 <= i < |boxes|
      ensures 0 <= PosOf(boxes, i).x
      ensures boxes[i].Width() <= COLUMNS ==> PosOf(boxes, i).x + boxes[i].Width() <= COLUMNS
    {
      CursorSane(boxes, i);
    }
  }

  /**
   * No gap: a panel stands at the very top or exactly at the bottom of an earlier panel, namely of
   * the tallest one of the shelf above, and at the left edge or directly at the right of an earlier one.
   */
  lemma Tight(boxes: seq<Box>, i: nat)
    requires Sized(boxes) && i < |boxes|
    ensures forall j :: 0 <= j < i && PosOf(boxes, j).y < PosOf(boxes, i).y ==> Bottom(boxes, j) <= PosOf(boxes, i).y
    ensures PosOf(boxes, i).y > 0 ==> exists j :: 0 <= j < i && Bottom(boxes, j) == PosOf(boxes, i).y
    ensures PosOf(boxes, i).x > 0 ==>
              exists j :: 0 <= j < i && PosOf(boxes, j).y == PosOf(boxes, i).y
                          && PosOf(boxes, j).x + boxes[j].Width() == PosOf(boxes, i).x
  {
    forall j | 0 <= j < i && PosOf(boxes, j).y < PosOf(boxes, i).y
      ensures Bottom(boxes, j) <= PosOf(boxes, i).y
    {
      BehindCursor(boxes, j, i);
    }
    CursorTouches(boxes, i);
  }

  /** The cursor's shelf starts at the bottom of a panel, and its height is the height of one of its panels. */
  lemma {:induction false} CursorTouches(boxes: seq<Box>, i: nat)
    requires Sized(boxes) && i <= |boxes|
    ensures var c := Before(boxes, i);
            && (c.y > 0 ==> exists j :: 0 <= j < i && Bottom(boxes, j) == c.y)
            && (c.shelfHeight > 0 ==> exists j :: 0 <= j < i && Bottom(boxes, j) == c.y + c.shelfHeight)
            && (c.x > 0 ==>
                  exists j :: 0 <= j < i && PosOf(boxes, j).y == c.y && PosOf(boxes, j).x + boxes[j].Width() == c.x)
  {
    if i > 0 {
      CursorTouches(boxes, i - 1);
      CursorSane(boxes, i - 1);
      var c, d := Before(boxes, i - 1), Before(boxes, i);
      assert boxes[i - 1].Width() >= 1 && boxes[i - 1].Height() >= 1;
      assert PosOf(boxes, i - 1) == Place(c, boxes[i - 1]);
      assert Bottom(boxes, i - 1) == PosOf(boxes, i - 1).y + boxes[i - 1].Height();
    }
  }

  // ---- between two rows: the fewest shelves

  /** Shelf number and used width after each of the panels with the widths `ws`, filled greedily. */
  function Shelf(ws: seq<int>, i: nat): (nat, int)
    requires i < |ws|
  {
    if i == 0 then (0, ws[0])
    else
      var (k, x) := Shelf(ws, i - 1);
      if x + ws[i] > COLUMNS then (k + 1, ws[i]) else (k, x + ws[i])
  }

  /** Width used on the shelf of panel `i` up to that panel when `d` assigns the shelves. */
  function Used(ws: seq<int>, d: seq<nat>, i: nat): int
    requires |d| == |ws| && i < |ws|
  {
    ws[i] + if i > 0 && d[i - 1] == d[i] then Used(ws, d, i - 1) else 0
  }

  /** An order-preserving division of the panels into shelves of total width at most 24. */
  ghost predicate Division(ws: seq<int>, d: seq<nat>) {
    && |d| == |ws|
    && (forall i, j :: 0 <= i < j < |d| ==> d[i] <= d[j])
    && (forall i :: 0 <= i < |ws| ==> Used(ws, d, i) <= COLUMNS)
  }

  /** Greedy stays ahead: no division puts a panel on an earlier shelf, or further left on the same shelf. */
  lemma {:induction false} GreedyStaysAhead(ws: seq<int>, d: seq<nat>, i: nat)
    requires Division(ws, d) && i < |ws| && forall k :: 0 <= k < |ws| ==> ws[k] >= 1
    ensures Shelf(ws, i).0 < d[i] || (Shelf(ws, i).0 == d[i] && Shelf(ws, i).1 <= Used(ws, d, i))
  {
    assert Used(ws, d, i) <= COLUMNS;
    if i > 0 {
      GreedyStaysAhead(ws, d, i - 1);
      assert d[i - 1] <= d[i];
      if d[i - 1] == d[i] {
        UsedPositive(ws, d, i - 1);
      }
    }
  }

  lemma {:induction false} UsedPositive(ws: seq<int>, d: seq<nat>, i: nat)
    requires |d| == |ws| && i < |ws| && forall k :: 0 <= k < |ws| ==> ws[k] >= 1
    ensures Used(ws, d, i) >= 1
  {
    if i > 0 && d[i - 1] == d[i] {
      UsedPositive(ws, d, i - 1);
    }
  }

  /** The greedy shelves are themselves a division, so the minimum is attained. */
  lemma GreedyIsDivision(ws: seq<int>) returns (d: seq<nat>)
    requires forall k :: 0 <= k < |ws| ==> 1 <= ws[k] <= COLUMNS
    ensures Division(ws, d) && forall i :: 0 <= i < |ws| ==> d[i] == Shelf(ws, i).0
  {
    d := seq(|ws|, i requires 0 <= i < |ws| => Shelf(ws, i).0);
    forall i, j | 0 <= i < j < |ws|
      ensures d[i] <= d[j]
    {
      ShelfMonotone(ws, i, j);
    }
    forall i | 0 <= i < |ws|
      ensures Used(ws, d, i) <= COLUMNS
    {
      GreedyUsed(ws, d, i);
    }
  }

  lemma {:induction false} ShelfMonotone(ws: seq<int>, i: nat, j: nat)
    requires i <= j < |ws|
    ensures Shelf(ws, i).0 <= Shelf(ws, j).0
    decreases j
  {
    if i < j {
      ShelfMonotone(ws, i, j - 1);
    }
  }

  lemma {:induction false} GreedyUsed(ws: seq<int>, d: seq<nat>, i: nat)
    requires |d| == |ws| && i < |ws| && forall k :: 0 <= k < |ws| ==> ws[k] <= COLUMNS && d[k] == Shelf(ws, k).0
    ensures Used(ws, d, i) == Shelf(ws, i).1 <= COLUMNS
  {
    if i > 0 {
      GreedyUsed(ws, d, i - 1);
    }
  }

  /** Panels `a` .. `b` - 1 flow without a row between them, from the top of the board or from a row. */
  ghost predicate Stretch(boxes: seq<Box>, a: nat, b: nat) {
    && a <= b <= |boxes|
    && (a > 0 ==> boxes[a - 1].row)
    && forall i :: a <= i < b ==> !boxes[i].row && 1 <= boxes[i].w <= COLUMNS
  }

  function Widths(boxes: seq<Box>, a: nat, b: nat): seq<int>
    requires a <= b <= |boxes|
  {
    seq(b - a, i requires 0 <= i < b - a => boxes[a + i].w)
  }

  /** One panel, on the grid and on the shelves. */
  lemma ShelfStep(c: Cursor, box: Box)
    requires !box.row && box.w <= COLUMNS && (c.x == 0 <==> c.shelfHeight == 0) && c.shelfHeight >= 0
    ensures Advance(c, box).x == if c.x + box.w > COLUMNS then box.w else c.x + box.w
    ensures Advance(c, box).y == Place(c, box).y
    ensures Place(c, box).y == c.y <==> !(c.x + box.w > COLUMNS)
  {
  }

  lemma {:induction false} StretchCursor(boxes: seq<Box>, a: nat, b: nat, i: nat)
    requires Sized(boxes) && Stretch(boxes, a, b) && a <= i < b
    ensures Before(boxes, i + 1).x == Shelf(Widths(boxes, a, b), i - a).1
    ensures Before(boxes, i + 1).y == PosOf(boxes, i).y
    ensures i > a ==> (Shelf(Widths(boxes, a, b), i - a).0 == Shelf(Widths(boxes, a, b), i - a - 1).0
                       <==> PosOf(boxes, i).y == PosOf(boxes, i - 1).y)
  {
    var ws := Widths(boxes, a, b);
    CursorSane(boxes, i);
    ShelfStep(Before(boxes, i), boxes[i]);
    assert ws[i - a] == boxes[i].w;
    if i > a {
      StretchCursor(boxes, a, b, i - 1);
    } else {
      StretchStart(boxes, a);
    }
  }

  lemma {:induction false} StretchStart(boxes: seq<Box>, a: nat)
    requires a <= |boxes| && (a > 0 ==> boxes[a - 1].row)
    ensures Before(boxes, a).x == 0
  {
  }

  lemma NextShelf(boxes: seq<Box>, a: nat, b: nat, j: nat)
    requires Sized(boxes) && Stretch(boxes, a, b) && a < j < b
    ensures var ws := Widths(boxes, a, b);
            && Shelf(ws, j - 1 - a).0 <= Shelf(ws, j - a).0 && PosOf(boxes, j - 1).y <= PosOf(boxes, j).y
            && (Shelf(ws, j - 1 - a).0 == Shelf(ws, j - a).0 <==> PosOf(boxes, j - 1).y == PosOf(boxes, j).y)
  {
    StretchCursor(boxes, a, b, j);
    ReadingOrder(boxes, j - 1, j);
    ShelfMonotone(Widths(boxes, a, b), j - 1 - a, j - a);
  }

  /** On the board the shelves are the lines: two panels share a shelf exactly when they share `y`. */
  lemma {:induction false} ShelvesAreLines(boxes: seq<Box>, a: nat, b: nat, i: nat, j: nat)
    requires Sized(boxes) && Stretch(boxes, a, b) && a <= i <= j < b
    ensures var ws := Widths(boxes, a, b);
            && Shelf(ws, i - a).0 <= Shelf(ws, j - a).0 && PosOf(boxes, i).y <= PosOf(boxes, j).y
            && (Shelf(ws, i - a).0 == Shelf(ws, j - a).0 <==> PosOf(boxes, i).y == PosOf(boxes, j).y)
    decreases j
  {
    if i < j {
      var ws := Widths(boxes, a, b);
      ShelvesAreLines(boxes, a, b, i, j - 1);
      NextShelf(boxes, a, b, j);
      SameEnds(Shelf(ws, i - a).0, Shelf(ws, j - 1 - a).0, Shelf(ws, j - a).0,
               PosOf(boxes, i).y, PosOf(boxes, j - 1).y, PosOf(boxes, j).y);
    }
  }

  lemma SameEnds(k: int, l: int, m: int, x: int, y: int, z: int)
    requires k <= l <= m && x <= y <= z && (k == l <==> x == y) && (l == m <==> y == z)
    ensures k == m <==> x == z
  {
  }

  /** Number of different lines used by the panels `a` .. `i`. */
  function Lines(boxes: seq<Box>, a: nat, i: nat): nat
    requires a <= i < |boxes|
  {
    if i == a then 1 else Lines(boxes, a, i - 1) + if PosOf(boxes, i).y == PosOf(boxes, i - 1).y then 0 else 1
  }

  lemma {:induction false} LinesAreShelves(boxes: seq<Box>, a: nat, b: nat, i: nat)
    requires Sized(boxes) && Stretch(boxes, a, b) && a <= i < b
    ensures Lines(boxes, a, i) == Shelf(Widths(boxes, a, b), i - a).0 + 1
  {
    StretchCursor(boxes, a, b, i);
    if i > a {
      LinesAreShelves(boxes, a, b, i - 1);
    }
  }

  /**
   * `layout` uses the fewest lines: any order-preserving division of the panels between two rows into
   * shelves of width at most 24 needs at least as many.
   */
  lemma {:induction false} FewestLines(boxes: seq<Box>, a: nat, b: nat, d: seq<nat>)
    requires Sized(boxes) && Stretch(boxes, a, b) && a < b && Division(Widths(boxes, a, b), d)
    ensures Lines(boxes, a, b - 1) <= d[b - 1 - a] + 1
  {
    LinesAreShelves(boxes, a, b, b - 1);
    GreedyStaysAhead(Widths(boxes, a, b), d, b - 1 - a);
  }

  // ---- ids

  function TopId(i: nat): int {
    i + 1
  }

  function InnerId(i: nat, j: nat): int {
    (i + 1) * 100 + (j + 1)
  }

  /** All panel ids of a board whose top-level panels have `counts` inner panels are different. */
  ghost predicate DistinctIds(counts: seq<nat>) {
    && (forall i, k, j :: 0 <= i < |counts| && 0 <= k < |counts| && 0 <= j < counts[k] ==> TopId(i) != InnerId(k, j))
    && (forall i, k, j, l :: 0 <= i < k < |counts| && 0 <= j < counts[i] && 0 <= l < counts[k] ==>
          InnerId(i, j) != InnerId(k, l))
  }

  /** At most 100 panels per hundred, counted up to the next panel that has inner ones. */
  predicate WithinHundreds(counts: seq<nat>) {
    && (forall i :: 0 <= i < |counts| && counts[i] > 0 ==> |counts| <= 100 * (i + 1))
    && (forall i, k :: 0 <= i < k < |counts| && counts[k] > 0 ==> counts[i] <= 100 * (k - i))
  }

  lemma DistinctIdsIff(counts: seq<nat>)
    ensures DistinctIds(counts) <==> WithinHundreds(counts)
  {
    if i :| 0 <= i < |counts| && counts[i] > 0 && |counts| > 100 * (i + 1) {
      assert TopId(100 * (i + 1)) == InnerId(i, 0);
    }
    if i, k :| 0 <= i < k < |counts| && counts[k] > 0 && counts[i] > 100 * (k - i) {
      assert InnerId(i, 100 * (k - i)) == InnerId(k, 0);
    }
  }

  /** 101 panels inside the first of two rows reach the second row's hundred. */
  lemma IdsCollide()
    ensures InnerId(0, 100) == InnerId(1, 0) && !DistinctIds([101, 1])
  {
    var counts: seq<nat> := [101, 1];
    DistinctIdsIff(counts);
    assert counts[1] > 0 && counts[0] > 100 * (1 - 0);
  }

  // ---- the method

  function GetOr(o: Option<int>, default: int): int {
    if o.Some? then o.value else default
  }

  /** The "gridPos" entry after `setdefault`. */
  function Defaulted(g: Option<GridPos>): GridPos {
    if g.Some? then g.value else GridPos(Some(24), Some(8), None, None)
  }

  function BoxFor(isRow: bool, g: Option<GridPos>): Box {
    Box(isRow, GetOr(Defaulted(g).w, 24), GetOr(Defaulted(g).h, 8))
  }

  /** An inner panel keeps its size, if any, and is stacked at the left edge. */
  function Stacked(g: Option<GridPos>, y: int): GridPos {
    (if g.Some? then g.value else GridPos(None, None, None, None)).(x := Some(0), y := Some(y))
  }

  /** A top-level panel with its inner panels. */
  ghost function Family(p: Panel): set<Panel> {
    {p} + set a | 0 <= a < |p.inner| :: p.inner[a]
  }

  ghost function All(panels: seq<Panel>): set<Panel> {
    set i, p | 0 <= i < |panels| && p in Family(panels[i]) :: p
  }

  /** The panels form a tree: no panel occurs twice. */
  ghost predicate Tree(panels: seq<Panel>) {
    && (forall i, j :: 0 <= i < j < |panels| ==> Family(panels[i]) !! Family(panels[j]))
    && (forall i :: 0 <= i < |panels| ==> OwnInner(panels[i]))
  }

  ghost predicate OwnInner(p: Panel) {
    p !in p.inner && forall a, b :: 0 <= a < b < |p.inner| ==> p.inner[a] != p.inner[b]
  }

  /** The gridPos entries of a panel and of its inner panels. */
  datatype Placements = Placements(own: Option<GridPos>, inner: seq<Option<GridPos>>)

  ghost function PlacementsOf(p: Panel): Placements
    reads Family(p)
  {
    Placements(p.placement, seq(|p.inner|, a requires 0 <= a < |p.inner| reads Family(p) => p.inner[a].placement))
  }

  /** The entries after the panel has been placed at `pos`; the inner panels of a row go below it. */
  function Placed(isRow: bool, was: Placements, pos: Pos): Placements {
    Placements(Some(Defaulted(was.own).(x := Some(pos.x), y := Some(pos.y))),
               if isRow
               then seq(|was.inner|, a requires 0 <= a < |was.inner| => Some(Stacked(was.inner[a], pos.y + 1 + a * 14)))
               else was.inner)
  }

  /** A panel's new entry: its size is kept, and without an entry it is 24 wide and 8 high. */
  predicate SizeKept(was: Option<GridPos>, now: Option<GridPos>) {
    && now.Some? && now.value.x.Some? && now.value.y.Some?
    && now.value.w == (if was.Some? then was.value.w else Some(24))
    && now.value.h == (if was.Some? then was.value.h else Some(8))
  }

  /** An inner panel's new entry, `a` places below the first one of a row at line `y`; its size is kept. */
  predicate BelowRow(was: Option<GridPos>, now: Option<GridPos>, y: int, a: nat) {
    && now.Some? && now.value.x == Some(0) && now.value.y == Some(y + 1 + 14 * a)
    && now.value.w == (if was.Some? then was.value.w else None)
    && now.value.h == (if was.Some? then was.value.h else None)
  }

  /** The entries of a panel and its inner panels, before and after. */
  ghost predicate WellPlaced(isRow: bool, was: Placements, now: Placements) {
    && SizeKept(was.own, now.own) && |now.inner| == |was.inner|
    && (if isRow
        then forall a :: 0 <= a < |was.inner| ==> BelowRow(was.inner[a], now.inner[a], now.own.value.y.value, a)
        else now.inner == was.inner)
  }

  lemma PlacedWell(isRow: bool, was: Placements, pos: Pos)
    ensures WellPlaced(isRow, was, Placed(isRow, was, pos))
  {
  }

  method StackInner(inner: seq<Panel>, y: int)
    requires forall a, b :: 0 <= a < b < |inner| ==> inner[a] != inner[b]
    modifies inner
    ensures forall a :: 0 <= a < |inner| ==> inner[a].placement == Some(Stacked(old(inner[a].placement), y + a * 14))
  {
    for i := 0 to |inner|
      invariant forall a :: 0 <= a < i ==> inner[a].placement == Some(Stacked(old(inner[a].placement), y + a * 14))
      invariant forall a :: i <= a < |inner| ==> inner[a].placement == old(inner[a].placement)
    {
      inner[i].placement := Some(Stacked(inner[i].placement, y + i * 14));
    }
  }

  /** The body of the placement loop. */
  method PlacePanel(p: Panel, x: int, y: int, rowH: int) returns (x': int, y': int, rowH': int)
    requires OwnInner(p)
    modifies Family(p)
    ensures var box := BoxFor(p.isRow, old(p.placement));
            && PlacementsOf(p) == Placed(p.isRow, old(PlacementsOf(p)), Place(Cursor(x, y, rowH), box))
            && Cursor(x', y', rowH') == Advance(Cursor(x, y, rowH), box)
    ensures WellPlaced(p.isRow, old(PlacementsOf(p)), PlacementsOf(p))
  {
    ghost var was := PlacementsOf(p);
    PlacedWell(p.isRow, was, Place(Cursor(x, y, rowH), BoxFor(p.isRow, p.placement)));
    x', y', rowH' := x, y, rowH;
    p.placement := Some(Defaulted(p.placement));
    var gp := p.placement.value;
    var w, h := GetOr(gp.w, 24), GetOr(gp.h, 8);
    if p.isRow || x' + w > 24 {
      x', y' := 0, y' + rowH';
      rowH' := 0;
    }
    p.placement := Some(gp.(x := Some(x'), y := Some(y')));
    if p.isRow {
      y', rowH' := y' + 1, 0;
      StackInner(p.inner, y');
    } else {
      x', rowH' := x' + w, Max(rowH', h);
    }
  }

  ghost function Snapshot(panels: seq<Panel>): seq<Placements>
    reads All(panels)
  {
    seq(|panels|, i requires 0 <= i < |panels| && Family(panels[i]) <= All(panels) reads All(panels) =>
      PlacementsOf(panels[i]))
  }

  /** The boxes of the top-level panels whose entries are `was`. */
  ghost function Boxes(panels: seq<Panel>, was: seq<Placements>): seq<Box>
    requires |was| == |panels|
  {
    seq(|panels|, i requires 0 <= i < |panels| => BoxFor(panels[i].isRow, was[i].own))
  }

  /** What the placement of the first `i` panels makes of the entries `was`. */
  ghost function PlacedAll(panels: seq<Panel>, was: seq<Placements>, i: nat): seq<Placements>
    requires i <= |panels| == |was|
  {
    seq(|was|, k requires 0 <= k < |was| =>
      if k < i then Placed(panels[k].isRow, was[k], PosOf(Boxes(panels, was), k)) else was[k])
  }

  /** One turn of the placement loop. */
  method PlaceNext(panels: seq<Panel>, i: nat, x: int, y: int, rowH: int) returns (x': int, y': int, rowH': int)
    requires Tree(panels) && i < |panels|
    modifies All(panels)
    ensures Snapshot(panels) ==
            var was := old(Snapshot(panels));
            was[i := Placed(panels[i].isRow, was[i], Place(Cursor(x, y, rowH), BoxFor(panels[i].isRow, was[i].own)))]
    ensures Cursor(x', y', rowH') == Advance(Cursor(x, y, rowH), BoxFor(panels[i].isRow, old(Snapshot(panels))[i].own))
  {
    x', y', rowH' := PlacePanel(panels[i], x, y, rowH);
    forall k | 0 <= k < |panels| && k != i
      ensures PlacementsOf(panels[k]) == old(PlacementsOf(panels[k]))
    {
      assert Family(panels[k]) !! Family(panels[i]);
    }
  }

  method PlaceAll(panels: seq<Panel>)
    requires Tree(panels)
    modifies All(panels)
    ensures Snapshot(panels) == PlacedAll(panels, old(Snapshot(panels)), |panels|)
  {
    var x, y, rowH := 0, 0, 0;
    ghost var was := Snapshot(panels);
    for i := 0 to |panels|
      invariant Cursor(x, y, rowH) == Before(Boxes(panels, was), i)
      invariant Snapshot(panels) == PlacedAll(panels, was, i)
    {
      x, y, rowH := PlaceNext(panels, i, x, y, rowH);
    }
  }

  ghost predicate Numbered(p: Panel, i: nat)
    reads Family(p)
  {
    p.id == Some(TopId(i)) && forall a :: 0 <= a < |p.inner| ==> p.inner[a].id == Some(InnerId(i, a))
  }

  /** The body of the numbering loop; `i` counts from 0. */
  method SetIds(p: Panel, i: nat)
    requires OwnInner(p)
    modifies Family(p)
    ensures Numbered(p, i) && p.id == Some(i + 1)
    ensures forall a :: 0 <= a < |p.inner| ==> p.inner[a].id == Some((i + 1) * 100 + a + 1)
    ensures forall q: Panel :: q in Family(p) ==> q.placement == old(q.placement)
  {
    p.id := Some(i + 1);
    for j := 0 to |p.inner|
      invariant p.id == Some(i + 1) && forall a :: 0 <= a < j ==> p.inner[a].id == Some(InnerId(i, a))
      invariant forall q: Panel :: q in Family(p) ==> q.placement == old(q.placement)
    {
      p.inner[j].id := Some((i + 1) * 100 + (j + 1));
    }
  }

  method NumberAll(panels: seq<Panel>)
    requires Tree(panels)
    modifies All(panels)
    ensures Snapshot(panels) == old(Snapshot(panels))
    ensures forall i :: 0 <= i < |panels| ==> Numbered(panels[i], i)
  {
    for i := 0 to |panels|
      invariant forall p: Panel :: p in All(panels) ==> p.placement == old(p.placement)
      invariant forall k :: 0 <= k < i ==> Numbered(panels[k], k)
    {
      SetIds(panels[i], i);
    }
    forall k | 0 <= k < |panels|
      ensures PlacementsOf(panels[k]) == old(PlacementsOf(panels[k]))
    {
    }
  }

  // ---- what this means for the ids

  function Counts(panels: seq<Panel>): (r: seq<nat>)
    ensures |r| == |panels| && forall i :: 0 <= i < |r| ==> r[i] == |panels[i].inner|
  {
    seq(|panels|, i requires 0 <= i < |panels| => |panels[i].inner|)
  }

  /** No two panels of the board, inner ones included, have the same id. */
  ghost predicate DifferentIds(panels: seq<Panel>)
    reads All(panels)
  {
    forall p, q :: p in All(panels) && q in All(panels) && p != q ==> p.id != q.id
  }

  /** Panel `p` is top-level panel `i` (`a` is -1) or inner panel `a` of it. */
  ghost predicate IsAt(panels: seq<Panel>, p: Panel, i: nat, a: int) {
    i < |panels| && -1 <= a < |panels[i].inner| && p == if a < 0 then panels[i] else panels[i].inner[a]
  }

  function IdAt(i: nat, a: int): int {
    if a < 0 then TopId(i) else InnerId(i, a)
  }

  lemma PlaceOf(panels: seq<Panel>, p: Panel) returns (i: nat, a: int)
    requires p in All(panels)
    ensures IsAt(panels, p, i, a)
  {
    i :| 0 <= i < |panels| && p in Family(panels[i]);
    if p == panels[i] {
      a := -1;
    } else {
      a :| 0 <= a < |panels[i].inner| && panels[i].inner[a] == p;
    }
  }

  lemma InFamily(panels: seq<Panel>, p: Panel, i: nat, a: int)
    requires IsAt(panels, p, i, a)
    ensures p in Family(panels[i]) && p in All(panels)
  {
  }

  lemma FamiliesApart(panels: seq<Panel>, i: nat, k: nat)
    requires Tree(panels) && i < |panels| && k < |panels| && i != k
    ensures Family(panels[i]) !! Family(panels[k])
  {
    assert k < i ==> Family(panels[k]) !! Family(panels[i]);
  }

  lemma OnePlace(panels: seq<Panel>, p: Panel, i: nat, a: int, k: nat, b: int)
    requires Tree(panels) && IsAt(panels, p, i, a) && IsAt(panels, p, k, b)
    ensures i == k && (a == b || (a < 0 && b < 0))
  {
    InFamily(panels, p, i, a);
    InFamily(panels, p, k, b);
    assert OwnInner(panels[i]);
    if i != k {
      FamiliesApart(panels, i, k);
    }
  }

  lemma DifferentPlaces(counts: seq<nat>, i: nat, a: int, k: nat, b: int)
    requires DistinctIds(counts) && i < |counts| && k < |counts| && -1 <= a < counts[i] && -1 <= b < counts[k]
    requires i != k || a != b
    ensures IdAt(i, a) != IdAt(k, b)
  {
    if a < 0 && b >= 0 {
      assert TopId(i) != InnerId(k, b);
    } else if a >= 0 && b < 0 {
      assert TopId(k) != InnerId(i, a);
    } else if a >= 0 && b >= 0 && i != k {
      assert i < k ==> InnerId(i, a) != InnerId(k, b);
      assert k < i ==> InnerId(k, b) != InnerId(i, a);
    }
  }

  lemma PairDiffers(panels: seq<Panel>, i: nat, a: int, k: nat, b: int)
    requires Tree(panels) && DifferentIds(panels) && forall n :: 0 <= n < |panels| ==> Numbered(panels[n], n)
    requires i < |panels| && k < |panels| && -1 <= a < |panels[i].inner| && 0 <= b < |panels[k].inner|
    requires i != k || a != b
    ensures IdAt(i, a) != InnerId(k, b)
  {
    var p, q := if a < 0 then panels[i] else panels[i].inner[a], panels[k].inner[b];
    assert IsAt(panels, p, i, a) && IsAt(panels, q, k, b);
    InFamily(panels, p, i, a);
    InFamily(panels, q, k, b);
    if p == q {
      OnePlace(panels, p, i, a, k, b);
    }
    assert p.id == Some(IdAt(i, a)) && q.id == Some(InnerId(k, b));
  }

  /** The ids on the board are different exactly within the bounds on the numbers of inner panels. */
  lemma DifferentIdsIff(panels: seq<Panel>)
    requires Tree(panels) && forall i :: 0 <= i < |panels| ==> Numbered(panels[i], i)
    ensures DifferentIds(panels) <==> WithinHundreds(Counts(panels))
  {
    var counts := Counts(panels);
    DistinctIdsIff(counts);
    if DifferentIds(panels) {
      forall i, k, j | 0 <= i < |counts| && 0 <= k < |counts| && 0 <= j < counts[k]
        ensures TopId(i) != InnerId(k, j)
      {
        PairDiffers(panels, i, -1, k, j);
      }
      forall i, k, j, l | 0 <= i < k < |counts| && 0 <= j < counts[i] && 0 <= l < counts[k]
        ensures InnerId(i, j) != InnerId(k, l)
      {
        PairDiffers(panels, i, j, k, l);
      }
    }
    if DistinctIds(counts) {
      forall p, q | p in All(panels) && q in All(panels) && p != q
        ensures p.id != q.id
      {
        var i, a := PlaceOf(panels, p);
        var k, b := PlaceOf(panels, q);
        DifferentPlaces(counts, i, a, k, b);
        assert Numbered(panels[i], i) && Numbered(panels[k], k);
      }
    }
  }

  // ---- what this means for the gridPos entries

  /** The columns a panel covers: all of them for a row and for a panel without a width. */
  function WidthOf(isRow: bool, g: Option<GridPos>): int {
    if isRow || g.None? || g.value.w.None? then 24 else g.value.w.value
  }

  /** The lines: a row has one, a panel without a height eight. */
  function HeightOf(isRow: bool, g: Option<GridPos>): int {
    if isRow then 1 else if g.None? || g.value.h.None? then 8 else g.value.h.value
  }

  /** The cell belongs to a panel with this entry; a row covers its line, whatever the entry says. */
  ghost predicate Occupies(isRow: bool, g: Option<GridPos>, cx: int, cy: int) {
    && g.Some? && g.value.x.Some? && g.value.y.Some?
    && g.value.x.value <= cx < g.value.x.value + WidthOf(isRow, g)
    && g.value.y.value <= cy < g.value.y.value + HeightOf(isRow, g)
  }

  /** No cell belongs to two top-level panels. */
  ghost predicate Disjoint(panels: seq<Panel>, entries: seq<Placements>)
    requires |entries| == |panels|
  {
    forall i, j, cx, cy :: 0 <= i < j < |panels| ==>
      !(Occupies(panels[i].isRow, entries[i].own, cx, cy) && Occupies(panels[j].isRow, entries[j].own, cx, cy))
  }

  /** No top-level panel reaches beyond the grid's columns. */
  ghost predicate InColumns(panels: seq<Panel>, entries: seq<Placements>)
    requires |entries| == |panels|
  {
    forall i, cx, cy :: 0 <= i < |panels| && Occupies(panels[i].isRow, entries[i].own, cx, cy) ==> 0 <= cx < COLUMNS
  }

  lemma BoxMeans(isRow: bool, g: Option<GridPos>)
    ensures BoxFor(isRow, g).Width() == WidthOf(isRow, g) && BoxFor(isRow, g).Height() == HeightOf(isRow, g)
  {
  }

  /** All panels have a positive width and height. */
  ghost predicate AllSized(panels: seq<Panel>, entries: seq<Placements>)
    requires |entries| == |panels|
  {
    forall i :: 0 <= i < |panels| ==>
      WidthOf(panels[i].isRow, entries[i].own) >= 1 && HeightOf(panels[i].isRow, entries[i].own) >= 1
  }

  ghost predicate NoneWider(panels: seq<Panel>, entries: seq<Placements>)
    requires |entries| == |panels|
  {
    forall i :: 0 <= i < |panels| ==> WidthOf(panels[i].isRow, entries[i].own) <= 24
  }

  lemma EntryCovers(panels: seq<Panel>, was: seq<Placements>, i: nat, cx: int, cy: int)
    requires i < |panels| == |was|
    ensures Occupies(panels[i].isRow, PlacedAll(panels, was, |panels|)[i].own, cx, cy) <==>
            Covers(Boxes(panels, was), i, cx, cy)
  {
    BoxMeans(panels[i].isRow, PlacedAll(panels, was, |panels|)[i].own);
    assert BoxFor(panels[i].isRow, PlacedAll(panels, was, |panels|)[i].own) == Boxes(panels, was)[i];
  }

  /** The entries that the placement leaves behind: disjoint, and inside the grid unless a panel is wider than it. */
  lemma EntriesDisjoint(panels: seq<Panel>, was: seq<Placements>)
    requires |panels| == |was| && AllSized(panels, was)
    ensures Disjoint(panels, PlacedAll(panels, was, |panels|))
    ensures InColumns(panels, PlacedAll(panels, was, |panels|)) <==> NoneWider(panels, was)
  {
    var boxes, entries := Boxes(panels, was), PlacedAll(panels, was, |panels|);
    forall i | 0 <= i < |panels|
      ensures boxes[i].Width() == WidthOf(panels[i].isRow, was[i].own)
      ensures boxes[i].Height() == HeightOf(panels[i].isRow, was[i].own)
    {
      BoxMeans(panels[i].isRow, was[i].own);
    }
    forall i, j, cx, cy | 0 <= i < j < |panels|
      ensures !(Occupies(panels[i].isRow, entries[i].own, cx, cy) && Occupies(panels[j].isRow, entries[j].own, cx, cy))
    {
      EntryCovers(panels, was, i, cx, cy);
      EntryCovers(panels, was, j, cx, cy);
      NoOverlap(boxes, i, j, cx, cy);
    }
    InsideGrid(boxes);
    forall i | 0 <= i < |panels|
      ensures (forall cx, cy :: Occupies(panels[i].isRow, entries[i].own, cx, cy) ==> 0 <= cx < COLUMNS)
         <==> 0 <= PosOf(boxes, i).x && PosOf(boxes, i).x + boxes[i].Width() <= COLUMNS
    {
      EntryInColumns(panels, was, i);
    }
  }

  lemma EntryInColumns(panels: seq<Panel>, was: seq<Placements>, i: nat)
    requires i < |panels| == |was| && Sized(Boxes(panels, was))
    ensures var boxes, entry := Boxes(panels, was), PlacedAll(panels, was, |panels|)[i].own;
            (forall cx, cy :: Occupies(panels[i].isRow, entry, cx, cy) ==> 0 <= cx < COLUMNS)
            <==> 0 <= PosOf(boxes, i).x && PosOf(boxes, i).x + boxes[i].Width() <= COLUMNS
  {
    var boxes, entry := Boxes(panels, was), PlacedAll(panels, was, |panels|)[i].own;
    var p, b := PosOf(boxes, i), boxes[i];
    forall cx, cy
      ensures Occupies(panels[i].isRow, entry, cx, cy) <==> Covers(boxes, i, cx, cy)
    {
      EntryCovers(panels, was, i, cx, cy);
    }
    assert b.Width() >= 1 && b.Height() >= 1;
    assert Covers(boxes, i, p.x, p.y) && Covers(boxes, i, p.x + b.Width() - 1, p.y);
    assert Occupies(panels[i].isRow, entry, p.x, p.y) && Occupies(panels[i].isRow, entry, p.x + b.Width() - 1, p.y);
  }

  lemma AllPlacedWell(panels: seq<Panel>, was: seq<Placements>)
    requires |panels| == |was|
    ensures var now := PlacedAll(panels, was, |panels|);
            |now| == |panels| && forall i :: 0 <= i < |panels| ==> WellPlaced(panels[i].isRow, was[i], now[i])
  {
    forall i | 0 <= i < |panels|
      ensures WellPlaced(panels[i].isRow, was[i], PlacedAll(panels, was, |panels|)[i])
    {
      PlacedWell(panels[i].isRow, was[i], PosOf(Boxes(panels, was), i));
    }
  }

  /** The cell belongs to an inner panel of a row, which keeps its own size. */
  ghost predicate InnerOccupies(g: GridPos, cx: int, cy: int) {
    && g.x.Some? && g.y.Some? && g.w.Some? && g.h.Some?
    && g.x.value <= cx < g.x.value + g.w.value && g.y.value <= cy < g.y.value + g.h.value
  }

  predicate HasSize(g: GridPos) {
    g.w.Some? && g.h.Some? && g.w.value >= 1 && g.h.value >= 1
  }

  ghost predicate InnerOverlap(p: GridPos, q: GridPos) {
    exists cx, cy :: InnerOccupies(p, cx, cy) && InnerOccupies(q, cx, cy)
  }

  /** Inner panels `step` places apart. */
  lemma InnerPair(p: GridPos, q: GridPos, y: int, step: int)
    requires HasSize(p) && HasSize(q) && step > 0
    ensures InnerOverlap(Stacked(Some(p), y), Stacked(Some(q), y + step * 14)) <==> p.h.value > step * 14
  {
    var a, b := Stacked(Some(p), y), Stacked(Some(q), y + step * 14);
    if p.h.value > step * 14 {
      assert InnerOccupies(a, 0, y + step * 14) && InnerOccupies(b, 0, y + step * 14);
    }
  }

  /** Where inner panel `a` of a row at line `y` - 1 is stacked. */
  function InnerEntry(sizes: seq<GridPos>, y: int, a: nat): GridPos
    requires a < |sizes|
  {
    Stacked(Some(sizes[a]), y + a * 14)
  }

  /** No two inner panels of a row overlap if and only if each but the last is at most 14 lines high. */
  lemma InnerDisjointIff(sizes: seq<GridPos>, y: int)
    requires forall a :: 0 <= a < |sizes| ==> HasSize(sizes[a])
    ensures (forall a, b :: 0 <= a < b < |sizes| ==> !InnerOverlap(InnerEntry(sizes, y, a), InnerEntry(sizes, y, b)))
       <==> forall a :: 0 <= a < |sizes| - 1 ==> GetOr(sizes[a].h, 0) <= 14
  {
    forall a, b | 0 <= a < b < |sizes|
      ensures InnerOverlap(InnerEntry(sizes, y, a), InnerEntry(sizes, y, b)) <==> GetOr(sizes[a].h, 0) > (b - a) * 14
    {
      InnerPair(sizes[a], sizes[b], y + a * 14, b - a);
    }
    if a :| 0 <= a < |sizes| - 1 && GetOr(sizes[a].h, 0) > 14 {
      assert InnerOverlap(InnerEntry(sizes, y, a), InnerEntry(sizes, y, a + 1));
    }
  }

  /** An inner panel stacked below a row shares no cell with the row's line. */
  lemma RowLineFree(was: Placements, now: Placements, a: nat, cx: int, cy: int)
    requires WellPlaced(true, was, now) && a < |was.inner|
    ensures now.inner[a].Some? && !(Occupies(true, now.own, cx, cy) && InnerOccupies(now.inner[a].value, cx, cy))
  {
    assert BelowRow(was.inner[a], now.inner[a], now.own.value.y.value, a);
  }

  /** No inner panel of a row lies on the row's own line. */
  ghost predicate RowLinesFree(panels: seq<Panel>, entries: seq<Placements>)
    requires |entries| == |panels|
  {
    forall i, a, cx, cy :: 0 <= i < |panels| && panels[i].isRow && 0 <= a < |entries[i].inner| ==>
      entries[i].inner[a].Some?
      && !(Occupies(true, entries[i].own, cx, cy) && InnerOccupies(entries[i].inner[a].value, cx, cy))
  }

  ghost predicate AllWellPlaced(panels: seq<Panel>, was: seq<Placements>, now: seq<Placements>)
    requires |was| == |now| == |panels|
  {
    forall i :: 0 <= i < |panels| ==> WellPlaced(panels[i].isRow, was[i], now[i])
  }

  lemma RowLines(panels: seq<Panel>, was: seq<Placements>, now: seq<Placements>)
    requires |was| == |now| == |panels| && AllWellPlaced(panels, was, now)
    ensures RowLinesFree(panels, now)
  {
    forall i, a, cx, cy | 0 <= i < |panels| && panels[i].isRow && 0 <= a < |now[i].inner|
      ensures now[i].inner[a].Some?
      ensures !(Occupies(true, now[i].own, cx, cy) && InnerOccupies(now[i].inner[a].value, cx, cy))
    {
      RowLineFree(was[i], now[i], a, cx, cy);
    }
  }

  lemma PlacementFacts(panels: seq<Panel>, was: seq<Placements>)
    requires |panels| == |was|
    ensures var now := PlacedAll(panels, was, |panels|);
            && AllWellPlaced(panels, was, now) && RowLinesFree(panels, now)
            && (AllSized(panels, was) ==>
                  Disjoint(panels, now) && (InColumns(panels, now) <==> NoneWider(panels, was)))
  {
    AllPlacedWell(panels, was);
    RowLines(panels, was, PlacedAll(panels, was, |panels|));
    if AllSized(panels, was) {
      EntriesDisjoint(panels, was);
    }
  }

  lemma NumberedMeans(panels: seq<Panel>)
    requires forall i :: 0 <= i < |panels| ==> Numbered(panels[i], i)
    ensures forall i :: 0 <= i < |panels| ==> panels[i].id == Some(i + 1)
    ensures forall i, a :: 0 <= i < |panels| && 0 <= a < |panels[i].inner| ==>
              panels[i].inner[a].id == Some((i + 1) * 100 + a + 1)
  {
  }

  /**
   * Every panel keeps its size and gets the position of its box; the inner panels of a row are
   * stacked below the row; ids number the panels in reading order.
   */
  method Layout(panels: seq<Panel>)
    requires Tree(panels)
    modifies All(panels)
    ensures Snapshot(panels) == PlacedAll(panels, old(Snapshot(panels)), |panels|)
    ensures AllWellPlaced(panels, old(Snapshot(panels)), Snapshot(panels))
    ensures RowLinesFree(panels, Snapshot(panels))
    ensures AllSized(panels, old(Snapshot(panels))) ==>
              && Disjoint(panels, Snapshot(panels))
              && (InColumns(panels, Snapshot(panels)) <==> NoneWider(panels, old(Snapshot(panels))))
    ensures forall i :: 0 <= i < |panels| ==> Numbered(panels[i], i) && panels[i].id == Some(i + 1)
    ensures forall i, a :: 0 <= i < |panels| && 0 <= a < |panels[i].inner| ==>
              panels[i].inner[a].id == Some((i + 1) * 100 + a + 1)
    ensures DifferentIds(panels) <==> WithinHundreds(Counts(panels))
  {
    ghost var was := Snapshot(panels);
    PlaceAll(panels);
    NumberAll(panels);
    DifferentIdsIff(panels);
    NumberedMeans(panels);
    PlacementFacts(panels, was);
  }
}
