/** place_within_bounds: the logical board stretched onto a fixed grid, nearest nodes first. */
module Placement {
  import opened Common
  import opened Sorting
  import opened Grid
  import opened Slots
  import opened SlotProperties
  import opened Stretch

  datatype Direction = UP | DOWN | LEFT | RIGHT

  /** The fixed grid, where its centre is, and how many cells to leave at each edge. */
  datatype Frame = Frame(centerRow: int, centerColumn: int, rows: int, columns: int, margin: int)

  type Extent = map<Direction, int>

  /** How far `c` reaches along one half-axis; not positive when it lies on the other side. */
  function Step(d: Direction, c: Cell): int {
    match d
    case UP => -c.b
    case DOWN => c.b
    case LEFT => -c.a
    case RIGHT => c.a
  }

  function Room(f: Frame, d: Direction): int {
    match d
    case UP => Max(0, f.centerRow - 1 - f.margin)
    case DOWN => Max(0, f.rows - f.centerRow - f.margin)
    case LEFT => Max(0, f.centerColumn - 1 - f.margin)
    case RIGHT => Max(0, f.columns - f.centerColumn - f.margin)
  }

  /** The largest step any slot takes along a half-axis, 0 when none does. */
  function Farthest(slots: seq<Slot>, d: Direction): int {
    if slots == [] then 0 else Max(Step(d, slots[0].cell), Farthest(slots[1..], d))
  }

  function Floor(extent: Extent, d: Direction): int {
    if d in extent then extent[d] else 0
  }

  function Scale(f: Frame, slots: seq<Slot>, extent: Extent, d: Direction): Factor {
    SpreadScale(Max(Farthest(slots, d), Floor(extent, d)), Room(f, d))
  }

  function Signed(step: int, back: Factor, forth: Factor): int {
    if step < 0 then -Stretched(-step, back)
    else if step > 0 then Stretched(step, forth)
    else 0
  }

  datatype Scales = Scales(up: Factor, down: Factor, left: Factor, right: Factor)

  function AllScales(f: Frame, slots: seq<Slot>, extent: Extent): Scales {
    Scales(Scale(f, slots, extent, UP), Scale(f, slots, extent, DOWN),
           Scale(f, slots, extent, LEFT), Scale(f, slots, extent, RIGHT))
  }

  /** The (row, column) a logical (x, y) is stretched to. */
  function Target(f: Frame, k: Scales, c: Cell): Cell {
    Cell(f.centerRow + Signed(c.b, k.up, k.down), f.centerColumn + Signed(c.a, k.left, k.right))
  }

  function Spread(c: Cell): int {
    c.a * c.a + c.b * c.b
  }

  predicate NearerFirst(s: Slot, t: Slot) {
    Spread(s.cell) < Spread(t.cell) || (Spread(s.cell) == Spread(t.cell) && s.id <= t.id)
  }

  datatype Seats = Seats(at: map<NodeId, Cell>, occupied: set<Cell>)

  function OntoGrid(f: Frame, c: Cell): Cell {
    Cell(Clamp(c.a, 1, f.rows), Clamp(c.b, 1, f.columns))
  }

  ghost function Seat(seats: Seats, f: Frame, k: Scales, s: Slot): Seats {
    var cell := BoundedCell(OntoGrid(f, Target(f, k, s.cell)), seats.occupied, f.rows, f.columns);
    Seats(seats.at[s.id := cell], seats.occupied + {cell})
  }

  ghost function SeatAll(f: Frame, k: Scales, ordered: seq<Slot>): Seats {
    if ordered == [] then Seats(map[], {})
    else Seat(SeatAll(f, k, ordered[..|ordered| - 1]), f, k, ordered[|ordered| - 1])
  }

  ghost function Positions(f: Frame, slots: seq<Slot>, extent: Extent): map<NodeId, Cell> {
    SeatAll(f, AllScales(f, slots, extent), Sort(slots, NearerFirst)).at
  }

  method StretchOnto(f: Frame, k: Scales, c: Cell) returns (t: Cell)
    ensures t == Target(f, k, c)
  {
    var row, column := f.centerRow, f.centerColumn;
    if c.b < 0 {
      row := f.centerRow - Stretched(-c.b, k.up);
    } else if c.b > 0 {
      row := f.centerRow + Stretched(c.b, k.down);
    }
    if c.a < 0 {
      column := f.centerColumn - Stretched(-c.a, k.left);
    } else if c.a > 0 {
      column := f.centerColumn + Stretched(c.a, k.right);
    }
    t := Cell(row, column);
  }

  method PlaceWithinBounds(f: Frame, slots: seq<Slot>, extent: Extent) returns (at: map<NodeId, Cell>)
    ensures at == Positions(f, slots, extent)
  {
    var k := AllScales(f, slots, extent);
    var ordered := Sort(slots, NearerFirst);
    var occupied: set<Cell> := {};
    at := map[];
    for i := 0 to |ordered|
      invariant Seats(at, occupied) == SeatAll(f, k, ordered[..i])
    {
      assert ordered[..i + 1][..i] == ordered[..i];
      var target := StretchOnto(f, k, ordered[i].cell);
      var cell := ReserveBoundedCell(OntoGrid(f, target), occupied, f.rows, f.columns);
      occupied := occupied + {cell};
      at := at[ordered[i].id := cell];
    }
    assert ordered[..|ordered|] == ordered;
  }

  // ----- Everyone on the grid, nobody on top of anybody

  ghost predicate DistinctSlotIds(slots: seq<Slot>) {
    forall i, j :: 0 <= i < j < |slots| ==> slots[i].id != slots[j].id
  }

  ghost predicate Injective(at: map<NodeId, Cell>) {
    forall p, q :: p in at && q in at && p != q ==> at[p] != at[q]
  }

  ghost predicate WellSeated(r: Seats, f: Frame) {
    && r.occupied == r.at.Values
    && Injective(r.at)
    && forall id :: id in r.at ==> InGrid(r.at[id], f.rows, f.columns)
  }

  lemma SeatIsDistinct(d: Seats, f: Frame, k: Scales, s: Slot)
    requires f.rows >= 1 && f.columns >= 1 && |d.occupied| < f.rows * f.columns
    requires WellSeated(d, f) && s.id !in d.at
    ensures WellSeated(Seat(d, f, k, s), f)
  {
    var wanted := OntoGrid(f, Target(f, k, s.cell));
    GridHasFreeCell(d.occupied, f.rows, f.columns);
    BoundedCellInGrid(wanted, d.occupied, f.rows, f.columns);
    NewSeat(d, s.id, BoundedCell(wanted, d.occupied, f.rows, f.columns));
  }

  lemma {:induction false} SeatsAreDistinct(f: Frame, k: Scales, ordered: seq<Slot>)
    requires f.rows >= 1 && f.columns >= 1 && |ordered| <= f.rows * f.columns && DistinctSlotIds(ordered)
    ensures var r := SeatAll(f, k, ordered);
      WellSeated(r, f) && r.at.Keys == SlotIds(ordered) && |r.occupied| <= |ordered|
  {
    if ordered != [] {
      var n := |ordered| - 1;
      var s := ordered[n];
      assert ordered == ordered[..n] + [s];
      assert SlotIds(ordered) == SlotIds(ordered[..n]) + {s.id};
      SeatsAreDistinct(f, k, ordered[..n]);
      SeatIsDistinct(SeatAll(f, k, ordered[..n]), f, k, s);
    }
  }

  lemma NewSeat(d: Seats, id: NodeId, cell: Cell)
    requires d.occupied == d.at.Values && Injective(d.at) && id !in d.at && cell !in d.occupied
    ensures Injective(d.at[id := cell]) && d.at[id := cell].Values == d.occupied + {cell}
  {
    var e := d.at[id := cell];
    assert e[id] == cell;
    forall c | c in d.occupied ensures c in e.Values {
      var p :| p in d.at && d.at[p] == c;
      assert e[p] == c;
    }
    forall p | p in d.at ensures e[p] == d.at[p] && d.at[p] in d.at.Values {
    }
  }

  /** With at least as many grid cells as nodes, every node lands in bounds on a cell of its own. */
  lemma PositionsAreDistinct(f: Frame, slots: seq<Slot>, extent: Extent)
    requires f.rows >= 1 && f.columns >= 1 && |slots| <= f.rows * f.columns && DistinctSlotIds(slots)
    ensures var at := Positions(f, slots, extent);
      && at.Keys == SlotIds(slots)
      && Injective(at)
      && forall id :: id in at ==> InGrid(at[id], f.rows, f.columns)
  {
    var ordered := Sort(slots, NearerFirst);
    SortedSlots(slots);
    SeatsAreDistinct(f, AllScales(f, slots, extent), ordered);
  }

  lemma SortedSlots(slots: seq<Slot>)
    requires DistinctSlotIds(slots)
    ensures var ordered := Sort(slots, NearerFirst);
      && |ordered| == |slots| && DistinctSlotIds(ordered) && SlotIds(ordered) == SlotIds(slots)
      && (forall s :: s in ordered <==> s in slots)
      && Sorted(ordered, NearerFirst)
  {
    var ordered := Sort(slots, NearerFirst);
    SortPermutes(slots, NearerFirst);
    SortNoDup(slots, NearerFirst);
    SortSorted(slots, NearerFirst);
    forall i, j | 0 <= i < j < |ordered| ensures ordered[i].id != ordered[j].id {
      assert ordered[i] in slots && ordered[j] in slots;
    }
  }

  ghost predicate DistinctCells(slots: seq<Slot>) {
    forall i, j :: 0 <= i < j < |slots| ==> slots[i].cell != slots[j].cell
  }

  lemma SameCellSameSlot(slots: seq<Slot>, s: Slot, t: Slot)
    requires DistinctCells(slots) && s in slots && t in slots && s.cell == t.cell
    ensures s == t
  {
  }

  lemma SortedCells(slots: seq<Slot>)
    requires DistinctSlotIds(slots) && DistinctCells(slots)
    ensures DistinctCells(Sort(slots, NearerFirst))
  {
    var ordered := Sort(slots, NearerFirst);
    SortedSlots(slots);
    forall i, j | 0 <= i < j < |ordered| ensures ordered[i].cell != ordered[j].cell {
      assert ordered[i] in slots && ordered[j] in slots;
      if ordered[i].cell == ordered[j].cell {
        SameCellSameSlot(slots, ordered[i], ordered[j]);
      }
    }
  }

  lemma OriginSortsFirst(slots: seq<Slot>, you: Slot)
    requires DistinctSlotIds(slots) && DistinctCells(slots) && you in slots && you.cell == ORIGIN
    ensures Sort(slots, NearerFirst) != [] && Sort(slots, NearerFirst)[0] == you
  {
    var ordered := Sort(slots, NearerFirst);
    SortedSlots(slots);
    SortedHead(ordered, you, NearerFirst);
    SpreadPositive(ordered[0].cell);
    SameCellSameSlot(slots, ordered[0], you);
  }

  // ----- When every step fits its room, nobody is nudged

  ghost predicate CentreOnGrid(f: Frame) {
    1 <= f.centerRow <= f.rows && 1 <= f.centerColumn <= f.columns && f.margin >= 0
  }

  ghost predicate Fits(f: Frame, slots: seq<Slot>) {
    forall s, d :: s in slots ==> Step(d, s.cell) <= Room(f, d)
  }

  lemma {:induction false} FarthestBounds(slots: seq<Slot>, d: Direction)
    ensures forall s :: s in slots ==> Step(d, s.cell) <= Farthest(slots, d)
    ensures Farthest(slots, d) == 0 || exists s :: s in slots && Step(d, s.cell) == Farthest(slots, d)
    ensures Farthest(slots, d) >= 0
  {
    if slots != [] {
      FarthestBounds(slots[1..], d);
      assert slots == [slots[0]] + slots[1..];
      if Farthest(slots, d) == Step(d, slots[0].cell) {
        assert slots[0] in slots;
      }
    }
  }

  lemma StepStaysInRoom(f: Frame, slots: seq<Slot>, extent: Extent, d: Direction, step: int)
    requires 0 < step <= Farthest(slots, d) && step <= Room(f, d)
    ensures Stretched(step, Scale(f, slots, extent, d)) <= Room(f, d)
  {
    StretchFits(step, Max(Farthest(slots, d), Floor(extent, d)), Room(f, d));
  }

  lemma TargetInGrid(f: Frame, slots: seq<Slot>, extent: Extent, s: Slot)
    requires CentreOnGrid(f) && Fits(f, slots) && s in slots
    ensures InGrid(Target(f, AllScales(f, slots, extent), s.cell), f.rows, f.columns)
  {
    forall d: Direction
      ensures Step(d, s.cell) <= Farthest(slots, d) && Step(d, s.cell) <= Room(f, d)
      ensures Step(d, s.cell) > 0 ==> 0 <= Stretched(Step(d, s.cell), Scale(f, slots, extent, d)) <= Room(f, d)
    {
      FarthestBounds(slots, d);
      if Step(d, s.cell) > 0 {
        StepStaysInRoom(f, slots, extent, d, Step(d, s.cell));
        StretchNeverShrinks(Step(d, s.cell), Scale(f, slots, extent, d));
      }
    }
    var c := s.cell;
    assert Step(UP, c) == -c.b && Step(DOWN, c) == c.b && Step(LEFT, c) == -c.a && Step(RIGHT, c) == c.a;
  }

  lemma SignedKeepsOrder(v: int, w: int, back: Factor, forth: Factor)
    requires v < w
    ensures Signed(v, back, forth) < Signed(w, back, forth)
  {
    if w <= 0 {
      StretchKeepsOrder(-w, -v, back);
      StretchNeverShrinks(0, back);
    } else if v >= 0 {
      StretchKeepsOrder(v, w, forth);
      StretchNeverShrinks(0, forth);
    } else {
      StretchNeverShrinks(-v, back);
      StretchNeverShrinks(w, forth);
    }
  }

  /** Distinct logical slots have distinct targets, whatever the four factors are. */
  lemma TargetsDiffer(f: Frame, k: Scales, c: Cell, d: Cell)
    requires c != d
    ensures Target(f, k, c) != Target(f, k, d)
  {
    if c.b < d.b { SignedKeepsOrder(c.b, d.b, k.up, k.down); }
    if c.b > d.b { SignedKeepsOrder(d.b, c.b, k.up, k.down); }
    if c.a < d.a { SignedKeepsOrder(c.a, d.a, k.left, k.right); }
    if c.a > d.a { SignedKeepsOrder(d.a, c.a, k.left, k.right); }
  }

  lemma {:induction false} SeatsAreTargets(f: Frame, k: Scales, ordered: seq<Slot>)
    requires DistinctSlotIds(ordered) && DistinctCells(ordered)
    requires forall s :: s in ordered ==> InGrid(Target(f, k, s.cell), f.rows, f.columns)
    ensures var r := SeatAll(f, k, ordered);
      && (forall s :: s in ordered ==> s.id in r.at && r.at[s.id] == Target(f, k, s.cell))
      && r.occupied == set s | s in ordered :: Target(f, k, s.cell)
  {
    if ordered != [] {
      var n := |ordered| - 1;
      var s := ordered[n];
      assert ordered == ordered[..n] + [s];
      SeatsAreTargets(f, k, ordered[..n]);
      forall t | t in ordered[..n] ensures Target(f, k, t.cell) != Target(f, k, s.cell) && t.id != s.id {
        var i :| 0 <= i < n && ordered[i] == t;
        TargetsDiffer(f, k, ordered[i].cell, s.cell);
      }
      SeatIsTarget(f, k, ordered[..n], s, SeatAll(f, k, ordered[..n]));
    }
  }

  lemma SeatIsTarget(f: Frame, k: Scales, front: seq<Slot>, s: Slot, d: Seats)
    requires forall t :: t in front ==> t.id in d.at && d.at[t.id] == Target(f, k, t.cell)
    requires d.occupied == set t | t in front :: Target(f, k, t.cell)
    requires forall t :: t in front ==> Target(f, k, t.cell) != Target(f, k, s.cell) && t.id != s.id
    requires InGrid(Target(f, k, s.cell), f.rows, f.columns)
    ensures var r := Seat(d, f, k, s);
      && (forall t :: t in front + [s] ==> t.id in r.at && r.at[t.id] == Target(f, k, t.cell))
      && r.occupied == set t | t in front + [s] :: Target(f, k, t.cell)
  {
    assert Target(f, k, s.cell) !in d.occupied;
  }

  /** Distinct slots that all fit their half-axes land exactly on their stretched cells. */
  lemma FittingSlotsAreNotNudged(f: Frame, slots: seq<Slot>, extent: Extent)
    requires CentreOnGrid(f) && Fits(f, slots) && DistinctSlotIds(slots) && DistinctCells(slots)
    ensures var at := Positions(f, slots, extent);
      forall s :: s in slots ==> s.id in at && at[s.id] == Target(f, AllScales(f, slots, extent), s.cell)
  {
    var k := AllScales(f, slots, extent);
    var ordered := Sort(slots, NearerFirst);
    SortedSlots(slots);
    SortedCells(slots);
    forall s | s in ordered ensures InGrid(Target(f, k, s.cell), f.rows, f.columns) {
      TargetInGrid(f, slots, extent, s);
    }
    SeatsAreTargets(f, k, ordered);
  }

  /** The slot at the origin gets the exact centre, however crowded the board is. */
  lemma YouAtTheCentre(f: Frame, slots: seq<Slot>, extent: Extent, you: Slot)
    requires CentreOnGrid(f) && DistinctSlotIds(slots) && DistinctCells(slots)
    requires you in slots && you.cell == ORIGIN
    ensures var at := Positions(f, slots, extent);
      you.id in at && at[you.id] == Cell(f.centerRow, f.centerColumn)
  {
    var k := AllScales(f, slots, extent);
    var ordered := Sort(slots, NearerFirst);
    SortedSlots(slots);
    OriginSortsFirst(slots, you);
    FirstSeat(f, k, ordered);
  }

  lemma SpreadPositive(c: Cell)
    ensures Spread(c) >= 0 && (Spread(c) == 0 ==> c == ORIGIN)
  {
    assert c.a * c.a >= 0 && c.b * c.b >= 0;
    if c.a != 0 { assert c.a * c.a > 0; }
    if c.b != 0 { assert c.b * c.b > 0; }
  }

  /** Whoever is seated first gets the cell it asks for, and nobody takes it away. */
  lemma {:induction false} FirstSeat(f: Frame, k: Scales, ordered: seq<Slot>)
    requires ordered != [] && DistinctSlotIds(ordered)
    ensures ordered[0].id in SeatAll(f, k, ordered).at
    ensures SeatAll(f, k, ordered).at[ordered[0].id] == OntoGrid(f, Target(f, k, ordered[0].cell))
  {
    var n := |ordered| - 1;
    if n == 0 {
      assert SeatAll(f, k, ordered[..0]) == Seats(map[], {});
    } else {
      FirstSeat(f, k, ordered[..n]);
    }
  }

  lemma {:induction false} SeatedIds(f: Frame, k: Scales, ordered: seq<Slot>)
    ensures SeatAll(f, k, ordered).at.Keys == SlotIds(ordered)
  {
    if ordered != [] {
      var n := |ordered| - 1;
      assert ordered == ordered[..n] + [ordered[n]];
      SeatedIds(f, k, ordered[..n]);
    }
  }

  lemma EveryoneIsPositioned(f: Frame, slots: seq<Slot>, extent: Extent)
    requires DistinctSlotIds(slots)
    ensures Positions(f, slots, extent).Keys == SlotIds(slots)
  {
    SortedSlots(slots);
    SeatedIds(f, AllScales(f, slots, extent), Sort(slots, NearerFirst));
  }
}
