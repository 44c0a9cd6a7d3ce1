/** Where on the fixed grid a slot, or a node outside the viewport, ends up: first the point it is stretched or pulled
    to, then the nearest cell that the ones before it have left. */
module PlacementAim {
  import opened Common
  import opened Sorting
  import opened Grid
  import opened Slots
  import opened SlotProperties
  import opened Stretch
  import opened Placement
  import opened Viewport

  // ----- The cell of the grid a point is pulled to

  /** `n` is the cell of the grid nearest to `c` along both axes at once. */
  ghost predicate NearestOnGrid(c: Cell, n: Cell, rows: int, columns: int) {
    InGrid(n, rows, columns) &&
    forall d :: InGrid(d, rows, columns) ==> Abs(c.a - n.a) <= Abs(c.a - d.a) && Abs(c.b - n.b) <= Abs(c.b - d.b)
  }

  lemma ClampedIsNearest(c: Cell, n: Cell, rows: int, columns: int)
    requires rows >= 1 && columns >= 1
    ensures NearestOnGrid(c, n, rows, columns) <==> n == Cell(Clamp(c.a, 1, rows), Clamp(c.b, 1, columns))
  {
    var m := Cell(Clamp(c.a, 1, rows), Clamp(c.b, 1, columns));
    assert InGrid(m, rows, columns);
  }

  lemma OntoGridIsNearest(f: Frame, c: Cell, n: Cell)
    requires f.rows >= 1 && f.columns >= 1
    ensures NearestOnGrid(c, n, f.rows, f.columns) <==> n == OntoGrid(f, c)
  {
    ClampedIsNearest(c, n, f.rows, f.columns);
  }

  /** An off-screen node is pulled to the cell of the viewport nearest to it. */
  lemma NearbyIsNearest(c: Cell, n: Cell, rows: int, columns: int)
    requires rows >= 1 && columns >= 1
    ensures NearestOnGrid(c, n, rows, columns) <==> n == Nearby(c, rows, columns)
  {
    ClampedIsNearest(c, n, rows, columns);
  }

  // ----- The point a slot is stretched to

  ghost predicate Largest(reach: int, steps: set<int>) {
    reach in steps && forall k :: k in steps ==> k <= reach
  }

  /** `k` is a nearest whole number to n/d, the even one of two. */
  ghost predicate Rounded(k: int, n: int, d: int) {
    -d <= 2 * (k * d - n) <= d && (2 * (k * d - n) == d || 2 * (k * d - n) == -d ==> k % 2 == 0)
  }

  /** `k` is a step stretched by room/reach when there is room to spare, and the step itself when there is none. */
  ghost predicate StretchedStep(k: int, step: int, reach: int, room: int) {
    step > 0 ==> if room > reach then Rounded(k, step * room, reach) else k == step
  }

  ghost function Extra(extent: Extent, d: Direction): set<int> {
    {0} + if d in extent then {extent[d]} else {}
  }

  /** How far the slots, and the given extent, reach to the four sides. */
  datatype Reach = Reach(up: int, down: int, left: int, right: int)

  ghost predicate Reaches(r: Reach, slots: seq<Slot>, extent: Extent) {
    && Largest(r.up, (set s | s in slots :: -s.cell.b) + Extra(extent, UP))
    && Largest(r.down, (set s | s in slots :: s.cell.b) + Extra(extent, DOWN))
    && Largest(r.left, (set s | s in slots :: -s.cell.a) + Extra(extent, LEFT))
    && Largest(r.right, (set s | s in slots :: s.cell.a) + Extra(extent, RIGHT))
  }

  lemma StretchesExactly(step: int, reach: int, room: int)
    requires 0 < step <= reach
    ensures StretchedStep(Stretched(step, SpreadScale(reach, Max(0, room))), step, reach, room)
  {
    if room > reach {
      RoundsToNearest(step * room, reach);
    } else {
      RoundsWholeExactly(step, 1);
    }
  }

  lemma LargestIs(reach: int, steps: set<int>, slots: seq<Slot>, extent: Extent, d: Direction)
    requires steps == (set s | s in slots :: Step(d, s.cell)) + Extra(extent, d) && Largest(reach, steps)
    ensures reach == Max(Farthest(slots, d), Floor(extent, d)) >= 0
    ensures forall s :: s in slots ==> Step(d, s.cell) <= reach
  {
    FarthestBounds(slots, d);
    var far := Max(Farthest(slots, d), Floor(extent, d));
    assert far in steps && forall k :: k in steps ==> k <= far;
  }

  /** `reach` is the farthest step of a slot, or of the given extent, to the side `d`. */
  ghost predicate ReachesSide(reach: int, slots: seq<Slot>, extent: Extent, d: Direction) {
    Largest(reach, (set s | s in slots :: Step(d, s.cell)) + Extra(extent, d))
  }

  lemma ReachOfSides(r: Reach, slots: seq<Slot>, extent: Extent)
    requires Reaches(r, slots, extent)
    ensures ReachesSide(r.up, slots, extent, UP) && ReachesSide(r.down, slots, extent, DOWN)
    ensures ReachesSide(r.left, slots, extent, LEFT) && ReachesSide(r.right, slots, extent, RIGHT)
  {
    assert (set s | s in slots :: Step(UP, s.cell)) == set s | s in slots :: -s.cell.b;
    assert (set s | s in slots :: Step(DOWN, s.cell)) == set s | s in slots :: s.cell.b;
    assert (set s | s in slots :: Step(LEFT, s.cell)) == set s | s in slots :: -s.cell.a;
    assert (set s | s in slots :: Step(RIGHT, s.cell)) == set s | s in slots :: s.cell.a;
  }

  lemma SideIsStretched(f: Frame, slots: seq<Slot>, extent: Extent, s: Slot, d: Direction, reach: int, room: int)
    requires s in slots && ReachesSide(reach, slots, extent, d)
    requires Step(d, s.cell) > 0 && Room(f, d) == Max(0, room)
    ensures StretchedStep(Stretched(Step(d, s.cell), Scale(f, slots, extent, d)), Step(d, s.cell), reach, room)
  {
    LargestIs(reach, (set t | t in slots :: Step(d, t.cell)) + Extra(extent, d), slots, extent, d);
    StretchesExactly(Step(d, s.cell), reach, room);
  }

  lemma RowIsStretched(f: Frame, slots: seq<Slot>, extent: Extent, s: Slot, up: int, down: int)
    requires s in slots && ReachesSide(up, slots, extent, UP) && ReachesSide(down, slots, extent, DOWN)
    ensures var row := Target(f, AllScales(f, slots, extent), s.cell).a;
      && StretchedStep(f.centerRow - row, -s.cell.b, up, f.centerRow - 1 - f.margin)
      && StretchedStep(row - f.centerRow, s.cell.b, down, f.rows - f.centerRow - f.margin)
      && (s.cell.b == 0 ==> row == f.centerRow)
  {
    if s.cell.b < 0 {
      SideIsStretched(f, slots, extent, s, UP, up, f.centerRow - 1 - f.margin);
    } else if s.cell.b > 0 {
      SideIsStretched(f, slots, extent, s, DOWN, down, f.rows - f.centerRow - f.margin);
    }
  }

  lemma ColumnIsStretched(f: Frame, slots: seq<Slot>, extent: Extent, s: Slot, left: int, right: int)
    requires s in slots && ReachesSide(left, slots, extent, LEFT) && ReachesSide(right, slots, extent, RIGHT)
    ensures var column := Target(f, AllScales(f, slots, extent), s.cell).b;
      && StretchedStep(f.centerColumn - column, -s.cell.a, left, f.centerColumn - 1 - f.margin)
      && StretchedStep(column - f.centerColumn, s.cell.a, right, f.columns - f.centerColumn - f.margin)
      && (s.cell.a == 0 ==> column == f.centerColumn)
  {
    if s.cell.a < 0 {
      SideIsStretched(f, slots, extent, s, LEFT, left, f.centerColumn - 1 - f.margin);
    } else if s.cell.a > 0 {
      SideIsStretched(f, slots, extent, s, RIGHT, right, f.columns - f.centerColumn - f.margin);
    }
  }

  /** Every slot above YOU is stretched upwards by the room above over the farthest step up, one below downwards, and so
      for the columns; a slot in YOU's own row or column stays in it. */
  lemma TargetIsStretched(f: Frame, slots: seq<Slot>, extent: Extent, s: Slot, r: Reach)
    requires s in slots && Reaches(r, slots, extent)
    ensures var t := Target(f, AllScales(f, slots, extent), s.cell);
      && StretchedStep(f.centerRow - t.a, -s.cell.b, r.up, f.centerRow - 1 - f.margin)
      && StretchedStep(t.a - f.centerRow, s.cell.b, r.down, f.rows - f.centerRow - f.margin)
      && StretchedStep(f.centerColumn - t.b, -s.cell.a, r.left, f.centerColumn - 1 - f.margin)
      && StretchedStep(t.b - f.centerColumn, s.cell.a, r.right, f.columns - f.centerColumn - f.margin)
      && (s.cell.b == 0 ==> t.a == f.centerRow) && (s.cell.a == 0 ==> t.b == f.centerColumn)
  {
    ReachOfSides(r, slots, extent);
    RowIsStretched(f, slots, extent, s, r.up, r.down);
    ColumnIsStretched(f, slots, extent, s, r.left, r.right);
  }

  // ----- Nearest first

  /** `s` is seated before `t`: it is nearer to YOU, or as near with the smaller ID. */
  ghost predicate Ahead(s: Slot, t: Slot) {
    var p, q := s.cell.a * s.cell.a + s.cell.b * s.cell.b, t.cell.a * t.cell.a + t.cell.b * t.cell.b;
    p < q || (p == q && s.id < t.id)
  }

  ghost function CellsAhead(slots: seq<Slot>, at: map<NodeId, Cell>, t: Slot): set<Cell> {
    set s | s in slots && Ahead(s, t) && s.id in at :: at[s.id]
  }

  /** Everyone of `front` has a seat, and these are the seats. */
  ghost predicate SeatsOf(front: seq<Slot>, d: Seats) {
    && (forall s :: s in front ==> s.id in d.at)
    && d.occupied == set s | s in front && s.id in d.at :: d.at[s.id]
  }

  lemma SeatNext(f: Frame, k: Scales, front: seq<Slot>, d: Seats, s: Slot)
    requires SeatsOf(front, d) && forall t :: t in front ==> t.id != s.id
    ensures SeatsOf(front + [s], Seat(d, f, k, s))
    ensures forall t :: t in front ==> t.id in Seat(d, f, k, s).at && Seat(d, f, k, s).at[t.id] == d.at[t.id]
  {
    var cell := BoundedCell(OntoGrid(f, Target(f, k, s.cell)), d.occupied, f.rows, f.columns);
    NextSeats(front, d, s, cell);
  }

  lemma NextSeats(front: seq<Slot>, d: Seats, s: Slot, cell: Cell)
    requires SeatsOf(front, d) && forall t :: t in front ==> t.id != s.id
    ensures SeatsOf(front + [s], Seats(d.at[s.id := cell], d.occupied + {cell}))
  {
    var at := d.at[s.id := cell];
    var after := set t | t in front + [s] && t.id in at :: at[t.id];
    forall c | c in d.occupied ensures c in after {
      var t :| t in front && t.id in d.at && d.at[t.id] == c;
      assert t in front + [s] && at[t.id] == c;
    }
    assert s in front + [s] && cell in after;
    forall c | c in after ensures c in d.occupied + {cell} {
      var t :| t in front + [s] && t.id in at && at[t.id] == c;
      if t != s {
        assert t in front;
      }
    }
  }

  lemma {:induction false} SeatedInTurn(f: Frame, k: Scales, ordered: seq<Slot>, i: nat)
    requires i < |ordered| && DistinctSlotIds(ordered)
    ensures SeatsOf(ordered, SeatAll(f, k, ordered)) && SeatsOf(ordered[..i], SeatAll(f, k, ordered[..i]))
    ensures forall t :: t in ordered[..i] ==> SeatAll(f, k, ordered).at[t.id] == SeatAll(f, k, ordered[..i]).at[t.id]
    ensures var id := ordered[i].id;
      SeatAll(f, k, ordered).at[id] == Seat(SeatAll(f, k, ordered[..i]), f, k, ordered[i]).at[id]
  {
    var n := |ordered| - 1;
    assert ordered == ordered[..n] + [ordered[n]];
    if n > 0 {
      SeatedInTurn(f, k, ordered[..n], if i < n then i else 0);
    } else {
      assert SeatsOf(ordered[..n], SeatAll(f, k, ordered[..n]));
    }
    if i < n {
      assert ordered[..n][..i] == ordered[..i];
    }
    SeatNext(f, k, ordered[..n], SeatAll(f, k, ordered[..n]), ordered[n]);
  }

  lemma FrontIsAhead(slots: seq<Slot>, ordered: seq<Slot>, i: nat)
    requires DistinctSlotIds(ordered) && Sorted(ordered, NearerFirst) && i < |ordered|
    requires forall s :: s in ordered <==> s in slots
    ensures forall s :: s in ordered[..i] <==> s in slots && Ahead(s, ordered[i])
  {
    forall s | s in slots && Ahead(s, ordered[i]) ensures s in ordered[..i] {
      var j :| 0 <= j < |ordered| && ordered[j] == s;
      assert j < i || !NearerFirst(ordered[i], ordered[j]);
    }
    forall s | s in ordered[..i] ensures s in slots && Ahead(s, ordered[i]) {
      var j :| 0 <= j < i && ordered[j] == s;
      assert NearerFirst(ordered[j], ordered[i]);
    }
  }

  /** Every slot is on a cell of the grid that is nearest, among those the slots nearer to YOU have left, to the point
      it is stretched to (pulled onto the grid when that lies outside); and on that very cell once none is left. */
  lemma SeatedNearestToTarget(f: Frame, slots: seq<Slot>, extent: Extent, s: Slot, wanted: Cell)
    requires f.rows >= 1 && f.columns >= 1 && DistinctSlotIds(slots) && s in slots
    requires NearestOnGrid(Target(f, AllScales(f, slots, extent), s.cell), wanted, f.rows, f.columns)
    ensures var at := Positions(f, slots, extent); s.id in at && var taken := CellsAhead(slots, at, s);
      if SomeFree(taken, f.rows, f.columns)
      then FreeInGrid(taken, f.rows, f.columns)(at[s.id]) &&
           forall c :: FreeInGrid(taken, f.rows, f.columns)(c) ==> Distance(wanted, at[s.id]) <= Distance(wanted, c)
      else at[s.id] == wanted
  {
    var k := AllScales(f, slots, extent);
    var ordered := Sort(slots, NearerFirst);
    SortedSlots(slots);
    var i :| 0 <= i < |ordered| && ordered[i] == s;
    OntoGridIsNearest(f, Target(f, k, s.cell), wanted);
    SeatedInTurn(f, k, ordered, i);
    FrontIsAhead(slots, ordered, i);
    var taken := SeatAll(f, k, ordered[..i]).occupied;
    assert CellsAhead(slots, SeatAll(f, k, ordered).at, s) == taken;
    if SomeFree(taken, f.rows, f.columns) {
      BoundedCellIsNearest(wanted, taken, f.rows, f.columns);
    } else {
      BoundedCellOfFullGrid(wanted, taken, f.rows, f.columns);
    }
  }
}
