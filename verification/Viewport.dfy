/** project_to_viewport: what is visible stays, what is off-screen is pulled onto the nearest edge. */
module Viewport {
  import opened Common
  import opened Sorting
  import opened Grid
  import opened Slots
  import opened Placement

  /** One item of the position mapping. */
  datatype Entry = Entry(id: NodeId, at: Cell)

  predicate IdFirst(e: Entry, f: Entry) {
    e.id <= f.id
  }

  predicate OnEdge(c: Cell, rows: int, columns: int) {
    c.a == 1 || c.a == rows || c.b == 1 || c.b == columns
  }

  function FreeOnEdge(occupied: set<Cell>, rows: int, columns: int): Cell -> bool {
    c => InGrid(c, rows, columns) && c !in occupied && OnEdge(c, rows, columns)
  }

  /** _reserve_edge_cell: the cell itself, else the nearest free boundary cell, else any free cell. */
  ghost function EdgeCell(c: Cell, occupied: set<Cell>, rows: int, columns: int): Cell {
    if c !in occupied then c
    else match Scan(c, rows + columns, FreeOnEdge(occupied, rows, columns))
      case Some(d) => d
      case None => BoundedCell(c, occupied, rows, columns)
  }

  method ReserveEdgeCell(c: Cell, occupied: set<Cell>, rows: int, columns: int) returns (r: Cell)
    ensures r == EdgeCell(c, occupied, rows, columns)
  {
    if c !in occupied {
      return c;
    }
    var found := ScanRings(c, rows + columns, FreeOnEdge(occupied, rows, columns));
    if found.Some? {
      return found.value;
    }
    r := ReserveBoundedCell(c, occupied, rows, columns);
  }

  ghost predicate BoundaryFree(occupied: set<Cell>, rows: int, columns: int) {
    exists d :: FreeOnEdge(occupied, rows, columns)(d)
  }

  lemma EdgeCellBeats(c: Cell, occupied: set<Cell>, rows: int, columns: int, d: Cell)
    requires InGrid(c, rows, columns) && OnEdge(c, rows, columns) && FreeOnEdge(occupied, rows, columns)(d)
    ensures var r := EdgeCell(c, occupied, rows, columns);
      FreeOnEdge(occupied, rows, columns)(r) && Distance(c, r) <= Distance(c, d)
  {
    GridSpan(c, d, rows, columns);
    if c in occupied {
      ScanBeats(c, rows + columns, FreeOnEdge(occupied, rows, columns), d);
    }
  }

  /** From a boundary cell: while a boundary cell is free, the answer is a nearest free one. */
  lemma EdgeCellIsNearest(c: Cell, occupied: set<Cell>, rows: int, columns: int)
    requires InGrid(c, rows, columns) && OnEdge(c, rows, columns) && BoundaryFree(occupied, rows, columns)
    ensures var r := EdgeCell(c, occupied, rows, columns);
      && FreeOnEdge(occupied, rows, columns)(r)
      && forall d :: FreeOnEdge(occupied, rows, columns)(d) ==> Distance(c, r) <= Distance(c, d)
  {
    var e :| FreeOnEdge(occupied, rows, columns)(e);
    EdgeCellBeats(c, occupied, rows, columns, e);
    forall d | FreeOnEdge(occupied, rows, columns)(d)
      ensures Distance(c, EdgeCell(c, occupied, rows, columns)) <= Distance(c, d)
    {
      EdgeCellBeats(c, occupied, rows, columns, d);
    }
  }

  /** In any case the answer is a grid cell, and a free one while the grid has any. */
  lemma EdgeCellIsFree(c: Cell, occupied: set<Cell>, rows: int, columns: int)
    requires InGrid(c, rows, columns)
    ensures InGrid(EdgeCell(c, occupied, rows, columns), rows, columns)
    ensures SomeFree(occupied, rows, columns) ==> EdgeCell(c, occupied, rows, columns) !in occupied
  {
    if c in occupied {
      ScanIsAcceptable(c, rows + columns, FreeOnEdge(occupied, rows, columns));
      BoundedCellInGrid(c, occupied, rows, columns);
    }
  }

  // ----- The projection

  function Visible(entries: seq<Entry>, rows: int, columns: int, inside: bool): seq<Entry> {
    if entries == [] then []
    else Visible(entries[..|entries| - 1], rows, columns, inside) +
         (if InGrid(entries[|entries| - 1].at, rows, columns) == inside then [entries[|entries| - 1]] else [])
  }

  function SeatVisible(entries: seq<Entry>): Seats {
    if entries == [] then Seats(map[], {})
    else
      var r := SeatVisible(entries[..|entries| - 1]);
      var e := entries[|entries| - 1];
      Seats(r.at[e.id := e.at], r.occupied + {e.at})
  }

  /** The cell of the grid nearest to `c`; for an off-screen `c` it lies on the boundary. */
  function Nearby(c: Cell, rows: int, columns: int): Cell {
    Cell(Clamp(c.a, 1, rows), Clamp(c.b, 1, columns))
  }

  ghost function SeatOnEdge(r: Seats, e: Entry, rows: int, columns: int): Seats {
    var cell := EdgeCell(Nearby(e.at, rows, columns), r.occupied, rows, columns);
    Seats(r.at[e.id := cell], r.occupied + {cell})
  }

  ghost function SeatClipped(r: Seats, entries: seq<Entry>, rows: int, columns: int): Seats {
    if entries == [] then r
    else SeatOnEdge(SeatClipped(r, entries[..|entries| - 1], rows, columns), entries[|entries| - 1], rows, columns)
  }

  function EntryIds(entries: seq<Entry>): set<NodeId> {
    set e | e in entries :: e.id
  }

  datatype Projection = Projection(at: map<NodeId, Cell>, edge: set<NodeId>)

  ghost function Project(positions: seq<Entry>, rowCount: int, columnCount: int): Projection {
    var rows, columns := Max(1, rowCount), Max(1, columnCount);
    var ordered := Sort(positions, IdFirst);
    var seats := SeatClipped(SeatVisible(Visible(ordered, rows, columns, true)),
                             Visible(ordered, rows, columns, false), rows, columns);
    Projection(seats.at, EntryIds(Visible(ordered, rows, columns, false)))
  }

  method ProjectToViewport(positions: seq<Entry>, rowCount: int, columnCount: int) returns (p: Projection)
    ensures p == Project(positions, rowCount, columnCount)
  {
    var rows, columns := Max(1, rowCount), Max(1, columnCount);
    var ordered := Sort(positions, IdFirst);
    var inside: seq<Entry> := [];
    var outside: seq<Entry> := [];
    for i := 0 to |ordered|
      invariant inside == Visible(ordered[..i], rows, columns, true)
      invariant outside == Visible(ordered[..i], rows, columns, false)
    {
      assert ordered[..i + 1][..i] == ordered[..i];
      if InGrid(ordered[i].at, rows, columns) {
        inside := inside + [ordered[i]];
      } else {
        outside := outside + [ordered[i]];
      }
    }
    assert ordered[..|ordered|] == ordered;
    var seats := PlaceVisible(inside);
    var edge: set<NodeId>;
    seats, edge := PlaceClipped(seats, outside, rows, columns);
    p := Projection(seats.at, edge);
  }

  method PlaceVisible(inside: seq<Entry>) returns (seats: Seats)
    ensures seats == SeatVisible(inside)
  {
    var at: map<NodeId, Cell> := map[];
    var occupied: set<Cell> := {};
    for i := 0 to |inside|
      invariant Seats(at, occupied) == SeatVisible(inside[..i])
    {
      assert inside[..i + 1][..i] == inside[..i];
      at := at[inside[i].id := inside[i].at];
      occupied := occupied + {inside[i].at};
    }
    assert inside[..|inside|] == inside;
    seats := Seats(at, occupied);
  }

  method PlaceClipped(start: Seats, outside: seq<Entry>, rows: int, columns: int)
    returns (seats: Seats, edge: set<NodeId>)
    ensures seats == SeatClipped(start, outside, rows, columns) && edge == EntryIds(outside)
  {
    var at: map<NodeId, Cell> := start.at;
    var occupied := start.occupied;
    edge := {};
    for i := 0 to |outside|
      invariant Seats(at, occupied) == SeatClipped(start, outside[..i], rows, columns)
      invariant edge == EntryIds(outside[..i])
    {
      assert outside[..i + 1][..i] == outside[..i];
      assert outside[..i + 1] == outside[..i] + [outside[i]];
      var e := outside[i];
      var cell := ReserveEdgeCell(Nearby(e.at, rows, columns), occupied, rows, columns);
      occupied := occupied + {cell};
      at := at[e.id := cell];
      edge := edge + {e.id};
    }
    assert outside[..|outside|] == outside;
    seats := Seats(at, occupied);
  }

  // ----- What it guarantees

  ghost predicate DistinctEntryIds(entries: seq<Entry>) {
    forall i, j :: 0 <= i < j < |entries| ==> entries[i].id != entries[j].id
  }

  lemma {:induction false} VisibleExact(entries: seq<Entry>, rows: int, columns: int, inside: bool)
    ensures forall e ::
        e in Visible(entries, rows, columns, inside) <==> e in entries && InGrid(e.at, rows, columns) == inside
    ensures DistinctEntryIds(entries) ==> DistinctEntryIds(Visible(entries, rows, columns, inside))
    ensures |Visible(entries, rows, columns, inside)| <= |entries|
  {
    if entries != [] {
      var n := |entries| - 1;
      assert entries == entries[..n] + [entries[n]];
      VisibleExact(entries[..n], rows, columns, inside);
    }
  }

  lemma {:induction false} VisibleSplit(entries: seq<Entry>, rows: int, columns: int)
    ensures |Visible(entries, rows, columns, true)| + |Visible(entries, rows, columns, false)| == |entries|
  {
    if entries != [] {
      VisibleSplit(entries[..|entries| - 1], rows, columns);
    }
  }

  /** `r` holds exactly the entries, each where it is. */
  ghost predicate SeatsAre(r: Seats, entries: seq<Entry>) {
    && r.at.Keys == EntryIds(entries)
    && (forall e :: e in entries ==> e.id in r.at && r.at[e.id] == e.at)
    && r.occupied == r.at.Values
  }

  lemma SeatAdded(d: Seats, entries: seq<Entry>, e: Entry)
    requires SeatsAre(d, entries) && e.id !in EntryIds(entries)
    ensures SeatsAre(Seats(d.at[e.id := e.at], d.occupied + {e.at}), entries + [e])
  {
    assert EntryIds(entries + [e]) == EntryIds(entries) + {e.id};
    AddedValue(d, e.id, e.at);
  }

  lemma {:induction false} SeatVisibleExact(entries: seq<Entry>)
    requires DistinctEntryIds(entries)
    ensures SeatsAre(SeatVisible(entries), entries) && |SeatVisible(entries).occupied| <= |entries|
  {
    if entries != [] {
      var n := |entries| - 1;
      assert entries == entries[..n] + [entries[n]];
      SeatVisibleExact(entries[..n]);
      SeatAdded(SeatVisible(entries[..n]), entries[..n], entries[n]);
    }
  }

  lemma AddedValue(d: Seats, id: NodeId, cell: Cell)
    requires d.occupied == d.at.Values && id !in d.at
    ensures d.at[id := cell].Values == d.occupied + {cell}
  {
    var e := d.at[id := cell];
    assert e[id] == cell;
    forall c | c in d.occupied ensures c in e.Values {
      var p :| p in d.at && d.at[p] == c;
      assert e[p] == c;
    }
  }

  /** `cell` is a nearest boundary cell to `c` that is not taken, or every boundary cell is taken. */
  ghost predicate NearestEdgeOrFull(c: Cell, cell: Cell, taken: set<Cell>, rows: int, columns: int) {
    && (BoundaryFree(taken, rows, columns) ==>
          && FreeOnEdge(taken, rows, columns)(cell)
          && forall d :: FreeOnEdge(taken, rows, columns)(d) ==> Distance(c, cell) <= Distance(c, d))
    && (!OnEdge(cell, rows, columns) ==>
          forall d :: InGrid(d, rows, columns) && OnEdge(d, rows, columns) ==> d in taken)
  }

  lemma ClampedOntoEdge(c: Cell, rows: int, columns: int)
    requires rows >= 1 && columns >= 1 && !InGrid(c, rows, columns)
    ensures InGrid(Nearby(c, rows, columns), rows, columns) && OnEdge(Nearby(c, rows, columns), rows, columns)
  {
  }

  lemma SeatOnEdgeExact(d: Seats, e: Entry, rows: int, columns: int)
    requires rows >= 1 && columns >= 1 && !InGrid(e.at, rows, columns)
    ensures var r := SeatOnEdge(d, e, rows, columns);
      && InGrid(r.at[e.id], rows, columns)
      && (|d.occupied| < rows * columns ==> r.at[e.id] !in d.occupied)
  {
    ClampedOntoEdge(e.at, rows, columns);
    EdgeCellIsFree(Nearby(e.at, rows, columns), d.occupied, rows, columns);
    if |d.occupied| < rows * columns {
      GridHasFreeCell(d.occupied, rows, columns);
    }
  }

  lemma EdgeCellFillsTheEdge(e: Entry, taken: set<Cell>, rows: int, columns: int)
    requires rows >= 1 && columns >= 1 && !InGrid(e.at, rows, columns)
    ensures var c := Nearby(e.at, rows, columns);
      NearestEdgeOrFull(c, EdgeCell(c, taken, rows, columns), taken, rows, columns)
  {
    ClampedOntoEdge(e.at, rows, columns);
    var c := Nearby(e.at, rows, columns);
    if BoundaryFree(taken, rows, columns) {
      EdgeCellIsNearest(c, taken, rows, columns);
    } else {
      forall b | InGrid(b, rows, columns) && OnEdge(b, rows, columns) ensures b in taken {
        assert FreeOnEdge(taken, rows, columns)(b) <==> b !in taken;
      }
    }
  }

  ghost predicate Clipped(entries: seq<Entry>, rows: int, columns: int) {
    DistinctEntryIds(entries) && forall e :: e in entries ==> !InGrid(e.at, rows, columns)
  }

  lemma {:induction false} SeatClippedKeys(d: Seats, entries: seq<Entry>, rows: int, columns: int)
    ensures SeatClipped(d, entries, rows, columns).at.Keys == d.at.Keys + EntryIds(entries)
    ensures |SeatClipped(d, entries, rows, columns).occupied| <= |d.occupied| + |entries|
  {
    if entries != [] {
      var n := |entries| - 1;
      assert entries == entries[..n] + [entries[n]];
      SeatClippedKeys(d, entries[..n], rows, columns);
    }
  }

  lemma {:induction false} SeatClippedCells(d: Seats, entries: seq<Entry>, rows: int, columns: int)
    requires DistinctEntryIds(entries) && d.occupied == d.at.Values && d.at.Keys !! EntryIds(entries)
    ensures SeatClipped(d, entries, rows, columns).occupied == SeatClipped(d, entries, rows, columns).at.Values
  {
    if entries != [] {
      var n := |entries| - 1;
      var e := entries[n];
      assert entries == entries[..n] + [e];
      assert EntryIds(entries) == EntryIds(entries[..n]) + {e.id};
      SeatClippedKeys(d, entries[..n], rows, columns);
      SeatClippedCells(d, entries[..n], rows, columns);
      var s := SeatClipped(d, entries[..n], rows, columns);
      AddedValue(s, e.id, SeatOnEdge(s, e, rows, columns).at[e.id]);
    }
  }

  lemma {:induction false} SeatClippedExact(d: Seats, entries: seq<Entry>, rows: int, columns: int)
    requires rows >= 1 && columns >= 1 && Clipped(entries, rows, columns) && d.at.Keys !! EntryIds(entries)
    ensures var r := SeatClipped(d, entries, rows, columns);
      && r.at.Keys == d.at.Keys + EntryIds(entries)
      && (forall id :: id in d.at ==> r.at[id] == d.at[id])
      && (forall id :: id in EntryIds(entries) ==> InGrid(r.at[id], rows, columns))
  {
    if entries != [] {
      var n := |entries| - 1;
      var e := entries[n];
      assert entries == entries[..n] + [e];
      assert EntryIds(entries) == EntryIds(entries[..n]) + {e.id};
      SeatClippedExact(d, entries[..n], rows, columns);
      SeatOnEdgeExact(SeatClipped(d, entries[..n], rows, columns), e, rows, columns);
    }
  }

  /** Seating one more entry leaves the earlier seats as they are. */
  lemma SeatStays(d: Seats, e: Entry, rows: int, columns: int, id: NodeId)
    requires id in d.at && id != e.id
    ensures var r := SeatOnEdge(d, e, rows, columns); id in r.at && r.at[id] == d.at[id]
  {
  }

  /** A seat once given stays as it is while the later entries are seated. */
  lemma {:induction false} SeatsStay(d: Seats, entries: seq<Entry>, rows: int, columns: int, i: nat, s: Seats, r: Seats,
                                     id: NodeId)
    requires i <= |entries| && forall k :: i <= k < |entries| ==> entries[k].id != id
    requires s == SeatClipped(d, entries[..i], rows, columns) && r == SeatClipped(d, entries, rows, columns)
    requires id in s.at
    ensures id in r.at && r.at[id] == s.at[id]
    decreases |entries|
  {
    if i == |entries| {
      assert entries[..i] == entries;
    } else {
      var n := |entries| - 1;
      var front := entries[..n];
      assert front[..i] == entries[..i];
      var m := SeatClipped(d, front, rows, columns);
      SeatsStay(d, front, rows, columns, i, s, m, id);
      SeatStays(m, entries[n], rows, columns, id);
    }
  }

  lemma SeatedBefore(d: Seats, entries: seq<Entry>, rows: int, columns: int, i: nat, id: NodeId)
    requires DistinctEntryIds(entries) && d.at.Keys !! EntryIds(entries) && i <= |entries|
    requires id in SeatClipped(d, entries[..i], rows, columns).at
    ensures forall k :: i <= k < |entries| ==> entries[k].id != id
  {
    SeatClippedKeys(d, entries[..i], rows, columns);
    forall k | i <= k < |entries| ensures entries[k].id != id {
      assert entries[k] in entries && entries[k].id in EntryIds(entries);
      if id in EntryIds(entries[..i]) {
        var e :| e in entries[..i] && e.id == id;
        var j :| 0 <= j < i && entries[j] == e;
      }
    }
  }

  ghost function CellsOf(at: map<NodeId, Cell>, ids: set<NodeId>): set<Cell>
    requires ids <= at.Keys
  {
    set id | id in ids :: at[id]
  }

  lemma SameCellsOf(at: map<NodeId, Cell>, fewer: map<NodeId, Cell>)
    requires fewer.Keys <= at.Keys && forall id :: id in fewer ==> at[id] == fewer[id]
    ensures CellsOf(at, fewer.Keys) == fewer.Values
  {
    forall c | c in fewer.Values ensures c in CellsOf(at, fewer.Keys) {
      var id :| id in fewer && fewer[id] == c;
    }
  }

  /** Before the turn of `entries[i]` the cells of the entries seated so far are taken. */
  lemma TakenSoFar(d: Seats, entries: seq<Entry>, rows: int, columns: int, i: nat)
    requires DistinctEntryIds(entries) && i <= |entries|
    requires d.occupied == d.at.Values && d.at.Keys !! EntryIds(entries)
    ensures var r := SeatClipped(d, entries, rows, columns);
      && d.at.Keys + EntryIds(entries[..i]) <= r.at.Keys
      && SeatClipped(d, entries[..i], rows, columns).occupied == CellsOf(r.at, d.at.Keys + EntryIds(entries[..i]))
  {
    var r := SeatClipped(d, entries, rows, columns);
    var s := SeatClipped(d, entries[..i], rows, columns);
    SeatClippedKeys(d, entries[..i], rows, columns);
    SeatClippedCells(d, entries[..i], rows, columns);
    forall id | id in s.at ensures id in r.at && r.at[id] == s.at[id] {
      SeatedBefore(d, entries, rows, columns, i, id);
      SeatsStay(d, entries, rows, columns, i, s, r, id);
    }
    SameCellsOf(r.at, s.at);
  }

  /** The off-screen entry `entries[i]` is seated against the cells given out before its turn. */
  lemma SeatedAtTurn(d: Seats, entries: seq<Entry>, rows: int, columns: int, i: nat)
    requires DistinctEntryIds(entries) && d.at.Keys !! EntryIds(entries) && i < |entries|
    ensures var r, s := SeatClipped(d, entries, rows, columns), SeatClipped(d, entries[..i], rows, columns);
      && entries[i].id in r.at
      && r.at[entries[i].id] == EdgeCell(Nearby(entries[i].at, rows, columns), s.occupied, rows, columns)
  {
    var upTo := entries[..i + 1];
    assert upTo[..i] == entries[..i] && upTo[i] == entries[i];
    SeatsStay(d, entries, rows, columns, i + 1, SeatClipped(d, upTo, rows, columns),
              SeatClipped(d, entries, rows, columns), entries[i].id);
  }

  lemma {:induction false} SeatClippedInjective(d: Seats, entries: seq<Entry>, rows: int, columns: int)
    requires rows >= 1 && columns >= 1 && Clipped(entries, rows, columns)
    requires d.occupied == d.at.Values && d.at.Keys !! EntryIds(entries)
    requires Injective(d.at) && |d.occupied| + |entries| <= rows * columns
    ensures Injective(SeatClipped(d, entries, rows, columns).at)
  {
    if entries != [] {
      var n := |entries| - 1;
      var e := entries[n];
      assert entries == entries[..n] + [e];
      assert EntryIds(entries) == EntryIds(entries[..n]) + {e.id};
      SeatClippedInjective(d, entries[..n], rows, columns);
      SeatClippedKeys(d, entries[..n], rows, columns);
      SeatClippedCells(d, entries[..n], rows, columns);
      var s := SeatClipped(d, entries[..n], rows, columns);
      SeatOnEdgeExact(s, e, rows, columns);
      NewSeat(s, e.id, SeatOnEdge(s, e, rows, columns).at[e.id]);
    }
  }

  lemma SortedEntries(positions: seq<Entry>)
    requires DistinctEntryIds(positions)
    ensures var ordered := Sort(positions, IdFirst);
      && |ordered| == |positions| && DistinctEntryIds(ordered) && EntryIds(ordered) == EntryIds(positions)
      && forall e :: e in ordered <==> e in positions
  {
    var ordered := Sort(positions, IdFirst);
    SortPermutes(positions, IdFirst);
    SortNoDup(positions, IdFirst);
    forall i, j | 0 <= i < j < |ordered| ensures ordered[i].id != ordered[j].id {
      assert ordered[i] in positions && ordered[j] in positions;
    }
  }

  lemma SameIdSameEntry(entries: seq<Entry>, e: Entry, f: Entry)
    requires DistinctEntryIds(entries) && e in entries && f in entries && e != f
    ensures e.id != f.id
  {
  }

  /** What the projection works with: the visible and the clipped entries, and where they start. */
  lemma Parts(positions: seq<Entry>, rows: int, columns: int)
    requires rows >= 1 && columns >= 1 && DistinctEntryIds(positions)
    ensures var ordered := Sort(positions, IdFirst);
      var inside, outside := Visible(ordered, rows, columns, true), Visible(ordered, rows, columns, false);
      && |inside| + |outside| == |positions|
      && DistinctEntryIds(inside) && Clipped(outside, rows, columns)
      && EntryIds(inside) !! EntryIds(outside) && EntryIds(inside) + EntryIds(outside) == EntryIds(positions)
      && (forall e :: e in inside <==> e in positions && InGrid(e.at, rows, columns))
      && (forall e :: e in outside <==> e in positions && !InGrid(e.at, rows, columns))
  {
    var ordered := Sort(positions, IdFirst);
    SortedEntries(positions);
    VisibleExact(ordered, rows, columns, true);
    VisibleExact(ordered, rows, columns, false);
    VisibleSplit(ordered, rows, columns);
    var inside, outside := Visible(ordered, rows, columns, true), Visible(ordered, rows, columns, false);
    forall id | id in EntryIds(inside) ensures id !in EntryIds(outside) {
      var e :| e in inside && e.id == id;
      forall f | f in outside ensures f.id != id {
        SameIdSameEntry(ordered, e, f);
      }
    }
  }

  lemma {:induction false} VisibleSorted(entries: seq<Entry>, rows: int, columns: int, inside: bool)
    requires Sorted(entries, IdFirst)
    ensures Sorted(Visible(entries, rows, columns, inside), IdFirst)
  {
    if entries != [] {
      var n := |entries| - 1;
      VisibleSorted(entries[..n], rows, columns, inside);
      VisibleExact(entries[..n], rows, columns, inside);
    }
  }

  /** The cells taken at the turn of the off-screen node `e`: those of the visible nodes, and those of
      the off-screen nodes with a smaller ID. */
  ghost function TakenAtTurn(positions: seq<Entry>, at: map<NodeId, Cell>, e: Entry, rows: int, columns: int): set<Cell>
    requires EntryIds(positions) <= at.Keys
  {
    set f | f in positions && (InGrid(f.at, rows, columns) || f.id < e.id) :: at[f.id]
  }

  lemma EarlierIds(outside: seq<Entry>, i: nat)
    requires Sorted(outside, IdFirst) && DistinctEntryIds(outside) && i < |outside|
    ensures forall f :: f in outside ==> (f in outside[..i] <==> f.id < outside[i].id)
  {
    forall f | f in outside ensures f in outside[..i] <==> f.id < outside[i].id {
      var j :| 0 <= j < |outside| && outside[j] == f;
      if j < i {
        assert outside[..i][j] == f;
      } else {
        assert IdFirst(outside[i], outside[j]);
      }
    }
  }

  /** The IDs seated before the turn of `outside[i]` are those `TakenAtTurn` speaks of. */
  lemma TurnIsById(positions: seq<Entry>, inside: seq<Entry>, outside: seq<Entry>, at: map<NodeId, Cell>, rows: int,
                   columns: int, i: nat)
    requires Sorted(outside, IdFirst) && DistinctEntryIds(outside) && i < |outside| && EntryIds(positions) <= at.Keys
    requires forall e :: e in inside <==> e in positions && InGrid(e.at, rows, columns)
    requires forall e :: e in outside <==> e in positions && !InGrid(e.at, rows, columns)
    ensures EntryIds(inside) + EntryIds(outside[..i]) <= at.Keys
    ensures CellsOf(at, EntryIds(inside) + EntryIds(outside[..i])) ==
      TakenAtTurn(positions, at, outside[i], rows, columns)
  {
    EarlierIds(outside, i);
    forall e | e in outside[..i] ensures e in outside && e in positions {
    }
    var taken := TakenAtTurn(positions, at, outside[i], rows, columns);
    forall id | id in EntryIds(inside) + EntryIds(outside[..i]) ensures id in at && at[id] in taken {
      var e :| (e in inside || e in outside[..i]) && e.id == id;
      assert e in positions;
    }
    forall f | f in positions && (InGrid(f.at, rows, columns) || f.id < outside[i].id)
      ensures f.id in EntryIds(inside) + EntryIds(outside[..i])
    {
      if !InGrid(f.at, rows, columns) {
        assert f in outside;
      }
    }
  }

  /** Seating the off-screen entries from any seats of the visible ones. */
  lemma SeatedOnNearestEdge(positions: seq<Entry>, inside: seq<Entry>, outside: seq<Entry>, d: Seats, rows: int,
                            columns: int, i: nat)
    requires rows >= 1 && columns >= 1 && Clipped(outside, rows, columns) && i < |outside|
    requires Sorted(outside, IdFirst)
    requires forall e :: e in inside <==> e in positions && InGrid(e.at, rows, columns)
    requires forall e :: e in outside <==> e in positions && !InGrid(e.at, rows, columns)
    requires d.at.Keys == EntryIds(inside) && d.occupied == d.at.Values && EntryIds(inside) !! EntryIds(outside)
    requires EntryIds(positions) <= SeatClipped(d, outside, rows, columns).at.Keys
    ensures var r, e := SeatClipped(d, outside, rows, columns), outside[i];
      e.id in r.at && NearestEdgeOrFull(Nearby(e.at, rows, columns), r.at[e.id],
                                        TakenAtTurn(positions, r.at, e, rows, columns), rows, columns)
  {
    SeatedAtTurn(d, outside, rows, columns, i);
    TakenSoFar(d, outside, rows, columns, i);
    var r := SeatClipped(d, outside, rows, columns);
    TurnIsById(positions, inside, outside, r.at, rows, columns, i);
    EdgeCellFillsTheEdge(outside[i], TakenAtTurn(positions, r.at, outside[i], rows, columns), rows, columns);
  }

  /** An off-screen node gets a nearest boundary cell that is free at its turn; it lies off the
      boundary only when at its turn the whole boundary is taken. */
  lemma ClippedGoToNearestEdge(positions: seq<Entry>, rowCount: int, columnCount: int, e: Entry)
    requires DistinctEntryIds(positions) && e in positions
    requires !InGrid(e.at, Max(1, rowCount), Max(1, columnCount))
    ensures var rows, columns := Max(1, rowCount), Max(1, columnCount);
      var p := Project(positions, rowCount, columnCount);
      && p.at.Keys == EntryIds(positions)
      && NearestEdgeOrFull(Nearby(e.at, rows, columns), p.at[e.id],
                           TakenAtTurn(positions, p.at, e, rows, columns), rows, columns)
  {
    var rows, columns := Max(1, rowCount), Max(1, columnCount);
    Parts(positions, rows, columns);
    var ordered := Sort(positions, IdFirst);
    SortSorted(positions, IdFirst);
    VisibleSorted(ordered, rows, columns, false);
    var inside, outside := Visible(ordered, rows, columns, true), Visible(ordered, rows, columns, false);
    SeatVisibleExact(inside);
    var d := SeatVisible(inside);
    SeatClippedKeys(d, outside, rows, columns);
    assert e in outside;
    var i :| 0 <= i < |outside| && outside[i] == e;
    SeatedOnNearestEdge(positions, inside, outside, d, rows, columns, i);
  }

  /** Visible nodes do not move; exactly the off-screen ones are edge nodes; everyone ends up on
      screen; an edge node gets a nearest boundary cell free at its turn, and misses the boundary only
      when all of it is taken by then. */
  lemma ProjectionKeepsVisible(positions: seq<Entry>, rowCount: int, columnCount: int)
    requires DistinctEntryIds(positions)
    ensures var rows, columns := Max(1, rowCount), Max(1, columnCount);
      var p := Project(positions, rowCount, columnCount);
      && p.at.Keys == EntryIds(positions) && p.edge <= EntryIds(positions)
      && (forall e :: e in positions ==>
            && (e.id in p.edge <==> !InGrid(e.at, rows, columns))
            && (InGrid(e.at, rows, columns) ==> p.at[e.id] == e.at)
            && InGrid(p.at[e.id], rows, columns)
            && (e.id in p.edge ==>
                  NearestEdgeOrFull(Nearby(e.at, rows, columns), p.at[e.id],
                                    TakenAtTurn(positions, p.at, e, rows, columns), rows, columns)))
  {
    var rows, columns := Max(1, rowCount), Max(1, columnCount);
    Parts(positions, rows, columns);
    var ordered := Sort(positions, IdFirst);
    var inside, outside := Visible(ordered, rows, columns, true), Visible(ordered, rows, columns, false);
    SeatVisibleExact(inside);
    SeatClippedExact(SeatVisible(inside), outside, rows, columns);
    var p := Project(positions, rowCount, columnCount);
    forall e | e in positions
      ensures e.id in EntryIds(outside) <==> !InGrid(e.at, rows, columns)
      ensures InGrid(e.at, rows, columns) ==> e in inside
      ensures e.id in p.edge ==>
                NearestEdgeOrFull(Nearby(e.at, rows, columns), p.at[e.id],
                                  TakenAtTurn(positions, p.at, e, rows, columns), rows, columns)
    {
      if InGrid(e.at, rows, columns) {
        assert e.id in EntryIds(inside);
      } else {
        assert e in outside;
        ClippedGoToNearestEdge(positions, rowCount, columnCount, e);
      }
    }
  }

  /** Distinct visible nodes and enough cells: nobody shares a cell after the projection. */
  lemma ProjectionIsInjective(positions: seq<Entry>, rowCount: int, columnCount: int)
    requires DistinctEntryIds(positions)
    requires var rows, columns := Max(1, rowCount), Max(1, columnCount);
      && |positions| <= rows * columns
      && forall e, f :: e in positions && f in positions && InGrid(e.at, rows, columns) && e.at == f.at ==> e == f
    ensures Injective(Project(positions, rowCount, columnCount).at)
  {
    var rows, columns := Max(1, rowCount), Max(1, columnCount);
    Parts(positions, rows, columns);
    var ordered := Sort(positions, IdFirst);
    var inside, outside := Visible(ordered, rows, columns, true), Visible(ordered, rows, columns, false);
    SeatVisibleExact(inside);
    var d := SeatVisible(inside);
    forall p, q | p in d.at && q in d.at && p != q ensures d.at[p] != d.at[q] {
      var e :| e in inside && e.id == p;
      var f :| f in inside && f.id == q;
    }
    SeatClippedInjective(d, outside, rows, columns);
  }

  lemma ProjectedStays(positions: seq<Entry>, rowCount: int, columnCount: int, again: seq<Entry>, e: Entry)
    requires DistinctEntryIds(positions) && DistinctEntryIds(again) && e in again
    requires var p := Project(positions, rowCount, columnCount); e.id in p.at && p.at[e.id] == e.at
    ensures var p, q := Project(positions, rowCount, columnCount), Project(again, rowCount, columnCount);
      e.id in q.at && q.at[e.id] == p.at[e.id] && e.id !in q.edge
  {
    ProjectionKeepsVisible(positions, rowCount, columnCount);
    var f :| f in positions && f.id == e.id;
    assert InGrid(e.at, Max(1, rowCount), Max(1, columnCount));
    ProjectionKeepsVisible(again, rowCount, columnCount);
  }

  /** Projecting an already projected board changes nothing and clips nobody. */
  lemma ProjectionIsIdempotent(positions: seq<Entry>, rowCount: int, columnCount: int, again: seq<Entry>)
    requires DistinctEntryIds(positions) && DistinctEntryIds(again)
    requires var p := Project(positions, rowCount, columnCount);
      EntryIds(again) == p.at.Keys && forall e :: e in again ==> p.at[e.id] == e.at
    ensures Project(again, rowCount, columnCount) == Projection(Project(positions, rowCount, columnCount).at, {})
  {
    var p, q := Project(positions, rowCount, columnCount), Project(again, rowCount, columnCount);
    forall e | e in again ensures e.id in q.at && q.at[e.id] == p.at[e.id] && e.id !in q.edge {
      ProjectedStays(positions, rowCount, columnCount, again, e);
    }
    KeysAndEdge(again, rowCount, columnCount);
    forall id | id in q.at ensures id in p.at && q.at[id] == p.at[id] && id !in q.edge {
      var e :| e in again && e.id == id;
    }
    assert q.at == p.at;
  }

  lemma KeysAndEdge(positions: seq<Entry>, rowCount: int, columnCount: int)
    requires DistinctEntryIds(positions)
    ensures var p := Project(positions, rowCount, columnCount);
      p.at.Keys == EntryIds(positions) && p.edge <= EntryIds(positions)
  {
    ProjectionKeepsVisible(positions, rowCount, columnCount);
  }

  /** The result does not depend on the order the positions are listed in. */
  lemma ProjectionForgetsOrder(positions: seq<Entry>, shuffled: seq<Entry>, rowCount: int, columnCount: int)
    requires DistinctEntryIds(positions) && multiset(positions) == multiset(shuffled)
    ensures Project(positions, rowCount, columnCount) == Project(shuffled, rowCount, columnCount)
  {
    SortForgetsOrder(positions, shuffled, IdFirst);
  }
}
